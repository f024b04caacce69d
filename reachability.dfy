/**
 * When can a simulation be finished at all?  A flag can only be found through
 * a click target: the sender button, a keyword button, or the message body.
 * If every flag of every example still ahead has a target, some list of user
 * actions completes the simulation and reports the completion.
 */
module Reachability {
  import opened Common
  import opened Progress
  import opened Engine
  import opened Text
  import opened Targets
  import opened SessionProperties

  /**
   * Flag `j` has a click target (this depends on the flag ids only): the
   * sender button, a keyword button, or the body, which for `FirstMatch`
   * reaches only the first flag with a body keyword.
   */
  predicate Reachable(t: Track, fs: seq<Flag>, j: int)
    requires 0 <= j < |fs|
  {
    || fs[j].id == t.senderFlag
    || ContainsAny(fs[j].id, t.linkKeywords + t.offerKeywords)
    || (ContainsAny(fs[j].id, t.bodyKeywords) &&
        (t.bodyPick == FirstUnfoundMatch ||
         forall k :: 0 <= k < j ==> !ContainsAny(fs[k].id, t.bodyKeywords)))
  }

  /** Every flag of the examples from the shown one on has a click target. */
  predicate AheadReachable(t: Track, s: Session)
    requires Inv(s)
  {
    forall e, j :: s.currentExample <= e < |s.examples| && 0 <= j < |s.examples[e].redFlags| ==>
      Reachable(t, s.examples[e].redFlags, j)
  }

  /** Two flag lists with the same ids in the same order. */
  predicate SameIds(a: seq<Flag>, b: seq<Flag>) {
    |a| == |b| && forall i :: 0 <= i < |a| ==> a[i].id == b[i].id
  }

  lemma ReachableByIds(t: Track, a: seq<Flag>, b: seq<Flag>, j: int)
    requires SameIds(a, b) && 0 <= j < |a|
    ensures Reachable(t, a, j) == Reachable(t, b, j)
  {
  }

  /** Marking found the flags with an id that an unfound flag carries raises the count. */
  lemma {:induction false} MarkFindsMore(fs: seq<Flag>, j: nat)
    requires j < |fs| && !fs[j].found
    ensures FlagsFound(Mark(fs, fs[j].id, true)) > FlagsFound(fs)
    decreases |fs|
  {
    var r := Mark(fs, fs[j].id, true);
    assert r[1..] == Mark(fs[1..], fs[j].id, true);
    if j == 0 {
      assert r[0].found;
      MarkMonotone(fs[1..], fs[0].id);
    } else {
      assert fs[1..][j - 1] == fs[j];
      MarkFindsMore(fs[1..], j - 1);
      assert r[0].found || !fs[0].found;
    }
  }

  /** Clicking an unfound flag stays on the example, keeps the ids and finds at least one more flag. */
  lemma ClickFinds(t: Track, s: Session, up: UserProgress, i: int)
    requires Inv(s) && !s.simulationComplete
    requires 0 <= i < |Current(s).redFlags| && !Current(s).redFlags[i].found
    ensures var o := Click(t, s, Current(s).redFlags[i].id, up);
            && o.state.currentExample == s.currentExample
            && |o.state.examples| == |s.examples|
            && (forall e :: 0 <= e < |s.examples| && e != s.currentExample ==>
                  o.state.examples[e] == s.examples[e])
            && SameIds(Current(o.state).redFlags, Current(s).redFlags)
            && FlagsFound(Current(o.state).redFlags) > FlagsFound(Current(s).redFlags)
            && (o.state.simulationComplete ==> Complete(t.simulationId) in o.emitted)
  {
    var fs := Current(s).redFlags;
    MarkFindsMore(fs, i);
    var o := Click(t, s, fs[i].id, up);
    if o.state.simulationComplete {
      var c := CompletionEvents(t, up);
      assert o.emitted[2..] == c;
      assert o.emitted[2 + |c| - 1] == c[|c| - 1];
    }
  }

  /**
   * For an unfound flag with a click target, an enabled press or body click
   * that clicks some unfound flag of the example.
   */
  lemma TargetFor(t: Track, s: Session, up: UserProgress, j: int) returns (a: UiAction, i: int)
    requires Inv(s) && !s.simulationComplete
    requires 0 <= j < |Current(s).redFlags| && !Current(s).redFlags[j].found
    requires Reachable(t, Current(s).redFlags, j)
    ensures Enabled(t, s, a) && (a.Press? || a.BodyClick?)
    ensures 0 <= i < |Current(s).redFlags| && !Current(s).redFlags[i].found
    ensures Perform(t, s, up, a) == Click(t, s, Current(s).redFlags[i].id, up)
  {
    var fs := Current(s).redFlags;
    if fs[j].id == t.senderFlag {
      a, i := Press(t.senderFlag), j;
    } else if ContainsAny(fs[j].id, t.linkKeywords + t.offerKeywords) {
      a, i := Press(fs[j].id), j;
      assert fs[j].id in ButtonIds(t, fs);
    } else {
      a := BodyClick;
      if t.bodyPick == FirstMatch {
        var f := FindFrom(fs, t.bodyKeywords, false, 0);
        assert Candidate(fs[j], t.bodyKeywords, false);
        assert f == Some(j);
      } else {
        assert exists k :: 0 <= k < |fs| && !fs[k].found && ContainsAny(fs[k].id, t.bodyKeywords);
      }
      var id := BodyTarget(t, fs).value;
      i :| 0 <= i < |fs| && fs[i].id == id && !fs[i].found;
    }
  }

  /** On the last example with every flag found, pressing the sender button completes the simulation. */
  lemma FinishingPress(t: Track, s: Session, up: UserProgress)
    requires Inv(s) && !s.simulationComplete
    requires s.currentExample == |s.examples| - 1 && Every(Current(s).redFlags)
    ensures Enabled(t, s, Press(t.senderFlag))
    ensures var o := Perform(t, s, up, Press(t.senderFlag));
            o.state.simulationComplete && Complete(t.simulationId) in o.emitted
  {
    var fs := Current(s).redFlags;
    assert t.senderFlag in ButtonIds(t, fs);
    var o := Click(t, s, t.senderFlag, up);
    assert Every(Current(o.state).redFlags);
    var c := CompletionEvents(t, up);
    assert o.emitted[2..] == c;
    assert o.emitted[2 + |c| - 1] == c[|c| - 1];
  }

  /**
   * One enabled action that either completes the simulation, reporting it,
   * or makes progress: it moves to the next example or finds one more flag,
   * and every flag ahead still has a click target.
   */
  lemma Advance(t: Track, s: Session, up: UserProgress) returns (a: UiAction)
    requires Inv(s) && !s.simulationComplete && AheadReachable(t, s)
    ensures Enabled(t, s, a)
    ensures var o := Perform(t, s, up, a);
            if o.state.simulationComplete then Complete(t.simulationId) in o.emitted
            else
              && AheadReachable(t, o.state)
              && |o.state.examples| == |s.examples|
              && (|| o.state.currentExample > s.currentExample
                  || (&& o.state.currentExample == s.currentExample
                      && |Current(o.state).redFlags| == |Current(s).redFlags|
                      && FlagsFound(Current(o.state).redFlags) > FlagsFound(Current(s).redFlags)))
  {
    var fs := Current(s).redFlags;
    if !Every(fs) {
      var j :| 0 <= j < |fs| && !fs[j].found;
      var i;
      a, i := TargetFor(t, s, up, j);
      ClickFinds(t, s, up, i);
      var o := Perform(t, s, up, a);
      if !o.state.simulationComplete {
        forall e, k | o.state.currentExample <= e < |o.state.examples| &&
                      0 <= k < |o.state.examples[e].redFlags|
          ensures Reachable(t, o.state.examples[e].redFlags, k)
        {
          if e == s.currentExample {
            ReachableByIds(t, o.state.examples[e].redFlags, fs, k);
          }
        }
      }
    } else if s.currentExample < |s.examples| - 1 {
      a := NextButton;
    } else {
      a := Press(t.senderFlag);
      FinishingPress(t, s, up);
    }
  }

  /** `Run` on a non-empty action list: the first action, then the rest. */
  lemma RunCons(t: Track, s: Session, up: UserProgress, a: UiAction, rest: seq<UiAction>)
    requires Inv(s)
    ensures var o := Perform(t, s, up, a);
            var r := Run(t, o.state, ApplyAll(up, o.emitted), rest);
            Run(t, s, up, [a] + rest) == Trace(r.session, r.progress, o.emitted + r.emitted)
  {
    assert ([a] + rest)[0] == a && ([a] + rest)[1..] == rest;
  }

  /**
   * When every flag ahead has a click target, some list of user actions
   * completes the simulation: on each example click an unfound flag until
   * every flag is found, then press Next; on the last example, a click that
   * leaves every flag found completes it.  The run reports the completion.
   */
  lemma {:induction false} CompletingActions(t: Track, s: Session, up: UserProgress)
      returns (actions: seq<UiAction>)
    requires Inv(s) && !s.simulationComplete && AheadReachable(t, s)
    ensures var r := Run(t, s, up, actions);
            r.session.simulationComplete && Complete(t.simulationId) in r.emitted
    decreases |s.examples| - s.currentExample, |Current(s).redFlags| - FlagsFound(Current(s).redFlags)
  {
    var a := Advance(t, s, up);
    var o := Perform(t, s, up, a);
    if o.state.simulationComplete {
      actions := [a];
      RunCons(t, s, up, a, []);
      assert o.emitted + [] == o.emitted;
    } else {
      var rest := CompletingActions(t, o.state, ApplyAll(up, o.emitted));
      actions := [a] + rest;
      RunCons(t, s, up, a, rest);
    }
  }
}
