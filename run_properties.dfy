/**
 * What holds over any sequence of user actions, with the progress record
 * receiving every callback: points never go negative, and no badge is held
 * twice.  Also: the body's click never re-awards a flag.
 */
module RunProperties {
  import opened Common
  import opened Progress
  import opened Engine
  import opened SessionProperties
  import opened Targets

  lemma PerformKeepsCover(t: Track, s: Session, up: UserProgress, a: UiAction)
    requires Inv(s) && PointsCover(up.points, s)
    ensures var o := Perform(t, s, up, a);
            PointsCover(ApplyAll(up, o.emitted).points, o.state)
  {
    var o := Perform(t, s, up, a);
    ApplyAllEffect(up, o.emitted);
    if Enabled(t, s, a) {
      match a
      case Press(id) => ClickKeepsCover(t, s, id, up, up.points);
      case BodyClick => {
        match BodyTarget(t, Current(s).redFlags)
        case None =>
        case Some(id) => ClickKeepsCover(t, s, id, up, up.points);
      }
      case UndoButton => UndoKeepsCover(s, up.points);
      case NextButton =>
      case PrevButton =>
    }
  }

  /**
   * From a record whose points cover the session's undo slot (true at mount
   * for any non-negative total), every reachable record does too; in
   * particular the points total is never negative.
   */
  lemma {:induction false} RunKeepsPointsNonNegative(
    t: Track, s: Session, up: UserProgress, actions: seq<UiAction>)
    requires Inv(s) && PointsCover(up.points, s)
    ensures var r := Run(t, s, up, actions);
            PointsCover(r.progress.points, r.session) && r.progress.points >= 0
    decreases |actions|
  {
    if actions != [] {
      var o := Perform(t, s, up, actions[0]);
      PerformKeepsCover(t, s, up, actions[0]);
      RunKeepsPointsNonNegative(t, o.state, ApplyAll(up, o.emitted), actions[1..]);
    }
  }

  lemma PerformKeepsBadgesUnique(t: Track, s: Session, up: UserProgress, a: UiAction)
    requires Inv(s) && WellFormed(t) && NoDup(up.badges)
    ensures NoDup(ApplyAll(up, Perform(t, s, up, a).emitted).badges)
  {
    var o := Perform(t, s, up, a);
    ApplyAllEffect(up, o.emitted);
    if Enabled(t, s, a) {
      match a
      case Press(id) => ClickKeepsBadgesUnique(t, s, id, up);
      case BodyClick => {
        match BodyTarget(t, Current(s).redFlags)
        case None =>
          assert up.badges + [] == up.badges;
        case Some(id) => ClickKeepsBadgesUnique(t, s, id, up);
      }
      case UndoButton =>
        NoBadgesWithoutUnlock(o.emitted);
        assert up.badges + [] == up.badges;
      case NextButton =>
        assert up.badges + [] == up.badges;
      case PrevButton =>
        assert up.badges + [] == up.badges;
    } else {
      assert up.badges + [] == up.badges;
    }
  }

  /** However the user plays a well-formed track, the badge list never holds a badge twice. */
  lemma {:induction false} RunKeepsBadgesUnique(
    t: Track, s: Session, up: UserProgress, actions: seq<UiAction>)
    requires Inv(s) && WellFormed(t) && NoDup(up.badges)
    ensures NoDup(Run(t, s, up, actions).progress.badges)
    decreases |actions|
  {
    if actions != [] {
      var o := Perform(t, s, up, actions[0]);
      PerformKeepsBadgesUnique(t, s, up, actions[0]);
      RunKeepsBadgesUnique(t, o.state, ApplyAll(up, o.emitted), actions[1..]);
    }
  }

  /**
   * The body's click either does nothing or clicks a flag that was not found:
   * with distinct ids it raises the count by exactly one, so it never pays for
   * a flag twice.
   */
  lemma BodyClickDiscovers(t: Track, s: Session, up: UserProgress)
    requires Inv(s) && !s.simulationComplete && UniqueIds(Current(s).redFlags)
    ensures var o := Perform(t, s, up, BodyClick);
            o == Outcome(s, []) ||
            (Inv(o.state) && o.state.currentExample == s.currentExample &&
             FlagsFound(Current(o.state).redFlags) == FlagsFound(Current(s).redFlags) + 1)
  {
    var fs := Current(s).redFlags;
    match BodyTarget(t, fs)
    case None =>
    case Some(id) =>
      var j :| 0 <= j < |fs| && fs[j].id == id && !fs[j].found;
      MarkUnfoundCountsOne(fs, j);
  }

  /** `n` presses of the same control. */
  function Presses(a: UiAction, n: nat): (r: seq<UiAction>)
    ensures |r| == n && forall i :: 0 <= i < n ==> r[i] == a
  {
    if n == 0 then [] else [a] + Presses(a, n - 1)
  }

  /** One press of the sender button where no flag has its id: the reward, the undo slot set, no flag changed. */
  lemma SenderPressOnce(t: Track, s: Session, up: UserProgress)
    requires Inv(s) && !s.simulationComplete && !Every(Current(s).redFlags)
    requires forall i :: 0 <= i < |Current(s).redFlags| ==> Current(s).redFlags[i].id != t.senderFlag
    ensures Perform(t, s, up, Press(t.senderFlag)) ==
            Outcome(s.(lastAction := Some(t.senderFlag)), [AddPoints(FlagReward)])
  {
    var fs := Current(s).redFlags;
    assert Enabled(t, s, Press(t.senderFlag));
    assert Mark(fs, t.senderFlag, true) == fs by {
      assert forall i :: 0 <= i < |fs| ==> Mark(fs, t.senderFlag, true)[i] == fs[i];
    }
    assert s.examples[s.currentExample := Current(s).(redFlags := fs)] == s.examples;
  }

  /**
   * On an example none of whose flags has the sender id, and whose flags are
   * not all found, the sender button is always rendered and each press pays
   * the flag reward and finds nothing: `n` presses add `n` rewards.
   */
  lemma {:induction false} SenderPressesPay(t: Track, s: Session, up: UserProgress, n: nat)
    requires Inv(s) && !s.simulationComplete && !Every(Current(s).redFlags)
    requires forall i :: 0 <= i < |Current(s).redFlags| ==> Current(s).redFlags[i].id != t.senderFlag
    ensures var r := Run(t, s, up, Presses(Press(t.senderFlag), n));
            && r.session.examples == s.examples
            && r.session.currentExample == s.currentExample
            && r.progress.points == up.points + n * FlagReward
    decreases n
  {
    if n > 0 {
      var a := Press(t.senderFlag);
      SenderPressOnce(t, s, up);
      var s1 := s.(lastAction := Some(t.senderFlag));
      var up1 := ApplyAll(up, [AddPoints(FlagReward)]);
      var e := AddPoints(FlagReward);
      assert [e][0] == e && [e][1..] == [];
      assert ApplyAll(Apply(up, e), []) == Apply(up, e);
      assert up1 == Apply(up, e);
      var rest := Presses(a, n - 1);
      assert Presses(a, n) == [a] + rest;
      assert ([a] + rest)[0] == a && ([a] + rest)[1..] == rest;
      SenderPressesPay(t, s1, up1, n - 1);
      assert Run(t, s, up, [a] + rest).progress == Run(t, s1, up1, rest).progress;
    }
  }
}
