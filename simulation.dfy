/**
 * A simulation component as an object: its state variables are fields that
 * the handlers update in place, and the progress callbacks it receives are
 * the reducers of the application's `ProgressStore`.  `userProgress` is the
 * record the component was rendered with; the handlers read it as it was
 * then, not as their own callbacks leave it.  Each handler does what the
 * corresponding engine function describes.
 */
module Simulation {
  import opened Common
  import opened Progress
  import opened Engine
  import opened Targets
  import opened SessionProperties
  import opened RunProperties

  lemma ApplyAllSnoc(p: UserProgress, es: seq<Event>, e: Event)
    ensures ApplyAll(p, es + [e]) == Apply(ApplyAll(p, es), e)
  {
    ApplyAllConcat(p, es, [e]);
  }

  lemma ConcatAssoc(a: seq<Event>, b: seq<Event>, c: seq<Event>)
    ensures (a + b) + c == a + (b + c)
  {
  }

  lemma CompletionEventsShape(t: Track, up: UserProgress)
    ensures CompletionEvents(t, up) ==
            UnlockAbsent(t.completionBadges, up.badges) + CrossTrackEvents(t, up) + [Complete(t.simulationId)]
  {
  }

  lemma ApplyAllCons(p: UserProgress, e: Event, es: seq<Event>)
    ensures ApplyAll(p, [e] + es) == ApplyAll(Apply(p, e), es)
  {
    assert ([e] + es)[0] == e && ([e] + es)[1..] == es;
  }

  /** The callbacks of an accepted click, written as reward, bonus and completion parts. */
  lemma ClickCallbacksShape(t: Track, bonus: bool, last: bool, up: UserProgress)
    ensures ClickCallbacks(t, bonus, last, up) ==
            [Event.AddPoints(FlagReward)] +
            (if bonus then [Event.AddPoints(ExampleBonus)] + (if last then CompletionEvents(t, up) else [])
             else [])
  {
  }

  lemma {:induction false} UnlockAbsentSnoc(bs: seq<string>, b: string, held: seq<string>)
    ensures UnlockAbsent(bs + [b], held) ==
            UnlockAbsent(bs, held) + (if b in held then [] else [Unlock(b)])
    decreases |bs|
  {
    if bs == [] {
      assert bs + [b] == [b];
      assert [b][1..] == [];
    } else {
      assert (bs + [b])[0] == bs[0] && (bs + [b])[1..] == bs[1..] + [b];
      UnlockAbsentSnoc(bs[1..], b, held);
    }
  }

  lemma UnlockAbsentPrefix(bs: seq<string>, i: nat, held: seq<string>)
    requires i < |bs|
    ensures UnlockAbsent(bs[..i + 1], held) ==
            UnlockAbsent(bs[..i], held) + (if bs[i] in held then [] else [Unlock(bs[i])])
  {
    assert bs[..i + 1] == bs[..i] + [bs[i]];
    UnlockAbsentSnoc(bs[..i], bs[i], held);
  }

  class Simulation {
    const track: Track
    /** The application's progress state, which the callbacks update. */
    const app: ProgressStore
    var examples: seq<Example>
    var currentExample: nat
    var lastAction: Option<string>
    var simulationComplete: bool
    /** Every progress callback made so far, in order. */
    var calls: seq<Event>

    /** The component state as an engine session. */
    function State(): Session
      reads this
    {
      Session(examples, currentExample, lastAction, simulationComplete)
    }

    ghost predicate Valid()
      reads this
    {
      Inv(State())
    }

    /** Mounting: the first example is shown, nothing is undoable, nothing is complete. */
    constructor (t: Track, catalog: seq<Example>, store: ProgressStore)
      requires |catalog| > 0
      ensures Valid() && State() == Start(catalog) && calls == []
      ensures track == t && app == store
    {
      track := t;
      app := store;
      examples := catalog;
      currentExample := 0;
      lastAction := None;
      simulationComplete := false;
      calls := [];
    }

    /** One progress callback: recorded, and run by the application's reducer. */
    method Emit(e: Event)
      modifies this, app
      ensures State() == old(State())
      ensures calls == old(calls) + [e] && app.progress == Apply(old(app.progress), e)
    {
      calls := calls + [e];
      app.Dispatch(e);
    }

    /** `if (!userProgress.badges.includes(b)) onUnlockBadge(b)`. */
    method UnlockIfMissing(b: string, held: seq<string>)
      modifies this, app
      ensures State() == old(State())
      ensures var es := if b in held then [] else [Unlock(b)];
              calls == old(calls) + es && app.progress == ApplyAll(old(app.progress), es)
    {
      if b !in held {
        Emit(Unlock(b));
      } else {
        assert calls + [] == calls;
      }
    }

    /** That test for each completion badge of the track, in order. */
    method UnlockMissing(held: seq<string>)
      modifies this, app
      ensures State() == old(State())
      ensures var es := UnlockAbsent(track.completionBadges, held);
              calls == old(calls) + es && app.progress == ApplyAll(old(app.progress), es)
    {
      ghost var p0, c0 := app.progress, calls;
      var bs := track.completionBadges;
      var i := 0;
      while i < |bs|
        invariant 0 <= i <= |bs|
        invariant State() == old(State())
        invariant calls == c0 + UnlockAbsent(bs[..i], held)
        invariant app.progress == ApplyAll(p0, UnlockAbsent(bs[..i], held))
      {
        ghost var step := if bs[i] in held then [] else [Unlock(bs[i])];
        UnlockAbsentPrefix(bs, i, held);
        ApplyAllConcat(p0, UnlockAbsent(bs[..i], held), step);
        ConcatAssoc(c0, UnlockAbsent(bs[..i], held), step);
        UnlockIfMissing(bs[i], held);
        i := i + 1;
      }
      assert bs[..i] == bs;
    }

    /** The cross-track badge test, when the track has one. */
    method UnlockCrossTrack(userProgress: UserProgress)
      modifies this, app
      ensures State() == old(State())
      ensures var es := CrossTrackEvents(track, userProgress);
              calls == old(calls) + es && app.progress == ApplyAll(old(app.progress), es)
    {
      match track.crossTrack {
        case None =>
          assert calls + [] == calls;
        case Some(rule) =>
          if rule.otherSimulation in userProgress.completedSimulations && rule.badge !in userProgress.badges {
            Emit(Unlock(rule.badge));
          } else {
            assert calls + [] == calls;
          }
      }
    }

    /** The completion callbacks: badges, the cross-track badge, then the completion report. */
    method ReportCompletion(userProgress: UserProgress)
      modifies this, app
      ensures State() == old(State())
      ensures var es := CompletionEvents(track, userProgress);
              calls == old(calls) + es && app.progress == ApplyAll(old(app.progress), es)
    {
      ghost var p0, c0 := app.progress, calls;
      ghost var badges := UnlockAbsent(track.completionBadges, userProgress.badges);
      ghost var cross := CrossTrackEvents(track, userProgress);
      ghost var done := [Complete(track.simulationId)];
      CompletionEventsShape(track, userProgress);
      UnlockMissing(userProgress.badges);
      UnlockCrossTrack(userProgress);
      Emit(Complete(track.simulationId));
      ApplyAllConcat(p0, badges, cross);
      ApplyAllConcat(p0, badges + cross, done);
      ConcatAssoc(c0, badges, cross);
      ConcatAssoc(c0, badges + cross, done);
    }

    /** The example bonus, then on the last example the completion callbacks. */
    method AwardBonus(last: bool, userProgress: UserProgress)
      modifies this, app
      ensures State() == old(State())
      ensures var es := [Event.AddPoints(ExampleBonus)] + (if last then CompletionEvents(track, userProgress) else []);
              calls == old(calls) + es && app.progress == ApplyAll(old(app.progress), es)
    {
      ghost var p0, c0 := app.progress, calls;
      ghost var tail := if last then CompletionEvents(track, userProgress) else [];
      Emit(Event.AddPoints(ExampleBonus));
      ConcatAssoc(c0, [Event.AddPoints(ExampleBonus)], tail);
      if last {
        ReportCompletion(userProgress);
      } else {
        assert calls + [] == calls;
      }
      ApplyAllCons(p0, Event.AddPoints(ExampleBonus), tail);
    }

    /**
     * The callbacks of an accepted click: the flag reward, then the example
     * bonus if every flag is found, then on the last example the completion
     * callbacks.
     */
    method Award(bonus: bool, last: bool, userProgress: UserProgress)
      modifies this, app
      ensures State() == old(State())
      ensures var es := ClickCallbacks(track, bonus, last, userProgress);
              calls == old(calls) + es && app.progress == ApplyAll(old(app.progress), es)
    {
      ghost var p0, c0 := app.progress, calls;
      ghost var tail := if bonus then [Event.AddPoints(ExampleBonus)] +
                                      (if last then CompletionEvents(track, userProgress) else [])
                        else [];
      ClickCallbacksShape(track, bonus, last, userProgress);
      Emit(Event.AddPoints(FlagReward));
      ConcatAssoc(c0, [Event.AddPoints(FlagReward)], tail);
      if bonus {
        AwardBonus(last, userProgress);
      } else {
        assert calls + [] == calls;
      }
      ApplyAllCons(p0, Event.AddPoints(FlagReward), tail);
    }

    /** `handleRedFlagClick(flagId)`. */
    method HandleRedFlagClick(flagId: string, userProgress: UserProgress)
      requires Valid()
      modifies this, app
      ensures Valid()
      ensures var o := Click(track, old(State()), flagId, userProgress);
              && State() == o.state
              && calls == old(calls) + o.emitted
              && app.progress == ApplyAll(old(app.progress), o.emitted)
    {
      if simulationComplete {
        assert calls + [] == calls;
        return;
      }
      lastAction := Some(flagId);
      var ex := examples[currentExample];
      var updatedFlags := Mark(ex.redFlags, flagId, true);
      examples := examples[currentExample := ex.(redFlags := updatedFlags)];
      var bonus := Every(updatedFlags);
      var last := currentExample == |examples| - 1;
      if bonus && last {
        simulationComplete := true;
      }
      Award(bonus, last, userProgress);
    }

    /** `handleUndo`. */
    method HandleUndo()
      requires Valid()
      modifies this, app
      ensures Valid()
      ensures var o := Undo(old(State()));
              && State() == o.state
              && calls == old(calls) + o.emitted
              && app.progress == ApplyAll(old(app.progress), o.emitted)
    {
      if !Truthy(lastAction) {
        assert calls + [] == calls;
        return;
      }
      var ex := examples[currentExample];
      examples := examples[currentExample := ex.(redFlags := Mark(ex.redFlags, lastAction.value, false))];
      Emit(Event.AddPoints(-FlagReward));
      lastAction := None;
    }

    /** `nextExample`. */
    method NextExample()
      requires Valid()
      modifies this
      ensures Valid() && State() == Next(old(State())) && calls == old(calls)
    {
      if currentExample < |examples| - 1 {
        currentExample := currentExample + 1;
        lastAction := None;
      }
    }

    /** `prevExample`. */
    method PrevExample()
      requires Valid()
      modifies this
      ensures Valid() && State() == Prev(old(State())) && calls == old(calls)
    {
      if currentExample > 0 {
        currentExample := currentExample - 1;
        lastAction := None;
      }
    }

    /** The message body's click handler: clicks the picked flag when it is not found yet. */
    method HandleBodyClick(userProgress: UserProgress)
      requires Valid()
      modifies this, app
      ensures Valid()
      ensures var o := Perform(track, old(State()), userProgress, BodyClick);
              && State() == o.state
              && calls == old(calls) + o.emitted
              && app.progress == ApplyAll(old(app.progress), o.emitted)
    {
      var target := BodyTarget(track, examples[currentExample].redFlags);
      if target.Some? {
        HandleRedFlagClick(target.value, userProgress);
      } else {
        assert calls + [] == calls;
      }
    }

    /** One user action on the rendered controls; a control that is not rendered or is disabled does nothing. */
    method Act(a: UiAction, userProgress: UserProgress)
      requires Valid()
      modifies this, app
      ensures Valid()
      ensures var o := Perform(track, old(State()), userProgress, a);
              && State() == o.state
              && calls == old(calls) + o.emitted
              && app.progress == ApplyAll(old(app.progress), o.emitted)
    {
      if !Enabled(track, State(), a) {
        assert calls + [] == calls;
        return;
      }
      match a
      case Press(id) => HandleRedFlagClick(id, userProgress);
      case BodyClick => HandleBodyClick(userProgress);
      case UndoButton => HandleUndo();
      case NextButton =>
        NextExample();
        assert old(calls) + [] == old(calls);
      case PrevButton =>
        PrevExample();
        assert old(calls) + [] == old(calls);
    }

    /**
     * The user plays a list of actions on the page, which is re-rendered
     * after each one: every handler reads the record the previous callbacks
     * left.  The object then ends where `Run` says, so the run properties
     * carry over: no badge is held twice and the points never go negative.
     */
    method Play(actions: seq<UiAction>)
      requires Valid()
      modifies this, app
      ensures Valid()
      ensures var r := Run(track, old(State()), old(app.progress), actions);
              && State() == r.session
              && app.progress == r.progress
              && calls == old(calls) + r.emitted
      ensures WellFormed(track) && NoDup(old(app.progress).badges) ==> NoDup(app.progress.badges)
      ensures PointsCover(old(app.progress).points, old(State())) ==> app.progress.points >= 0
    {
      ghost var s0, p0, c0 := State(), app.progress, calls;
      ghost var r0 := Run(track, s0, p0, actions);
      var i := 0;
      while i < |actions|
        invariant 0 <= i <= |actions|
        invariant Valid()
        invariant var r := Run(track, State(), app.progress, actions[i..]);
                  r.session == r0.session && r.progress == r0.progress && c0 + r0.emitted == calls + r.emitted
      {
        ghost var s, p, c := State(), app.progress, calls;
        ghost var o := Perform(track, s, p, actions[i]);
        ghost var rest := Run(track, o.state, ApplyAll(p, o.emitted), actions[i + 1..]);
        assert actions[i..][0] == actions[i] && actions[i..][1..] == actions[i + 1..];
        assert Run(track, s, p, actions[i..]) == Trace(rest.session, rest.progress, o.emitted + rest.emitted);
        Act(actions[i], app.progress);
        ConcatAssoc(c, o.emitted, rest.emitted);
        i := i + 1;
      }
      assert actions[i..] == [];
      assert calls + [] == calls;
      if WellFormed(track) && NoDup(p0.badges) {
        RunKeepsBadgesUnique(track, s0, p0, actions);
      }
      if PointsCover(p0.points, s0) {
        RunKeepsPointsNonNegative(track, s0, p0, actions);
      }
    }
  }
}
