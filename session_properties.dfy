/**
 * Properties of the discovery state machine that relate several handler
 * calls, or a handler and the progress record the callbacks update.
 */
module SessionProperties {
  import opened Common
  import opened Progress
  import opened Engine

  /** Marking and then clearing a flag that was not found gives back the flags. */
  lemma MarkRoundTrip(fs: seq<Flag>, id: string)
    requires Unfound(fs, id)
    ensures Mark(Mark(fs, id, true), id, false) == fs
  {
    var r := Mark(Mark(fs, id, true), id, false);
    assert |r| == |fs|;
    forall i | 0 <= i < |fs| ensures r[i] == fs[i] {
      assert r[i].id == fs[i].id && r[i].found == fs[i].found;
    }
  }

  /** Marking a flag that is found already changes nothing. */
  lemma MarkFoundIsNoop(fs: seq<Flag>, id: string)
    requires forall i :: 0 <= i < |fs| && fs[i].id == id ==> fs[i].found
    ensures Mark(fs, id, true) == fs
  {
    var r := Mark(fs, id, true);
    forall i | 0 <= i < |fs| ensures r[i] == fs[i] {
      assert r[i].id == fs[i].id && r[i].found == fs[i].found;
    }
  }

  /**
   * Undo straight after a click on a flag that was not found restores the
   * examples; the points move by the bonus only, which is 0 unless the click
   * completed the example.  The completion flag is whatever the click left.
   */
  lemma ClickThenUndo(t: Track, s: Session, flagId: string, up: UserProgress)
    requires Inv(s) && !s.simulationComplete && flagId != ""
    requires Unfound(Current(s).redFlags, flagId)
    ensures var o1 := Click(t, s, flagId, up);
            var o2 := Undo(o1.state);
            && o2.state.examples == s.examples
            && o2.state.currentExample == s.currentExample
            && o2.state.lastAction == None
            && o2.state.simulationComplete == o1.state.simulationComplete
            && PointsOf(o1.emitted + o2.emitted) ==
                 if Every(Current(o1.state).redFlags) then ExampleBonus else 0
  {
    var o1 := Click(t, s, flagId, up);
    var o2 := Undo(o1.state);
    var fs := Current(s).redFlags;
    MarkRoundTrip(fs, flagId);
    var k := s.currentExample;
    assert Current(o2.state).redFlags == fs;
    assert o2.state.examples[k] == s.examples[k];
    assert o2.state.examples == s.examples;
    PointsOfAppend(o1.emitted, o2.emitted);
    ClickPoints(t, Every(Current(o1.state).redFlags), k == |s.examples| - 1, up);
  }

  /** A click that is not ignored is worth the flag reward, plus the example bonus when it completes the example. */
  lemma ClickPoints(t: Track, bonus: bool, last: bool, up: UserProgress)
    ensures PointsOf(ClickCallbacks(t, bonus, last, up)) ==
      FlagReward + (if bonus then ExampleBonus else 0)
  {
    var r := ClickCallbacks(t, bonus, last, up);
    if bonus {
      assert r == [r[0], r[1]] + r[2..];
      PointsOfAppend([r[0], r[1]], r[2..]);
      if last {
        CompletionCarriesNoPoints(t, up);
      } else {
        assert r[2..] == [];
      }
    } else {
      assert r == [AddPoints(FlagReward)];
    }
  }

  /** The completion callbacks carry no points. */
  lemma CompletionCarriesNoPoints(t: Track, up: UserProgress)
    ensures PointsOf(CompletionEvents(t, up)) == 0
  {
    var r := CompletionEvents(t, up);
    NoPointsWithoutAddPoints(r);
  }

  lemma {:induction false} NoPointsWithoutAddPoints(es: seq<Event>)
    requires forall e :: e in es ==> !e.AddPoints?
    ensures PointsOf(es) == 0
    decreases |es|
  {
    if es != [] {
      assert es[0] in es;
      assert forall e :: e in es[1..] ==> e in es;
      NoPointsWithoutAddPoints(es[1..]);
    }
  }

  /**
   * As written, clicking a flag that is already found on an example whose
   * flags are all found (not the last one) awards the flag reward and the
   * example bonus again and changes no flag.
   */
  lemma RepeatClickRewardsAgain(t: Track, s: Session, flagId: string, up: UserProgress)
    requires Inv(s) && !s.simulationComplete
    requires s.currentExample < |s.examples| - 1
    requires Every(Current(s).redFlags)
    ensures var o := Click(t, s, flagId, up);
            o.state.examples == s.examples &&
            o.emitted == [AddPoints(FlagReward), AddPoints(ExampleBonus)] &&
            o.state.lastAction == Some(flagId)
  {
    var o := Click(t, s, flagId, up);
    MarkFoundIsNoop(Current(s).redFlags, flagId);
    assert o.state.examples[s.currentExample] == s.examples[s.currentExample];
    assert o.state.examples == s.examples;
    assert o.emitted == [o.emitted[0]] + o.emitted[1..];
    assert o.emitted[1..] == [o.emitted[1]] + o.emitted[2..];
  }

  /** With distinct ids, marking a flag that was not found raises the count by exactly one. */
  lemma {:induction false} MarkUnfoundCountsOne(fs: seq<Flag>, j: nat)
    requires UniqueIds(fs) && j < |fs| && !fs[j].found
    ensures FlagsFound(Mark(fs, fs[j].id, true)) == FlagsFound(fs) + 1
    decreases |fs|
  {
    var id := fs[j].id;
    var r := Mark(fs, id, true);
    assert r == [r[0]] + r[1..];
    assert r[1..] == Mark(fs[1..], id, true);
    if j == 0 {
      MarkOtherIdsKeepCount(fs[1..], id);
    } else {
      assert fs[0].id != id;
      assert fs[1..][j - 1] == fs[j];
      MarkUnfoundCountsOne(fs[1..], j - 1);
    }
  }

  /** Marking an id that no flag has keeps the count. */
  lemma {:induction false} MarkOtherIdsKeepCount(fs: seq<Flag>, id: string)
    requires forall i :: 0 <= i < |fs| ==> fs[i].id != id
    ensures FlagsFound(Mark(fs, id, true)) == FlagsFound(fs)
    decreases |fs|
  {
    if fs != [] {
      var r := Mark(fs, id, true);
      assert r[1..] == Mark(fs[1..], id, true);
      MarkOtherIdsKeepCount(fs[1..], id);
    }
  }

  /** Marking never lowers the count and clearing never raises it. */
  lemma {:induction false} MarkMonotone(fs: seq<Flag>, id: string)
    ensures FlagsFound(Mark(fs, id, true)) >= FlagsFound(fs)
    ensures FlagsFound(Mark(fs, id, false)) <= FlagsFound(fs)
    decreases |fs|
  {
    if fs != [] {
      assert Mark(fs, id, true)[1..] == Mark(fs[1..], id, true);
      assert Mark(fs, id, false)[1..] == Mark(fs[1..], id, false);
      MarkMonotone(fs[1..], id);
    }
  }

  /**
   * The points floor a session guarantees: while the undo slot is set, the
   * reward it takes back has been awarded.  It holds at mount (points are
   * never negative, the slot is empty) and every handler keeps it, so the
   * total never goes negative.
   */
  predicate PointsCover(points: int, s: Session) {
    points >= (if Truthy(s.lastAction) then FlagReward else 0)
  }

  lemma StartCovers(catalog: seq<Example>, points: int)
    requires |catalog| > 0 && points >= 0
    ensures PointsCover(points, Start(catalog))
  {
  }

  lemma ClickKeepsCover(t: Track, s: Session, flagId: string, up: UserProgress, points: int)
    requires Inv(s) && PointsCover(points, s)
    ensures var o := Click(t, s, flagId, up);
            PointsCover(points + PointsOf(o.emitted), o.state)
  {
    var o := Click(t, s, flagId, up);
    if !s.simulationComplete {
      assert o.emitted == [o.emitted[0]] + o.emitted[1..];
      PointsOfAppend([o.emitted[0]], o.emitted[1..]);
      if |o.emitted| >= 2 {
        assert o.emitted[1..] == [o.emitted[1]] + o.emitted[2..];
        PointsOfAppend([o.emitted[1]], o.emitted[2..]);
        if o.state.simulationComplete {
          CompletionCarriesNoPoints(t, up);
        } else {
          assert o.emitted[2..] == [];
        }
      } else {
        assert o.emitted[1..] == [];
      }
    }
  }

  lemma UndoKeepsCover(s: Session, points: int)
    requires Inv(s) && PointsCover(points, s)
    ensures PointsCover(points + PointsOf(Undo(s).emitted), Undo(s).state)
    ensures points + PointsOf(Undo(s).emitted) >= 0
  {
  }

  lemma NavigationKeepsCover(s: Session, points: int)
    requires Inv(s) && PointsCover(points, s)
    ensures PointsCover(points, Next(s)) && PointsCover(points, Prev(s))
  {
  }

  /**
   * A click never grants a badge the snapshot already holds and never grants
   * one twice: if the badge list had no duplicates, it has none after the
   * click's callbacks are applied to that snapshot.
   */
  lemma ClickKeepsBadgesUnique(t: Track, s: Session, flagId: string, up: UserProgress)
    requires Inv(s) && WellFormed(t) && NoDup(up.badges)
    ensures NoDup(ApplyAll(up, Click(t, s, flagId, up).emitted).badges)
  {
    var o := Click(t, s, flagId, up);
    ApplyAllEffect(up, o.emitted);
    var rewards := RewardEvents(t, s, flagId, up);
    NoBadgesWithoutUnlock(rewards);
    if o.state.simulationComplete && !s.simulationComplete {
      var c := CompletionEvents(t, up);
      assert o.emitted == rewards + c;
      BadgesOfAppend(rewards, c);
      UnlockedBadgesFresh(c, up.badges);
      assert BadgesOf(o.emitted) == BadgesOf(c);
      assert ApplyAll(up, o.emitted).badges == up.badges + BadgesOf(c);
    } else {
      assert o.emitted == rewards;
      assert ApplyAll(up, o.emitted).badges == up.badges + [];
      assert up.badges + [] == up.badges;
    }
  }

  /** The point callbacks at the head of a click's callbacks, before any completion callbacks. */
  function RewardEvents(t: Track, s: Session, flagId: string, up: UserProgress): (r: seq<Event>)
    requires Inv(s)
    ensures forall e :: e in r ==> e.AddPoints?
    ensures var o := Click(t, s, flagId, up);
            o.emitted == r + (if o.state.simulationComplete && !s.simulationComplete
                             then CompletionEvents(t, up) else [])
  {
    var o := Click(t, s, flagId, up);
    if s.simulationComplete then []
    else if |o.emitted| >= 2 then
      assert o.emitted == o.emitted[..2] + o.emitted[2..];
      [AddPoints(FlagReward), AddPoints(ExampleBonus)]
    else [AddPoints(FlagReward)]
  }

  lemma {:induction false} NoBadgesWithoutUnlock(es: seq<Event>)
    requires forall e :: e in es ==> !e.Unlock?
    ensures BadgesOf(es) == []
    decreases |es|
  {
    if es != [] {
      assert es[0] in es;
      assert forall e :: e in es[1..] ==> e in es;
      NoBadgesWithoutUnlock(es[1..]);
    }
  }

  lemma {:induction false} NoCompletionsWithoutComplete(es: seq<Event>)
    requires forall e :: e in es ==> !e.Complete?
    ensures CompletionsOf(es) == []
    decreases |es|
  {
    if es != [] {
      assert es[0] in es;
      assert forall e :: e in es[1..] ==> e in es;
      NoCompletionsWithoutComplete(es[1..]);
    }
  }

  /**
   * The badges a list of distinct callbacks unlocks are distinct, and if none
   * of them is in `held` then appending them to `held` keeps it free of duplicates.
   */
  lemma {:induction false} UnlockedBadgesFresh(es: seq<Event>, held: seq<string>)
    requires NoDup(es) && NoDup(held)
    requires forall e :: e in es && e.Unlock? ==> e.badge !in held
    ensures NoDup(held + BadgesOf(es))
    decreases |es|
  {
    if es != [] {
      var rest := es[1..];
      assert forall e :: e in rest ==> e in es;
      assert NoDup(rest);
      if es[0].Unlock? {
        var b := es[0].badge;
        assert es[0] in es;
        assert b !in held;
        assert Unlock(b) !in rest;
        BadgeOfMember(rest, b);
        UnlockedBadgesFresh(rest, held + [b]);
        assert held + BadgesOf(es) == (held + [b]) + BadgesOf(rest);
      } else {
        UnlockedBadgesFresh(rest, held);
        assert BadgesOf(es) == BadgesOf(rest);
      }
    }
  }

  /** A badge appears in `BadgesOf(es)` only if an `Unlock` of it is in `es`. */
  lemma {:induction false} BadgeOfMember(es: seq<Event>, b: string)
    requires Unlock(b) !in es
    ensures b !in BadgesOf(es)
    decreases |es|
  {
    if es != [] {
      assert forall e :: e in es[1..] ==> e in es;
      BadgeOfMember(es[1..], b);
    }
  }
}
