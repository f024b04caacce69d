/** Option over the values the simulations keep (the last clicked flag, a picked flag), and a duplicate test. */
module Common {
  datatype Option<+T> = None | Some(value: T)

  /** No element occurs twice. */
  predicate NoDup<T(==)>(s: seq<T>) {
    forall i, j :: 0 <= i < j < |s| ==> s[i] != s[j]
  }
}

/**
 * The application-wide progress record and the three reducers that the
 * simulations call back into (`addPoints`, `unlockBadge`,
 * `completeSimulation`).  Each callback a simulation makes is recorded as an
 * `Event`; `Apply` is what the reducer does with it.
 */
module Progress {
  import opened Common

  datatype UserProgress = UserProgress(
    points: int,
    badges: seq<string>,
    completedSimulations: seq<string>,
    currentLevel: int)

  /** One call of a progress callback made by a simulation. */
  datatype Event =
    | AddPoints(delta: int)
    | Unlock(badge: string)
    | Complete(simulationId: string)

  /** The state the application starts with. */
  function Initial(): (p: UserProgress)
    ensures p.points == 0 && p.badges == [] && p.completedSimulations == []
    ensures p.currentLevel == 1
  {
    UserProgress(0, [], [], 1)
  }

  /** The reducer each callback runs, as a functional update of the record. */
  function Apply(p: UserProgress, e: Event): (r: UserProgress)
    ensures r.currentLevel == p.currentLevel
    ensures e.AddPoints? ==>
      r.points == p.points + e.delta && r.badges == p.badges &&
      r.completedSimulations == p.completedSimulations
    ensures e.Unlock? ==>
      r.points == p.points && r.completedSimulations == p.completedSimulations &&
      |r.badges| == |p.badges| + 1 && r.badges[..|p.badges|] == p.badges &&
      r.badges[|p.badges|] == e.badge
    ensures e.Complete? ==>
      r.points == p.points && r.badges == p.badges &&
      |r.completedSimulations| == |p.completedSimulations| + 1 &&
      r.completedSimulations[..|p.completedSimulations|] == p.completedSimulations &&
      r.completedSimulations[|p.completedSimulations|] == e.simulationId
  {
    match e
    case AddPoints(n) => p.(points := p.points + n)
    case Unlock(b) => p.(badges := p.badges + [b])
    case Complete(id) => p.(completedSimulations := p.completedSimulations + [id])
  }

  /** The callbacks of a handler, applied in the order they were made. */
  function ApplyAll(p: UserProgress, es: seq<Event>): UserProgress
    decreases |es|
  {
    if es == [] then p else ApplyAll(Apply(p, es[0]), es[1..])
  }

  /** Net point delta of a sequence of callbacks. */
  function PointsOf(es: seq<Event>): int
    decreases |es|
  {
    if es == [] then 0
    else (if es[0].AddPoints? then es[0].delta else 0) + PointsOf(es[1..])
  }

  /** The badges a sequence of callbacks unlocks, in order. */
  function BadgesOf(es: seq<Event>): seq<string>
    decreases |es|
  {
    if es == [] then []
    else (if es[0].Unlock? then [es[0].badge] else []) + BadgesOf(es[1..])
  }

  /** The simulations a sequence of callbacks marks complete, in order. */
  function CompletionsOf(es: seq<Event>): seq<string>
    decreases |es|
  {
    if es == [] then []
    else (if es[0].Complete? then [es[0].simulationId] else []) + CompletionsOf(es[1..])
  }

  lemma {:induction false} PointsOfAppend(a: seq<Event>, b: seq<Event>)
    ensures PointsOf(a + b) == PointsOf(a) + PointsOf(b)
    decreases |a|
  {
    if a != [] {
      assert (a + b)[0] == a[0] && (a + b)[1..] == a[1..] + b;
      PointsOfAppend(a[1..], b);
    } else {
      assert a + b == b;
    }
  }

  lemma {:induction false} BadgesOfAppend(a: seq<Event>, b: seq<Event>)
    ensures BadgesOf(a + b) == BadgesOf(a) + BadgesOf(b)
    decreases |a|
  {
    if a != [] {
      assert (a + b)[0] == a[0] && (a + b)[1..] == a[1..] + b;
      BadgesOfAppend(a[1..], b);
    } else {
      assert a + b == b;
    }
  }

  lemma {:induction false} CompletionsOfAppend(a: seq<Event>, b: seq<Event>)
    ensures CompletionsOf(a + b) == CompletionsOf(a) + CompletionsOf(b)
    decreases |a|
  {
    if a != [] {
      assert (a + b)[0] == a[0] && (a + b)[1..] == a[1..] + b;
      CompletionsOfAppend(a[1..], b);
    } else {
      assert a + b == b;
    }
  }

  /**
   * What a handler's callbacks do to the record, in total: points move by the
   * net delta, badges and completions are appended in order (no
   * de-duplication), and the level is never touched.
   */
  lemma {:induction false} ApplyAllEffect(p: UserProgress, es: seq<Event>)
    ensures ApplyAll(p, es).points == p.points + PointsOf(es)
    ensures ApplyAll(p, es).badges == p.badges + BadgesOf(es)
    ensures ApplyAll(p, es).completedSimulations == p.completedSimulations + CompletionsOf(es)
    ensures ApplyAll(p, es).currentLevel == p.currentLevel
    decreases |es|
  {
    if es != [] {
      ApplyAllEffect(Apply(p, es[0]), es[1..]);
      var q := Apply(p, es[0]);
      match es[0]
      case AddPoints(n) =>
      case Unlock(b) =>
        assert q.badges == p.badges + [b];
      case Complete(id) =>
        assert q.completedSimulations == p.completedSimulations + [id];
    }
  }

  lemma {:induction false} ApplyAllConcat(p: UserProgress, a: seq<Event>, b: seq<Event>)
    ensures ApplyAll(p, a + b) == ApplyAll(ApplyAll(p, a), b)
    decreases |a|
  {
    if a != [] {
      assert (a + b)[0] == a[0] && (a + b)[1..] == a[1..] + b;
      ApplyAllConcat(Apply(p, a[0]), a[1..], b);
    } else {
      assert a + b == b;
    }
  }

  /** No reducer changes the level: from the initial record it stays 1 forever. */
  lemma LevelStaysOne(es: seq<Event>)
    ensures ApplyAll(Initial(), es).currentLevel == 1
  {
    ApplyAllEffect(Initial(), es);
  }

  /**
   * The progress state held by the application component.  Each method is one
   * reducer: it replaces the record, changing one component and keeping the
   * rest.
   */
  class ProgressStore {
    var progress: UserProgress

    constructor ()
      ensures progress == Initial()
    {
      progress := UserProgress(0, [], [], 1);
    }

    method AddPoints(n: int)
      modifies this
      ensures progress == Apply(old(progress), Event.AddPoints(n))
      ensures progress.points == old(progress.points) + n
      ensures progress.badges == old(progress.badges)
      ensures progress.completedSimulations == old(progress.completedSimulations)
      ensures progress.currentLevel == old(progress.currentLevel)
    {
      progress := progress.(points := progress.points + n);
    }

    method UnlockBadge(badgeName: string)
      modifies this
      ensures progress == Apply(old(progress), Unlock(badgeName))
      ensures progress.badges == old(progress.badges) + [badgeName]
      ensures progress.points == old(progress.points)
      ensures progress.completedSimulations == old(progress.completedSimulations)
      ensures progress.currentLevel == old(progress.currentLevel)
    {
      progress := progress.(badges := progress.badges + [badgeName]);
    }

    method CompleteSimulation(simulationId: string)
      modifies this
      ensures progress == Apply(old(progress), Complete(simulationId))
      ensures progress.completedSimulations == old(progress.completedSimulations) + [simulationId]
      ensures progress.points == old(progress.points)
      ensures progress.badges == old(progress.badges)
      ensures progress.currentLevel == old(progress.currentLevel)
    {
      progress := progress.(completedSimulations := progress.completedSimulations + [simulationId]);
    }

    /** Runs the reducer of one recorded callback. */
    method Dispatch(e: Event)
      modifies this
      ensures progress == Apply(old(progress), e)
    {
      match e
      case AddPoints(n) => AddPoints(n);
      case Unlock(b) => UnlockBadge(b);
      case Complete(id) => CompleteSimulation(id);
    }
  }
}
