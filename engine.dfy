/**
 * The red-flag discovery state machine shared by the e-mail and the text
 * message simulations.  A session is a value; every handler is a function from
 * the session before the click to the session after it together with the
 * progress callbacks the handler makes, in order.  A `Track` holds what the
 * two simulations do differently.
 */
module Engine {
  import opened Common
  import opened Progress

  /** A red flag of an example: its id and whether it has been found. */
  datatype Flag = Flag(id: string, found: bool)

  /** One example message, abstracted to its id and its ordered red flags. */
  datatype Example = Example(id: string, redFlags: seq<Flag>)

  /** A badge granted on completion only if another simulation was completed before. */
  datatype CrossTrackRule = CrossTrackRule(otherSimulation: string, badge: string)

  /** How the message body's click handler chooses the flag it clicks. */
  datatype BodyPick =
    | FirstMatch         // the first flag whose id has a keyword, clicked only if not found
    | FirstUnfoundMatch  // the first not yet found flag whose id has a keyword

  /**
   * What differs between the simulations: the simulation id reported on
   * completion, the badges tried on completion (in order), an optional
   * cross-track badge, and the ids and keywords behind the click targets.
   */
  datatype Track = Track(
    simulationId: string,
    completionBadges: seq<string>,
    crossTrack: Option<CrossTrackRule>,
    senderFlag: string,
    bodyKeywords: seq<string>,
    bodyPick: BodyPick,
    linkKeywords: seq<string>,
    offerKeywords: seq<string>)

  /** The completion badges are distinct, and the cross-track badge is not one of them. */
  predicate WellFormed(t: Track) {
    NoDup(t.completionBadges) &&
    (t.crossTrack.Some? ==> t.crossTrack.value.badge !in t.completionBadges)
  }

  /** The component state of a simulation: its examples, the index shown, the undo slot and the completion flag. */
  datatype Session = Session(
    examples: seq<Example>,
    currentExample: nat,
    lastAction: Option<string>,
    simulationComplete: bool)

  /** A handler's result: the new state and the callbacks made, in order. */
  datatype Outcome = Outcome(state: Session, emitted: seq<Event>)

  const FlagReward: int := 25
  const ExampleBonus: int := 50

  /** The example array is never empty and the index always points into it. */
  predicate Inv(s: Session) {
    |s.examples| > 0 && s.currentExample < |s.examples|
  }

  function Current(s: Session): Example
    requires Inv(s)
  {
    s.examples[s.currentExample]
  }

  /** The state a simulation mounts with. */
  function Start(catalog: seq<Example>): (s: Session)
    requires |catalog| > 0
    ensures Inv(s) && s.examples == catalog && s.currentExample == 0
    ensures s.lastAction == None && !s.simulationComplete
  {
    Session(catalog, 0, None, false)
  }

  /** JavaScript truthiness of `lastAction`: null and the empty string are both false. */
  predicate Truthy(a: Option<string>) {
    a.Some? && a.value != ""
  }

  /** Sets `found` to `v` on every flag with the given id; all else stays. */
  function Mark(fs: seq<Flag>, id: string, v: bool): (r: seq<Flag>)
    ensures |r| == |fs|
    ensures forall i :: 0 <= i < |fs| ==>
      r[i].id == fs[i].id && r[i].found == (if fs[i].id == id then v else fs[i].found)
    decreases |fs|
  {
    if fs == [] then []
    else [if fs[0].id == id then fs[0].(found := v) else fs[0]] + Mark(fs[1..], id, v)
  }

  /** `flags.every(f => f.found)`. */
  predicate Every(fs: seq<Flag>) {
    forall i :: 0 <= i < |fs| ==> fs[i].found
  }

  /** `flags.filter(f => f.found).length`. */
  function FlagsFound(fs: seq<Flag>): (r: nat)
    ensures r <= |fs|
    ensures r == |fs| <==> Every(fs)
    decreases |fs|
  {
    if fs == [] then 0 else (if fs[0].found then 1 else 0) + FlagsFound(fs[1..])
  }

  /** `flagsFound === redFlags.length` for the example shown. */
  function AllFlagsFound(s: Session): (r: bool)
    requires Inv(s)
    ensures r <==> Every(Current(s).redFlags)
  {
    FlagsFound(Current(s).redFlags) == |Current(s).redFlags|
  }

  /** No flag with this id is found yet. */
  predicate Unfound(fs: seq<Flag>, id: string) {
    forall i :: 0 <= i < |fs| && fs[i].id == id ==> !fs[i].found
  }

  /** Flag ids are distinct within the example. */
  predicate UniqueIds(fs: seq<Flag>) {
    forall i, j :: 0 <= i < j < |fs| ==> fs[i].id != fs[j].id
  }

  /** The `if (!badges.includes(b)) onUnlockBadge(b)` chain, against the snapshot `held`. */
  function UnlockAbsent(bs: seq<string>, held: seq<string>): (r: seq<Event>)
    ensures forall e :: e in r ==> e.Unlock? && e.badge in bs && e.badge !in held
    ensures forall b :: b in bs ==> (Unlock(b) in r <==> b !in held)
    ensures NoDup(bs) ==> NoDup(r)
    decreases |bs|
  {
    if bs == [] then []
    else (if bs[0] in held then [] else [Unlock(bs[0])]) + UnlockAbsent(bs[1..], held)
  }

  /** Joining two duplicate-free sequences with no common element. */
  lemma NoDupJoin<T>(a: seq<T>, b: seq<T>)
    requires NoDup(a) && NoDup(b) && forall x :: x in a ==> x !in b
    ensures NoDup(a + b)
  {
    forall i, j | 0 <= i < j < |a + b|
      ensures (a + b)[i] != (a + b)[j]
    {
      if j < |a| {
      } else if i >= |a| {
        assert (a + b)[i] == b[i - |a|] && (a + b)[j] == b[j - |a|];
      } else {
        assert (a + b)[i] in a && (a + b)[j] == b[j - |a|];
      }
    }
  }

  /** The cross-track badge, if the track has one and its condition holds. */
  function CrossTrackEvents(t: Track, up: UserProgress): (r: seq<Event>)
    ensures |r| <= 1
    ensures t.crossTrack.None? ==> r == []
    ensures t.crossTrack.Some? ==> forall e :: e in r ==> e == Unlock(t.crossTrack.value.badge)
    ensures t.crossTrack.Some? ==>
      var rule := t.crossTrack.value;
      (Unlock(rule.badge) in r <==>
        rule.otherSimulation in up.completedSimulations && rule.badge !in up.badges)
  {
    match t.crossTrack
    case None => []
    case Some(rule) =>
      if rule.otherSimulation in up.completedSimulations && rule.badge !in up.badges
      then [Unlock(rule.badge)] else []
  }

  /** The callbacks made when the last example is completed. */
  function CompletionEvents(t: Track, up: UserProgress): (r: seq<Event>)
    ensures |r| > 0 && r[|r| - 1] == Complete(t.simulationId)
    ensures forall i :: 0 <= i < |r| - 1 ==> r[i].Unlock? && r[i].badge !in up.badges
    ensures forall b :: b in t.completionBadges ==> (Unlock(b) in r <==> b !in up.badges)
    ensures forall e :: e in r && e.Unlock? ==>
      e.badge in t.completionBadges || (t.crossTrack.Some? && e.badge == t.crossTrack.value.badge)
    ensures t.crossTrack.Some? && t.crossTrack.value.badge !in t.completionBadges ==>
      var rule := t.crossTrack.value;
      (Unlock(rule.badge) in r <==>
        rule.otherSimulation in up.completedSimulations && rule.badge !in up.badges)
    ensures WellFormed(t) ==> NoDup(r)
  {
    var a := UnlockAbsent(t.completionBadges, up.badges);
    var c := CrossTrackEvents(t, up);
    var r := a + c + [Complete(t.simulationId)];
    assert forall e :: e in r ==> e in a || e in c || e == Complete(t.simulationId);
    assert WellFormed(t) ==> NoDup(r) by {
      if WellFormed(t) {
        NoDupJoin(a, c + [Complete(t.simulationId)]);
        assert r == a + (c + [Complete(t.simulationId)]);
      }
    }
    r
  }

  /**
   * The callbacks of a click that is not ignored: the flag reward; then the
   * example bonus when every flag of the example is found; then, on the last
   * example, the completion callbacks.
   */
  function ClickCallbacks(t: Track, bonus: bool, last: bool, up: UserProgress): (r: seq<Event>)
    ensures |r| >= 1 && r[0] == AddPoints(FlagReward)
    ensures |r| >= 2 <==> bonus
    ensures bonus ==> r[1] == AddPoints(ExampleBonus)
    ensures bonus && last ==> r[2..] == CompletionEvents(t, up)
    ensures !(bonus && last) ==> |r| <= 2
  {
    if !bonus then [AddPoints(FlagReward)]
    else
      var tail := if last then CompletionEvents(t, up) else [];
      var r := [AddPoints(FlagReward), AddPoints(ExampleBonus)] + tail;
      assert r[2..] == tail;
      r
  }

  /**
   * `handleRedFlagClick(flagId)`: ignored once the simulation is complete;
   * otherwise records the id for undo, marks every flag of the shown example
   * with that id found, awards the flag reward, and awards the example bonus
   * when every flag of the example is found afterwards.  When that happens on
   * the last example the simulation completes and the completion callbacks
   * follow.  Nothing checks whether the flag was found already.
   */
  function Click(t: Track, s: Session, flagId: string, up: UserProgress): (o: Outcome)
    requires Inv(s)
    ensures Inv(o.state)
    ensures s.simulationComplete ==> o == Outcome(s, [])
    ensures !s.simulationComplete ==>
      && o.state.currentExample == s.currentExample
      && o.state.lastAction == Some(flagId)
      && |o.state.examples| == |s.examples|
      && (forall j :: 0 <= j < |s.examples| && j != s.currentExample ==>
            o.state.examples[j] == s.examples[j])
      && Current(o.state).id == Current(s).id
      && Current(o.state).redFlags == Mark(Current(s).redFlags, flagId, true)
      && |o.emitted| >= 1 && o.emitted[0] == AddPoints(FlagReward)
      && (|o.emitted| >= 2 <==> Every(Current(o.state).redFlags))
      && (|o.emitted| >= 2 ==> o.emitted[1] == AddPoints(ExampleBonus))
      && (o.state.simulationComplete <==>
            Every(Current(o.state).redFlags) && s.currentExample == |s.examples| - 1)
      && (o.state.simulationComplete ==> o.emitted[2..] == CompletionEvents(t, up))
      && (!o.state.simulationComplete ==> |o.emitted| <= 2)
  {
    if s.simulationComplete then Outcome(s, [])
    else
      var ex := Current(s);
      var flags := Mark(ex.redFlags, flagId, true);
      var examples := s.examples[s.currentExample := ex.(redFlags := flags)];
      var bonus := Every(flags);
      var last := s.currentExample == |s.examples| - 1;
      var state := s.(examples := examples, lastAction := Some(flagId),
                      simulationComplete := bonus && last);
      Outcome(state, ClickCallbacks(t, bonus, last, up))
  }

  /**
   * `handleUndo`: ignored when `lastAction` is falsy; otherwise clears `found`
   * on the flags of the shown example with that id, takes the flag reward back
   * and empties the undo slot.  The completion flag is not consulted or reset.
   */
  function Undo(s: Session): (o: Outcome)
    requires Inv(s)
    ensures Inv(o.state)
    ensures !Truthy(s.lastAction) ==> o == Outcome(s, [])
    ensures Truthy(s.lastAction) ==>
      && o.emitted == [AddPoints(-FlagReward)]
      && o.state.lastAction == None
      && o.state.currentExample == s.currentExample
      && o.state.simulationComplete == s.simulationComplete
      && |o.state.examples| == |s.examples|
      && (forall j :: 0 <= j < |s.examples| && j != s.currentExample ==>
            o.state.examples[j] == s.examples[j])
      && Current(o.state).id == Current(s).id
      && Current(o.state).redFlags == Mark(Current(s).redFlags, s.lastAction.value, false)
  {
    if !Truthy(s.lastAction) then Outcome(s, [])
    else
      var ex := Current(s);
      var flags := Mark(ex.redFlags, s.lastAction.value, false);
      Outcome(s.(examples := s.examples[s.currentExample := ex.(redFlags := flags)],
                 lastAction := None),
              [AddPoints(-FlagReward)])
  }

  /** `nextExample`: moves forward only when not on the last example; moving empties the undo slot. */
  function Next(s: Session): (r: Session)
    requires Inv(s)
    ensures Inv(r)
    ensures r.examples == s.examples && r.simulationComplete == s.simulationComplete
    ensures s.currentExample < |s.examples| - 1 ==>
      r.currentExample == s.currentExample + 1 && r.lastAction == None
    ensures s.currentExample == |s.examples| - 1 ==> r == s
  {
    if s.currentExample < |s.examples| - 1
    then s.(currentExample := s.currentExample + 1, lastAction := None)
    else s
  }

  /** `prevExample`: moves back only when not on the first example; moving empties the undo slot. */
  function Prev(s: Session): (r: Session)
    requires Inv(s)
    ensures Inv(r)
    ensures r.examples == s.examples && r.simulationComplete == s.simulationComplete
    ensures s.currentExample > 0 ==>
      r.currentExample == s.currentExample - 1 && r.lastAction == None
    ensures s.currentExample == 0 ==> r == s
  {
    if s.currentExample > 0
    then s.(currentExample := s.currentExample - 1, lastAction := None)
    else s
  }
}
