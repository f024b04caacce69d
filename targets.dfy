/**
 * The click targets a simulation renders and the user actions they allow.
 * The sender button always passes the track's sender flag id; the message
 * body picks one flag by keyword; one button is rendered per flag whose id
 * has a link or offer keyword.  `Run` plays a list of user actions against
 * a session and the progress record, feeding each handler the record as the
 * callbacks before it left it.
 */
module Targets {
  import opened Common
  import opened Progress
  import opened Engine
  import opened Text

  /** A flag the body's `find` accepts. */
  predicate Candidate(f: Flag, kws: seq<string>, unfoundOnly: bool) {
    ContainsAny(f.id, kws) && (unfoundOnly ==> !f.found)
  }

  /** Index of the first candidate at position `i` or later (`Array.prototype.find`). */
  function FindFrom(fs: seq<Flag>, kws: seq<string>, unfoundOnly: bool, i: nat): (r: Option<nat>)
    requires i <= |fs|
    ensures r.Some? ==>
      i <= r.value < |fs| && Candidate(fs[r.value], kws, unfoundOnly) &&
      forall k :: i <= k < r.value ==> !Candidate(fs[k], kws, unfoundOnly)
    ensures r.None? ==> forall k :: i <= k < |fs| ==> !Candidate(fs[k], kws, unfoundOnly)
    decreases |fs| - i
  {
    if i == |fs| then None
    else if Candidate(fs[i], kws, unfoundOnly) then Some(i)
    else FindFrom(fs, kws, unfoundOnly, i + 1)
  }

  /** Flag `i` is the first flag whose id has one of the keywords. */
  predicate FirstWithKeyword(fs: seq<Flag>, kws: seq<string>, i: int) {
    0 <= i < |fs| && ContainsAny(fs[i].id, kws) &&
    forall k :: 0 <= k < i ==> !ContainsAny(fs[k].id, kws)
  }

  /** Flag `i` is the first not yet found flag whose id has one of the keywords. */
  predicate FirstUnfoundWithKeyword(fs: seq<Flag>, kws: seq<string>, i: int) {
    0 <= i < |fs| && ContainsAny(fs[i].id, kws) && !fs[i].found &&
    forall k :: 0 <= k < i ==> !(ContainsAny(fs[k].id, kws) && !fs[k].found)
  }

  /**
   * The id the body's click handler passes on, if any.  With `FirstMatch`
   * (both simulations as written) it is the first flag with a body keyword,
   * and nothing when that flag is already found, even if a later one is not.
   * With `FirstUnfoundMatch` it is the first unfound flag with a body keyword.
   */
  function BodyTarget(t: Track, fs: seq<Flag>): (r: Option<string>)
    ensures r.Some? ==> exists i :: 0 <= i < |fs| && fs[i].id == r.value && !fs[i].found &&
                                    ContainsAny(fs[i].id, t.bodyKeywords)
    ensures t.bodyPick == FirstMatch ==>
      (r.Some? <==> exists i :: FirstWithKeyword(fs, t.bodyKeywords, i) && !fs[i].found)
    ensures t.bodyPick == FirstMatch && r.Some? ==>
      exists i :: FirstWithKeyword(fs, t.bodyKeywords, i) && fs[i].id == r.value
    ensures t.bodyPick == FirstUnfoundMatch ==>
      (r.Some? <==> exists i :: 0 <= i < |fs| && !fs[i].found && ContainsAny(fs[i].id, t.bodyKeywords))
    ensures t.bodyPick == FirstUnfoundMatch && r.Some? ==>
      exists i :: FirstUnfoundWithKeyword(fs, t.bodyKeywords, i) && fs[i].id == r.value
  {
    var unfoundOnly := t.bodyPick == FirstUnfoundMatch;
    var m := FindFrom(fs, t.bodyKeywords, unfoundOnly, 0);
    assert m.Some? && !unfoundOnly ==> FirstWithKeyword(fs, t.bodyKeywords, m.value);
    assert m.Some? && unfoundOnly ==> FirstUnfoundWithKeyword(fs, t.bodyKeywords, m.value);
    assert !unfoundOnly ==> forall i :: FirstWithKeyword(fs, t.bodyKeywords, i) ==> m == Some(i);
    match m
    case None => None
    case Some(i) => if fs[i].found then None else Some(fs[i].id)
  }

  /**
   * The ids the always-clickable buttons pass: the sender button, one link
   * button per flag whose id has a link keyword, and one offer button per
   * flag whose id has an offer keyword.
   */
  function ButtonIds(t: Track, fs: seq<Flag>): (r: set<string>)
    ensures t.senderFlag in r
    ensures forall id :: id in r && id != t.senderFlag ==>
      exists i :: 0 <= i < |fs| && fs[i].id == id &&
        (ContainsAny(id, t.linkKeywords) || ContainsAny(id, t.offerKeywords))
    ensures forall i :: 0 <= i < |fs| && ContainsAny(fs[i].id, t.linkKeywords) ==> fs[i].id in r
    ensures forall i :: 0 <= i < |fs| && ContainsAny(fs[i].id, t.offerKeywords) ==> fs[i].id in r
  {
    forall i | 0 <= i < |fs|
      ensures ContainsAny(fs[i].id, t.linkKeywords + t.offerKeywords) <==>
              ContainsAny(fs[i].id, t.linkKeywords) || ContainsAny(fs[i].id, t.offerKeywords)
    {
      ContainsAnyConcat(fs[i].id, t.linkKeywords, t.offerKeywords);
    }
    {t.senderFlag} +
    (set i | 0 <= i < |fs| && ContainsAny(fs[i].id, t.linkKeywords + t.offerKeywords) :: fs[i].id)
  }

  /** What a user can do on the simulation screen. */
  datatype UiAction =
    | Press(flagId: string)  // the sender button or a keyword button
    | BodyClick
    | UndoButton
    | NextButton
    | PrevButton

  /**
   * The control is rendered and not disabled: the buttons and the body are
   * always there; undo only with a truthy `lastAction`; the navigation only
   * while the simulation is not complete, previous enabled away from the
   * first example, next shown once every flag is found and an example is
   * ahead.
   */
  function Enabled(t: Track, s: Session, a: UiAction): (r: bool)
    requires Inv(s)
    // the sender button and the body are always there; any other button belongs to a keyword flag
    ensures a == Press(t.senderFlag) ==> r
    ensures a.BodyClick? ==> r
    ensures a.Press? && r && a.flagId != t.senderFlag ==>
      exists i :: 0 <= i < |Current(s).redFlags| && Current(s).redFlags[i].id == a.flagId
    // undo is shown exactly when the handler has something to take back
    ensures a.UndoButton? ==> (r <==> Undo(s).emitted == [AddPoints(-FlagReward)])
    ensures a.UndoButton? && !r ==> Undo(s) == Outcome(s, [])
    // once complete there is no navigation
    ensures s.simulationComplete && (a.NextButton? || a.PrevButton?) ==> !r
    // the render supplies the check `nextExample` lacks: next moves only with every flag found
    ensures a.NextButton? && r ==>
      Next(s).currentExample == s.currentExample + 1 && Every(Current(s).redFlags)
    ensures a.NextButton? ==> (r <==> !s.simulationComplete && Every(Current(s).redFlags) && Next(s) != s)
    ensures a.PrevButton? ==> (r <==> !s.simulationComplete && Prev(s) != s)
    ensures a.PrevButton? && r ==> Prev(s).currentExample == s.currentExample - 1
  {
    match a
    case Press(id) => id in ButtonIds(t, Current(s).redFlags)
    case BodyClick => true
    case UndoButton => Truthy(s.lastAction)
    case NextButton =>
      !s.simulationComplete && AllFlagsFound(s) && s.currentExample < |s.examples| - 1
    case PrevButton => !s.simulationComplete && s.currentExample > 0
  }

  /** One user action: a control that is not available does nothing. */
  function Perform(t: Track, s: Session, up: UserProgress, a: UiAction): (o: Outcome)
    requires Inv(s)
    ensures Inv(o.state)
    ensures !Enabled(t, s, a) ==> o == Outcome(s, [])
  {
    if !Enabled(t, s, a) then Outcome(s, [])
    else match a
      case Press(id) => Click(t, s, id, up)
      case BodyClick =>
        (match BodyTarget(t, Current(s).redFlags)
         case None => Outcome(s, [])
         case Some(id) => Click(t, s, id, up))
      case UndoButton => Undo(s)
      case NextButton => Outcome(Next(s), [])
      case PrevButton => Outcome(Prev(s), [])
  }

  /** The session, the progress record and every callback made, after a list of actions. */
  datatype Trace = Trace(session: Session, progress: UserProgress, emitted: seq<Event>)

  function Run(t: Track, s: Session, up: UserProgress, actions: seq<UiAction>): (r: Trace)
    requires Inv(s)
    ensures Inv(r.session)
    ensures r.progress == ApplyAll(up, r.emitted)
    decreases |actions|
  {
    if actions == [] then Trace(s, up, [])
    else
      var o := Perform(t, s, up, actions[0]);
      var rest := Run(t, o.state, ApplyAll(up, o.emitted), actions[1..]);
      ApplyAllConcat(up, o.emitted, rest.emitted);
      Trace(rest.session, rest.progress, o.emitted + rest.emitted)
  }
}
