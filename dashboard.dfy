/**
 * The dashboard: the badge catalogue and which of its badges are unlocked,
 * the level figures, and the four screens with the buttons that move between
 * them.
 */
module Dashboard {
  import opened Common
  import opened Progress
  import opened Engine
  import opened Tracks

  /** A catalogue entry as displayed; the icon is left out. */
  datatype Badge = Badge(id: string, name: string, description: string, unlocked: bool)

  const CatalogIds: seq<string> :=
    ["phishing-detector", "sms-guardian", "security-novice", "eagle-eye", "scam-buster"]
  const CatalogNames: seq<string> :=
    ["Email Detective", "Text Message Hero", "Safety Student", "Sharp Eyes", "Scam Fighter"]
  const CatalogDescriptions: seq<string> := [
    "You spotted all the tricks in a fake email!",
    "You caught all the red flags in a scam text!",
    "You completed your first training lesson!",
    "You found suspicious things very quickly!",
    "You completed both email and text training!"]

  /** The `badges` array for a progress record: each entry is unlocked exactly when the record holds its id. */
  function Catalog(up: UserProgress): (r: seq<Badge>)
    ensures |r| == |CatalogIds| == 5
    ensures forall i :: 0 <= i < |r| ==> r[i].id == CatalogIds[i] && r[i].name == CatalogNames[i]
    ensures forall i :: 0 <= i < |r| ==> (r[i].unlocked <==> r[i].id in up.badges)
  {
    seq(5, i requires 0 <= i < 5 =>
      Badge(CatalogIds[i], CatalogNames[i], CatalogDescriptions[i], CatalogIds[i] in up.badges))
  }

  /** The five ids are distinct: their lengths already differ. */
  lemma CatalogIdsDistinct()
    ensures NoDup(CatalogIds)
  {
    assert |CatalogIds[0]| == 17 && |CatalogIds[1]| == 12 && |CatalogIds[2]| == 15;
    assert |CatalogIds[3]| == 9 && |CatalogIds[4]| == 11;
  }

  /** Five badges with distinct ids, the same whatever the record. */
  lemma CatalogShape(up: UserProgress)
    ensures |Catalog(up)| == 5
    ensures forall i, j :: 0 <= i < j < 5 ==> Catalog(up)[i].id != Catalog(up)[j].id
  {
    CatalogIdsDistinct();
  }

  /** Every badge a simulation can unlock has an entry, which the unlock turns on. */
  lemma SimulationBadgesDisplayed(b: string)
    requires b in SmsTrack.completionBadges || b in EmailTrack.completionBadges ||
             b == SmsTrack.crossTrack.value.badge
    ensures b in CatalogIds
  {
  }

  /** An unlock turns on its entry, and this holds with duplicates in the record too. */
  lemma UnlockShowsBadge(up: UserProgress, b: string, i: nat)
    requires i < |CatalogIds| && CatalogIds[i] == b
    ensures Catalog(Apply(up, Unlock(b)))[i].unlocked
    ensures forall k :: 0 <= k < |CatalogIds| && Catalog(up)[k].unlocked ==>
                          Catalog(Apply(up, Unlock(b)))[k].unlocked
  {
    assert b in up.badges + [b];
  }

  /** `currentLevel * 100`. */
  function NextLevelPoints(level: int): int {
    level * 100
  }

  /** Since no reducer changes the level, the target shown stays at 100 points whatever happens. */
  lemma NextLevelPointsFixed(es: seq<Event>)
    ensures NextLevelPoints(ApplyAll(Initial(), es).currentLevel) == 100
  {
    LevelStaysOne(es);
  }

  /**
   * `points % 100` with JavaScript's remainder, which takes the sign of the
   * dividend: for a non-negative total it is the points past the last whole
   * hundred.
   */
  function PointsTowardNextLevel(points: int): (r: int)
    ensures points >= 0 ==> 0 <= r < 100
    ensures points < 0 ==> -100 < r <= 0
    ensures (points - r) % 100 == 0
  {
    if points >= 0 then points % 100 else -((-points) % 100)
  }

  /** The four screens; the dashboard mounts on the welcome screen. */
  datatype Screen = Welcome | ProgressScreen | Training | BadgesScreen

  /** The navigation buttons, each rendered on exactly one screen. */
  datatype NavButton =
    | GetStarted       // welcome: "Let's Get Started"
    | BackToWelcome    // progress: "Back"
    | StartTraining    // progress: "Start Training"
    | BackToProgress   // training: "Back to Progress"
    | ViewBadges       // training: "View My Badges"
    | BackToTraining   // badges: "Back to Training"

  /** The screen a button is rendered on and the screen it sets. */
  function Source(b: NavButton): Screen {
    match b
    case GetStarted => Welcome
    case BackToWelcome => ProgressScreen
    case StartTraining => ProgressScreen
    case BackToProgress => Training
    case ViewBadges => Training
    case BackToTraining => BadgesScreen
  }

  function Target(b: NavButton): Screen {
    match b
    case GetStarted => ProgressScreen
    case BackToWelcome => Welcome
    case StartTraining => Training
    case BackToProgress => ProgressScreen
    case ViewBadges => BadgesScreen
    case BackToTraining => Training
  }

  /** A press: a button that is not on the screen shown cannot be pressed and changes nothing. */
  function Step(s: Screen, b: NavButton): (r: Screen)
    ensures Source(b) == s ==> r == Target(b) && Edge(s, r)
    ensures Source(b) != s ==> r == s
    ensures r == s || Edge(s, r)
  {
    if Source(b) == s then Target(b) else s
  }

  /** The screens directly reachable from a screen by one press, other than itself. */
  predicate Edge(a: Screen, c: Screen) {
    exists b :: Source(b) == a && Target(b) == c
  }

  /** Exactly six moves: welcome and progress, progress and training, training and badges, each both ways. */
  lemma EdgesExactly(a: Screen, c: Screen)
    ensures Edge(a, c) <==>
      || (a == Welcome && c == ProgressScreen) || (a == ProgressScreen && c == Welcome)
      || (a == ProgressScreen && c == Training) || (a == Training && c == ProgressScreen)
      || (a == Training && c == BadgesScreen) || (a == BadgesScreen && c == Training)
  {
    if a == Welcome && c == ProgressScreen { assert Source(GetStarted) == a && Target(GetStarted) == c; }
    if a == ProgressScreen && c == Welcome { assert Source(BackToWelcome) == a && Target(BackToWelcome) == c; }
    if a == ProgressScreen && c == Training { assert Source(StartTraining) == a && Target(StartTraining) == c; }
    if a == Training && c == ProgressScreen { assert Source(BackToProgress) == a && Target(BackToProgress) == c; }
    if a == Training && c == BadgesScreen { assert Source(ViewBadges) == a && Target(ViewBadges) == c; }
    if a == BadgesScreen && c == Training { assert Source(BackToTraining) == a && Target(BackToTraining) == c; }
  }

  /** Every move can be undone by one press. */
  lemma EdgesSymmetric(a: Screen, c: Screen)
    requires Edge(a, c)
    ensures Edge(c, a)
  {
    EdgesExactly(a, c);
    EdgesExactly(c, a);
  }

  /** The screen after a list of presses. */
  function Walk(s: Screen, bs: seq<NavButton>): Screen
    decreases |bs|
  {
    if bs == [] then s else Walk(Step(s, bs[0]), bs[1..])
  }

  /** Every screen is reached from the welcome screen, in as many presses as its distance. */
  lemma AllScreensReachable(target: Screen) returns (bs: seq<NavButton>)
    ensures Walk(Welcome, bs) == target
    ensures |bs| == match target
                    case Welcome => 0
                    case ProgressScreen => 1
                    case Training => 2
                    case BadgesScreen => 3
  {
    match target
    case Welcome => bs := [];
    case ProgressScreen => bs := [GetStarted];
    case Training => bs := [GetStarted, StartTraining];
    case BadgesScreen => bs := [GetStarted, StartTraining, ViewBadges];
  }

  /** The badges screen is never one press from the welcome screen, nor from the progress screen. */
  lemma BadgesOnlyFromTraining(s: Screen, b: NavButton)
    requires s != Training && s != BadgesScreen
    ensures Step(s, b) != BadgesScreen
  {
  }

  /** The `currentScreen` state of the dashboard. */
  class DashboardView {
    var currentScreen: Screen

    constructor ()
      ensures currentScreen == Welcome
    {
      currentScreen := Welcome;
    }

    /** The `onClick` of a navigation button on the screen shown. */
    method Press(b: NavButton)
      modifies this
      ensures currentScreen == Step(old(currentScreen), b)
    {
      if Source(b) == currentScreen {
        currentScreen := Target(b);
      }
    }
  }
}
