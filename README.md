# Cyber Guardian red-flag simulations in Dafny

Cyber Guardian teaches people to recognise scam e-mails and scam text
messages. It shows example messages, and the user clicks the suspicious
parts ("red flags"). This project models the logic behind that game and
proves properties of it:

- **Discovery state machine.** It is shared by the text-message simulation
  (`SMSSimulation.tsx`) and the e-mail simulation (`EmailSimulation.tsx`):
  - finding a flag, with points for the flag and a bonus for the example;
  - single-step undo;
  - moving between examples;
  - completing the last example, which unlocks badges and reports the
    simulation as completed.
- **Progress reducers** of the application component (`App.tsx`). The
  simulations call them back: `addPoints`, `unlockBadge` and
  `completeSimulation`.
- **Dashboard** (`Dashboard.tsx`):
  - the badge catalogue and its `unlocked` test;
  - the level figures;
  - the four-screen navigation.

The two simulations differ only in data. That data is the simulation id,
the completion badges, the text messages' extra `scam-buster` rule, the
sender flag and the keyword lists behind the click targets. So one engine
(`Engine`) is parameterised by a `Track`, and `Tracks` instantiates it
twice, with both example catalogues abstracted to their flag ids.

Each handler is modelled twice:
- as a pure function from the session before the click to the session after
  it, plus the callbacks made, in order (`Engine`, `Targets`);
- as a class whose methods update the component's state fields in place and
  call the application's reducers (`Simulation.Simulation`,
  `Progress.ProgressStore`). Every method is proved to do exactly what the
  function describes.

| file | module | contents |
|---|---|---|
| progress.dfy | Common, Progress | `UserProgress`, callback events, the reducers, `ProgressStore` |
| engine.dfy | Engine | sessions, tracks, and the click, undo, next and previous handlers |
| session_properties.dfy | SessionProperties | properties of single handlers |
| text.dfy | Text | `String.prototype.includes` and facts about literal ids |
| targets.dfy | Targets | click targets, user actions, runs of actions |
| run_properties.dfy | RunProperties | invariants over any run |
| reachability.dfy | Reachability | when every flag has a target, some run completes the simulation |
| keywords.dfy | Keywords | keyword lists, and which ids lack them |
| tracks.dfy | Tracks | the two tracks and their catalogues, their completion, the e-mail defect |
| simulation.dfy | Simulation | the component as a class with in-place handlers |
| dashboard.dfy | Dashboard | badge catalogue, level figures, screen navigation |

## Model

| member | source | states |
|---|---|---|
| Progress.Initial | src/App.tsx:18-23 | The initial record has 0 points, no badges, no completed simulations and level 1. |
| Progress.Apply | src/App.tsx:25-41 | `addPoints(n)` adds n to the points and changes nothing else. `unlockBadge(b)` appends b: the list grows by one, earlier entries keep their places, and nothing is de-duplicated. `completeSimulation(id)` appends id. No reducer touches the level. |
| Progress.ApplyAllEffect | src/App.tsx:25-41 | Applying a list of callbacks moves the points by their net delta and appends their badges and completions in order. The level is untouched. |
| Progress.ApplyAllConcat | src/App.tsx:25-41 | Applying two lists of callbacks one after the other is the same as applying their concatenation. |
| Progress.LevelStaysOne | src/App.tsx:25-41 | From the initial record, whatever callbacks follow, the level stays 1. |
| Progress.ProgressStore.constructor | src/App.tsx:18-23 | The store starts with the initial record. |
| Progress.ProgressStore.AddPoints | src/App.tsx:25-27 | Replaces the record with one whose points are old + n. Badges, completions and level are kept. |
| Progress.ProgressStore.UnlockBadge | src/App.tsx:29-34 | The badge list becomes the old list plus b, with no check for duplicates. The other fields are kept. |
| Progress.ProgressStore.CompleteSimulation | src/App.tsx:36-41 | The completion list becomes the old list plus the id. The other fields are kept. |
| Progress.ProgressStore.Dispatch | src/App.tsx:63-65 | Running a recorded callback is the reducer `Apply` gives for it. |
| Engine.Start | src/components/SMSSimulation.tsx:36-40 | On mount, the first example is shown, the undo slot is empty and the simulation is not complete. |
| Engine.Mark | src/components/SMSSimulation.tsx:211-220 | Same length and same ids. Exactly the flags with the given id take the new `found` value. Every other flag keeps its own. |
| Engine.AllFlagsFound | src/components/SMSSimulation.tsx:204 | `allFlagsFound` holds exactly when every flag of the shown example is found. |
| Engine.FlagsFound | src/components/SMSSimulation.tsx:203-204 | The count of found flags is at most the number of flags. It equals that number exactly when every flag is found, which is `allFlagsFound`. |
| Engine.UnlockAbsent | src/components/SMSSimulation.tsx:241-249 | Each listed badge is unlocked exactly when the render-time record does not hold it. Nothing else is unlocked. Distinct badges give distinct unlocks. |
| Engine.CrossTrackEvents | src/components/SMSSimulation.tsx:252-254 | At most one callback, and it can only be the unlock of the cross-track badge. That unlock is made exactly when the other simulation was completed and the badge is not held. A track without the rule unlocks nothing. |
| Engine.CompletionEvents | src/components/SMSSimulation.tsx:236-257 | The completion callbacks end with the completion report. Everything before it unlocks a badge that was not held. Each completion badge is unlocked iff it was absent. The cross-track badge is unlocked iff its condition holds. No other badge is ever unlocked: every unlock is of a completion badge or of the cross-track badge. No callback repeats when the track's badges are distinct. |
| Engine.ClickCallbacks | src/components/SMSSimulation.tsx:222-258 | An accepted click first pays the flag reward, 25 points. The 50-point example bonus comes second, and only when every flag of the example is found. The completion callbacks follow only on the last example. |
| Engine.Click | src/components/SMSSimulation.tsx:206-263 | A click after completion changes nothing and calls nothing. Otherwise: the undo slot holds the id; only the flags of the shown example with that id become found; other examples and the index are unchanged; the flag reward comes first; the bonus fires iff every flag is found after marking; completion happens iff that is on the last example, and then the completion callbacks follow. Already found flags are not checked. |
| Engine.Undo | src/components/SMSSimulation.tsx:265-282 | With a falsy undo slot (empty or the empty string), nothing changes. Otherwise only the flags of the shown example with that id are cleared, the flag reward is taken back, and the slot is emptied. The completion flag and the index are kept. |
| Engine.Next | src/components/SMSSimulation.tsx:284-289 | Moves forward and empties the undo slot only when not on the last example; otherwise nothing changes. The examples and the completion flag are kept. It does not itself test whether every flag is found. |
| Engine.Prev | src/components/SMSSimulation.tsx:291-296 | Moves back and empties the undo slot only when not on the first example; otherwise nothing changes. |
| SessionProperties.MarkRoundTrip | src/components/SMSSimulation.tsx:269-277 | Clearing a flag that was just marked, and had not been found, gives back the original flags. |
| SessionProperties.MarkFoundIsNoop | src/components/SMSSimulation.tsx:211-220 | Marking a flag that is already found leaves the flags as they were. |
| SessionProperties.ClickThenUndo | src/components/SMSSimulation.tsx:206-282 | Undo right after a click on an unfound flag restores the examples, the index and an empty slot. The net points are 0, or the 50-point bonus if the click completed the example: undo does not take the bonus back. |
| SessionProperties.ClickPoints | src/components/SMSSimulation.tsx:222-233 | An accepted click is worth 25 points, plus 50 when it completes the example. |
| SessionProperties.CompletionCarriesNoPoints | src/components/SMSSimulation.tsx:236-257 | The completion callbacks carry no points. |
| SessionProperties.NoPointsWithoutAddPoints | src/App.tsx:25-27 | Callbacks that contain no `addPoints` leave the points unchanged. |
| SessionProperties.RepeatClickRewardsAgain | src/components/SMSSimulation.tsx:206-233 | On an example other than the last, with every flag already found, a click pays the reward and the bonus again. It leaves the flags unchanged and records the id. |
| SessionProperties.MarkUnfoundCountsOne | src/components/SMSSimulation.tsx:203 | With distinct ids, marking an unfound flag raises the found count by exactly one. |
| SessionProperties.MarkOtherIdsKeepCount | src/components/SMSSimulation.tsx:203 | Marking an id no flag carries keeps the found count. |
| SessionProperties.MarkMonotone | src/components/SMSSimulation.tsx:203 | Marking never lowers the found count, and clearing never raises it. |
| SessionProperties.StartCovers | src/components/SMSSimulation.tsx:40 | At mount, any non-negative point total covers what undo can take back. |
| SessionProperties.ClickKeepsCover | src/components/SMSSimulation.tsx:206-263 | A click keeps the points at or above what undo can take back. |
| SessionProperties.UndoKeepsCover | src/components/SMSSimulation.tsx:265-282 | Undo keeps that cover, so undo never drives the points negative. |
| SessionProperties.NavigationKeepsCover | src/components/SMSSimulation.tsx:284-296 | Next and previous keep the cover. |
| SessionProperties.ClickKeepsBadgesUnique | src/components/SMSSimulation.tsx:241-254 | For a track with distinct badges, a click never makes the record hold a badge twice, given that the record it reads is the current one. |
| SessionProperties.RewardEvents | src/components/SMSSimulation.tsx:222-233 | The point callbacks of a click are all `addPoints`, and they are exactly the callbacks before any completion callbacks. |
| SessionProperties.UnlockedBadgesFresh | src/App.tsx:29-34 | Distinct unlocks of badges not held keep the badge list free of duplicates. |
| Text.ScanIffContains | src/components/SMSSimulation.tsx:418 | The character-by-character scan finds a keyword exactly when it occurs in the id (`includes`). |
| Text.ContainsFromWitness | src/components/SMSSimulation.tsx:418 | The scan from position i succeeds iff the keyword occurs at some position at or after i. |
| Text.MatchAtSlice | src/components/SMSSimulation.tsx:418 | The scan at one position compares exactly that slice of the id. |
| Text.ContainsAnyConcat | src/components/SMSSimulation.tsx:430-445 | Testing the link keywords and then the offer keywords is the same as testing both lists together. |
| Text.HasKeyword | src/components/SMSSimulation.tsx:418 | An id of the form a + keyword + b contains a keyword of the list. |
| Text.Lacks | src/components/SMSSimulation.tsx:418 | A keyword with a character that the id lacks does not occur in it. |
| Text.LacksExceptAt | src/components/EmailSimulation.tsx:448 | A keyword whose character appears once in the id, at a place where the keyword does not fit, does not occur in it. |
| Targets.FindFrom | src/components/SMSSimulation.tsx:418 | `find` returns the first flag at i or later whose id has a keyword (optionally an unfound one), or none when there is no such flag. |
| Targets.BodyTarget | src/components/SMSSimulation.tsx:416-422 | The body click passes an id only of an unfound flag with a body keyword. As written (first match), the flag is the first one whose id has a body keyword, and nothing is passed when that flag is already found, even if a later one is not. With the corrected picker it is the first unfound flag with a body keyword, and one is passed exactly when such a flag exists. |
| Targets.ButtonIds | src/components/SMSSimulation.tsx:400-459 | The sender button always passes the sender id. Every flag whose id has a link keyword gets a link button, and every flag whose id has an offer keyword gets an offer button. No other id is passed by a button. |
| Targets.Enabled | src/components/SMSSimulation.tsx:322-487 | The rendered guards, tied to the handlers they call. The sender button and the body can always be clicked, and any other button belongs to a flag of the example. Undo is shown exactly when `handleUndo` would take 25 points back; otherwise `handleUndo` would do nothing. Once the simulation is complete, neither navigation button is available. Next is shown exactly when the simulation is incomplete, every flag is found and `nextExample` would move. So the render supplies the all-found check `nextExample` lacks, and then the index moves up by one. Previous is shown exactly when the simulation is incomplete and `prevExample` would move, and then the index moves down by one. |
| Targets.Perform | src/components/SMSSimulation.tsx:473-493 | A control that is not rendered, or is disabled (see `Enabled`), does nothing and calls nothing. Every action keeps the example list non-empty and the index inside it. |
| Targets.Run | src/App.tsx:63-74 | After a list of actions, the progress record is the initial one with every callback applied in order. |
| RunProperties.PerformKeepsCover | src/components/SMSSimulation.tsx:206-296 | Any action keeps the points at or above what undo can take back. |
| RunProperties.RunKeepsPointsNonNegative | src/components/SMSSimulation.tsx:265-282 | Starting from a covered record (any non-negative total at mount), the points total is never negative after any list of actions. |
| RunProperties.PerformKeepsBadgesUnique | src/components/SMSSimulation.tsx:241-254 | Any action keeps the badge list free of duplicates. |
| RunProperties.RunKeepsBadgesUnique | src/components/SMSSimulation.tsx:241-254 | However the user plays a track with distinct badges, no badge is ever held twice. |
| RunProperties.BodyClickDiscovers | src/components/EmailSimulation.tsx:446-451 | The body click either does nothing or, with distinct ids, raises the found count by exactly one. So it never pays twice for a flag. |
| RunProperties.Presses | src/components/SMSSimulation.tsx:400 | n presses of one control: n actions, all that control. |
| RunProperties.SenderPressOnce | src/components/SMSSimulation.tsx:400 | On an incomplete example without the sender flag, one press of the sender button only sets the undo slot and pays 25 points: no flag changes. |
| RunProperties.SenderPressesPay | src/components/SMSSimulation.tsx:400 | On an example without the sender flag, and not all found, n presses of the sender button leave the examples and index unchanged and add n × 25 points. |
| Reachability.ReachableByIds | src/components/SMSSimulation.tsx:418-460 | Whether a flag has a click target depends only on the ids. |
| Reachability.MarkFindsMore | src/components/SMSSimulation.tsx:211-220 | Marking the id of an unfound flag raises the found count. |
| Reachability.ClickFinds | src/components/SMSSimulation.tsx:206-263 | A click on an unfound flag stays on the example, keeps the ids and other examples, finds at least one more flag, and reports any completion. |
| Reachability.TargetFor | src/components/SMSSimulation.tsx:400-460 | An unfound flag with a target has an enabled button or body click that clicks an unfound flag. |
| Reachability.FinishingPress | src/components/SMSSimulation.tsx:400 | On the last example with every flag found, the sender button completes the simulation and reports it. |
| Reachability.Advance | src/components/SMSSimulation.tsx:473-493 | If every flag ahead has a target, some enabled action completes the simulation or makes progress and keeps that property. |
| Reachability.RunCons | src/App.tsx:63-74 | A run is its first action followed by the run of the rest. |
| Reachability.CompletingActions | src/components/SMSSimulation.tsx:236-257 | If every flag ahead has a target, some list of actions completes the simulation, and the run reports the completion. |
| Keywords.UnknownSenderHasNoBodyKeyword | src/components/SMSSimulation.tsx:418 | 'unknown-sender' has none of 'urgent', 'threat', 'doesnt'. |
| Keywords.FakeUrgencyHasNoBodyKeyword | src/components/EmailSimulation.tsx:448 | 'fake-urgency' has none of 'urgent', 'language', 'scare'. |
| Keywords.FakeUrgencyHasNoButtonKeyword | src/components/EmailSimulation.tsx:460-477 | 'fake-urgency' has none of 'link', 'pay', 'prize', 'phone'. |
| Keywords.MicrosoftDoesntEmailLacksScare | src/components/EmailSimulation.tsx:448 | 'microsoft-doesnt-email' does not contain 'scare'. |
| Keywords.MicrosoftDoesntEmailHasNoBodyKeyword | src/components/EmailSimulation.tsx:448 | 'microsoft-doesnt-email' has none of 'urgent', 'language', 'scare'. |
| Keywords.MicrosoftDoesntEmailHasNoButtonKeyword | src/components/EmailSimulation.tsx:460-477 | 'microsoft-doesnt-email' has none of 'link', 'pay', 'prize', 'phone'. |
| Tracks.TracksWellFormed | src/components/SMSSimulation.tsx:241-254 | Each track's badges are distinct, and the cross-track badge is not among them. |
| Tracks.SmsCompletionFromScratch | src/components/SMSSimulation.tsx:236-257 | With no badge held, completing the text messages unlocks 'sms-guardian', 'security-novice' and 'eagle-eye' in that order. 'scam-buster' follows iff 'phishing-email-1' was completed. Then 'sms-scam-1' is reported, once. |
| Tracks.EmailCompletionNoScamBuster | src/components/EmailSimulation.tsx:263-279 | Completing the e-mails reports 'phishing-email-1' last and never unlocks 'scam-buster'. |
| Tracks.SenderFlagOnlyFirst | src/components/SMSSimulation.tsx:118-190 | In the second and third example of each catalogue, no flag has the track's sender id. So the sender button pays without finding anything there. |
| Tracks.BankSmsReachable | src/components/SMSSimulation.tsx:64-78 | Every flag of 'bank-sms' has a click target. |
| Tracks.DeliveryScamReachable | src/components/SMSSimulation.tsx:118-132 | Every flag of 'delivery-scam' has a click target. |
| Tracks.TaxRefundReachable | src/components/SMSSimulation.tsx:176-190 | Every flag of 'tax-refund' has a click target. |
| Tracks.SmsAllReachable | src/components/SMSSimulation.tsx:416-460 | At mount, every flag of the text-message catalogue has a click target. |
| Tracks.SmsCompletable | src/components/SMSSimulation.tsx:236-257 | From any progress record, some list of user actions completes the text-message simulation and reports 'sms-scam-1'. |
| Tracks.PrizeScamFlagUnreachable | src/components/EmailSimulation.tsx:154 | 'fake-urgency', the third flag of 'prize-scam', has no click target. |
| Tracks.TechSupportFlagUnreachable | src/components/EmailSimulation.tsx:203 | 'microsoft-doesnt-email', the first flag of 'tech-support', has no click target. |
| Tracks.ClickKeepsEmailStuck | src/components/EmailSimulation.tsx:233-285 | On the e-mail track as written, a click on any other id keeps 'fake-urgency' unfound and the simulation incomplete. |
| Tracks.PerformKeepsEmailStuck | src/components/EmailSimulation.tsx:446-495 | No user action finds 'fake-urgency' or passes the second e-mail. Every callback is `addPoints`. |
| Tracks.EmailRunStuck | src/components/EmailSimulation.tsx:500-520 | That stays so over any list of actions. |
| Tracks.EmailNeverCompletes | src/components/EmailSimulation.tsx:263-279 | As written, from mount no list of actions completes the e-mail simulation, reports 'phishing-email-1' or unlocks a badge, and it never gets past the second example. |
| Tracks.BankPhishingReachable | src/components/EmailSimulation.tsx:77-91 | With the corrected keywords, every flag of 'bank-phishing' has a click target. |
| Tracks.PrizeScamReachable | src/components/EmailSimulation.tsx:140-154 | With the corrected keywords, every flag of 'prize-scam' has a click target. |
| Tracks.TechSupportReachable | src/components/EmailSimulation.tsx:203-217 | With the corrected keywords, every flag of 'tech-support' has a click target. |
| Tracks.FixedEmailAllReachable | src/components/EmailSimulation.tsx:446-451 | With the corrected body picker, every flag of the e-mail catalogue has a click target. |
| Tracks.FixedEmailCompletable | src/components/EmailSimulation.tsx:263-279 | With the correction, from any record some list of actions completes the e-mail simulation and reports 'phishing-email-1'. |
| Simulation.Simulation.constructor | src/components/EmailSimulation.tsx:37-41 | Mounting gives the initial session and an empty callback log. |
| Simulation.Simulation.Emit | src/App.tsx:63-65 | A callback is appended to the log and run by the reducer; the component state is unchanged. |
| Simulation.Simulation.UnlockIfMissing | src/components/EmailSimulation.tsx:266-268 | Unlocks the badge iff the render-time record lacks it. |
| Simulation.Simulation.UnlockMissing | src/components/EmailSimulation.tsx:266-274 | The unlock test for each completion badge, in order, makes exactly the unlocks that `UnlockAbsent` lists. |
| Simulation.Simulation.UnlockCrossTrack | src/components/SMSSimulation.tsx:252-254 | Makes exactly the cross-track unlock that `CrossTrackEvents` lists. |
| Simulation.Simulation.ReportCompletion | src/components/EmailSimulation.tsx:263-279 | Makes exactly the completion callbacks. |
| Simulation.Simulation.AwardBonus | src/components/EmailSimulation.tsx:256-279 | The bonus, then on the last example the completion callbacks. |
| Simulation.Simulation.Award | src/components/EmailSimulation.tsx:250-279 | Makes exactly the callbacks of an accepted click. |
| Simulation.Simulation.HandleRedFlagClick | src/components/EmailSimulation.tsx:233-285 | The new state is `Click`'s. The log grows by `Click`'s callbacks, and the store has applied them. |
| Simulation.Simulation.HandleUndo | src/components/EmailSimulation.tsx:287-304 | The new state is `Undo`'s, with `Undo`'s callbacks logged and applied. |
| Simulation.Simulation.NextExample | src/components/EmailSimulation.tsx:306-311 | The new state is `Next`'s, with no callback. |
| Simulation.Simulation.PrevExample | src/components/EmailSimulation.tsx:313-318 | The new state is `Prev`'s, with no callback. |
| Simulation.Simulation.HandleBodyClick | src/components/EmailSimulation.tsx:446-451 | Does what the body click does in `Perform`. |
| Simulation.Simulation.Act | src/components/EmailSimulation.tsx:344-520 | Any user action, with the record the page was rendered with, does what `Perform` says: the same new state, with `Perform`'s callbacks logged and applied to the store. |
| Simulation.Simulation.Play | src/components/EmailSimulation.tsx:344-520 | A list of actions, each read against the store's current record, leaves the object, the store and the log where `Run` says. From a record without duplicate badges no badge is then held twice, and from a record that covers the undo slot the points are not negative. |
| Dashboard.Catalog | src/components/Dashboard.tsx:14-20 | Five entries in catalogue order with their ids and names. Each is `unlocked` iff the record holds its id. |
| Dashboard.CatalogIdsDistinct | src/components/Dashboard.tsx:14-20 | The five catalogue ids are distinct. |
| Dashboard.CatalogShape | src/components/Dashboard.tsx:14-20 | Whatever the record, the catalogue has five badges with pairwise distinct ids. |
| Dashboard.SimulationBadgesDisplayed | src/components/Dashboard.tsx:14-20 | Every badge either simulation can unlock has a catalogue entry. |
| Dashboard.UnlockShowsBadge | src/components/Dashboard.tsx:15-19 | An unlock turns its entry on and turns no entry off. |
| Dashboard.NextLevelPointsFixed | src/components/Dashboard.tsx:22 | `currentLevel * 100` is 100 whatever callbacks were made, since the level never changes. |
| Dashboard.PointsTowardNextLevel | src/components/Dashboard.tsx:108 | JavaScript `points % 100`: in [0, 100) for non-negative points, in (-100, 0] for negative ones, and differing from points by a multiple of 100. |
| Dashboard.Step | src/components/Dashboard.tsx:50-327 | A button moves to its target only from the screen it is rendered on. Anywhere else it changes nothing. Every press therefore stays put or follows one of the six moves `EdgesExactly` lists. |
| Dashboard.EdgesExactly | src/components/Dashboard.tsx:115-327 | There are exactly six moves: welcome to progress, progress to welcome, progress to training, training to progress, training to badges, and badges to training. |
| Dashboard.EdgesSymmetric | src/components/Dashboard.tsx:213-327 | Every move has a move back. |
| Dashboard.AllScreensReachable | src/components/Dashboard.tsx:12 | From welcome, every screen is reached in as many presses as its distance (0, 1, 2, 3). |
| Dashboard.BadgesOnlyFromTraining | src/components/Dashboard.tsx:219 | The badges screen is entered only from training. |
| Dashboard.DashboardView.constructor | src/components/Dashboard.tsx:12 | The dashboard mounts on the welcome screen. |
| Dashboard.DashboardView.Press | src/components/Dashboard.tsx:50-327 | A press sets the screen `Step` gives. |

Some lemmas are about the model's own folds `ApplyAll`, `BadgesOf` and
`CompletionsOf`, not about source lines, and serve as helpers without a
row: `SessionProperties.NoBadgesWithoutUnlock`,
`SessionProperties.NoCompletionsWithoutComplete`,
`SessionProperties.BadgeOfMember` and the `...Append` lemmas of
`Progress`.

### Behaviour of the code as written

Points in which the handlers do something other than a first reading of
the page might suggest:

- **Repeat clicks.** A click on a flag that is already found still pays 25
  points and records the id for undo. If the example's flags are all found,
  it pays the 50-point bonus again (`RepeatClickRewardsAgain`). Nothing
  guards against a second bonus.
- **Sender button.** It passes the same id on every example. Where that id
  is not a flag, every press pays 25 points and finds nothing
  (`SenderPressesPay`, `SenderFlagOnlyFirst`).
- **Undo after completion.** Undo is not refused once the simulation is
  complete.
- **Undo and the bonus.** Undo takes back only the flag reward, never the
  example bonus (`ClickThenUndo`).
- **Next.** `nextExample` does not itself check that every flag is found.
  Only the rendering of its button does (`Targets.Enabled`).
- **Duplicate badges.** `unlockBadge` appends without removing duplicates.
  The simulations test the record they were rendered with before each
  unlock. So duplicates are excluded only when that record is current
  (`ClickKeepsBadgesUnique`).
- **Level.** No reducer writes `currentLevel`, so the "Level" the
  dashboard shows stays 1 from the initial record and the next-level
  target stays 100 points (`LevelStaysOne`, `NextLevelPointsFixed`).

## Left out

- Rendering, styling, icons, message texts, titles, hints and descriptions of flags. An example is its id and its flags' ids.
- The celebration overlay and its 4-second timer, and the hints toggle. These are display state with no effect on rewards.
- Progress-bar widths and rounded percentages. These are floating-point display arithmetic.
- React's batched, asynchronous state updates. Each handler is one atomic step over the state before the click, and it reads `userProgress` as rendered. The state updates are made before the callbacks in `HandleRedFlagClick`; the order is not observable in this model.
- The remote progress hook, the database client, authentication, the profile page and the page header and navigation chrome. These are network I/O and UI. `src/hooks/useUserProgress.ts` and `src/lib/supabase.ts` are not part of this model.
- The application's switch between the dashboard and the two simulations (`currentView`) and the "Back to Home" button. They change which component is mounted. Coming back to a simulation remounts it: a fresh `Simulation` object starts from `Start` while the progress record is kept. A replay therefore pays again for every flag and calls `completeSimulation` again. Each remount is covered by the lemmas, which allow any starting record.
- Dashboard.NextLevelPoints: has no contract of its own. Its property is stated by `NextLevelPointsFixed`.

## Findings

| source | as written | input that shows it | evidently intended | confidence | as-written member | corrected member |
|---|---|---|---|---|---|---|
| src/components/EmailSimulation.tsx:448 | The flags 'fake-urgency' (line 154) and 'microsoft-doesnt-email' (line 203) have no click target. The body only matches 'urgent', 'language' and 'scare'. The buttons only match 'link', 'pay', 'prize' and 'phone'. | Any run: 'prize-scam' can never have every flag found, so Next never appears, and the e-mail simulation never completes, unlocks no badge and is never reported. | Every flag can be found, as on the text-message track: add 'urgency' and 'doesnt' to the body keywords, and let the body pick the first unfound flag with a keyword. | not executed | Tracks.EmailNeverCompletes | Tracks.FixedEmailCompletable |
