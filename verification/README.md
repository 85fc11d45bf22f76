# lintarr, modelled and proved in Dafny

lintarr reads a qBittorrent client and the Sonarr/Radarr instances that feed it, and decides from
their configuration alone whether the download queue can reach a state in which nothing can ever
start. This project models that decision procedure and the machinery around it, and proves what its
verdicts mean.

`dafny verify dfyconfig.toml` checks everything.

## How the model is laid out

Three levels, and the theorems that connect them:

- **The closed form.** `Facts`, `Outcomes`, `Combinator` and `QueueLiveness` are the checker: decoded
  JSON values (with Python's truthiness, `==` and NaN), known and unknown facts, three-valued premises,
  the six routes, the notes, and `Check`. `Verdicts` and `Quantifier` say what a FAIL, a PASS and a
  SKIP each entail; `Monotone` compares snapshots that know more and less, and `Earned` says which SKIPs a
  fuller reading could still have decided either way.
- **The simulator.** `QueueModel.Simulate` is the project's executable model of the queue, as an
  imperative method proved against a closed-form answer. `SimulatorRefinement` shows that the checker
  agrees with it over all integers. `ShareLimit` does the same for the model of one seed criterion.
- **The step semantics.** `QueueTrace` is a transition system: a `World` is a client as it is really
  configured, down to the category each indexer's torrents are filed under; torrents are grabbed, start when
  a slot is free, complete, upload, age, go slow, and are processed against share limits resolved through
  the torrent, its category, that category's parents and the global settings, and against an action resolved
  the same way. `Dead` means something is queued and no continuation of any length starts a download.
  `TraceLaws` says what every step keeps, and `WedgeTheorem.WedgeReachableIff` gives the exact closed form of
  a world. `Soundness` and `Completeness`
  connect it to the checker through `Describes`: the snapshot could have been read from this client, with
  whatever was not read left open - and with it whatever the checker never reads: where torrents are filed,
  and a category's own inactive limit and action. `Kindest` settles the verdicts that rest on unreadable seed
  criteria, and `KnownMisses` holds the concrete clients on which a verdict is wrong. `Ieee` and `SeedRatio`
  are the double arithmetic behind the ratio ceiling.

Around the decision: `Arr` and `FieldOrder` (collecting indexer facts from a possibly duplicated field
list), `Edge` and `EdgeRuns` (edge-triggered alerting with a state file that can be lost, corrupt or
unwritable), `Stack`, `StringOrder` and `Run` (assembling a run, with absent services sorted by name, and
the guarantee that nothing unread looks clean).

### The main results

- **When a client wedges** is decided exactly, for every client whose criteria could be read, in terms of
  what was read and of what the category each indexer files under resolves to
  (`Completeness.WedgeExactlyWhen`); from it, exactly when a PASS and when a FAIL is right
  (`Completeness.PassIsRightExactlyWhen`, `Completeness.FailIsRightExactlyWhen`).
- **FAIL is sound** for every client the snapshot could have come from, fully read or not, as long as
  some route is firm: it holds, and if it rests on seed criteria then some indexer of its shape has two
  criteria that could be read (`Soundness.FailIsSound`). Then a dead state is reachable from an empty
  queue exactly when the stack grabs anything at all. What the checker never reads of a category is a
  hypothesis, and there is no other way out (`Soundness.WaysOutOfAFail`): the category torrents are filed
  under arms an inactive limit of its own, or frees the slot by an action of its own.
- **When a FAIL over unreadable criteria is right** for every client the snapshot could have come from is
  decided exactly: if and only if it is still a FAIL with every such criterion read as a goal
  (`Kindest.FailIsRightForEveryClient`), which is the case exactly when a route is firm
  (`Kindest.KindestFailsIffFirm`).
- **There are just four ways out of a PASS** whose goals are in reach (`Completeness.WaysOutOfAPass`): the
  category torrents are filed under shields them from the action, from the inactive gate or from a global
  limit, or some category's own limit cleared the routes. Where none of them is open, PASS is live: from every
  reachable state some continuation starts a download (`Completeness.PassIsLive`). A PASS owed to a category's
  own limit is right for torrents filed under it (`Completeness.PassOwedToItsCategoryIsRight`).
- **A SKIP is earned**, in that the unread inputs could still be read so as to FAIL and so as to PASS, exactly
  when the snapshot FAILs with everything undecided read as what stops the queue and PASSes with it read as
  what keeps it moving (`Earned.SkipIsEarnedExactlyWhen`). A FAIL that is settled is never lost to an unread
  input, but for one pair of preferences (`Earned.SettledFailIsReported`), and there are just three ways to
  SKIP for nothing (`Earned.WaysToSkipForNothing`), each with a concrete snapshot in `KnownMisses`.
- **Every verdict reaches the exit code** (`Run.VerdictsReachTheExitCode`), and every payload key reaches its
  own fact (`Arr.ReadIndexer`, `Arr.CollectArr`).
- **The verdict is exact** on fully read snapshots of stacks whose categories neither shield nor rescue what
  is filed under them: with the categories struck out it is FAIL if a dead state is reachable and PASS if none
  is, so the verdict as given is right if and only if it stands without them (`Completeness.VerdictIsExact`).

### Hypotheses the source documents, and where they appear

- A category limit that overrides to unreachable, and a category's own inactive limit turned off, are known
  false passes: `Shielded`, excluded by `NoSourceShielded` in `PassNeverWedges`, `PassIsLive` and
  `VerdictIsExact`; the clients are `KnownMisses.UnlimitedCategoryIsMissed` and
  `KnownMisses.CategoryInactiveLimitIsMissed`. The category premise counts limits an overriding indexer never
  consults: `KnownMisses.UnconsultedLimitHidesAnOverride`.
- A category's own inactive limit is not read: in the FAIL direction `InactiveStaysOff` in `FailIsSound`.
- An unreadable criterion leans FAIL: hence `Firm`, and `KnownMisses.UnreadableCriterionCanFailWrongly`.
- An absent or null criterion means "defer", and an absent inactive gate means "off": clauses of
  `Describes`.
- Seed times fit Int32: `SeedTimesFit`, in the weaker form that no finite seed time exceeds the ratio
  ceiling.
- That seeders hold their slots, and that a slow torrent stops holding one, are the step semantics.

### Hypotheses the source does not document

- One category with a reachable limit of its own turns the category premise False for the whole client, so
  the three routes that read it are cleared for torrents filed under every other category too, although
  nothing stops those. An ordinary stack - no global limit, no seed goals, `ratio_limit: 1` on one category,
  torrents filed under another - is fully read, passes and wedges
  (`KnownMisses.OneReleasingCategoryHidesTheRest`); filed under that category, the same PASS is right
  (`KnownMisses.ReleasingCategoryFiledUnderIsRight`). Which it is cannot be told from the snapshot, which does
  not say where an arr files its torrents. `StandsWithoutCategories` tells, from the snapshot alone, whether a
  verdict depends on it.
- A category's own action, in both directions: `NoSourceShielded` and `ActionStaysOff`; the clients are
  `KnownMisses.CategoryActionIsMissed` and `KnownMisses.CategoryActionCanFailWrongly`.
- Every indexer of every collected arr feeds the client that is checked. With several download clients per
  arr - the common case, says `models.py` - an indexer's torrents may all go to another one, and the checker
  does not know. It is a clause of `Describes`: as many sources as indexers.

### Where the code and its documentation differ

- The ratio ceiling is measured for a torrent that downloaded one byte. One that downloaded n bytes - and
  re-downloaded data counts - reaches at most about 2^63/n, so a goal below the ceiling can still be out of
  reach for the torrents actually grabbed, and such a stack passes and wedges
  (`KnownMisses.GoalBeyondTheDownloadIsMissed`). `RatioGoalsInReach` is the hypothesis that excludes it; any
  ordinary ratio meets it for any ordinary download.
- The note on the inactive gate says that what it leaves unread, a category's own inactive limit, can only
  hide a FAIL, and the note on overridden ratios that its route can never fire on a stack that recovers. A
  category that arms an inactive limit where the global gate is off is released by it, and FAILs
  (`KnownMisses.CategoryInactiveLimitCanFailWrongly`).
- The note on the share-limit action says the one global value decides what reaching any limit does. A
  category's own action comes before it.
- `edge.py` says a state file that cannot be trusted raises `StateError`, which the command turns into a
  warning. Bytes that do not decode as text raise `UnicodeDecodeError`, which neither handler catches; the
  run ends with a traceback and status 1, before printing and with the file untouched. The model follows
  the code (`Edge.Load`, `Edge.RunStep`). Such a file never heals: left alone, it makes every later run exit
  1 without reporting anything, problems or none (`EdgeRuns.UndecodableNeverHeals`). That nothing goes
  quiet unreported (`RememberedWasPaged`, `QuietMeansAlreadyPaged`) holds with that case included; the
  rising-edge results (`LoudOnRisingEdges`, `OnePagePerBlock`) ask that the file the history starts from is
  not such a one, and no later one ever is.

## Model

| member | source | states |
|---|---|---|
| Outcomes.ExitCodeReports | src/lintarr/outcomes.py:63-77 | the code is 2 iff some finding is an ERROR, 1 iff none is and some is a FAIL, 3 iff strict, neither, and some is a SKIP or N/A |
| Outcomes.ExitCodeIsZeroIffQuiet | src/lintarr/outcomes.py:63-77 | the exit code is zero exactly when nothing in the alerting set was seen, so the two definitions of loud agree |
| Outcomes.WorstIsTheWorstSeen | src/lintarr/outcomes.py:23-29 | the run's outcome was seen and none seen is worse, ERROR over N/A over SKIP over FAIL over PASS; nothing seen is a PASS |
| Outcomes.PassExactlyWhenStrictZero | src/lintarr/outcomes.py:54-60 | outcome and exit code rank findings differently but agree on clean: PASS iff a strict run exits zero |
| Combinator.ConflictIf | src/lintarr/invariants/combinator.py:35-65 | a finding is built exactly when no two premises share a label; otherwise the duplicate-label error |
| Combinator.ConflictIfMeans | src/lintarr/invariants/combinator.py:47-65 | FAIL carries all premises and means all hold; SKIP names exactly the unread ones; an unknown dominates a False |
| QueueLiveness.RoutePremises | src/lintarr/invariants/queue_liveness.py:1013-1218 | every route has premises, and for no input do two of them share a label |
| QueueLiveness.FirstWith | src/lintarr/invariants/queue_liveness.py:1351-1354 | the earliest finding with an outcome, and none before it |
| Verdicts.WorstOfIsAnyOf | src/lintarr/invariants/queue_liveness.py:1304-1355 | merging the findings is the three-valued OR: FAIL if any proves it, SKIP only if none does and something is undecided |
| Verdicts.CheckByRoutes | src/lintarr/invariants/queue_liveness.py:1358-1383 | FAIL iff some route's strict conjunction holds, PASS iff every route is decided and fails |
| Verdicts.FailNamesTheEarliestProvedRoute | src/lintarr/invariants/queue_liveness.py:1304-1355 | a FAIL reports the premises of the earliest route whose premises all hold; every earlier route has one that does not |
| Verdicts.SkipNamesWhatWasUnread | src/lintarr/invariants/queue_liveness.py:1304-1355 | a SKIP names exactly the unread premises of the earliest undecided route, all earlier routes being cleared |
| Verdicts.FindingSaysExactly | src/lintarr/invariants/queue_liveness.py:1271-1355 | whose finding it is, which route it reports in tie-breaking order, and its detail word for word |
| Verdicts.PremisesSayWhatTheyName | src/lintarr/invariants/queue_liveness.py:1013-1218 | each route reports these premises in this order, and each carries the state of the thing it names |
| Verdicts.StarvationIsConclusive | src/lintarr/invariants/queue_liveness.py:476-491 | a slot limit at or below zero, other than -1, FAILs on its own however little else was read |
| Verdicts.OneFalsePremiseDisarmsTheRoute | src/lintarr/invariants/combinator.py:57-65 | any one premise turned False removes that route's FAIL |
| Verdicts.PassNamesEmptyArrs | src/lintarr/invariants/queue_liveness.py:1221-1239 | a PASS names in its detail exactly the arrs that answered with no indexers |
| Verdicts.PassReadEverything | src/lintarr/invariants/queue_liveness.py:366-408 | a PASS has read every input a verdict could turn on, with the one exact exception for max_active_downloads |
| Verdicts.NeverReadNeverPasses | src/lintarr/invariants/queue_liveness.py:107-127 | each needed client fact left unread, and an empty arr tuple, is on its own enough to prevent PASS; max_active_downloads unless queueing is off and max_active_torrents settles it |
| Completeness.PassReadEveryIndexer | src/lintarr/invariants/queue_liveness.py:144-146 | where only an indexer could clear the seeding route, a PASS has read each to grab no torrents or to have a goal |
| Quantifier.AnyTorrentIndexerMeans | src/lintarr/invariants/queue_liveness.py:821-865 | one proved contributor settles the existential, every indexer excluded clears it, no arr decides neither |
| Quantifier.NoCategoryMeans | src/lintarr/invariants/queue_liveness.py:935-963 | the category premise holds iff every category is shown not to release, and fails iff one is shown to |
| Facts.FalsyValues | src/lintarr/invariants/queue_liveness.py:177-216 | a read preference counts as off for exactly seven values |
| Facts.AtMostIsTheOrder | src/lintarr/invariants/queue_liveness.py:219-320 | the comparison behind every limit is the order of the reals between the infinities, NaN comparing with nothing |
| Quantifier.NoteNamesExactly | src/lintarr/invariants/queue_liveness.py:1242-1268 | the note names exactly the indexers, not excluded and without a goal, that carry an unusable criterion |
| Quantifier.FeedingMeans | src/lintarr/invariants/queue_liveness.py:1242-1258 | an indexer feeds the note iff a criterion is unusable, it has no goal, and it is not known to grab no torrents |
| Quantifier.NotesAreInOrder | src/lintarr/invariants/queue_liveness.py:1221-1268 | the notes about empty arrs and unreadable criteria follow the order of collection |
| Ieee.RoundIsNearestEven | docs/measurements/2026-10-12-qbittorrent-real-ratio-ceiling.md:126-141 | no double is nearer than the rounded value, and where one is as near the significand is even |
| Ieee.RoundIsADouble | docs/measurements/2026-10-12-qbittorrent-real-ratio-ceiling.md:126-141 | rounding gives a value of 53 significant bits |
| Ieee.RoundMonotone | docs/measurements/2026-10-12-qbittorrent-real-ratio-ceiling.md:126-141 | rounding to double, ties to even, is monotone |
| SeedRatio.RatioMonotone | docs/measurements/2026-10-12-qbittorrent-real-ratio-ceiling.md:87-107 | more uploaded or less downloaded never lowers the rounded ratio |
| SeedRatio.RatioIsTheNearestDouble | docs/measurements/2026-10-12-qbittorrent-real-ratio-ceiling.md:87-107 | the ratio is the double nearest to the quotient of the two counters, each taken to its nearest double first |
| SeedRatio.LargestRatio | docs/measurements/2026-10-12-qbittorrent-real-ratio-ceiling.md:126-145 | two to the sixty-third is attained, by INT64_MAX bytes against one |
| SeedRatio.RatioIsInfiniteExactlyWhen | docs/measurements/2026-10-12-qbittorrent-real-ratio-ceiling.md:138-160 | the ratio is infinite iff something was uploaded and nothing downloaded |
| SeedRatio.CeilingIsExact | src/lintarr/invariants/queue_liveness.py:158-320 | a limit is non-negative and met by some int64 upload and download iff CanBeReached accepts it |
| ShareLimit.StatesMeanWhatHappens | tests/model/share_limit.py:153-232 | the model's goal, deferring and overriding states are what the client does with the limit, for ratios and seed times |
| ShareLimit.SeedTimeIsOutExactlyWhen | src/lintarr/invariants/queue_liveness.py:288-305 | an overriding seed time can still be met iff it is finite and beyond the ratio ceiling, which Int32 excludes |
| ShareLimit.PredicatesAgreeWithTheModel | src/lintarr/invariants/queue_liveness.py:554-774 | the goal, override and unusable tests each select exactly one state of the independent model |
| WedgeTheorem.AbsorbedStep | src/lintarr/invariants/queue_liveness.py:18-27 | seeders that never stop and fill every slot stay so under every step, and no step starts a download |
| WedgeTheorem.WedgeIsReached | src/lintarr/invariants/queue_liveness.py:1-9 | from an empty queue, a run fills the slots with such seeders and leaves a torrent waiting |
| WedgeTheorem.ReleaseOne | docs/measurements/2026-10-05-sonarr-seed-ratio-range.md:164-174 | a finished torrent whose limit can be met is released by some run that disturbs nothing queued |
| WedgeTheorem.LiveQueue | src/lintarr/invariants/queue_liveness.py:8-12 | a world outside the closed form starts a queued download from every state |
| WedgeTheorem.WedgeReachableIff | src/lintarr/invariants/queue_liveness.py:8-12 | a dead state is reachable iff something is grabbed and the closed form of the world holds |
| TraceLaws.StepKeeps | docs/measurements/2026-10-05-sonarr-seed-ratio-range.md:147-174 | no step loses or changes a torrent; stages go forwards one at a time, and release needs a finished torrent, a met limit and a releasing action |
| TraceLaws.IdleIsSinceTheLastUpload | src/lintarr/invariants/queue_liveness.py:1072-1077 | over any run a torrent is never idle longer than since its last upload |
| TraceLaws.RatioDownloadIsBounded | docs/measurements/2026-10-12-qbittorrent-real-ratio-ceiling.md:87-107 | a ratio divides by what was downloaded when that is a hundredth of the torrent, and by its size otherwise |
| Soundness.CategoryChain | docs/measurements/2026-10-05-sonarr-seed-ratio-range.md:413-423 | climbing through parents from any category ends at an unreachable limit when every stored and the global limit are |
| Soundness.CategoryChainIsSound | src/lintarr/invariants/queue_liveness.py:873-963 | the flat category premise settles the recursive resolution of both limits, for any nesting |
| Soundness.UnreachableIsUnattainable | src/lintarr/invariants/queue_liveness.py:219-320 | a limit CanBeReached rejects never fires, for a torrent of any size |
| Soundness.UnreleasedNeverStops | src/lintarr/invariants/queue_liveness.py:777-818 | an indexer without a goal, in a category that releases nothing it does not override: no arm ever stops its torrents |
| Soundness.TableLeavesUnreleased | src/lintarr/invariants/queue_liveness.py:777-818 | the goal, defer and override table against globals and categories: nothing releases such an indexer, but for its category's inactive limit |
| Soundness.FirmWithoutANote | src/lintarr/invariants/queue_liveness.py:1242-1301 | a route that holds with no criterion unreadable rests on an indexer that could be read |
| Soundness.FirmIndexerIsUnreleased | src/lintarr/invariants/queue_liveness.py:1092-1185 | an indexer a firm seeder route found grabs, and nothing releases it iff its category arms no inactive limit of its own |
| Soundness.FirmIndexerNeverDrains | src/lintarr/invariants/queue_liveness.py:1092-1185 | then its torrents never stop, however much they download |
| Soundness.WaysOutOfAFail | src/lintarr/invariants/queue_liveness.py:1062-1081 | a firm FAIL over a client that cannot wedge is owed to a category's own inactive limit, or to its own action |
| Soundness.FailIsSound | src/lintarr/invariants/queue_liveness.py:1358-1383 | for every client described, categories' unread limits and actions aside, a firm route means FAIL, and a dead state is reachable iff anything is grabbed |
| Soundness.FailWithoutANoteIsSound | src/lintarr/invariants/queue_liveness.py:1271-1301 | so does a FAIL that carries no unreadable-criterion note |
| Kindest.KindestFailsIffFirm | tests/invariants/test_share_limit_reachability.py:170-196 | the check with every unreadable criterion read as a goal FAILs iff some route is firm |
| Kindest.EveryClientWedgesExactlyWhen | tests/invariants/test_share_limit_reachability.py:170-196 | every client the snapshot could be of wedges iff the check with criteria read as goals and categories struck out FAILs |
| Kindest.FailIsRightForEveryClient | tests/invariants/test_share_limit_reachability.py:170-196 | a FAIL is right for every client the snapshot could be of iff it survives reading every unreadable criterion as a goal |
| Completeness.PassStopsEverySource | src/lintarr/invariants/queue_liveness.py:777-818 | on a binding stack that passes without its categories, every torrent filed where nothing shields it is stopped by some arm |
| Completeness.WedgeExactlyWhen | src/lintarr/invariants/queue_liveness.py:8-27 | a readable client wedges iff it grabs and nothing can start, or slots bind and some indexer's category and criteria release nothing |
| Completeness.CheckersTableIsExact | src/lintarr/invariants/queue_liveness.py:777-818 | goals in reach, no limit an indexer's torrents carry can be met iff the checker's goal and override tests and its category say so |
| Completeness.PassIsRightExactlyWhen | src/lintarr/invariants/queue_liveness.py:893-907 | a PASS wedges iff slots bind and some grabbing indexer's category takes the action away or no limit it carries can be met |
| Completeness.FailIsRightExactlyWhen | src/lintarr/invariants/queue_liveness.py:1358-1383 | a FAIL over a stack that grabs is right iff nothing can start or some indexer absorbs the slots |
| Completeness.WaysOutOfAPass | src/lintarr/invariants/queue_liveness.py:893-963 | a PASS over an absorbing indexer is owed to its category shielding it, or to some category's own limit clearing the routes |
| Completeness.StandsUnlessACategoryReleases | src/lintarr/invariants/queue_liveness.py:935-963 | striking the categories out changes no FAIL, and no verdict when none releases its own torrents |
| Completeness.PassNeverWedges | src/lintarr/invariants/queue_liveness.py:1351-1383 | no indexer filing where it is shielded and goals in reach, a PASS without the categories means no run reaches a dead state |
| Completeness.PassOwedToItsCategoryIsRight | tests/invariants/test_share_limit_override.py:429-439 | a PASS is right when each indexer without a goal files under a category with a limit in reach it defers to |
| Completeness.LiveUnlessWedged | src/lintarr/invariants/queue_liveness.py:8-12 | a queue is live iff no dead state is reachable |
| Completeness.PassIsLive | src/lintarr/invariants/queue_liveness.py:1358-1383 | on the same terms every reachable queued state has a continuation that starts a download |
| Completeness.FullyReadIsDecided | src/lintarr/invariants/queue_liveness.py:1351-1355 | a fully read snapshot never SKIPs |
| Completeness.FailWithoutCategoriesIsSound | src/lintarr/invariants/queue_liveness.py:1092-1185 | a route firm without the categories is right of every client whose categories rescue nothing filed under them |
| Completeness.VerdictWithoutCategoriesIsExact | src/lintarr/invariants/queue_liveness.py:1358-1383 | fully read, neither shielded nor rescued: with the categories struck out, FAIL iff a dead state is reachable, PASS iff none is |
| Completeness.VerdictIsExact | src/lintarr/invariants/queue_liveness.py:1358-1383 | for such a client the verdict is exact iff it stands without the categories; otherwise it is a PASS over a dead state |
| KnownMisses.UnlimitedCategoryIsMissed | src/lintarr/invariants/queue_liveness.py:893-907 | a concrete client: category limit -1 beside a global ratio limit passes and wedges |
| KnownMisses.CategoryInactiveLimitIsMissed | src/lintarr/invariants/queue_liveness.py:1062-1071 | a concrete client: a category that turns its inactive limit off passes and wedges |
| KnownMisses.CategoryActionIsMissed | src/lintarr/invariants/queue_liveness.py:439-449 | a concrete client: a category whose action is super seeding; fully read, passes and wedges |
| KnownMisses.OneReleasingCategoryHidesTheRest | src/lintarr/invariants/queue_liveness.py:935-963 | a concrete client: one category with its own limit, torrents filed elsewhere; fully read, passes and wedges |
| KnownMisses.UnconsultedLimitHidesAnOverride | src/lintarr/invariants/queue_liveness.py:1142-1157 | a concrete client: an overridden ratio beside its category's ratio limit passes and wedges |
| KnownMisses.ReleasingCategoryFiledUnderIsRight | tests/invariants/test_share_limit_override.py:429-449 | a concrete client: filed under the category with its own limit, the PASS is right, and does not stand without it |
| KnownMisses.GoalBeyondTheDownloadIsMissed | src/lintarr/invariants/queue_liveness.py:158-169 | a concrete client: a goal at the ceiling with a two-byte download passes and wedges |
| KnownMisses.CategoryInactiveLimitCanFailWrongly | src/lintarr/invariants/queue_liveness.py:1062-1081 | a concrete client: a category arming its own inactive limit FAILs and cannot wedge |
| KnownMisses.CategoryActionCanFailWrongly | src/lintarr/invariants/queue_liveness.py:439-449 | a concrete client: a category whose action frees the slot FAILs and cannot wedge |
| KnownMisses.UnreadableCriterionCanFailWrongly | tests/invariants/test_share_limit_reachability.py:170-196 | a concrete client: an unreadable criterion FAILs with a note on a stack that cannot wedge |
| KnownMisses.SkipThatCannotFail | src/lintarr/invariants/combinator.py:57-65 | a concrete snapshot: categories unread beside a reachable global ratio limit SKIPs, and no reading FAILs |
| KnownMisses.SkipThatCannotPass | src/lintarr/invariants/queue_liveness.py:383-387 | a concrete snapshot: the ratio flag unread beside a limit of -1 SKIPs, and every completion FAILs |
| KnownMisses.SkipOverASwitchedOffIndexer | src/lintarr/invariants/queue_liveness.py:509-545 | a concrete snapshot: an unread protocol on an indexer read to be switched off SKIPs, and no reading FAILs |
| Monotone.VerdictsNeverRetract | src/lintarr/invariants/queue_liveness.py:177-216 | filling in undecided inputs keeps FAIL a FAIL and PASS a PASS |
| Monotone.PassSurvivesEveryReading | src/lintarr/invariants/queue_liveness.py:697-818 | no reading of unreadable seed criteria turns a PASS into a FAIL |
| Earned.ExtremesDecide | src/lintarr/invariants/combinator.py:47-65 | some completion FAILs (PASSes) iff the one that stops the queue (keeps it moving) does |
| Earned.SkipIsEarnedExactlyWhen | src/lintarr/invariants/combinator.py:47-65 | a SKIP could have gone either way iff the two extreme completions do |
| Earned.CouldFailExactlyWhen | src/lintarr/invariants/combinator.py:47-65 | a snapshot can become a FAIL only if some route has no premise known false; and then it can, switched-off indexers aside |
| Earned.SettledFailIsReported | src/lintarr/invariants/queue_liveness.py:177-216 | whatever does not FAIL could still PASS, unless the ratio flag is unread beside a limit out of reach |
| Earned.WaysToSkipForNothing | src/lintarr/invariants/combinator.py:57-65 | an unearned SKIP has every route settled false, or an unread ratio flag over a dead limit, or a switched-off indexer's protocol unread |
| QueueModel.Simulate | tests/model/queue.py:38-104 | the simulation terminates and returns exactly the closed-form answer, for every configuration and size |
| QueueModel.WedgedIsMonotone | tests/model/queue.py:44-48 | more torrents never unwedge a queue, and the upload limit never matters |
| QueueModel.OneSizeSettlesAll | tests/invariants/test_queue_liveness_sweep.py:29-35 | one size past the limit decides every size |
| SimulatorRefinement.ClosedFormIsTheSimulator | tests/invariants/test_queue_liveness_sweep.py:41-73 | past max_active_torrents, check FAILs iff the simulation ends wedged, over all integers |
| SimulatorRefinement.SimulatorIsTheTrace | tests/model/queue.py:38-104 | the simulator wedges at some size iff a dead state of the step semantics is reachable |
| Arr.SameValueIsEquality | src/lintarr/collect/arr.py:131-151 | Python equality of decoded values is equality up to how a number is written, but for a NaN on its own |
| Arr.SameValueTransitive | src/lintarr/collect/arr.py:131-151 | Python equality of decoded values composes, NaN and nesting included |
| Arr.StripIsExact | src/lintarr/collect/arr.py:79-92 | stripping takes all white space from both ends and nothing else |
| Arr.CompareWithFirstIsPairwise | src/lintarr/collect/arr.py:154-183 | comparing with the first value accepts exactly the lists that agree pairwise |
| Arr.ResolveIsTheMapping | src/lintarr/collect/arr.py:121-128 | grouping then resolving is the entry-by-entry meaning of the list |
| Arr.FieldsAsMapping | src/lintarr/collect/arr.py:95-128 | the loop returns the mapping, or fails exactly for a bad shape, an unusable name or disagreeing values of a read name |
| Arr.ReadIndexer | src/lintarr/collect/arr.py:29-44 | each fact is what its own payload key, or the items of its own field name, say; or the first thing wrong with the payload |
| Arr.CollectArr | src/lintarr/collect/arr.py:245-248 | every indexer of the payload in order, each as its own item reads, or the answer for the first that cannot be read |
| FieldOrder.AgreePermuted | src/lintarr/collect/arr.py:154-183 | pairwise agreement depends on the multiset of values only |
| FieldOrder.MappingPermuted | src/lintarr/collect/arr.py:95-128 | permuting entries keeps failure a failure and every fact that is read |
| FieldOrder.SameFactSameMeaning | src/lintarr/collect/arr.py:131-151 | interchangeable values are classified alike, 2 and 2.0 included |
| FieldOrder.FieldOrderNeverMatters | src/lintarr/collect/arr.py:95-183 | permuting any fields lists changes neither which arrs are collected nor any part of the finding |
| FieldOrder.ValuelessEntriesSayNothing | src/lintarr/collect/arr.py:95-120 | an entry without a value changes no mapping and no conflict |
| Edge.KeyIdentifiesTheProblem | src/lintarr/edge.py:42-43 | two findings share a key iff invariant, instance, conflict and outcome are equal |
| Edge.NewAlertsAreExact | src/lintarr/edge.py:52-57 | the new alerts are the loud findings whose key was not remembered |
| Edge.NewAlertsInOrder | src/lintarr/edge.py:52-57 | the new alerts keep the order of the findings |
| Edge.EdgeExitCodeReportsNew | src/lintarr/edge.py:60-65 | over new problems only: 2 iff some ERROR is new, 1 iff none is and some FAIL is, 3 iff strict, neither, and some SKIP or N/A is |
| Edge.LoudIffSomethingIsNew | src/lintarr/edge.py:60-65 | such a code is non-zero iff some current problem was not remembered |
| Edge.FirstRunIsAsLoud | src/lintarr/cli.py:395-406 | with nothing remembered the edge-triggered code reports what the level-triggered one does |
| Edge.SavedStateReadsBack | src/lintarr/edge.py:68-112 | parsing what was saved gives back exactly the saved keys, in whatever order they were written |
| Edge.TrustedExactlyWhen | src/lintarr/edge.py:68-80 | which documents are trusted as state, and exactly the keys they say |
| Edge.WrittenAs | src/lintarr/edge.py:28-43 | the field names and words a state file is written in |
| Edge.StateFile.SaveCurrent | src/lintarr/edge.py:98-112 | a save stores exactly the keys, a failed one changes nothing |
| Edge.CheckCommand | src/lintarr/cli.py:372-425 | one run: load, compare, save; its code and the state it leaves, for every state of the file |
| EdgeRuns.RememberedWasPaged | src/lintarr/cli.py:283-307 | under lost, corrupt and unwritable state and changing strictness, every remembered problem was paged by some run |
| EdgeRuns.QuietMeansAlreadyPaged | src/lintarr/edge.py:1-12 | a zero exit over a current problem means an earlier run paged it |
| EdgeRuns.RewritesExactlyWhen | src/lintarr/cli.py:398-425 | a run with news rewrites the file iff it is writable and decodes, and then it says what the run found |
| EdgeRuns.UndecodableNeverHeals | src/lintarr/edge.py:82-95 | an undecodable file left alone makes every later run exit 1 and report nothing; no other file becomes one |
| EdgeRuns.OutageForgetsNothing | src/lintarr/cli.py:423-425 | over any stretch of failed saves each run exits 2 against the old state, and the first save is loud about what is new since before it |
| EdgeRuns.LoudOnRisingEdges | src/lintarr/edge.py:1-12 | undisturbed, run i reports, code and all, exactly the problems present at i and absent at i-1 |
| EdgeRuns.OnePagePerBlock | src/lintarr/edge.py:1-12 | undisturbed, a problem pages once per maximal block of consecutive runs it is present in |
| Stack.CollectStack | src/lintarr/collect/stack.py:16-41 | the snapshot is every successful answer in order and one labelled row per failure |
| Stack.EveryAnswerIsAccountedFor | src/lintarr/collect/stack.py:23-39 | entries and error rows together number the instances |
| Stack.AnswerIsRecorded | src/lintarr/collect/stack.py:23-39 | an instance that answered is in the snapshot, one that failed has its own labelled row |
| Stack.LabelIdentifiesTheInstance | src/lintarr/collect/stack.py:23-39 | a label names one instance: equal labels have equal kinds and names |
| Run.RunChecks | src/lintarr/run.py:116-137 | the check of each client in order against the collected arrs, one SKIP per absent service in sorted order, one ERROR per error row, no others |
| Run.VerdictsReachTheExitCode | src/lintarr/run.py:116-137 | the run exits 1 iff some client's check FAILs and nothing failed to read, 2 iff something did, and strictly 0 iff every client PASSes and nothing is absent |
| StringOrder.SortedListing | src/lintarr/run.py:79 | every string of the set once, in code-point order |
| StringOrder.LexIsFirstDifference | src/lintarr/run.py:79 | strings compare by their first differing character, a prefix first |
| Run.KindOfLabel | src/lintarr/run.py:56-61 | splitting a label at its first bracket recovers the kind for every instance name |
| Run.CollectedIffAnswered | src/lintarr/run.py:50-53 | a service counts as collected iff one of its configured instances answered |
| Run.AttemptedIffFailed | src/lintarr/run.py:56-61 | a service counts as attempted iff one of its configured instances failed |
| Run.AbsentIffNeverConfigured | src/lintarr/run.py:64-80 | a declared service is absent iff no instance of it was configured; a configured one answered or failed |
| Run.UncollectedIsReported | src/lintarr/run.py:64-80 | a declared service that produced nothing has an error finding or an absent finding |
| Run.AbsentAndErrorExclude | src/lintarr/run.py:64-80 | the kind of a failed instance is never also reported absent |
| Run.NoSilentGreen | src/lintarr/run.py:116-137 | a declared service not collected, or an instance that failed, makes the strict exit code non-zero |
| Run.NoArrSkipIsNotAnOverride | src/lintarr/invariants/queue_liveness.py:1340-1347 | with no arr collected, the surfaced SKIP never names an override premise |
| Run.NotApplicableExactlyWhen | src/lintarr/run.py:83-113 | N/A iff a SKIP of the seeding conflict naming only the arr premise, with no arr declared or collected |
| Run.RelabelStaysLoud | src/lintarr/run.py:83-113 | the relabel changes the outcome and the detail and nothing else, and keeps a strict run as loud |

## Left out

- CheckCommand: printed output, the JSON payload and the `new` field are not modelled, only the code and the state.
- FieldsAsMapping: the error says which check failed, not the message text or the field name in it.
- CollectArr: the version read that precedes the indexer list, and its failure, belong to the adapter oracle of `Stack`.
- SaveCurrent: the temporary file and the replacing move are one step that succeeds or changes nothing; keys are written in any order.
- RunStep: a state file nested deeply enough to exhaust the JSON decoder's recursion is not among the contents modelled.
- SimulatorIsTheTrace: speaks about torrents of one byte, for which the sweep's ratio limit of 1.5 is in reach.
- Premise labels and conflicts are enumerations, and a finding's detail is a sequence of notes instead of joined text.
- Fact provenance (source, time, service version) and the versions of instances: carried by the source and never decided on.
- HTTP transport, login and ban handling, body decoding: an oracle that answers with facts or an error.
- Environment parsing, rendering, the "Therefore" texts and the command-line parser.
- RatioDownload: the one-percent test is made in exact arithmetic, not in doubles, and a download counter no longer moves once a torrent has finished.
- An arr that moves a torrent to another category after import: a torrent keeps the category it was filed under.
- The season-pack seed time, which a full-season pack carries in place of the seed time; the checker excludes it too.
- A limit on active uploads: the step semantics ignores it, as the simulator and the checker do.
- Stopped torrents an operator restarts by hand, and torrents added by hand rather than grabbed from an indexer.
- Whether real seeders absorb every slot is not settled here; it is the step semantics, as in the source.
- Exponent range limits of doubles: every rounded value is zero or between 2^-63 and 2^63.
