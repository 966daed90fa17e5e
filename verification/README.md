# Verified models of the platform's state machines, folds and evidence checks

A Dafny 4.11 project that models the parts of the repository whose correctness depends on order,
state or interleaving, and proves what they promise over every input, every run or every interleaving.
`dafny verify dfyconfig.toml` checks the whole project.

| files | what they model |
|---|---|
| `lock_constraints`, `lock_orders` | the dependency closure behind the hosted image's lock file, its rendering, and every order the closure could be walked in |
| `state_store`, `watchlist`, `evolution`, `collections`, `collection_slugs`, `lab_model`, `lab_workflow`, `lab_graph`, `project_service`, `project_runs` | the locked project state file, its clients, and all of them together under concurrency |
| `claim_consolidation`, `claim_ingestion`, `event_dedupe`, `entity_resolver` | the memory folds: claims, their history, duplicate events, entities |
| `observations`, `release_evidence`, `weights_manifest`, `run_ledger` | acceptance of release evidence, the weights manifest, the evaluation ledger |
| `live_review`, `host_preferences`, `percentile` | the review watcher, the desktop preference queue, the latency summary |
| `stable_ids` | the ids hashed from normalized, joined parts that sessions and collections rely on |
| `wrappers`, `texts`, `ordering` | option and result types, trimming, sorted unique lists |

Code that updates state step by step is a method or a class method proved against a specification
function; the theorems are lemmas about those functions and about runs of them. Concurrency is a
transition function over labelled steps, so a run is a list of labels. Lemmas carry
`{:induction false}`: every induction is written out.

## What is assumed

The digest inside a stable id does not collide, and case folding keeps the laws named in
`StableIds.Faithful`; the trimming, folding and joining of the parts is modelled, so that ids can be shared
by different parts. Checksums and SHA-256 are functions (injective only where a lemma says so); JSON written
and read back is the same value; clocks do not run backwards; name canonicalization, marker evaluation,
similarity scores, slugs and case folding of names are functions with just the laws named in `Laws`,
`ValidCache` and `GoodLibrary`. Claim confidences and scores are reals. Times in the watcher and samples in
the latency summary are integers in a unit that divides them all, which exists for any finite set of floats.

## Where the code and its promise part ways

Each of these is stated exactly, with the condition under which the promise holds.

- Evidence merged into a claim after it was contradicted in the same run is lost in the last-wins
  collapse: `mark_contradicted` results are appended behind the copy they were made from and never
  read again (`ClaimIngestion.EvidenceOutcome`, `ClaimIngestion.MergeAfterContradictionIsLost`).
  For the same reason a claim's history leads to the stored claim only under an exact condition: it was
  not contradicted; or its last contradiction is the only logged one and the last thing logged; or no
  contradiction was logged and the claim's line ends with the standing the last one had found
  (`ClaimIngestion.HistoryChainsIff`, broken at `ClaimIngestion.MergeAfterContradictionBreaksLog`).
- `dedupe_events` never marks a kept event exactly for symmetric similarity
  (`EventDedupe.KeptSafeIffSymmetric`). The Postgres query takes events of the same type or topic, and those
  whose title or summary contains the event's own as an `ILIKE` pattern, the latest first and cut by a
  limit. Uncut answers are symmetric exactly when likeness goes both ways among the stored events
  (`EventDedupe.UncutKeptSafeIff`); a pattern (`EventDedupe.PatternMarksKept`) and a cut
  (`EventDedupe.CutMarksKept`) each get a kept event marked.
- A watchlist `patch` that revives an archived item can give an owner two live items for one project
  (`Watchlist.PatchKeepsOneWatchIff`, `Watchlist.ReviveBreaksOneWatch`).
- A lab session's graph is sound exactly when no two of its cases read alike, trimmed and case folded, and
  none reads "problem" or like the answer to one of its questions (`LabGraph.FreshSessionSoundIff`, broken
  at `LabGraph.CaseFoldingRepeatsIds`). A case that reads "solution" loses its node when the solution is
  generated (`LabGraph.CasesStayIff`).
- A new collection hides another one exactly when its id is taken (`Collections.AppendKeepsSoundIff`). That
  happens when a shipped collection has that very id, or when one collection was created under the slug
  "generated" by an author who reads like the other's slug, a bar and its author
  (`Collections.NewIdTakenIff`, at `Collections.BarInAuthorHidesCollection`).
- Two shown collections can end up with one slug: exactly by adding an item to an entry whose slug is shown
  under another id, which a hidden entry's can be (`CollectionSlugs.ReachableSlugsDistinctIff`, at
  `CollectionSlugs.SlugShownTwice`).
- `verify_marker_weights_manifest` rejects what `build_marker_weights_manifest` has just written when
  a file's path begins or ends with white space, since reading trims the path
  (`WeightsManifest.BuildVerifiesIff`).
- The lock's pins depend on the order in which the closure happens to visit its keys exactly when two
  distributions claim one canonical name with different versions and neither's visit has to wait for the
  other's (`LockOrders.PinsIndependentIffNoRivals`, at `LockOrders.SampleOrdersDisagree`).
- A read that fails inside `update` counts as an empty file, and the update then stores its result over
  whatever was there (`StateStore.FailedReadOverwrites`). The stored state is what the callers meant exactly
  when every committed update that ran on a failed read would have computed the same from what was stored
  (`StateStore.NothingLostIff`), so always for those that answer every state as the empty one
  (`StateStore.BlindReadsHarmlessIff`).
- `load` then `save` is what `update` would have stored exactly when the change cannot tell the state at the
  load from the state at the rename (`StateStore.LoadThenSaveIsUpdateIff`), so in every run only if it is
  constant (`StateStore.LoadThenSaveSafeIffConstant`); otherwise the commits in between are lost, as in
  `StateStore.LoadThenSaveLosesAnUpdate`.

## Model

| member | source | states |
|---|---|---|
| LockConstraints.Closure | deploy/hosted/lock_api_constraints.py:77-106 | the worklist ends; pins are exactly versions of reachable installed distributions, as some visiting order leaves them, every reachable name is pinned, and the missing list is the ascending list of uninstalled applicable roots |
| LockConstraints.PinsDeterminedIffNoConflict | deploy/hosted/lock_api_constraints.py:77-106 | knowing only which keys are reachable, the pins are determined iff no two reachable distributions claim one name with different versions |
| LockOrders.WalksVisitOrders | deploy/hosted/lock_api_constraints.py:84-105 | whichever entry is popped next, the visiting orders are exactly those in which each key is a root or required by an earlier one and nothing reachable is left out |
| LockOrders.PinsIndependentIffNoRivals | deploy/hosted/lock_api_constraints.py:84-105 | all visiting orders leave the same pins iff no two claimants of one name with different versions can each be visited last, that is, on neither does another claimant depend |
| LockOrders.NoConflictIndependent | deploy/hosted/lock_api_constraints.py:84-105 | without a conflict all visiting orders leave the same pins |
| LockOrders.RequiredClaimantWins | deploy/hosted/lock_api_constraints.py:84-105 | of two claimants the one that is reached only through the other is pinned in every order, conflict or not |
| LockOrders.SampleOrdersDisagree | deploy/hosted/lock_api_constraints.py:84-105 | a concrete environment in which two visiting orders pin different versions |
| LockConstraints.WellNamedPins | deploy/hosted/lock_api_constraints.py:84-105 | when distributions are installed under their own canonical names, exactly the reachable installed names are pinned, each to its version |
| LockOrders.ListingMattersIffRivals | deploy/hosted/lock_api_constraints.py:77-106 | listing roots, requirements or installed metadata in another order changes no pin iff no two claimants of one name with different versions can each be visited last |
| LockOrders.LockIgnoresOrder | deploy/hosted/lock_api_constraints.py:77-106 | without such rivals what the closure returns, pins and missing names, does not depend on the order in which anything is listed |
| LockConstraints.Render | deploy/hosted/lock_api_constraints.py:109-120 | the file is the header and one line per pin in ascending order of name |
| LockConstraints.RenderIdentifiesReleases | deploy/hosted/lock_api_constraints.py:109-120 | two lock files are equal iff their pins agree up to local version labels |
| StateStore.StepKeepsInv | backend/projects/repository.py:100-131 | every step, failed reads and writes included, keeps: only the lock's holder is inside, and what it has read, computed or written is still current, or the empty state after a failed read |
| StateStore.StoredIsFoldOfCommits | backend/projects/repository.py:114-153 | in every interleaving with crashes, raising updaters and failing reads and writes, the stored state is the fold of the committed operations in rename order, one on a failed read starting from the empty state |
| StateStore.NothingLostIff | backend/projects/repository.py:114-153 | at every point that fold is the plain one, each operation applied to what the others left, iff every commit on a failed read would have computed the same from what was stored |
| StateStore.BlindReadsHarmlessIff | backend/projects/repository.py:114-153 | failed reads of one updater do no harm, whatever is stored and committed, iff wherever it does not raise it answers as it answers the empty state |
| StateStore.FailedReadForgets | backend/projects/repository.py:149-153 | a commit on a failed read makes the stored state independent of everything before it |
| StateStore.FailedReadOverwrites | backend/projects/repository.py:114-153 | an uncontended update whose read fails stores its updater's answer to the empty state |
| StateStore.LoadsSeeCommittedPrefixes | backend/projects/repository.py:104-108 | every lock-free load that can read the file returns the fold of a committed prefix, and later ones see longer prefixes |
| StateStore.MutualExclusion | backend/projects/repository.py:261-295 | at most one process is between taking and releasing the lock |
| StateStore.ReturnsAreCommits | backend/projects/repository.py:114-131 | a process's commits are exactly its returned calls in order plus at most one unreported: a call that returns was committed once, one that raises never |
| StateStore.UpdaterInvariantsHold | backend/projects/repository.py:104-153 | a property of the empty state that each updater keeps holds of everything any load returns in any interleaving |
| StateStore.SaveGoesThrough | backend/projects/repository.py:110-131 | an uncontended save stores its state, frees the lock and leaves other processes alone |
| StateStore.LoadThenSaveIsUpdateIff | backend/projects/repository.py:104-121 | a load followed by a save leaves out every commit in between; in a given run it stores what an update would have stored iff the change maps the two states alike, so when nothing was committed in between |
| StateStore.LoadThenSaveSafeIffConstant | backend/projects/repository.py:104-121 | it does so in every run, whatever others commit, iff the change is constant |
| StateStore.LoadThenSaveLosesAnUpdate | backend/projects/repository.py:104-121 | of two clients that load one state and save f and g of it the second stores g of what it loaded; the first's change survives iff g undoes it |
| Watchlist.Add | backend/projects/watchlist.py:21-75 | the search, the rebuilding loop and the append yield the specified list and saved item; an unknown project is refused |
| Watchlist.AddKeepsOneWatch | backend/projects/watchlist.py:27-72 | adding keeps at most one live item per owner and project |
| Watchlist.AddEstablishesWatch | backend/projects/watchlist.py:27-72 | afterwards the owner has a live item for the project with the requested reason |
| Watchlist.Patch | backend/projects/watchlist.py:77-108 | the loop patches exactly the targeted items |
| Watchlist.PatchKeepsOneWatchIff | backend/projects/watchlist.py:77-108 | a patch keeps one watch iff it does not revive an archived item beside another of the same watch |
| Watchlist.ReviveBreaksOneWatch | backend/projects/watchlist.py:21-108 | from an empty list: watch, archive, watch again, set active, for any project and owner, ends with two live items |
| Watchlist.Refresh | backend/projects/watchlist.py:110-139 | the loop refreshes exactly the targeted items of known projects |
| Watchlist.RefreshKeepsOneWatch | backend/projects/watchlist.py:110-139 | refreshing keeps one watch |
| Watchlist.DeleteKeepsOneWatch | backend/projects/watchlist.py:141-155 | deletion removes exactly the targeted items and keeps one watch |
| Evolution.RecordInteraction | backend/projects/evolution.py:11-41 | the event is appended; every earlier proposal is kept; exactly one is added iff both thresholds are met and there is no recommendation yet |
| Evolution.ProposalIsMadeOnce | backend/projects/evolution.py:11-41 | at most one recommendation proposal ever, made once both thresholds are met, earlier proposals kept |
| Collections.UniqueSlug | backend/projects/collections.py:229-237 | the search ends with the base if free, else the smallest free numbered suffix from 2, never a taken slug |
| Collections.MergedCollections | backend/projects/collections.py:219-226 | the dictionary merge has distinct ids and holds only given collections |
| Collections.AddItem | backend/projects/collections.py:67-103 | the first collection of that id or slug gets the item; none, or an invalid item, is reported |
| Collections.ReplaceCollection | backend/projects/service.py:382-393 | exactly the entries of that id are replaced, else the collection is appended |
| Collections.CreateCollection | backend/projects/service.py:214-226 | refused iff title or description is blank; else the collection asked for is appended under a slug nobody sees, and exactly one more is shown iff its id is free |
| Collections.AddCollectionItem | backend/projects/service.py:228-247 | nothing changes if no shown collection has the name, else exactly one shown entry grows by one item under its id and slug |
| Collections.MergedIntoMembers | backend/projects/collections.py:219-226 | merging by id: the last value of each added id, untouched others |
| StableIds.BarFreePartsShareIff | backend/foundation/primitives/ids.py:28-60 | parts without bars share an id iff there are as many and they are pairwise equal after trimming and case folding |
| StableIds.SomeHasherIsFaithful | backend/foundation/primitives/ids.py:28-60 | the laws assumed of folding and digest can hold together |
| Collections.MintedIdsCollideIff | backend/projects/collections.py:50-118 | ids of created and of generated collections are equal iff slug and normalized author are; one of each kind iff the created slug is "generated" and its author reads like the other's slug, a bar and author |
| Collections.NewIdTakenIff | backend/projects/collections.py:50-118 | the id minted for a fresh slug is taken iff a shipped collection has it or a user's collection is crossed with it in that way |
| Collections.BarFreeAuthorsNeverCollide | backend/projects/collections.py:50-118 | while no author's name holds a bar, only a shipped collection can have taken a new id |
| Collections.BarInAuthorHidesCollection | backend/projects/collections.py:50-118 | a collection "Generated", created by an author whose name is "foo", a bar and "bob", is no longer shown once "bob" generates "foo" |
| Collections.AppendKeepsSoundIff | backend/projects/service.py:214-226 | creating keeps the invariant, hides nothing and shows exactly one collection more, each iff the new id is free |
| Collections.EachOperationChangesOneEntry | backend/projects/service.py:214-261 | create and generate add one shown entry iff they take no id; adding an item changes one entry, same names, one item more |
| Collections.ExecKeepsSoundIff | backend/projects/service.py:214-261 | every operation keeps the invariant, and everything already shown under its id and slug, iff it takes no id |
| Collections.RunSoundIff | backend/projects/service.py:214-261 | over every run the invariant holds throughout, and nothing shown is ever hidden, iff no operation takes an id |
| CollectionSlugs.ReachableCountsRight | backend/projects/collections.py:38-194 | in every reachable state, without any condition, each of the users' collections counts its items right |
| CollectionSlugs.ExecKeepsSlugsIff | backend/projects/service.py:214-261 | an operation keeps the shown slugs distinct, in any state and whatever ids are taken, iff it does not add an item to an entry whose slug is shown under another id |
| CollectionSlugs.ReachableSlugsDistinctIff | backend/projects/collections.py:38-226 | shown slugs are distinct at every point of a run iff the shipped ones are and no operation of the run is such an addition |
| CollectionSlugs.NoneTakenNoneRepeats | backend/projects/collections.py:38-226 | a run that takes no id has no such addition |
| CollectionSlugs.SlugShownTwice | backend/projects/collections.py:67-103 | a concrete run of four operations after which two shown collections have one slug |
| CollectionSlugs.StaysShownIff | backend/projects/collections.py:219-226 | a collection once shown stays shown under its id and slug iff no operation since put another slug under its id, whatever happened to the others |
| Collections.ShownStaysShown | backend/projects/collections.py:219-226 | over every run that takes no id a shown collection stays shown under its id and slug |
| LabWorkflow.RebuildSessions | backend/projects/lab.py:173-224 | the rebuilding loop replaces the addressed sessions, or stops with the first error in list order |
| LabWorkflow.ProjectLabService.StartSession | backend/projects/lab.py:136-161 | a blank problem is refused; otherwise one new session is appended |
| LabWorkflow.ProjectLabService.AnswerQuestion | backend/projects/lab.py:169-226 | an invalid answer or unknown question changes nothing; otherwise the answered session is stored, and the one returned is the last stored under the id and holds the trimmed answer, or none has the id |
| LabWorkflow.ProjectLabService.GenerateSolution | backend/projects/lab.py:262-303 | an unready session is refused; otherwise the last session stored under the id is returned with the very solution it now holds, or none has the id |
| LabWorkflow.ProjectLabService.SaveSession | backend/projects/lab.py:305-333 | a session without a solution is refused; otherwise the last session stored under the id is returned with the status asked for, or none has the id |
| LabWorkflow.ChangeEvolves | backend/projects/lab.py:80-129 | each operation keeps stored workflow fields equal to the derived ones; closed implies a solution; solutions never change |
| LabWorkflow.ExecStep | backend/projects/lab.py:136-333 | an operation keeps every session consistent, evolves the addressed one and leaves the others untouched |
| LabWorkflow.RunsEvolve | backend/projects/lab.py:136-333 | from any prefix of a run to any later one: never back to active, a solution never changes, answers stay |
| LabWorkflow.SecondGenerateIsRefused | backend/projects/lab.py:265-302 | generating for an id one of whose sessions has a solution is refused and changes nothing |
| LabWorkflow.UnansweredShrinks | backend/projects/lab.py:80-129 | the unanswered set only shrinks, strictly when a required question is answered |
| LabWorkflow.AdviceMakesProgress | backend/projects/lab.py:80-129 | doing what next_action says succeeds and leaves fewer steps |
| LabWorkflow.FollowingAdviceFinishes | backend/projects/lab.py:80-129 | following next_action ends, with a solution, within two steps more than there are open questions |
| LabGraph.FreshGraphUniqueIff | backend/projects/lab.py:413-446 | a new graph has unique node ids iff no two case ids normalize alike and none normalizes to "problem" |
| LabGraph.CaseFoldingRepeatsIds | backend/projects/lab.py:413-446 | one case called "Problem", or "a" beside "A", gives two nodes one id |
| LabGraph.FreshSessionSoundIff | backend/projects/lab.py:136-161 | a new session's graph and questions are sound iff, besides, no case reads like a question's id, a bar and "answer" |
| LabGraph.AnswerKeepsGraph | backend/projects/lab.py:173-226 | answering keeps unique nodes, sound edges, one feedback node with the latest answer, focus on a present node, and every case's node |
| LabGraph.GenerateKeepsGraph | backend/projects/lab.py:265-302 | generating keeps the graph sound; a case keeps its node iff it does not read "solution" |
| LabGraph.SessionSoundIff | backend/projects/lab.py:136-302 | over every run one session is sound from its start on iff it was started on good cases, whatever the other sessions were started on |
| LabGraph.CasesStayIff | backend/projects/lab.py:265-302 | all selected cases of a session started on good ones have their nodes, once there is a solution iff none reads "solution" |
| ProjectService.CommandKeepsGoodIff | backend/projects/service.py:214-306 | a command that goes through keeps the joint invariant of watchlist, proposals, collections and sessions iff it revives no archived item beside another of its watch, takes no id and starts no session on bad cases |
| ProjectRuns.EveryLoadIff | backend/projects/repository.py:100-153 | in any interleaving of any commands from a missing file, each part of the state (watchlist, proposals, item counts, shown slugs, collections, workflow fields, lab graphs) is in order at every load iff every commit was safe for that part on the state it saw, whatever it did to the others |
| ProjectRuns.AtMostOneProposal | backend/projects/evolution.py:11-41 | without any condition no load ever returns two recommendation proposals |
| ProjectRuns.WorkflowIsDerived | backend/projects/lab.py:80-129 | without any condition every load returns sessions whose stored workflow fields are the derived ones |
| ProjectRuns.OneWatchIff | backend/projects/watchlist.py:21-155 | every load returns one live item per owner and project iff no committed patch revived an archived item beside another of its watch |
| ProjectRuns.EveryLoadIsGoodIff | backend/projects/repository.py:100-153 | all parts are in order at every load iff no commit revives such an item, takes an id or starts a session on bad cases |
| ProjectRuns.CountsAreRight | backend/projects/collections.py:38-194 | without any condition every load returns users' collections that count their items right |
| ProjectRuns.LoadsShowDistinctSlugsIff | backend/projects/collections.py:38-226 | every load shows collections under distinct slugs iff the shipped ones are distinct and no commit added an item to an entry whose slug was shown under another id |
| ProjectRuns.SessionSoundIff | backend/projects/lab.py:136-303 | in any interleaving one session's graph is sound at every load from its start on, until a commit on a failed read drops it, iff it was started on good cases; the start itself may have run on a failed read |
| ProjectRuns.EverySessionHasItsStart | backend/projects/lab.py:136-161 | every session a load returns, whatever failed before, was started by a commit of the run with no commit on a failed read since |
| ProjectRuns.LoadedSessionSound | backend/projects/lab.py:136-303 | so each session a load returns is sound if that start had good cases, however many commits ran on failed reads |
| ProjectService.BlindEvolvesIff | backend/projects/repository.py:114-153 | a command that runs on a failed read loses no session iff there was none, or it starts the only one again before anything was done in it |
| ProjectRuns.SessionsEvolveIff | backend/projects/lab.py:136-333 | in any interleaving, from any load on, every session only evolves from each load to the next iff every commit on a failed read since was of that kind |
| ProjectRuns.SessionsEvolveBetweenLoads | backend/projects/lab.py:136-333 | so between any two loads without a commit on a failed read in between place, solution, closedness and answers of every session are kept |
| ProjectRuns.SolvedIsNotGeneratedAgain | backend/projects/lab.py:265-302 | once a load has shown a session's solution, no later commit of any racing process that could read the file generates for that id |
| ClaimConsolidation.ConfidenceMoves | backend/memory/claim_consolidation.py:245-257 | one recalculation stays in [0,1], moves by -0.35 to +0.40, and never falls without contradictions |
| ClaimConsolidation.RunMovesConfidence | backend/memory/claim_consolidation.py:75-119 | in every run every action's result stays in [0,1] and moves within those bounds from the claim it was made from, by at most +0.20 for a contradiction |
| ClaimIngestion.StoredConfidence | backend/memory/intelligence_ingestion.py:137-138 | every claim the collapse stores has a confidence in [0,1] |
| ClaimConsolidation.FindMatchingClaim | backend/memory/claim_consolidation.py:129-144 | the loop finds the first duplicate, else the first best match at the threshold |
| ClaimConsolidation.FindContradictingClaim | backend/memory/claim_consolidation.py:146-154 | the loop finds the first contradicted claim |
| ClaimConsolidation.SearchesPickFirstCopy | backend/memory/claim_consolidation.py:129-154 | no earlier copy of the same matter is passed over |
| ClaimConsolidation.Consolidate | backend/memory/claim_consolidation.py:63-127 | the fold's actions and its three result lists are as specified |
| ClaimConsolidation.ResultsKeepEvidence | backend/memory/claim_consolidation.py:192-243 | merging and contradicting keep exactly both claims' evidence and never un-contradict |
| ClaimIngestion.DedupeClaims | backend/memory/intelligence_ingestion.py:222-226 | the collapse has each id once, in the order of first insertion, with the last claim of that id |
| ClaimIngestion.RunsReadLines | backend/memory/claim_consolidation.py:75-119 | in every run each action reads the claim as insertions and merges alone left it |
| ClaimIngestion.FinalIsLastContradictionOrLine | backend/memory/intelligence_ingestion.py:137-138 | a touched claim ends as its last contradiction's result, else as its line |
| ClaimIngestion.EvidenceOutcome | backend/memory/intelligence_ingestion.py:137-138 | exactly which evidence of which actions survives into the stored claim |
| ClaimIngestion.UncontradictedKeepsAllEvidence | backend/memory/claim_consolidation.py:63-127 | without a contradiction of the claim all new and existing evidence survives |
| ClaimIngestion.ContradictedStaysContradicted | backend/memory/claim_consolidation.py:75-119 | a claim contradicted in the run ends contradicted with a non-empty contradicted_by |
| ClaimIngestion.HistoryRecords | backend/memory/intelligence_ingestion.py:238-274 | the records are those of the specified history |
| ClaimIngestion.HistoryChainsIff | backend/memory/intelligence_ingestion.py:238-274 | for any claims and input the records lead to the stored claim iff it was not contradicted, or its last contradiction is the only logged one and the last thing logged, or none was logged and the line ends where the last one had found it |
| ClaimIngestion.MergeAfterContradictionBreaksLog | backend/memory/intelligence_ingestion.py:238-274 | a concrete run whose records do not lead to the stored claim |
| ClaimIngestion.MergeAfterContradictionIsLost | backend/memory/claim_consolidation.py:75-119 | a concrete run in which merged evidence is lost |
| EventDedupe.MarksNameKeepers | backend/memory/consolidation.py:125-156 | the reported changes are exactly the similar events of the kept ones |
| EventDedupe.SkippedWereMarked | backend/memory/consolidation.py:125-156 | every skipped event was marked a duplicate of a kept similar event |
| EventDedupe.KeptIsMaximalIndependent | backend/memory/consolidation.py:125-156 | over a symmetric relation the kept events are a maximal independent set and never marked |
| EventDedupe.KeptSafeIffSymmetric | backend/memory/consolidation.py:125-156 | no kept event is ever marked, for any scan, iff similarity is symmetric |
| EventDedupe.UncutKeptSafeIff | infrastructure/storage/postgres/memory_repository.py:608-626 | where the limit cuts no stored event's answer, however large the table, that is so iff of any two stored events each is alike to the other or neither is |
| EventDedupe.UncutRunOutcome | infrastructure/storage/postgres/memory_repository.py:608-626 | then a real run over the table leaves kept events unchanged and marks all other scanned ones with a kept one alike |
| EventDedupe.PatternMarksKept | infrastructure/storage/postgres/memory_repository.py:608-626 | two events of different types and topics, the first's title containing the second's: the first is kept and marked |
| EventDedupe.CutMarksKept | infrastructure/storage/postgres/memory_repository.py:608-626 | three events of one type and a limit of one: the first is kept and marked by the third |
| EventDedupe.DedupeEvents | backend/memory/consolidation.py:125-156 | the loop reports the same changes dry or real, and a real run applies exactly those |
| EventDedupe.RealRunOutcome | backend/memory/consolidation.py:139-150 | after a real run kept events are unchanged and all others marked duplicates of a kept similar one |
| EntityResolver.UniqueTextsKeepNames | backend/memory/intelligence_models.py:190-200 | uniquifying keeps every folded name, each once, trimmed |
| EntityResolver.UniqueTextLoop | backend/memory/entity_resolver.py:330-339 | the loop that uniquifies a new entity's aliases keeps every folded name once, in its first spelling, trimmed |
| EntityResolver.WithAliasAddsName | backend/memory/intelligence_models.py:205-218 | adding an alias adds exactly that name |
| EntityResolver.MergeGrows | backend/memory/entity_resolver.py:245-258 | merging adds exactly the candidate's names; scores only rise |
| EntityResolver.ResolveCandidates | backend/memory/entity_resolver.py:226-263 | the loop folds the candidates; unresolved are exactly the blank ones; a used alias maps to another canonical key |
| EntityResolver.EveryCandidateIsNamed | backend/memory/entity_resolver.py:226-278 | no entity is lost or moved, ids stay distinct, names and scores grow, every non-blank candidate is named in the result |
| EntityResolver.ResolvingAgainAddsNone | backend/memory/entity_resolver.py:226-278 | resolving any of the same candidates again adds no entity |
| Observations.Walk | scripts/durable_event_compatibility_release.py:1077-1237 | a list is accepted iff every record is right and ids are distinct; watermarks are grouped by run |
| Observations.VerifyObservations | scripts/durable_event_compatibility_release.py:1031-1261 | acceptance iff an order-free predicate over the three lists |
| Observations.AcceptedSequencesAreProjected | scripts/durable_event_compatibility_release.py:1239-1261 | every accepted sequence of a run is covered by a projection of that run with three equal watermarks; the run sets coincide |
| Observations.AcceptanceIgnoresOrder | scripts/durable_event_compatibility_release.py:1031-1261 | permuting the lists does not change acceptance |
| ReleaseEvidence.VerifyConsumerInventory | scripts/durable_event_compatibility_release.py:1264-1433 | acceptance iff window, sources, surfaces and checksum meet an order-free predicate |
| ReleaseEvidence.MatchSurfaces | scripts/durable_event_compatibility_release.py:1672-1677 | the owner signed for exactly the inventoried entries, in any order |
| ReleaseEvidence.NormalizeInventory | scripts/durable_event_compatibility_release.py:1901-1913 | the dictionary holds every inventoried surface once |
| ReleaseEvidence.VerifyReleaseEvidence | scripts/durable_event_compatibility_release.py:95-258 | acceptance iff all stages hold |
| ReleaseEvidence.AcceptedTimeline | scripts/durable_event_compatibility_release.py:315-382 | one transitive time order over all four records, the compatibility deployment before the window, nothing in the future |
| ReleaseEvidence.AcceptedEvidenceOutlasts | scripts/durable_event_compatibility_release.py:217-228 | locked evidence is still locked at every instant named |
| ReleaseEvidence.AcceptedWindowIsCovered | scripts/durable_event_compatibility_release.py:1303-1354 | inventory and every required source cover the window and end before the deletion; observations lie between activation and deletion |
| ReleaseEvidence.AcceptedConsumersAreSigned | scripts/durable_event_compatibility_release.py:1672-1677 | every required surface has an entry with no flat reads, signed by the owner, and one signature each |
| ReleaseEvidence.AcceptedRecordsAgree | scripts/durable_event_compatibility_release.py:1750-1849 | one environment, epoch and policy; distinct builds, deployments and authorities |
| ReleaseEvidence.AttestationFixesTheRecords | scripts/durable_event_compatibility_release.py:1772-1789 | with collision-free checksums the attestation's checksum determines all four records and the policy |
| ReleaseEvidence.AcceptanceIsPossibleIff | scripts/durable_event_compatibility_release.py:493-712 | whatever the digests, collision-free ones included, some policy, keys, records and time are accepted iff the compiled commits are in order, an activation with a positive epoch and three separate well-formed roots is compiled in, and so is the checksum of a policy with just these pins |
| WeightsManifest.VerifyManifest | scripts/research_pdf_parsing_eval.py:541-593 | acceptance iff the entries describe exactly the cache's files, no listed link, font included; the digest is of the sorted entries |
| WeightsManifest.BuildManifest | scripts/research_pdf_parsing_eval.py:511-538 | success iff no link, some file, and the written manifest verifies |
| WeightsManifest.WrittenIgnoresListing | scripts/research_pdf_parsing_eval.py:526-533 | the written manifest does not depend on the order in which the cache is walked |
| WeightsManifest.BuildVerifiesIff | scripts/research_pdf_parsing_eval.py:511-593 | the round trip succeeds iff the font is there and no file path begins or ends with white space |
| WeightsManifest.DigestDependsOnCacheOnly | scripts/research_pdf_parsing_eval.py:588-593 | all manifests accepted for a cache have one digest |
| WeightsManifest.DigestIdentifiesContent | scripts/research_pdf_parsing_eval.py:584-593 | caches accepted under one digest hold the same files with the same content |
| WeightsManifest.SortedListIsDetermined | scripts/research_pdf_parsing_eval.py:590-590 | sorting by distinct paths is unique |
| RunLedger.RunProductionEvaluation | scripts/research_pdf_parsing_eval.py:305-439 | one summary a document in order, not-run exactly after the cancelled one, counts add up, exit code from the counts |
| RunLedger.CountsOfLedger | scripts/research_pdf_parsing_eval.py:416-439 | at most one cancellation, exactly when interrupted; all returned iff nothing failed or was cancelled |
| LiveReview.WatchState.Tick | scripts/live_codex_review.py:87-141 | a tick changes the four fields and acts as specified |
| LiveReview.WatchLoop | scripts/live_codex_review.py:79-141 | the loop's outcomes; with once, exactly one tick that reviews iff the tree is dirty |
| LiveReview.ReviewsIff | scripts/live_codex_review.py:102-141 | in terms of the poll history alone, exactly when a poll reviews |
| LiveReview.ReviewsAreSpacedAndDiffer | scripts/live_codex_review.py:117-141 | the cooldown lies between any two reviews; consecutive reviews are of different diffs |
| LiveReview.ReviewedDiffHadSettled | scripts/live_codex_review.py:102-141 | in the settle time before a review every dirty snapshot showed the reviewed diff |
| LiveReview.StableDiffIsReviewed | scripts/live_codex_review.py:117-141 | a stable diff is reviewed by the first poll past both deadlines |
| HostPreferences.DesktopAppearance.SetTheme | desktop/src/appearance.ts:77-85 | an invalid value changes nothing; a valid one applies at once and chains a write on the tail |
| HostPreferences.StepKeepsInv | desktop/src/host-preferences.ts:31-59 | every step keeps the queue in order and the document what the last successful write made it |
| HostPreferences.WritesNeverOverlap | desktop/src/host-preferences.ts:51-59 | at most one write is active and writes settle in call order |
| HostPreferences.DocumentIsOldOrNew | desktop/src/host-preferences.ts:31-41 | at every point of every run with failures and crashes the document is the old one or a whole one some call asked for |
| HostPreferences.RestartRestoresChoice | desktop/src/appearance.ts:34-42 | the next session opens with the choice in force iff the last successful write holds it, so after a drained queue ending in success |
| HostPreferences.QueueStepsAreBounded | desktop/src/host-preferences.ts:54-58 | the queue drains in at most six steps a write however they fail |
| HostPreferences.QueueIsNeverStuck | desktop/src/host-preferences.ts:54-58 | while a write is unsettled some write step is enabled |
| Percentile.LiesBetweenNeighbours | scripts/durable_event_benchmark.py:1652-1661 | a percentile lies between the samples around its position |
| Percentile.MeetsExtremes | scripts/durable_event_benchmark.py:1652-1661 | minimum at 0, maximum at 100 |
| Percentile.GrowsWithPercentile | scripts/durable_event_benchmark.py:1652-1661 | monotone in the percentile, across segment boundaries |
| Percentile.SummaryIsOrdered | scripts/durable_event_benchmark.py:1625-1636 | min <= p50 <= p95 <= p99 <= max, the mean between the extremes |
| Percentile.SummaryIgnoresOrder | scripts/durable_event_benchmark.py:1625-1636 | the order of the samples does not matter |

## Left out

- LockConstraints.Closure: parsing of requirement strings, and `importlib.metadata` lookup, which is taken to find distributions by canonical name.
- StateStore.StepKeepsInv: lock retries and time limits on Windows, and files damaged from outside while the lock is held.
- StateStore.LoadsSeeCommittedPrefixes: a stored object the model rejects makes `load` raise; it is not repaired.
- Watchlist.Add: timestamps, and how signals are derived from a project.
- Evolution.RecordInteraction: the texts of a proposal, and `_refresh_proposals`, which nothing calls.
- Collections.CreateCollection: tags, audience, goals, curator notes, descriptions of sections and timestamps.
- StableIds.BarFreePartsShareIff: the digest is SHA-1 cut to twelve digits, which can collide; here it is a function that does not. Prefixes are written as `normalize_key` leaves them.
- Collections.MintedIdsCollideIff: how a slug is made of a title; it is a function whose results normalizing leaves alone.
- LabWorkflow.ProjectLabService.GenerateSolution: how cases are chosen and the solution's text is composed; the solution is a function of the session.
- ClaimConsolidation.FindMatchingClaim: `SequenceMatcher` and claim text normalization are functions; joining of merged texts and dates is left out.
- EventDedupe.DedupeEvents: `ILIKE` is a relation on texts, and the order of equally old events is fixed; the other consolidation tasks are left out.
- EntityResolver.ResolveCandidates: summaries, external references, metadata and the final sort by type and name.
- Observations.VerifyObservations: refusal reasons are grouped; record shapes, identifiers and URIs are one `Malformed` case.
- ReleaseEvidence.VerifyReleaseEvidence: refusal reasons are grouped by record; signatures, JSON shapes, URIs and the git checks of the policy are taken as passed, texts as trimmed and checksums as lower-cased, a key with each compiled fingerprint as held by its authority; and the clock is read once.
- WeightsManifest.VerifyManifest: reading a hash (trim, case fold, hexadecimal check) and path safety are functions; files do not change while they are read.
- RunLedger.RunProductionEvaluation: errors while writing a failure's own artifacts, which abort the run without a ledger.
- LiveReview.WatchState.Tick: an error that is neither a timeout nor an interrupt ends the watcher; written status files are left out.
- HostPreferences.RestartRestoresChoice: the operating system's own scheme changes, listeners, and the server-connection document.
- Percentile.SummaryIsOrdered: floating-point rounding; the mean is given as total and count.
- Ranking, recall, prompts, retrieval, user interface, databases, network and OCR calls: no order or state argument of their own is visible.
- `_paginate`, `refresh_claim_status`, the delivery tracker and gap counting of the benchmark: they would only add easy members.
