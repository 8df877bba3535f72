# SlopBench verification model

SlopBench runs coding agents on sealed tasks and scores what they produce. This project models two
parts of it in Dafny and proves properties of the model.

**Reference solutions.** Small programs of the task corpus, most of them written twice.

- *Watch subscriptions*: a state machine with five statuses, generation tags and bounded back-off
  (`Watch`), its second implementation (`WatchAlternate`) and the earlier machine it extends
  (`WatchReview`). `WatchRuns` is about whole runs, `WatchRefinement` about how the three relate.
- *Task graphs*: a depth-first resolver that mutates its own bookkeeping (`TaskGraph`), proved to be
  a topological sort (`TopologicalOrder`).
- *Fulfillment*: the planner that searches warehouse groups by size (`Fulfillment`), the one that
  enumerates bit masks (`FulfillmentAlternate`), the theory of group choice they share (`Groups`,
  `GroupChoice`), and what any plan guarantees (`ShipmentPlans`).
- *Event pagination*: opaque cursors (`Cursor`, over `JsonText` and `Base64Url`) and the walk they
  drive, over a fixed list (`Pagination`) and a growing one (`GrowingWalks`). The formats are those
  of RFC 8259 (sections 6 and 7) and RFC 4648 (sections 3.2 and 5).
- *Pricing*: compounded integer discounts against exact real ones (`Pricing`).

**The harness.**

- *Digest framing*: the length-prefixed byte streams behind the worktree revision (`Framing`,
  `Decoding`) and the four verification lanes (`Lanes`). A digest is represented by the bytes fed
  to it.
- *Finalization*: rewards and gate outcomes (`Gates`), receipts (`Receipts`), the decision tree over
  a trial's evidence (`Finalize`) and what its verdicts mean (`Verdicts`).
- *Scoring and retirement*: basis-point arithmetic (`Scoring`, `ScoreProperties`, over `Sums`) and
  the replacement of tasks between two task sets (`Retirement`).

`Wrappers`, `Sequences`, `Numbers`, `ByteStrings` and `Sorting` are shared: option and result types,
plain facts about sequences, numbers and bytes, and Python's lexicographic order and stable sort.

Each operation also has a module that says what it promises about its raw input, without any of the
operation's own notions: `WatchGuarantees`, `GraphGuarantees`, `PlanGuarantees`, `CursorFormat`,
`PageGuarantees`, `StreamGuarantees`, `EvidenceFacts` with `BundleGuarantees`, and `ScoreGuarantees`;
for pricing and retirement these are the last sections of `Pricing` and `Retirement`.

Conventions. Python exceptions are `Result` or `Option` values; messages become constructors. Text
is a sequence of code points, lone surrogates included, as in a Python `str`; bytes are numbers below
256. Files, process results and clocks are inputs. Code that works by loops over mutable variables
is a method whose postcondition names a function, and the theorems are about that function;
`TaskGraph.Resolver` keeps the resolver's three mutable collections as fields.

## Where the code and its promises part

- *Cursors.* The documents promise that a cursor gives back its event and filter. JSON escapes code
  points above `0xFFFF` as surrogate pairs, so an identifier or filter that itself holds a high
  surrogate followed by a low one comes back as one character. `Cursor.RoundTripIff`,
  `Cursor.OtherFiltersAreRejectedIff`, `Pagination.WalkIsCompleteIff` and
  `GrowingWalks.GrowingWalkIff` give the exact conditions; `Cursor.SurrogatePairSlipsThrough`,
  `Pagination.PairStopsTheWalk` and `Pagination.PairRepeatsItsPage` concrete inputs. A second way to
  break the promise lies outside the model: an accepted event whose time has more than 4300 decimal
  digits has no cursor at all, because the interpreter refuses to print the number.
- *Agent exceptions.* After an exception such as a timeout the runner attributes the trial to the
  agent but leaves every gate not applicable (`src/slopbench/runner.py:1031` and `1058-1063`); the
  evaluator refuses such a trial (`src/slopbench/release.py:1152-1159`).
  `Verdicts.EvaluatorAcceptsIff` says that on identity, checksum and gates this is the only disagreement; `Verdicts.TimeoutIsRefused`
  shows an instance.
- *Effective stock.* The second planner's stock maps can hold extra zero entries, for blocked SKUs a
  warehouse never listed. `FulfillmentAlternate.StocksAgree` shows that no quantity differs.
- *Coverage.* The explicit coverage check of a retirement is not always implied by the record
  checks. `Retirement.CoverageKeptIff` says exactly when it passes, and
  `Retirement.CoverageCheckIsNeeded` shows it failing. Such an input only arises in a direct call of
  `validate_retirement_models`: through `validate_retirement` both sets are first checked against
  their contracts (`src/slopbench/release.py:847-867`), and the digest covers the contract
  (`src/slopbench/hashing.py:126`), so a carried task keeps its category and the check never fires
  (`Retirement.SealedSetsKeepCoverage`).

## Model

| member | source | states |
|---|---|---|
| `Sorting.LtIff` | tasks/domain/fulfillment-plan/steps/review/solution/oracle.py:59-59 | Strings compare lexicographically: a proper prefix is smaller, else the first difference decides. |
| `Sorting.SortedIsInOrder` | tasks/feature/event-pagination/steps/review/solution/oracle.py:22-23 | Sorting puts no later element before an earlier one. |
| `Sorting.SortedPermutes` | tasks/feature/event-pagination/steps/review/solution/oracle.py:22-23 | Sorting only rearranges. |
| `Watch.TransitionIsTotalOnValidInput` | tasks/state/watch-subscription/steps/harden/solution/oracle.py:56-77 | A transition raises exactly on an invalid state or an ill-formed event, and its result is again a valid state. |
| `WatchRuns.FinalIsValid` | tasks/state/watch-subscription/steps/harden/solution/oracle.py:56-77 | Every run from a valid state ends in a valid state. |
| `WatchRuns.StepRisesOrDoesNothing` | tasks/state/watch-subscription/steps/harden/solution/oracle.py:119-170 | A delivery either changes nothing and has no effect, or strictly raises the pair of generation and phase. |
| `WatchRuns.SpentTagsAreIgnored` | tasks/state/watch-subscription/steps/harden/solution/oracle.py:119-170 | A signal of an older generation, or of a phase already left, changes nothing. |
| `WatchRuns.SpentStaysSpent` | tasks/state/watch-subscription/steps/harden/solution/oracle.py:119-170 | A signal that can no longer be accepted stays so over every continuation. |
| `WatchRuns.AcceptedAtMostOnce` | tasks/state/watch-subscription/steps/harden/solution/oracle.py:119-170 | In any run, a kind and generation accepted once is never accepted again. |
| `WatchRuns.DistillKeepsTheRun` | tasks/state/watch-subscription/steps/harden/solution/oracle.py:119-170 | Deleting stale events and redeliveries of accepted ones from a run changes neither the final state nor the effect trace. |
| `WatchRuns.StepBalances` | tasks/state/watch-subscription/steps/harden/solution/oracle.py:86-170 | Every effect of one step names something currently held or not yet open, and the ledger matches the new state. |
| `WatchRuns.EveryRunBalances` | tasks/state/watch-subscription/steps/harden/solution/oracle.py:86-170 | Replaying any run from a balanced state never fails and ends balanced. |
| `WatchRuns.LedgerOfRun` | tasks/state/watch-subscription/steps/harden/solution/oracle.py:86-170 | From the initial state: one live connection of the current generation and topic while connecting or active, one timer while waiting, nothing when stopped or failed. |
| `WatchRuns.GenerationsAreFresh` | tasks/state/watch-subscription/steps/harden/solution/oracle.py:119-170 | The connects of a run use strictly rising generations, none used before the run and none above its end. |
| `WatchRuns.QuietSegment` | tasks/state/watch-subscription/steps/harden/solution/oracle.py:91-116 | Without a connection, subscription or unsubscription taking effect, retries scheduled, their total delay and failure records are fixed by the two retry counts and statuses; failure is final. |
| `WatchRuns.RetryBudget` | tasks/state/watch-subscription/steps/harden/solution/oracle.py:91-116 | Such a segment schedules at most the retries left of five, waits at most 23 seconds in all, and reports at most one failure. |
| `WatchRuns.FailureIsTerminalExactlyWhenSpent` | tasks/state/watch-subscription/steps/harden/solution/oracle.py:91-116 | An accepted loss or failure is terminal exactly when its kind may not retry or no retry is left, with one `watch_failed` record; else it schedules one retry after 1, 2, 4, 8 or 8 seconds. |
| `WatchGuarantees.RaisesIff` | tasks/state/watch-subscription/steps/harden/solution/oracle.py:44-83 | A transition raises exactly when a field of the state is out of range or does not fit the status, the retry count being at most five, or the event lacks what its kind requires. |
| `WatchGuarantees.AcceptedIff` | tasks/state/watch-subscription/steps/harden/solution/oracle.py:119-170 | When each kind of event changes the state, by status, topic and generation. |
| `WatchGuarantees.AcceptedLeadsTo` | tasks/state/watch-subscription/steps/harden/solution/oracle.py:119-170 | What an accepted subscription, acknowledgement, due retry or unsubscription leads to and emits; the first two start the retry count over. |
| `WatchGuarantees.TopicIsLastSubscribed` | tasks/state/watch-subscription/steps/harden/solution/oracle.py:119-170 | After any run the topic is the one last subscribed to and not unsubscribed from. |
| `WatchGuarantees.GenerationsAreConsecutive` | tasks/state/watch-subscription/steps/harden/solution/oracle.py:119-170 | The connects of any run use consecutive generations up to the final one. |
| `WatchGuarantees.DelayIs` | tasks/state/watch-subscription/steps/harden/solution/oracle.py:110-115 | Delays are 1, 2, 4 and then always 8 seconds. |
| `WatchGuarantees.FiveRetriesThenFailure` | tasks/state/watch-subscription/steps/harden/solution/oracle.py:91-116 | From a new subscription or an acknowledged connection, losses in a row schedule exactly five retries over exactly 23 seconds, and the next loss fails the watch with one record. |
| `WatchGuarantees.FifthRetryIsReached` | tasks/state/watch-subscription/steps/harden/solution/oracle.py:56-77 | A run from the start that ends validly waiting with retry count five. |
| `WatchGuarantees.ReviewNeverGivesUp` | tasks/state/watch-subscription/steps/review/solution/oracle.py:55-101 | The earlier machine schedules another retry at every loss, whatever the count. |
| `WatchRefinement.AlternateAgrees` | tasks/state/watch-subscription/steps/harden/solution/alternate.py:61-170 | The second implementation returns the same state, effects and errors, for valid and invalid states. |
| `WatchRefinement.AlternateRunsAgree` | tasks/state/watch-subscription/steps/harden/solution/alternate.py:61-170 | Every outcome of every run is the same under both. |
| `WatchRefinement.StepSimulates` | tasks/state/watch-subscription/steps/review/solution/oracle.py:33-101 | One delivery looks the same to the review-phase and the hardened machine, unless a loss is accepted at retry count five; then the effects differ. |
| `WatchRefinement.HardenedExtendsReview` | tasks/state/watch-subscription/steps/review/solution/oracle.py:55-101 | Without `connection_failed`, both machines show the same status, topic, generation, retry count and effects throughout a run if and only if no loss is accepted at retry count five. |
| `WatchRefinement.HardenedExtendsReviewFromStart` | tasks/state/watch-subscription/steps/review/solution/oracle.py:55-101 | The same for runs from the initial states. |
| `TaskGraph.NodeMapNames` | tasks/feature/event-pagination/steps/integrate/solution/oracle.py:27-29 | The lookup table knows exactly the listed names. |
| `TaskGraph.NodeMapSize` | tasks/feature/event-pagination/steps/integrate/solution/oracle.py:27-29 | Comparing sizes detects exactly the repeated names. |
| `TaskGraph.Resolver.VisitTask` | tasks/feature/event-pagination/steps/integrate/solution/oracle.py:34-48 | The recursive visit terminates on every graph and leaves `visiting`, `visited` and `ordered` as the functional search does, or reports its error. |
| `TaskGraph.ResolveTasks` | tasks/feature/event-pagination/steps/integrate/solution/oracle.py:26-51 | The whole call computes the function the theorems below are about. |
| `TopologicalOrder.VisitIsSound` | tasks/feature/event-pagination/steps/integrate/solution/oracle.py:34-48 | A visit adds exactly what its task reaches, needs first, to any consistent search; an error tells of a real reachable cycle or missing name. |
| `TopologicalOrder.ResolveIsSound` | tasks/feature/event-pagination/steps/integrate/solution/oracle.py:26-51 | Success is each task reachable from the target once, every need before its dependent, target last; each error has its real cause. |
| `TopologicalOrder.ResolveSucceedsIff` | tasks/feature/event-pagination/steps/integrate/solution/oracle.py:26-51 | Resolution succeeds if and only if names are unique and everything reachable is known and acyclic. |
| `TopologicalOrder.NeedsFirstIsAcyclic` | tasks/feature/event-pagination/steps/integrate/solution/oracle.py:34-48 | A needs-first order leaves no task depending on itself. |
| `TopologicalOrder.ResolveIsDeduplicatedUnfolding` | tasks/feature/event-pagination/steps/integrate/solution/oracle.py:26-51 | The search with memory returns the naive recursive unfolding with later repeats removed, and fails exactly when that does. |
| `GraphGuarantees.TableHolds` | tasks/feature/event-pagination/steps/integrate/solution/oracle.py:27-29 | With distinct names, the lookup table holds each listed task, whole, under its name. |
| `GraphGuarantees.ResolvesTo` | tasks/feature/event-pagination/steps/integrate/solution/oracle.py:26-51 | Each outcome by the listed tasks alone: the tasks the target leads to through needs, as listed and each once, needs first and target last; or a repeated name, a chain back to itself, or a chain to an unlisted name. |
| `GraphGuarantees.ResolvesIff` | tasks/feature/event-pagination/steps/integrate/solution/oracle.py:26-51 | Success exactly when names differ and everything the target leads to is listed and leads back to nothing. |
| `Fulfillment.CopyChecked` | tasks/domain/fulfillment-plan/steps/review/solution/oracle.py:22-36 | A mapping is accepted exactly when every key is non-empty and every quantity reaches the minimum. |
| `Fulfillment.NormalizeWarehouses` | tasks/domain/fulfillment-plan/steps/review/solution/oracle.py:39-59 | Warehouses are accepted exactly with distinct non-empty names and valid stock, and come back sorted by name. |
| `Fulfillment.SetSizeDetectsRepeats` | tasks/domain/fulfillment-plan/steps/review/solution/oracle.py:62-101 | The size of the set of blocked SKUs equals the list's exactly when nothing repeats. |
| `Fulfillment.EffectiveStocks` | tasks/domain/fulfillment-plan/steps/review/solution/oracle.py:62-101 | Constraints are checked and stock reduced as the specification functions say, whose meaning `PlanGuarantees.ConstraintsFitIff` and `PlanGuarantees.UsableIsEffective` give. |
| `Fulfillment.FillFrom` | tasks/domain/fulfillment-plan/steps/review/solution/oracle.py:130-136 | The inner allocation loop computes the recursive fill of one warehouse, items and remainder. |
| `Fulfillment.AllocateGreedily` | tasks/domain/fulfillment-plan/steps/review/solution/oracle.py:128-139 | The outer loop computes the recursive allocation over the group. |
| `Fulfillment.PlanFulfillment` | tasks/domain/fulfillment-plan/steps/review/solution/oracle.py:104-139 | The whole call computes the plan function, errors included, whose meaning the `PlanGuarantees` rows give. |
| `Fulfillment.SortedInputStaysValid` | tasks/domain/fulfillment-plan/steps/review/solution/oracle.py:39-101 | No check depends on the order in which warehouses are given. |
| `Groups.CombinationsAreSubs` | tasks/domain/fulfillment-plan/steps/review/solution/oracle.py:114-125 | Every combination of a size is a subsequence of that size. |
| `Groups.SubsAreCombinations` | tasks/domain/fulfillment-plan/steps/review/solution/oracle.py:114-125 | Every subsequence is among the combinations of its size. |
| `Groups.PickIsSub` | tasks/domain/fulfillment-plan/steps/review/solution/alternate.py:102-103 | Every bit mask selects a subsequence. |
| `Groups.SubsArePicked` | tasks/domain/fulfillment-plan/steps/review/solution/alternate.py:102-103 | Every subsequence is selected by some mask below two to the length. |
| `GroupChoice.CombinationsInOrder` | tasks/domain/fulfillment-plan/steps/review/solution/oracle.py:114-125 | Combinations of a name-sorted list come in strictly ascending order of their names. |
| `GroupChoice.SearchFindsBest` | tasks/domain/fulfillment-plan/steps/review/solution/oracle.py:114-125 | The first hit of the search is the feasible subset least in size, then in names; no hit means no subset is feasible. |
| `GroupChoice.MinOfAllIsBest` | tasks/domain/fulfillment-plan/steps/review/solution/alternate.py:101-111 | The minimum by size and names over all feasible masks is that same subset, and there is none exactly when no subset is feasible. |
| `GroupChoice.BestTransfers` | tasks/domain/fulfillment-plan/steps/review/solution/alternate.py:78-111 | Stock lists with equal quantities but different keys have the same best group. |
| `FulfillmentAlternate.StocksAgree` | tasks/domain/fulfillment-plan/steps/review/solution/alternate.py:78-88 | Subtracting and zeroing in place gives the oracle's quantities for every SKU, listed or not. |
| `FulfillmentAlternate.Constrain` | tasks/domain/fulfillment-plan/steps/review/solution/alternate.py:64-88 | The constraints of one warehouse are refused exactly when the oracle refuses them. |
| `FulfillmentAlternate.Candidates` | tasks/domain/fulfillment-plan/steps/review/solution/alternate.py:101-108 | The mask loop collects feasible subsequences only, and all of them. |
| `FulfillmentAlternate.SearchesAgree` | tasks/domain/fulfillment-plan/steps/review/solution/alternate.py:101-111 | First hit by size and minimum over all masks choose the same group, or neither finds one. |
| `FulfillmentAlternate.ChoicesAgree` | tasks/domain/fulfillment-plan/steps/review/solution/alternate.py:92-123 | Allocating from the second planner's choice gives the first planner's plan or its shortage. |
| `FulfillmentAlternate.PlanFulfillmentAlternate` | tasks/domain/fulfillment-plan/steps/review/solution/alternate.py:92-123 | The second planner returns the same plan or error as the first on every input. |
| `ShipmentPlans.FillAmounts` | tasks/domain/fulfillment-plan/steps/review/solution/oracle.py:130-136 | One warehouse ships the smaller of stock and need for each SKU, and the rest remains. |
| `ShipmentPlans.AllocateIsGreedy` | tasks/domain/fulfillment-plan/steps/review/solution/oracle.py:128-139 | When every member can help, every member ships something, sorted by SKU, and exactly what the earlier ones left. |
| `ShipmentPlans.BestIsUseful` | tasks/domain/fulfillment-plan/steps/review/solution/oracle.py:114-138 | In the chosen group no warehouse is left with nothing to ship, so none is dropped. |
| `ShipmentPlans.PlanShipsExactly` | tasks/domain/fulfillment-plan/steps/review/solution/oracle.py:104-139 | A plan ships each ordered SKU exactly in the ordered quantity, within effective stock, and nothing else. |
| `ShipmentPlans.PlanAllocatesInNameOrder` | tasks/domain/fulfillment-plan/steps/review/solution/oracle.py:128-139 | Each warehouse ships the smaller of its stock and what the shipments before it left. |
| `ShipmentPlans.PlanIsMinimal` | tasks/domain/fulfillment-plan/steps/review/solution/oracle.py:104-139 | No allocation whatever meeting the order from effective stock uses fewer warehouses, or as many with smaller names. |
| `ShipmentPlans.FailsExactlyOnShortage` | tasks/domain/fulfillment-plan/steps/review/solution/oracle.py:110-127 | Invalid input and only that is a value error; shortage is reported exactly when some SKU's total effective stock is below the order. |
| `PlanGuarantees.ConstraintsFitIff` | tasks/domain/fulfillment-plan/steps/review/solution/oracle.py:62-101 | Constraints are accepted exactly when every named warehouse is listed and its entry repeats nothing, blocks nothing empty and reserves only what is there. |
| `PlanGuarantees.UsableIsEffective` | tasks/domain/fulfillment-plan/steps/review/solution/oracle.py:96-101 | What is available of a SKU is nothing if the entry blocks it, else the stock less what the entry reserves. |
| `PlanGuarantees.PlanRaisesIff` | tasks/domain/fulfillment-plan/steps/review/solution/oracle.py:104-127 | From the raw input: the value error exactly for an invalid order, warehouse or constraint, the shortage exactly when the warehouses together may not ship some SKU in full. |
| `PlanGuarantees.PlanObeysConstraints` | tasks/domain/fulfillment-plan/steps/review/solution/oracle.py:62-139 | No item is blocked by its warehouse's entry, exceeds the stock less what the entry reserves, or was not ordered. |
| `PlanGuarantees.PlanTakesAllItMay` | tasks/domain/fulfillment-plan/steps/review/solution/oracle.py:128-139 | Each shipment takes all its warehouse may ship or all that was left wanted; together they ship the order exactly; names and SKUs ascend strictly. |
| `PlanGuarantees.NoDrawingIsBetter` | tasks/domain/fulfillment-plan/steps/review/solution/oracle.py:104-139 | No way of drawing the order within stock and constraints uses fewer warehouses, or as many with smaller names. |
| `Base64Url.EncodeRoundTrip` | tasks/feature/event-pagination/steps/review/solution/oracle.py:44-58 | Decoding undoes encoding for bytes of every length. |
| `Base64Url.RepadRestores` | tasks/feature/event-pagination/steps/review/solution/oracle.py:50-57 | The padding recomputed from the length is exactly the padding that was stripped. |
| `JsonText.StringRoundTrip` | tasks/feature/event-pagination/steps/review/solution/oracle.py:44-58 | A printed string reads back with its surrogate pairs joined, and the reader stops after it. |
| `JsonText.JoinFixesExactly` | tasks/feature/event-pagination/steps/review/solution/oracle.py:44-58 | Joining leaves a text alone exactly when it holds no surrogate pair. |
| `JsonText.JoinOfUnits` | tasks/feature/event-pagination/steps/review/solution/oracle.py:44-58 | Splitting into UTF-16 units and joining is the same as joining. |
| `JsonText.NumberRoundTrip` | tasks/feature/event-pagination/steps/review/solution/oracle.py:44-58 | A printed natural number reads back, up to the next non-digit. |
| `Cursor.PayloadRoundTrip` | tasks/feature/event-pagination/steps/review/solution/oracle.py:44-58 | The canonical object reads back as its three members. |
| `Cursor.DecodeEncode` | tasks/feature/event-pagination/steps/review/solution/oracle.py:44-70 | What any cursor decodes to under any filter: its position with the identifier joined if the filters match after joining, else a refusal. |
| `Cursor.RoundTripIff` | tasks/feature/event-pagination/steps/review/solution/oracle.py:44-70 | For every printable time, a cursor gives back its own position under its own filter if and only if neither text holds a surrogate pair. |
| `Cursor.OtherFiltersAreRejectedIff` | tasks/feature/event-pagination/steps/review/solution/oracle.py:63-64 | A cursor is rejected under every filter but its own if and only if its own holds no surrogate pair. |
| `Cursor.SurrogatePairSlipsThrough` | tasks/feature/event-pagination/steps/review/solution/oracle.py:63-64 | A filter with a surrogate pair whose cursor passes for another filter. |
| `CursorFormat.AlphabetIs` | tasks/feature/event-pagination/steps/review/solution/oracle.py:44-50 | Symbols are those of section 5 of RFC 4648. |
| `CursorFormat.VectorsHold` | tasks/feature/event-pagination/steps/review/solution/oracle.py:44-50 | Four test vectors of section 10 of RFC 4648. |
| `CursorFormat.UnitsAre` | tasks/feature/event-pagination/steps/review/solution/oracle.py:44-50 | Code points beyond 16 bits are written as surrogate pairs, as section 7 of RFC 8259 has it. |
| `CursorFormat.EscapesAre` | tasks/feature/event-pagination/steps/review/solution/oracle.py:44-50 | Which characters are escaped and how, as section 7 of RFC 8259 has it. |
| `CursorFormat.PayloadIs` | tasks/feature/event-pagination/steps/review/solution/oracle.py:44-50 | The printed object: its three members in order, without spaces. |
| `Pagination.CheckEvents` | tasks/feature/event-pagination/steps/review/solution/oracle.py:22-41 | Events are accepted exactly with distinct non-empty identifiers, non-empty kinds and non-negative times, and come back newest first. |
| `PageGuarantees.OrderedLists` | tasks/feature/event-pagination/steps/review/solution/oracle.py:22-41 | The list paged over is exactly the events of the wanted kind, newest first and by descending identifier at one time. |
| `PageGuarantees.RefusesIff` | tasks/feature/event-pagination/steps/review/solution/oracle.py:73-95 | What a call refuses and in which order: a limit outside 1 to 100, an empty kind, unfit events, a cursor that does not decode under the filter or names no wanted event. |
| `PageGuarantees.PageHolds` | tasks/feature/event-pagination/steps/review/solution/oracle.py:84-98 | After an event whose cursor survives: the newest wanted events after it, as many as the limit allows, and a cursor exactly when some are left. |
| `PageGuarantees.PageIsWanted` | tasks/feature/event-pagination/steps/review/solution/oracle.py:84-98 | No page, after any cursor, holds an unlisted event or one of another kind, nor more than the limit, nor out of order. |
| `Pagination.ResumesAfter` | tasks/feature/event-pagination/steps/review/solution/oracle.py:85-95 | A surviving cursor resumes just after its event. |
| `Pagination.NeverResumesAfter` | tasks/feature/event-pagination/steps/review/solution/oracle.py:85-95 | A cursor that does not survive never resumes there. |
| `Pagination.AcceptedCursorResumes` | tasks/feature/event-pagination/steps/review/solution/oracle.py:85-95 | An accepted cursor never resumes later than just after its event, and resumes exactly there if and only if the identifier holds no surrogate pair. |
| `Pagination.ChunksCover` | tasks/feature/event-pagination/steps/review/solution/oracle.py:96-98 | Consecutive pages hold every event once and in order, all but the last full. |
| `Pagination.WalkIsDetermined` | tasks/feature/event-pagination/steps/review/solution/oracle.py:73-98 | Two walks from one cursor are the same. |
| `Pagination.WalkIsCompleteIff` | tasks/feature/event-pagination/steps/review/solution/oracle.py:73-98 | Following the cursors yields the whole filtered list, each event once, if and only if the identifier ending each page but the last, and the filter, hold no surrogate pair. |
| `Pagination.WalkLength` | tasks/feature/event-pagination/steps/review/solution/oracle.py:73-98 | Every such walk has the count divided by the limit, rounded up, as its number of pages, and one page for no events. |
| `PageGuarantees.WalkListsIff` | tasks/feature/event-pagination/steps/review/solution/oracle.py:73-98 | Following the cursors lists exactly the events of the wanted kind, newest first, if and only if the event ending each page but the last survives its cursor. |
| `Pagination.PairStopsTheWalk` | tasks/feature/event-pagination/steps/review/solution/oracle.py:73-98 | Two valid events whose first page gives out a cursor that the next call refuses. |
| `Pagination.PairRepeatsItsPage` | tasks/feature/event-pagination/steps/review/solution/oracle.py:73-98 | Three valid events one of whose cursors leads back to its own page without end. |
| `GrowingWalks.CallSucceeds` | tasks/feature/event-pagination/steps/review/solution/oracle.py:85-98 | While the event named by a surviving cursor is still listed, a call succeeds and starts just after it, whatever the other events are. |
| `GrowingWalks.GrowingWalkFrom` | tasks/feature/event-pagination/steps/review/solution/oracle.py:73-98 | While events are only added, the rest of any finished walk is strictly newest first, so repeats nothing, if and only if the event ending each page but the last survives its cursor. |
| `GrowingWalks.GrowingWalkExists` | tasks/feature/event-pagination/steps/review/solution/oracle.py:73-98 | Under that condition every call of the walk succeeds. |
| `GrowingWalks.GrowingWalkIff` | tasks/feature/event-pagination/steps/review/solution/oracle.py:73-98 | For any valid, only growing snapshots of the list: a walk reaches the end in strict newest-first order if and only if, in each snapshot, the event that ends the page taken there survives its cursor. |
| `GrowingWalks.GrowingWalkMissesNothing` | tasks/feature/event-pagination/steps/review/solution/oracle.py:73-98 | Every finished walk under growth, with surrogate pairs or without, has yielded all matching events present at its first call. |
| `PageGuarantees.GrowingWalkLists` | tasks/feature/event-pagination/steps/review/solution/oracle.py:73-98 | Under growth a finished walk yields only listed events of the wanted kind and all of those present at its first call, newest first exactly when its page-ending events survive. |
| `Pricing.ApplyAdjustments` | tasks/domain/pricing-adjustments/solution/oracle.py:20-53 | The loop computes the compounded total, or raises exactly on invalid input. |
| `Pricing.ApplyAdjustmentsAlternate` | tasks/domain/pricing-adjustments/solution/alternate.py:18-42 | The single-loop variant computes the same. |
| `Pricing.TotalIsNonExpansive` | tasks/domain/pricing-adjustments/solution/oracle.py:36-53 | The total lies between zero and the subtotal, is monotone in it, and never moves further than it. |
| `Pricing.RoundingError` | tasks/domain/pricing-adjustments/solution/oracle.py:24-33 | A reduction is the whole number nearest the exact share, halves upward. |
| `Pricing.AdjustIsNearExact` | tasks/domain/pricing-adjustments/solution/oracle.py:20-33 | One adjustment is within half a cent of exact discounting, and exact for a fixed amount. |
| `Pricing.QuoteIsNearExact` | tasks/domain/pricing-adjustments/solution/oracle.py:36-53 | The total differs from exact discounting with the same clamps by at most half a cent per percentage. |
| `Pricing.HalfACentIsReached` | tasks/domain/pricing-adjustments/solution/oracle.py:24-33 | The half cent is attained. |
| `Pricing.QuoteRaisesIff` | tasks/domain/pricing-adjustments/solution/oracle.py:6-53 | The call raises exactly for a negative subtotal or amount, basis points outside 0 to 10000, or an unknown kind. |
| `Pricing.QuoteIs` | tasks/domain/pricing-adjustments/solution/oracle.py:20-53 | One more adjustment takes its fixed amount, or its share rounded to the nearest cent with halves up, off what the others leave, and never goes below zero. |
| `Framing.LengthRoundTrip` | src/slopbench/hashing.py:182-214 | An eight-byte length prefix reads back below two to the 64. |
| `Framing.WorktreeStream` | src/slopbench/hashing.py:182-214 | The loop that skips excluded paths feeds the header and the records of the kept paths in order. |
| `Framing.WorktreeStreamFiltered` | tasks/tracer/tests/revision.py:25-52 | Filtering before sorting feeds the same stream. |
| `Framing.SkippingIsFiltering` | tasks/tracer/tests/revision.py:25-52 | Skipping in the loop and filtering before the sort visit the same paths in the same order. |
| `Decoding.WorktreeRoundTrip` | src/slopbench/hashing.py:182-214 | The stream's body reads back as its records, deleted entries included. |
| `Decoding.WorktreeStreamsDifferIff` | src/slopbench/hashing.py:182-214 | Streams are the same exactly when their records are. |
| `Decoding.WorktreesDifferIff` | src/slopbench/hashing.py:182-214 | For two listings: the streams are the same exactly when the sorted kept paths are, and both trees agree on each. |
| `Decoding.WorktreeChangesIff` | src/slopbench/hashing.py:182-214 | Over one listing, the stream changes exactly when some counted path changes. |
| `Framing.AppendRecord` | src/slopbench/hashing.py:194-213 | The successive updates for one path append exactly its framed record. |
| `StreamGuarantees.LengthIs` | src/slopbench/hashing.py:194-213 | A length is eight bytes, most significant first. |
| `StreamGuarantees.WorktreeStreamIs` | src/slopbench/hashing.py:182-214 | The whole stream in bytes: header, lengths, names, mode and type tags and contents of what the listing holds, neither empty nor excluded, in ascending order. |
| `Lanes.IncludedOnce` | src/slopbench/repository_verify.py:40-57 | The lanes a path is fed to are exactly those that include it, each once. |
| `Lanes.AppendToLanes` | src/slopbench/repository_verify.py:94-124 | One path adds its record to the lanes that include it and nothing to the others; another file type is refused exactly when some lane includes it. |
| `Lanes.LaneStreams` | src/slopbench/repository_verify.py:85-125 | One fused pass gives each lane the stream of encoding only its own paths; it fails exactly when some lane includes a path of another file type, and names the first such path in the order of the listing. |
| `Lanes.LaneRoundTrip` | src/slopbench/repository_verify.py:85-125 | A lane's body reads back as its records despite the one-byte deletions. |
| `Lanes.LaneStreamsDifferIff` | src/slopbench/repository_verify.py:85-125 | Streams of one lane are the same exactly when their records are. |
| `Lanes.LanesDifferIff` | src/slopbench/repository_verify.py:85-125 | For two listings: the streams of a lane are the same exactly when the paths it includes are, in order, and both trees agree on each. |
| `Lanes.LaneChangesIff` | src/slopbench/repository_verify.py:85-125 | Over one listing, a lane's stream changes exactly when an included path changes. |
| `Lanes.LanesAreSeparate` | src/slopbench/repository_verify.py:87-92 | Streams of different lanes always differ. |
| `StreamGuarantees.TakesIff` | src/slopbench/repository_verify.py:36-57 | Which paths each lane takes, by file name, suffix and directory. |
| `StreamGuarantees.LaneStreamIs` | src/slopbench/repository_verify.py:85-125 | A lane's whole stream in bytes: header with lane and interpreter, then the paths the lane takes, in the order of the listing. |
| `StreamGuarantees.LaneSees` | src/slopbench/repository_verify.py:40-125 | Over one listing a lane's stream changes exactly when a path it takes changes. |
| `StreamGuarantees.RefusedIff` | src/slopbench/repository_verify.py:94-116 | The pass is abandoned over a path of another type exactly if some lane takes it. |
| `Gates.AccumulateRewards` | tasks/tracer/tests/verify.py:85-130 | The per-gate `&` loop rewards a gate exactly when all its checks pass, has no key for a gate without checks, and completion exactly when all pass. |
| `Gates.CheckOutcomes` | src/slopbench/runner.py:613-643 | The loop gives the outcome and the error of every gate, in the order of the gates. |
| `Gates.ValidateRewards` | src/slopbench/runner.py:646-672 | The loop reports the errors the theorems below count. |
| `Gates.NoErrorsIff` | src/slopbench/runner.py:613-643 | No outcome error is reported exactly when the gates with checks are the applicable ones. |
| `Gates.AcceptedRewardsIff` | src/slopbench/runner.py:646-672 | With the applicable gates covered, the verifier's own vector is the only one accepted. |
| `Gates.RewardsPassIffCovered` | src/slopbench/runner.py:613-672 | The verifier's rewards pass the runner's validation if and only if the gates having checks are exactly the applicable gates, which is also when no outcome error is reported. |
| `EvidenceFacts.RewardsAre` | tasks/tracer/tests/verify.py:85-130 | The verifier's vector: one for a gate whose checks all pass and zero for one with a failing check, one in all when none fails, no other key. |
| `EvidenceFacts.RewardsFitIff` | src/slopbench/runner.py:646-672 | The runner accepts exactly one vector for given gates and checks, covered or not: one where a gate has checks and none fails, else zero. |
| `Receipts.CheckReport` | src/slopbench/runner.py:720-767 | The nested loops over claims and commands report the messages counted below. |
| `Receipts.ReportIsValidIff` | src/slopbench/runner.py:720-777 | A report draws no message exactly when it binds to the verified task and revisions, claims every applicable gate with all and only that gate's checks, agrees with them, and every command is a claimed, matching check. |
| `EvidenceFacts.ReceiptIs` | src/slopbench/runner.py:679-777 | Presence, validity, digest and invalidation of the receipt, by the file and by what the report claims of the checks. |
| `Finalize.FinalizeRun` | src/slopbench/runner.py:992-1237 | The whole procedure computes the bundle whose every part the `BundleGuarantees` rows give. |
| `Finalize.ValidateLogs` | src/slopbench/runner.py:780-789 | The loop reports each missing or differing log. |
| `Verdicts.BundleIsValid` | src/slopbench/contracts.py:985-1005 | Whatever the evidence, the runner's bundle satisfies the result model. |
| `Verdicts.JudgeChecksMeans` | src/slopbench/runner.py:1118-1182 | What the innermost branch, with its successive reassignments, makes of read evidence: when it is a pass, an invalid run or an agent failure, in terms of checks, rewards and receipt alone. |
| `Verdicts.PassIff` | src/slopbench/runner.py:992-1237 | A run passes if and only if the process succeeded, the layout is complete and clean, no exception was raised, identity, checksum, digests, logs and rewards match, the gates with checks are the applicable ones, every check passed, and the receipt is in order. |
| `Verdicts.ReceiptOfMeans` | src/slopbench/runner.py:679-777 | What receipt validation returns for every kind of file at the report path: only a readable, faithful receipt is valid, an absent one is not invalidating, any other is. |
| `Verdicts.NothingFailedIff` | src/slopbench/runner.py:613-643 | With the gates covered, no gate fails exactly when every check passed and, if the receipt is an applicable gate, it is valid. |
| `Verdicts.LayoutIsCleanIff` | src/slopbench/runner.py:893-949 | A clean layout means no step list for a single phase, and every sealed phase in order, none raising, with the last step's rewards for a sequence. |
| `Verdicts.AttributableOrigin` | src/slopbench/runner.py:1058-1193 | An agent-attributable verdict implies matching identity, and comes from an agent exception or from judged checks. |
| `Verdicts.EvaluatorAcceptsIff` | src/slopbench/release.py:1152-1159 | The identity, checksum and gates of an agent-attributable bundle satisfy the evaluator if and only if no exception was recorded. |
| `Verdicts.TimeoutIsRefused` | src/slopbench/release.py:1152-1159 | A timed-out run is attributed to the agent and refused by the evaluator. |
| `Verdicts.RetryIsOfferedIff` | src/slopbench/runner.py:862-882 | A retry is offered exactly after a listed rate limit or environment start timeout in an error-free layout, with attempts left. |
| `BundleGuarantees.LayoutIs` | src/slopbench/runner.py:893-949 | The exception, well-formedness, completeness and output directory of a trial, by its own fields and its steps. |
| `BundleGuarantees.BlameIs` | src/slopbench/runner.py:832-859 | Which exceptions are the agent's, the benchmark's and the infrastructure's, with their reasons. |
| `BundleGuarantees.VerdictIs` | src/slopbench/runner.py:992-1218 | Classification and reason of every bundle, as a decision list over process, result, agent, checksum, evidence, rewards, checks and receipt. |
| `BundleGuarantees.OutcomesAre` | src/slopbench/runner.py:613-643 | The outcome of every gate in the bundle: not applicable, passed or failed by its checks and, for the receipt gate, the report; with the ids of its checks in order; none applicable when nothing was judged. |
| `BundleGuarantees.FailureShows` | src/slopbench/runner.py:1156-1182 | A judged agent failure shows a failed gate. |
| `BundleGuarantees.ReceiptSays` | src/slopbench/runner.py:679-777 | What the bundle says of the receipt: whether it lay there, whether it fits, its digest. |
| `BundleGuarantees.RetryIs` | src/slopbench/runner.py:862-882 | Attempt, completion, remaining attempts and the retry decision of every bundle. |
| `Scoring.ExtractedIsValid` | src/slopbench/release.py:1035-1045 | A calibration extracted from a valid score satisfies the calibration model, and counts the matched defects whose category, severity or both agreed. |
| `Scoring.AccumulateTrial` | src/slopbench/release.py:926-932 | The inner loop adds one trial's earned and possible weight. |
| `Scoring.Aggregate` | src/slopbench/release.py:917-941 | The nested loops compute the metrics whose meaning `ScoreGuarantees.MetricsAre` gives. |
| `Scoring.PassedQualityRange` | src/slopbench/release.py:897-914 | A passed gate earns between 0 and 10000, and all of it exactly when every weighted part of its review was matched in full. |
| `ScoreProperties.ScoresAreInRange` | src/slopbench/release.py:917-941 | Quality, reliability and selection stay in 0..10000, and selection lies between the other two. |
| `ScoreGuarantees.MetricsAre` | src/slopbench/release.py:897-941 | Quality is what was earned of what was possible over the trials that count, reliability the passes of those trials, selection the mean of both by the profile's weights, each rounded down. |
| `ScoreGuarantees.SelectionIsOneOfThem` | src/slopbench/release.py:939-941 | A profile that weighs only one of the two selects by it. |
| `ScoreProperties.QualityIsPerfectIff` | src/slopbench/release.py:897-932 | Quality is 10000 if and only if something carries weight and every weighted applicable outcome is a pass with full weighted calibration. |
| `ScoreProperties.OrderDoesNotMatter` | src/slopbench/release.py:917-941 | The order of trials never changes a score. |
| `ScoreProperties.OnlyAttributableTrialsCount` | src/slopbench/release.py:922-932 | Trials not attributable to the agent never change a score. |
| `ScoreProperties.PassingAGateNeverHurts` | src/slopbench/release.py:917-932 | Turning a failed gate of any trial into a pass never lowers quality. |
| `Retirement.ValidateRetirement` | src/slopbench/release.py:1351-1409 | Accepted exactly when bindings and snapshots match, no category shrinks and every record holds; a refusal names a true problem that the earlier checks let through. |
| `Retirement.AcceptedIff` | src/slopbench/release.py:1351-1409 | Acceptance by bindings, counts per category, what went or changed, and each field of each record. |
| `Retirement.RefusalMeans` | src/slopbench/release.py:1385-1409 | A refused record has the defect its refusal names and none that is looked for earlier. |
| `Retirement.SnapshotKeepsCoverage` | src/slopbench/release.py:1269-1271 | Comparing only the categories that occur in either snapshot is comparing all of them. |
| `Retirement.ReplacementIsInjection` | src/slopbench/release.py:1375-1405 | Accepted records map exactly the removed or changed tasks, one to one, to new tasks of the same category. |
| `Retirement.ReplacementsMatchRetired` | src/slopbench/release.py:1375-1405 | As many new tasks of a category replace as old ones of it are removed or changed. |
| `Retirement.CountsAreConserved` | src/slopbench/release.py:1269-1405 | For accepted records, a category's count changes exactly by the carried tasks that come in and the additions that replace nothing, less the carried tasks that leave. |
| `Retirement.CoverageKeptIff` | src/slopbench/release.py:1369-1405 | The explicit coverage check passes on accepted records if and only if no category loses more carried tasks than it gains carried tasks and additions. |
| `Retirement.RecordsKeepCoverage` | src/slopbench/release.py:1369-1405 | If carried tasks keep their category, the record checks alone keep every category's count. |
| `Retirement.SealedSetsKeepCoverage` | src/slopbench/release.py:847-867 | If each category is fixed by its task's digest, as validation of both sets against their contracts ensures, the coverage check never fires on accepted records. |
| `Retirement.CoverageCheckIsNeeded` | src/slopbench/release.py:1369-1374 | Without that validation, in a direct call on two models: a carried task listed under another category passes every record check and still lowers a count. |

## Left out

- The hash function, the clock, file access, subprocesses, git, containers, signing and the command line: their results are inputs.
- Dynamic type checks (booleans given as integers, non-mappings, wrong classes): the model's types replace them.
- Cursor parsing beyond what the encoder writes: white space, nesting, fractions and exponents, raw non-ASCII bytes and text encodings, and the alphabet leniency of the base 64 reader are not part of this model; texts using them are treated as malformed.
- `Cursor.RoundTripIff`: times of more than 4300 decimal digits, which the source cannot print into a cursor, are printed by the model, because the limit belongs to the interpreter.
- The second pagination implementation: it uses another cursor format.
- `Finalize.FinalizeRun`: usage, timing, harness and artifact digests, which the source only carries along into the bundle, are not modelled, and messages are constructors without their text.
- Reward vectors with fractional values: rewards are integers, as the verifier writes them.
- Money, time and budgets in the aggregate, and the failure and strict-gate counters: floating-point rounding and plain counting.
- Network, credential, image and capability pins of a run, coverage and calibration audits, reference runs.
- Retirement: the identity of a task set is one opaque binding, and the publication's links are not modelled.
- Field lengths of two to the 64 bytes and more, for which the source raises: the decoding theorems take lengths below that.
- `BundleGuarantees.ReceiptSays`: which messages the receipt lists, and in what order, is fixed by the specification functions only.
- Lane paths: decoding of file names and the order in which the repository is listed are inputs; the list is taken as given.
- The smaller reference programs (command syncing, leases, idempotency, header lookup and others).
