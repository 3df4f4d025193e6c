# Decision engine: verified model

This project models the parts of the repository that decide who is offered what, and proves what they
promise. It is checked with `dafny verify dfyconfig.toml`.

- **Budget allocator** (`Items`, `Knapsack`, `Rounding`, `Tolerance`, `Greedy`, `Bundles`, `Worth`,
  `Selection`): the
  multiple-choice knapsack with costs rounded up to scale units, its table, choice tables and walk back, the
  density-greedy fallback, group bundles, ranks, runner-ups and a reason for every loser.
- **Transaction circles** (`Connectivity`, `UnionFind`, `Arrival`, `Circles`, `CircleListing`): union-find with
  path halving against connected components defined by edge paths, and when the result depends on the listing.
- **Pipeline runs** (`RunTable`, `RunProtocol`, `Worker`): the table and its calls, the claim protocol as a
  state machine over all interleavings of workers, crashes and reclaims, and the worker's side of it.
- **Decision stages** (`PolicyGuard`, `Candidates`, `Accounting`, `Baseline`, `Decisions`, `PickSafety`,
  `Terms`, `Shown`, `Fates`, `Listing`, `Reach`, `RunExistence`, `Reachable`, `ReachWitness`): from users, circles and incentives to candidates, exclusions,
  arms, allocation, picks and whom they can reach.
- **Services over whole runs** (`RateLimit`, `Recommendations`, `Ingest`): the token bucket, the recommendation
  lifecycle with its audit trail, and the loop that drains raw events.
- **Codecs** (`Text`, `Rupiah`, `Narration`, `NumberReader`, `Template`, `Ids`): printed rupiah amounts and the template's opening
  sentence against the narration validator's number reader, and time-sortable ids after the ULID specification.

`Contracts` holds the shared vocabulary and `Ordering` Python's string order and stable sort. Code that changes
state is written as methods, and as classes where the source has objects; each is proved against a function of
the old state, and the promises are proved about that function. Scores, priorities, segments, arm assignment and
hashes are arbitrary functions; clocks and random bits are parameters.

Where the code and its own comments disagree the model follows the code:

- `knapsack.solve` is documented as exact and optimal. It is optimal over rounded-up costs and up to 1e-9 per
  choice key (`Knapsack.Solve`). In rupiah it is optimal for all values of the items exactly when every affordable
  selection still fits after rounding (`Rounding.OptimalExactlyWhenHarmless`), as when costs are multiples of the
  scale; otherwise the whole value can be lost (`Knapsack.RoundingCanLose`, `Rounding.HarmfulLoses`), although the
  answer always reaches what a smaller budget could buy (`Knapsack.RoundingBound`).
- `claim_queued` is documented to prevent double-running. Ownership is safe exactly while no execution has outlived
  the stale window (`RunProtocol.OwnerSafeExactly`, `RunProtocol.SafeExactlyWhenTimely`); beyond it a second
  execution can start exactly while retries are left (`RunProtocol.DoublesExactly`, with the run
  `RunProtocol.LateExecutionDoubles`).
- `find_circles` promises deterministic ids. Members and ids never depend on how the edges are listed; the order of
  the circles depends on it exactly when two circles share an id (`CircleListing.ListingIrrelevantExactly`).
- The retry hint of the rate limiter is truncated, so waiting exactly that long can be too short
  (`RateLimit.HintAloneSuffices` says precisely when it is enough).
- A CONTROL user can be reached through a circle (`ReachWitness.ControlUserReached`), and a run can take a user over
  the frequency cap by one (`ReachWitness.CapIsExceeded`). `Reachable.ControlReachableExactly` and
  `Reachable.CapExceedableExactly` say exactly for which users, circles, incentives, arms and budgets, before anything
  is allocated; `Reach.ControlReachedExactly` and `Reach.CapExceededExactly` say it of a finished run.

## Model

| member | source | states |
|---|---|---|
| `Knapsack.Solve` | packages/allocator/src/allocator/knapsack.py:13-50 | Refuses exactly when usable items exist and keys x (capacity + 1) exceeds the cell limit; otherwise returns sorted distinct ids of usable items, one per key, within the scaled capacity and the real budget, worth every selection that fits the scaled capacity less one tolerance per key |
| `Knapsack.UsableKeys` | packages/allocator/src/allocator/knapsack.py:14-18 | The keys counted for the refusal are those of the items with a positive value and a cost within the budget |
| `Knapsack.SortedGroups` | packages/allocator/src/allocator/knapsack.py:19-22 | The choice keys in ascending order without repetition, and for each key exactly the usable items of that key, in id order |
| `Knapsack.FillKey` | packages/allocator/src/allocator/knapsack.py:29-40 | One row of the table: given the best values over the first g keys, computes in place the best values and the choice indices over g + 1 keys, for every capacity |
| `Knapsack.FillTable` | packages/allocator/src/allocator/knapsack.py:27-40 | After all rows the last row holds the best value of every capacity and each choice table holds the index that value came from |
| `Knapsack.ArgMax` | packages/allocator/src/allocator/knapsack.py:42 | The cell with the largest value, and the smallest such capacity |
| `Knapsack.WalkBack` | packages/allocator/src/allocator/knapsack.py:42-50 | Following the choice tables backwards from a cell yields exactly the ids that cell stands for |
| `Knapsack.TraceDelivers` | packages/allocator/src/allocator/knapsack.py:42-50 | The reconstructed ids form a real selection, one per key, whose value equals the table cell exactly and whose scaled weight fits the capacity of the cell |
| `Knapsack.NearOptimal` | packages/allocator/src/allocator/knapsack.py:29-40 | Every selection over the first g keys whose scaled weight fits is worth at most the table cell plus g tolerances |
| `Knapsack.SlackIsProduct` | packages/allocator/src/allocator/knapsack.py:36 | The total slack is the number of keys times the tolerance |
| `Knapsack.ExactWithoutTolerance` | packages/allocator/src/allocator/knapsack.py:26-40 | With tolerance 0 no selection that fits the scaled capacity is worth more than the answer |
| `Knapsack.RoundingBound` | packages/allocator/src/allocator/knapsack.py:15-26 | The answer is worth, up to the tolerances, every selection that fits the real budget reduced by (keys) x (scale - 1) rupiah |
| `Knapsack.ExactInRupiah` | packages/allocator/src/allocator/knapsack.py:15-26 | If all costs are multiples of the scale (always so for scale 1) the answer is, up to the tolerances, the optimum of the real budget |
| `Knapsack.RoundingCanLose` | packages/allocator/src/allocator/knapsack.py:13-26 | A concrete input on which the documented optimality in rupiah fails: an affordable item worth 1 is refused and the answer is worth 0 |
| `Rounding.OptimalExactlyWhenHarmless` | packages/allocator/src/allocator/knapsack.py:13-26 | Whatever the items are worth, the answers are optimal for the real budget up to one tolerance per key if and only if every affordable selection still fits the scaled capacity once its costs are rounded up |
| `Rounding.HarmlessReaches` | packages/allocator/src/allocator/knapsack.py:15-26 | If rounding is harmless, every answer reaches every affordable selection of the same items under any values |
| `Rounding.HarmfulLoses` | packages/allocator/src/allocator/knapsack.py:15-26 | If rounding shuts out an affordable selection, valuing its items at v and all others at nothing makes every answer miss it by at least v |
| `Rounding.AnswerExists` | packages/allocator/src/allocator/knapsack.py:13-50 | Every list of items with distinct ids has an answer, so the two statements above are never empty |
| `Rounding.MultiplesAreHarmless` | packages/allocator/src/allocator/knapsack.py:26 | Costs that are multiples of the scale are harmless |
| `Tolerance.BoundAttained` | packages/allocator/src/allocator/knapsack.py:29-50 | For any number of keys with two equally heavy items each, the second better by exactly the tolerance, the ids read off the table are worth exactly one tolerance per key less than another selection that fits |
| `Tolerance.TwinTable` | packages/allocator/src/allocator/knapsack.py:29-40 | On such inputs the table never takes the better item |
| `Tolerance.TwinsExist` | packages/allocator/src/allocator/knapsack.py:36 | A concrete such input |
| `Knapsack.ExhaustedMeansFull` | packages/allocator/src/allocator/selection.py:70-79 | A candidate of an unpicked key that is worth more than the tolerances would overflow the scaled capacity on top of the answer |
| `Items.CostWithinWeight` | packages/allocator/src/allocator/knapsack.py:26 | The rupiah cost of any selection is at most the scale times its rounded-up weight, so the table never overspends |
| `Items.WeightWithinCost` | packages/allocator/src/allocator/knapsack.py:26 | Rounding adds at most scale - 1 rupiah for each selected item |
| `Items.UnitsBounds` | packages/allocator/src/allocator/knapsack.py:26 | The scaled weight is the least whole number of units that covers the cost |
| `Items.PickedTotals` | packages/allocator/src/allocator/selection.py:92-98 | Summing the list of picked items gives the cost and value of the selection, whatever the order of the list |
| `Greedy.Solve` | packages/allocator/src/allocator/greedy.py:7-18 | Returns, sorted and without repetition, exactly the ids that the density-ordered run picks |
| `Greedy.Pick` | packages/allocator/src/allocator/greedy.py:8-17 | The loop with its running budget and set of served keys picks the same ids, in the same order, as the recursive definition of the run |
| `Greedy.RankedList` | packages/allocator/src/allocator/greedy.py:11-12 | The run goes over exactly the items with positive value, each once, densest first |
| `Greedy.RunOrder` | packages/allocator/src/allocator/greedy.py:11-12 | The run goes by falling value per rupiah, free items counted as costing one, and by id among equals |
| `Greedy.GreedyIsSound` | packages/allocator/src/allocator/greedy.py:7-18 | The picks are gainful items, one per key, within the budget |
| `Greedy.GreedyBound` | packages/allocator/src/allocator/greedy.py:7-18 | With one item per key, the greedy value plus the value of the first item skipped for budget reaches every selection that fits the budget, free items included; if nothing is skipped greedy is optimal |
| `Greedy.ExhaustedMeansTooDear` | packages/allocator/src/allocator/selection.py:70-79 | A gainful item of an unserved key that greedy left out costs more than the money left over |
| `Greedy.TakesAllThatFit` | packages/allocator/src/allocator/greedy.py:7-18 | If the gainful items have different keys and together fit the budget, greedy picks every one of them |
| `Greedy.FirstSkipped` | packages/allocator/src/allocator/greedy.py:13-14 | Locates the first item whose cost exceeds what is left after all items before it |
| `Greedy.BeforeSkippedFits` | packages/allocator/src/allocator/greedy.py:13-17 | Every item before that one fits what is left when its turn comes |
| `Greedy.SkippedCosts` | packages/allocator/src/allocator/greedy.py:13-14 | An item skipped for budget is never free |
| `Bundles.BuildItems` | packages/allocator/src/allocator/selection.py:27-40 | The loops over candidates and sorted bundles build one item per individual candidate and one per group offer; Worth.BundleSums says what a bundle is worth |
| `Bundles.Collect` | packages/allocator/src/allocator/selection.py:30-37 | One pass splits the candidates into single items and, for every group offer, its members in order |
| `Bundles.ItemsCoverCandidates` | packages/allocator/src/allocator/selection.py:27-40 | Bundling neither loses nor duplicates a candidate id |
| `Bundles.ItemForm` | packages/allocator/src/allocator/selection.py:27-40 | An item is listed exactly when it is one individual candidate or all members of one group offer |
| `Bundles.ItemsDistinct` | packages/allocator/src/allocator/groups.py:8-19 | No two items share an item id, single or bundle, when candidate ids differ and do not look like bundle ids and circle ids hold no colon |
| `Bundles.BundleIdInjective` | packages/allocator/src/allocator/groups.py:14 | Different group offers get different bundle ids when circle ids hold no colon |
| `Worth.BundleSums` | packages/allocator/src/allocator/groups.py:8-19 | A bundle is worth, and costs, the sum over all ranked candidates of its offer |
| `Worth.ObjectiveIsSum` | packages/allocator/src/allocator/selection.py:92-98 | The objective is the sum of the priorities, and the spend the sum of the costs, of the candidates with a selected decision |
| `Worth.DecisionAmounts` | packages/allocator/src/allocator/selection.py:27-90 | A decision about an individual candidate carries its user, cost and priority; one about a group candidate the key of its circle and the summed cost and priority of all candidates of the offer |
| `Selection.Allocate` | packages/allocator/src/allocator/selection.py:43-98 | For any candidates whose item ids differ: the strategy and its promise, the fallback to greedy exactly for the size reason, every decision, spent amount and objective, as one statement over the returned result |
| `Selection.Choose` | packages/allocator/src/allocator/selection.py:47-57 | Whichever solver answers, the choice is sound; the exact one answers if and only if it was asked for and its table fits the cell limit |
| `Selection.PickedItems` | packages/allocator/src/allocator/selection.py:59 | The picked items, best value first, ties by id |
| `Selection.RunnerUps` | packages/allocator/src/allocator/selection.py:63-67 | An item is recorded for its key exactly when it is the best positive unselected item of a picked key |
| `Selection.DecideAll` | packages/allocator/src/allocator/selection.py:69-90 | Every candidate of every item gets exactly one decision, with the outcome of its item |
| `Selection.DecideItem` | packages/allocator/src/allocator/selection.py:70-90 | The decisions of one item carry its key, value, cost, rank, runner-up flag, and the reason why it lost |
| `Selection.OneDecisionEach` | packages/allocator/src/allocator/selection.py:69-90 | Every input candidate gets exactly one decision |
| `Selection.SharedOutcome` | packages/allocator/src/allocator/selection.py:80-90 | Decisions for candidates of one bundle agree in everything but the candidate id |
| `Selection.GroupAllOrNothing` | packages/allocator/src/allocator/groups.py:1-19 | All candidates of one group offer are selected or none is, with one rank and one reason |
| `Selection.OnePickPerKey` | packages/allocator/src/allocator/selection.py:59-61 | Selected decisions of one choice key come from one item |
| `Selection.OneRunnerUp` | packages/allocator/src/allocator/selection.py:63-67 | Runner-up decisions of one choice key come from one item |
| `Selection.RunnerUpExists` | packages/allocator/src/allocator/selection.py:63-67 | A picked key with a positive unselected item has a runner-up |
| `Selection.RanksDescend` | packages/allocator/src/allocator/selection.py:59-61 | Ranks lie in 1..k and follow descending value; having a rank, being selected and having no reason are one and the same |
| `Selection.RankHolder` | packages/allocator/src/allocator/selection.py:61 | Every rank in 1..k is given to some candidate |
| `Selection.ExhaustedIsTrue` | packages/allocator/src/allocator/selection.py:70-79 | A returned decision with reason BUDGET_EXHAUSTED costs more than is left of the budget under greedy, and under the exact solver, if worth more than the tolerances, overflows the scaled capacity beside the picks |
| `Selection.ExactNames` | packages/allocator/src/allocator/selection.py:47 | The exact solver is asked for by the names auto and exact_dp, in any case, and by no others |
| `Selection.RankOrder` | packages/allocator/src/allocator/selection.py:59-61 | Picks are ranked by falling value, by id among equals |
| `Selection.ReasonsAreTrue` | packages/allocator/src/allocator/selection.py:70-79 | NO_EXPECTED_GAIN is told exactly to losers without positive value, RUNNER_UP to other losers whose key has a selected decision, BUDGET_EXHAUSTED to the rest, and no reason to the selected |
| `Selection.RunnerUpExactly` | packages/allocator/src/allocator/selection.py:63-67 | A decision is flagged as runner-up exactly if it is a positive loser of a served key and no other positive loser of that key is worth more, or as much with a smaller item id |
| `Circles.FindCircles` | packages/graph-signal/src/graph_signal/circles.py:11-37 | Returns exactly the connected components of at least the minimum size, each once, members sorted, ordered by id, and circles with one id in the order of the first edges that touch them |
| `Circles.Partition` | packages/graph-signal/src/graph_signal/circles.py:21-24 | After the edge loop two nodes have one root exactly when an edge path joins them |
| `Circles.GroupNodes` | packages/graph-signal/src/graph_signal/circles.py:26-28 | Files every node under its root while finding, and the finding moves no root |
| `Circles.RootIsLeast` | packages/graph-signal/src/graph_signal/circles.py:21-24 | The root of a node is a member of its component and the least one |
| `Circles.SharedCircle` | packages/graph-signal/src/graph_signal/circles.py:26-37 | Two nodes share a circle exactly when an edge path joins them and the component is large enough |
| `Circles.CirclesDisjoint` | packages/graph-signal/src/graph_signal/circles.py:30-37 | No node is in two circles |
| `CircleListing.ListingIrrelevantExactly` | packages/graph-signal/src/graph_signal/circles.py:11-37 | Permuting, repeating or flipping edges never changes the returned list if and only if no two of its circles share an id, for any digest whatever |
| `CircleListing.SameCirclesFound` | packages/graph-signal/src/graph_signal/circles.py:11-37 | Any listing of the same edges gives the same circles, each as often, even if their ids collide |
| `CircleListing.SameListFound` | packages/graph-signal/src/graph_signal/circles.py:30-37 | If the ids of the returned circles differ, any listing of the same edges gives the same list |
| `CircleListing.CollisionSwaps` | packages/graph-signal/src/graph_signal/circles.py:21-37 | Of two circles that share an id, an edge of the later one moved to the front makes it come before the other in every result for that listing |
| `CircleListing.ListingCanMatter` | packages/graph-signal/src/graph_signal/circles.py:30-37 | For two separate edges whose circles share an id, under whatever digest, exchanging the edges exchanges the circles, so the lists differ |
| `UnionFind.Partition.Find` | packages/graph-signal/src/graph_signal/circles.py:14-19 | Terminates under path halving, returns the root of the node, and changes no root |
| `UnionFind.Partition.Climb` | packages/graph-signal/src/graph_signal/circles.py:16-19 | The halving loop keeps the forest, its nodes and all roots |
| `UnionFind.Partition.Link` | packages/graph-signal/src/graph_signal/circles.py:23-24 | Linking the larger root under the smaller merges exactly those two classes |
| `UnionFind.HalvedRoots` | packages/graph-signal/src/graph_signal/circles.py:17 | Pointing a node at its grandparent changes no root |
| `UnionFind.LinkRoots` | packages/graph-signal/src/graph_signal/circles.py:24 | After a link the nodes of the higher root have the lower one, all others keep theirs |
| `Connectivity.ConnectedOne` | packages/graph-signal/src/graph_signal/circles.py:21-24 | One more edge joins exactly the two components of its ends |
| `RunTable.Table.CreateRun` | packages/persistence/src/persistence/repositories/pipeline.py:14-24 | Adds one queued row with no attempts and all stages pending, and touches no other row |
| `RunTable.Table.UpdateStage` | packages/persistence/src/persistence/repositories/pipeline.py:33-48 | Writes one stage of one row, flips a queued row to running, reports a missing row, touches nothing else |
| `RunTable.Table.ClaimQueued` | packages/persistence/src/persistence/repositories/pipeline.py:51-73 | Claims the oldest unlocked queued rows of the tenant, oldest first, up to the limit, fewer only if no more exist; each gets one more attempt; all other rows stay |
| `RunTable.Table.ReclaimStale` | packages/persistence/src/persistence/repositories/pipeline.py:76-101 | Recovers exactly the unlocked stale rows of the tenant; all other rows stay |
| `RunTable.Table.RequeueOrFail` | packages/persistence/src/persistence/repositories/pipeline.py:104-120 | Queues the row again or fails it once the budget is spent, whatever its status or owner; rows of other tenants and other rows stay |
| `RunTable.Table.FinishRun` | packages/persistence/src/persistence/repositories/pipeline.py:123-133 | Records the outcome of one row, whatever its status or owner; rows of other tenants and other rows stay |
| `RunTable.Table.Oldest` | packages/persistence/src/persistence/repositories/pipeline.py:59-66 | Picks a claimable row that no other claimable row is older than |
| `RunProtocol.RetryBound` | packages/persistence/src/persistence/repositories/pipeline.py:51-120 | Under any interleaving of workers, crashes and reclaims, attempts counts the claims, never exceeds max(1, max_retries), and a queued run is strictly below it |
| `RunProtocol.StepStamps` | packages/persistence/src/persistence/repositories/pipeline.py:51-133 | A step that makes a row terminal stamps that time, a claim stamps the start, failures keep their reason and abandoned runs say so |
| `RunProtocol.RunRecorded` | packages/persistence/src/persistence/repositories/pipeline.py:51-133 | In every run a failed row has an error and a finish time, a succeeded one a finish time and no error, and tenant and creation time never change |
| `RunProtocol.FinishedExactly` | packages/persistence/src/persistence/repositories/pipeline.py:51-133 | In every timely run the finish time is set exactly while the row is terminal |
| `RunProtocol.AbandonedSpells` | packages/persistence/src/persistence/repositories/pipeline.py:76-101 | The error of an abandoned run spells out the number of attempts |
| `RunProtocol.StepKeepsBound` | packages/persistence/src/persistence/repositories/pipeline.py:33-133 | Each single step keeps that bound and only a claim raises the number of attempts |
| `RunProtocol.StepDecreases` | packages/persistence/src/persistence/repositories/pipeline.py:33-133 | A measure of remaining claims, remaining calls and the running flag falls on every action and stands still only while time passes |
| `RunProtocol.ActionsBounded` | packages/persistence/src/persistence/repositories/pipeline.py:33-133 | The number of actions of any run is at most what the measure loses |
| `RunProtocol.WholeRunBounded` | packages/persistence/src/persistence/repositories/pipeline.py:14-133 | From its creation a run takes at most 70 actions for each claim it may have |
| `RunProtocol.NeverStuck` | packages/persistence/src/persistence/repositories/pipeline.py:33-133 | Nothing more can happen to a run, now or later, if and only if its row is terminal and no execution is alive |
| `RunProtocol.CanFinish` | packages/persistence/src/persistence/repositories/pipeline.py:33-133 | From every state of a run some continuation ends in a terminal row with no execution alive |
| `RunProtocol.EndsTerminal` | packages/persistence/src/persistence/repositories/pipeline.py:14-133 | Every run of a new row can end only in SUCCEEDED or FAILED with no execution alive, and from every state on the way it can end |
| `RunProtocol.ExclusiveOwnership` | packages/persistence/src/persistence/repositories/pipeline.py:51-133 | If no execution outlives the stale window, every reachable state has at most one live execution, the row is running under exactly its claim, and a terminal row never changes |
| `RunProtocol.StepKeepsOwner` | packages/persistence/src/persistence/repositories/pipeline.py:51-133 | Each step of a timely run keeps that ownership |
| `RunProtocol.OwnerSafeExactly` | packages/persistence/src/persistence/repositories/pipeline.py:51-133 | From an owned state no step can break the ownership if and only if no live execution has outlived the stale window |
| `RunProtocol.SafeExactlyWhenTimely` | packages/persistence/src/persistence/repositories/pipeline.py:51-133 | Over a whole run, ownership is safe from every next step in every state on the way if and only if no execution outlives the stale window on the way |
| `RunProtocol.DoublesExactly` | packages/persistence/src/persistence/repositories/pipeline.py:51-101 | Beside a live execution a reclaim and a claim can start a second one if and only if the live one has outlived the stale window and the retry budget is not spent |
| `RunProtocol.TerminalCanChange` | packages/persistence/src/persistence/repositories/pipeline.py:104-133 | With no timing assumption a terminal status can change exactly when some execution is still alive |
| `RunProtocol.LateExecutionDoubles` | packages/persistence/src/persistence/repositories/pipeline.py:51-57 | A concrete run in which an execution outlives the window and two executions are alive at once, which the docstring rules out |
| `RunProtocol.LateFailureReopens` | packages/persistence/src/persistence/repositories/pipeline.py:109-118 | A concrete run in which a succeeded run goes back to the queue |
| `Worker.RunStages` | services/worker/src/worker/pipeline.py:710-728 | Makes exactly the records of the stages up to the first failure, or those before an exception outside the stages, and ends as that says; a queued row turns running with the first record, a missing row stays missing, no other row is touched |
| `Worker.WritesFit` | services/worker/src/worker/pipeline.py:710-728 | A pass over the eleven stages makes at most 33 stage records, and 33 when it succeeds |
| `Worker.PassRecorded` | services/worker/src/worker/pipeline.py:710-728 | After an undisturbed pass the stages up to the first failure carry their result and the later ones are pending |
| `Worker.FirstFailure` | services/worker/src/worker/pipeline.py:715-725 | The first stage that raises, if any |
| `Worker.ExecuteRun` | services/worker/src/worker/main.py:67-90 | Whatever the state of the row, it ends with the records of the pass and finished or requeued with the error; a missing row and all other rows stay as they are |
| `Worker.RunOutcome` | services/worker/src/worker/main.py:71-90 | An execution leaves SUCCEEDED exactly when every stage passed and nothing was raised outside a stage, otherwise FAILED or QUEUED by the attempts alone, which it does not change |
| `Worker.NewRunIsPending` | packages/persistence/src/persistence/repositories/pipeline.py:14-24 | A new run is queued with no attempts, its eleven stages pending, and no error or start or finish time |
| `Worker.StageReports` | services/worker/src/worker/pipeline.py:710-728 | After an undisturbed pass each stage reads DONE, SKIPPED or FAILED as it went, and PENDING if an earlier one raised |
| `Worker.ErrorTells` | services/worker/src/worker/pipeline.py:715-728 | The recorded error names the first stage that raised and what it raised, or else the exception outside all stages |
| `Worker.PollTenant` | services/worker/src/worker/main.py:93-109 | With no other worker about: stale rows are recovered, then the oldest queued run of the tenant, if there is one, is claimed and executed, and nothing else changes |
| `Worker.AlwaysFailing` | services/worker/src/worker/main.py:81-90 | A run whose pipeline always fails is tried exactly max(1, max_retries) times and then failed |
| `RateLimit.Limiter.constructor` | services/api/src/api/rate_limit.py:24-28 | Starts without buckets and with a sixtieth of the rate per minute |
| `RateLimit.Limiter.Check` | services/api/src/api/rate_limit.py:30-47 | The answer and the new bucket of the key follow from its old bucket and the clock, a new key starting with the whole capacity; buckets of other keys do not change |
| `RateLimit.RateBound` | services/api/src/api/rate_limit.py:30-47 | From any check i to an accepted check j at most capacity + rate x (now_j - now_i) checks are accepted, even when clock readings are out of order |
| `RateLimit.RateLaw` | services/api/src/api/rate_limit.py:30-47 | The exact law, for any clock: a check is accepted if and only if from every earlier check on the accepted ones leave a whole token of the capacity plus the refill since then |
| `RateLimit.BurstAllowed` | services/api/src/api/rate_limit.py:36 | A new key is accepted capacity times in a row at one time, and then no more |
| `RateLimit.CheckAll` | services/api/src/api/rate_limit.py:30-47 | A new limiter answers any interleaved sequence of checks of any keys as the buckets after the checks before say |
| `RateLimit.KeysApart` | services/api/src/api/rate_limit.py:30-47 | The bucket of a key after interleaved checks is the bucket after its own checks alone |
| `RateLimit.RateBoundInterleaved` | services/api/src/api/rate_limit.py:30-47 | The rate bound for each key of a limiter that serves many keys at once |
| `RateLimit.RateLawInterleaved` | services/api/src/api/rate_limit.py:30-47 | The exact law for each key of a limiter that serves many keys: its own earlier checks alone decide |
| `RateLimit.Accounting` | services/api/src/api/rate_limit.py:39-47 | The level at a later check is at most the earlier level minus the accepted checks plus the refill |
| `RateLimit.RejectedLeaveNoTrace` | services/api/src/api/rate_limit.py:39-45 | With a monotone clock, rejected checks never change a later answer |
| `RateLimit.ForgetRejected` | services/api/src/api/rate_limit.py:39-45 | Dropping all rejected checks of a history leaves a bucket with the same levels from then on |
| `RateLimit.HintPlusOneSuffices` | services/api/src/api/rate_limit.py:43-45 | A caller rejected with hint h is accepted at any later check at least h + 1 seconds after, if nothing was accepted in between |
| `RateLimit.HintAloneSuffices` | services/api/src/api/rate_limit.py:44 | Waiting exactly the hint is enough if and only if the missing part of a token refills within a second or in a whole number of seconds |
| `RateLimit.HintCanBeEarly` | services/api/src/api/rate_limit.py:39-47 | A history from a new limiter: accepted, then rejected with hint 1, then rejected again when asked exactly one second later |
| `Recommendations.Repository.CreatePending` | packages/persistence/src/persistence/repositories/recommendations.py:28-43 | Inserts a pending row, or refuses a taken id or a row that does not have exactly one subject |
| `Recommendations.Repository.ApproveRec` | packages/persistence/src/persistence/repositories/recommendations.py:129-148 | Approves with its audit row, or leaves everything as it was and says why; Recommendations.ApprovalExactly says when |
| `Recommendations.Repository.RejectRec` | packages/persistence/src/persistence/repositories/recommendations.py:151-169 | Rejects with its audit row, or leaves everything as it was and says why |
| `Recommendations.Repository.MarkDelivered` | packages/persistence/src/persistence/repositories/recommendations.py:172-191 | Delivers with its audit row, or leaves everything as it was and says why |
| `Recommendations.Repository.Append` | packages/persistence/src/persistence/repositories/recommendations.py:194-202 | Adds one audit row with the status the recommendation has now |
| `Recommendations.HistoryConsistent` | packages/persistence/src/persistence/repositories/recommendations.py:28-202 | After any sequence of calls every row is explained by its audit rows, every audit row has a recommendation, and no subject has two live ones |
| `Recommendations.StatusIsReplay` | packages/persistence/src/persistence/repositories/recommendations.py:129-202 | The status is the replay of the audit rows of the recommendation, and these are none, approved, rejected, or approved then delivered |
| `Recommendations.ReplayShapes` | packages/core-contracts/src/core_contracts/recommendation.py:32-39 | A trail that follows the transition table has one of four shapes, named by the status it ends in |
| `Recommendations.OneWay` | packages/core-contracts/src/core_contracts/recommendation.py:32-39 | Exactly one way leads from DRAFT to every status of the transition table, and no status can be entered twice |
| `Recommendations.DecidedByReviewer` | packages/core-contracts/src/core_contracts/recommendation.py:42-54 | Whatever is decided was decided by a non-blank reviewer, who is the actor of the first audit row; what is delivered was approved first |
| `Recommendations.OneLivePerSubject` | packages/persistence/src/persistence/repositories/recommendations.py:59-73 | At most one recommendation per tenant, allocation run and subject is approved or delivered |
| `Recommendations.DeliveryNeedsApprovalOnly` | packages/persistence/src/persistence/repositories/recommendations.py:172-185 | After any history a delivery succeeds exactly when the tenant owns the row and it is approved: the reviewer test never fails on its own |
| `Recommendations.DecisionsStand` | packages/persistence/src/persistence/repositories/recommendations.py:129-202 | The audit log only grows; a rejected or delivered row never changes again, an approved one only by delivery |
| `Recommendations.CreationExactly` | packages/persistence/src/persistence/repositories/recommendations.py:28-43 | After any history a new recommendation is stored, pending and with exactly the given fields, if and only if its id is new and it names exactly one of user and circle; otherwise nothing changes |
| `Recommendations.ApprovalExactly` | packages/persistence/src/persistence/repositories/recommendations.py:59-73 | After any history an approval goes through if and only if the tenant owns the row, it is pending, the reviewer holds a non-space character, and no other row with the same tenant, run, user and circle is approved or delivered; the row then holds reviewer and note, and a refusal changes nothing |
| `Recommendations.RejectionExactly` | packages/persistence/src/persistence/repositories/recommendations.py:151-169 | The same for rejections, which need no test of other rows |
| `Recommendations.DeliveryExactly` | packages/persistence/src/persistence/repositories/recommendations.py:172-191 | A delivery goes through if and only if the tenant owns an approved row; it stores the reference and leaves reviewer and note as they are |
| `Recommendations.RowIsItsTrail` | packages/persistence/src/persistence/repositories/recommendations.py:129-202 | The stored reviewer and note are those of the first audit row and the delivery reference that of the second |
| `Ingest.Store.AddRawEvents` | services/worker/src/worker/memory_store.py:63-71 | Appends in order the bodies whose client id is not stored yet, numbered by position; other tenants are untouched |
| `Ingest.AddedExactly` | services/worker/src/worker/memory_store.py:63-71 | A delivery appends, in order, NEW and numbered on, exactly the first body of every client id that the store does not have yet |
| `Ingest.Store.ClaimRawEvents` | services/worker/src/worker/memory_store.py:87-88 | The claimed records are stored, NEW and in store order, no waiting record before a claimed one is passed over, and their number is what the limit lets through: the smaller of limit and waiting, or for a negative limit the waiting ones less that many |
| `Ingest.ClaimDetermined` | services/worker/src/worker/memory_store.py:87-88 | That promise leaves exactly one possible claim |
| `Ingest.Store.MarkRawEvent` | services/worker/src/worker/memory_store.py:90-94 | Sets status and error of the record with that id and of no other |
| `Ingest.Store.SaveCanonicalEvents` | services/worker/src/worker/memory_store.py:96-105 | Saves first-wins by client id, counts what it added, and stops at an event of another tenant with what came before it saved |
| `Ingest.Store.UpsertUserAttributes` | services/worker/src/worker/memory_store.py:111-113 | Merges values into the attributes of one user; all else stays |
| `Ingest.RedeliveryIgnored` | services/worker/src/worker/memory_store.py:63-71 | Delivering a batch again adds nothing, and no client id is stored twice |
| `Ingest.Ingest` | services/worker/src/worker/pipeline.py:139-160 | Terminates for every batch size; the store ends as after handling the records in scope one at a time, whatever the batch size, and processed + unmapped is their number |
| `Ingest.HandleBatch` | services/worker/src/worker/pipeline.py:147-160 | One batch, with its canonical events saved at the end, equals handling its records one by one |
| `Ingest.LeftNew` | services/worker/src/worker/pipeline.py:143-146 | Nothing is left NEW if and only if the batch size is at least one or nothing was waiting; what is left is the tail of the waiting list |
| `Ingest.SecondRunIdle` | services/worker/src/worker/pipeline.py:143-160 | A second run with the same batch size changes nothing |
| `Ingest.RecordsSettle` | services/worker/src/worker/pipeline.py:148-159 | Each waiting record in scope ends processed, or unmapped with its reason; no other record is touched |
| `Ingest.FirstEventWins` | services/worker/src/worker/memory_store.py:96-105 | Of the events saved under one client id the first stays, stored ones before new ones |
| `Ingest.LastAttributeWins` | services/worker/src/worker/memory_store.py:111-113 | Of the values written to an attribute the last stays; attributes nobody writes keep their value |
| `Ingest.UsersOnRecord` | services/worker/src/worker/pipeline.py:148-159 | A user has attributes on record exactly if that was so before or some mapped event brings at least one attribute for the user |
| `Ingest.CountsMapped` | services/worker/src/worker/pipeline.py:148-159 | The number reported as processed is that of the records in scope that are mapped to an event |
| `Rupiah.IdrForm` | packages/explain/src/explain/template.py:7-8 | The printed amount is the currency, a blank, and groups of three digits divided by dots |
| `Rupiah.Interpretations` | packages/explain/src/explain/validator.py:24-35 | The set grown in place is the set of all values the token may stand for |
| `Rupiah.RupiahRoundTrip` | packages/explain/src/explain/validator.py:24-35 | Read as rupiah, the grouped form of n with any trailing dots and commas has the single reading n |
| `Rupiah.PlainReadings` | packages/explain/src/explain/validator.py:24-35 | Without Rp the grouped form of 1000..999999 has a second, decimal reading; all others read as n only |
| `Rupiah.RpMatters` | packages/explain/src/explain/validator.py:29-30 | Those are exactly the amounts for which the leading Rp changes the readings |
| `Rupiah.GroupedIsThousands` | packages/explain/src/explain/validator.py:20 | A grouped form matches the thousands pattern exactly from 1000 on |
| `Text.DigitsSpell` | packages/explain/src/explain/template.py:8 | The decimal digits of n spell n and have no leading zero |
| `Text.SpacesListed` | packages/core-contracts/src/core_contracts/recommendation.py:42-54 | The white space a reviewer name is stripped of is exactly the 29 code points for which str.isspace() holds |
| `Narration.ExtractNumbers` | packages/explain/src/explain/validator.py:38-46 | The scan collects the readings of every number token of the cleaned text, in order |
| `NumberReader.NumbersFound` | packages/explain/src/explain/validator.py:38-46 | The readings are those of all numbers of the cleaned text in order, a number being the longest stretch of digits, points and commas from a digit that no letter, digit, underscore, point or comma precedes: none is passed over and none is read twice |
| `NumberReader.MarkExactly` | packages/explain/src/explain/validator.py:42 | A number counts as rupiah exactly when Rp with at most two blanks, or Rp and a point with at most one, precedes it |
| `NumberReader.SeparatorsInterchange` | packages/explain/src/explain/validator.py:24-35 | Exchanging points and commas in a token changes none of its readings |
| `NumberReader.DecimalReads` | packages/explain/src/explain/validator.py:24-35 | Digits, a point and digits read as that decimal number, and also as a whole number exactly when at most three digits without a leading zero precede the point and three follow it |
| `NumberReader.UnreadableExactly` | packages/explain/src/explain/validator.py:24-35 | A number has no reading exactly when two or more points and commas stand inside it and do not divide thousands |
| `NumberReader.FoundHaveReadings` | packages/explain/src/explain/validator.py:43-45 | Numbers without a reading are passed over |
| `NumberReader.WordIsIdentifier` | packages/explain/src/explain/validator.py:16 | A word is cut out and reported as identifier exactly when it has twelve or more characters, all hexadecimal digits in either case |
| `NumberReader.WordInText` | packages/explain/src/explain/validator.py:16 | Between other characters a word is judged alone, and the text on both sides keeps its own identifiers |
| `NumberReader.GapStays` | packages/explain/src/explain/validator.py:16 | Text without letters, digits and underscores is left as it is and holds no identifier |
| `NumberReader.GlueIrrelevant` | packages/explain/src/explain/validator.py:18-19 | Rp and Rp with a point, glued to a digit, are read like Rp and a blank, wherever they stand |
| `NumberReader.UngluedStays` | packages/explain/src/explain/validator.py:18-19 | Text in which no Rp is glued to a digit is not rewritten |
| `Narration.FindsAmount` | packages/explain/src/explain/validator.py:38-46 | Wherever a printed amount stands, the reader finds exactly that amount there and reads the text before and after it as if they stood alone; no part of it counts as a hex id |
| `Narration.AmountDecides` | packages/explain/src/explain/validator.py:94-98 | The number check passes exactly when the amount is an allowed value and the texts before and after it pass |
| `Narration.AmountIsNoHexId` | packages/explain/src/explain/validator.py:16 | A printed amount is never cut out or reported as a hex identifier |
| `Narration.HexSplit` | packages/explain/src/explain/validator.py:16 | Cutting out hex ids works separately on both sides of a word boundary |
| `Narration.NormalisedAround` | packages/explain/src/explain/validator.py:39 | Cleaning the text leaves a printed amount as it is and cleans both sides on their own |
| `Template.FirstSentenceReads` | packages/explain/src/explain/template.py:19-22 | In the opening sentence the reader finds the numbers of the display name, the cost, the rounded priority and the numbers of the strategy, in this order and nothing else, and no hex identifiers but those of the name and the strategy |
| `Template.FirstSentenceDecides` | packages/explain/src/explain/template.py:1-22 | The opening sentence passes the number check if and only if the numbers in the display name and the strategy pass it and the cost and the rounded priority are allowed values |
| `Template.FirstSentenceAccepted` | packages/explain/src/explain/template.py:1-22 | The promised acceptance: with all readings of the display name and the strategy, the cost and the rounded priority among the allowed values, the opening sentence passes the number check |
| `Template.CentsRead` | packages/explain/src/explain/template.py:21 | A number printed with two decimals is read as exactly that number, whatever its sign |
| `Ids.Encode` | packages/core-contracts/src/core_contracts/ids.py:13-18 | The buffer filled from the right holds the base-32 digits, for negative values too |
| `Ids.DecodesTo` | packages/core-contracts/src/core_contracts/ids.py:13-18 | Decoding an encoding of width n gives the value modulo 32 to the n |
| `Ids.RoundTrip` | packages/core-contracts/src/core_contracts/ids.py:13-18 | Decoding undoes encoding if and only if the value fits the width |
| `Ids.SortsAsNumber` | packages/core-contracts/src/core_contracts/ids.py:10 | Strings of one length over the alphabet sort exactly as the numbers they spell |
| `Ids.EncodingsSort` | packages/core-contracts/src/core_contracts/ids.py:13-18 | Encodings of one width sort and coincide exactly as the values do |
| `Ids.NewId` | packages/core-contracts/src/core_contracts/ids.py:21-25 | An id is ten symbols of time and sixteen of randomness |
| `Ids.IdsSort` | packages/core-contracts/src/core_contracts/ids.py:21-25 | Ids sort by timestamp and then by randomness, and are equal only if both are |
| `Ids.EarlierFirst` | packages/core-contracts/src/core_contracts/ids.py:21-25 | One time sorts before another whatever the random parts if and only if it is smaller modulo 2 to the 48 |
| `Ids.FirstSymbol` | packages/core-contracts/src/core_contracts/ids.py:23-25 | The first symbol of an id is one of 0..7 |
| `PolicyGuard.AllowedExactly` | packages/policy-guard/src/policy_guard/guard.py:24-46 | A candidate is allowed exactly when it is not over-indebted, not capped, changes no credit terms and, where the rule applies, is persuadable |
| `PolicyGuard.CountIsInside` | packages/policy-guard/src/policy_guard/rules.py:23 | The count is the number of times inside the closed window |
| `PolicyGuard.ReasonIsTrue` | services/worker/src/worker/pipeline.py:351-355 | The recorded reason is the first hard rule that truly denied, and the segment only if every hard rule passed |
| `Terms.PassesExactlyWhenRespected` | packages/policy-guard/src/policy_guard/rules.py:14-54 | A candidate passes the hard rules exactly when its incentive changes no credit terms, urges no user with too many late repayments within the last lookback days of 24 hours to borrow, and the contacts of the last window days are below the cap |
| `Candidates.BuildCandidates` | services/worker/src/worker/pipeline.py:383-394 | The nested loops build the individual offers and then the group offers; Terms.CandidateTerms says what each carries |
| `Candidates.CandidatesExactly` | services/worker/src/worker/pipeline.py:383-394 | The candidates are, each once, every scored user with every individual incentive and every scored member of every large enough circle with every group incentive |
| `Terms.CandidateTerms` | services/worker/src/worker/pipeline.py:358-373 | Field by field: every candidate has the code, cost, kind and rule flags of one incentive, the risk and segment of its scored user, and, if it is a group candidate, a circle that holds the user |
| `Terms.DeniedExactly` | services/worker/src/worker/pipeline.py:396-411 | A candidate is denied exactly when its incentive breaks a hard rule for the user or the segment is not PERSUADABLE |
| `Fates.ExclusionTells` | services/worker/src/worker/pipeline.py:351-420 | The reason of an exclusion is the first rule the candidate breaks, in the order lending, cap, credit terms, segment, or else that a fellow member of its offer is denied |
| `Candidates.CandidateIdsDistinct` | services/worker/src/worker/pipeline.py:358-373 | No two candidates share an id, when the hash tells apart the users, codes and circles that the run itself hashes |
| `Candidates.FoundCirclesFit` | packages/graph-signal/src/graph_signal/circles.py:30-37 | The circles found in the graph meet what the decision stages rely on, distinct ids and members and ids without a colon, when the digest tells their own member lists apart |
| `Candidates.Exclude` | services/worker/src/worker/pipeline.py:406-420 | Records for each candidate its own denial, or else that a member of its group offer is denied, and nothing for anyone else |
| `Candidates.SpoilBundle` | services/worker/src/worker/pipeline.py:417-420 | One excluded member excludes the others of the bundle and overwrites no reason |
| `Candidates.OffersFallTogether` | services/worker/src/worker/pipeline.py:413-420 | Members of one group offer are all excluded or none is |
| `Candidates.StandingOffer` | services/worker/src/worker/pipeline.py:388-420 | A group offer that stands is made to every scored member of a large enough circle, and each passed every rule |
| `Baseline.NaiveArm` | services/worker/src/worker/pipeline.py:539-576 | The two loops leave the extra decisions and picks of each user of the arm, users in order |
| `Baseline.DecideUser` | services/worker/src/worker/pipeline.py:554-575 | One user: below the threshold everything is excluded, otherwise the offers are screened by cost |
| `Baseline.BaselineAccounted` | services/worker/src/worker/pipeline.py:539-576 | Every candidate of the arm is excluded exactly once or is the offer of exactly one pick |
| `Baseline.PicksAreCheapest` | services/worker/src/worker/pipeline.py:558-575 | Every pick is an at-risk user's cheapest individual offer among those that pass the three hard rules |
| `Baseline.OnePickPerUser` | services/worker/src/worker/pipeline.py:553-575 | The picks of the arm go to different users |
| `Baseline.AtRiskGetsPick` | services/worker/src/worker/pipeline.py:553-575 | An at-risk user with an offer that passes the hard rules gets a pick |
| `Decisions.Run.Policy` | services/worker/src/worker/pipeline.py:376-420 | Leaves all candidates and the reason for every excluded one |
| `Decisions.Run.Rank` | services/worker/src/worker/pipeline.py:437-444 | Ranks exactly the candidates that are not excluded |
| `Decisions.Run.Allocate` | services/worker/src/worker/pipeline.py:464-536 | Leaves the allocation, the extra decisions and the picks of all arms |
| `Decisions.RankedListed` | services/worker/src/worker/pipeline.py:438-442 | Ranking loses and duplicates no standing candidate |
| `Decisions.PickAll` | services/worker/src/worker/pipeline.py:499-522 | The picks read off the decisions, one per key with a selected decision, keys in order; Shown.EnginePickShows says what each shows |
| `Decisions.EngineWellFormed` | services/worker/src/worker/pipeline.py:489-497 | What the engine hands to the allocator meets everything the allocator relies on |
| `Decisions.CandidatesAccounted` | services/worker/src/worker/pipeline.py:478-576 | Every candidate has exactly one fate: one allocator decision, one extra exclusion, or one baseline pick |
| `Decisions.RankedOrder` | services/worker/src/worker/pipeline.py:442 | The ranking goes by falling priority, by candidate id among equals |
| `Fates.ExcludedFate` | services/worker/src/worker/pipeline.py:478-486 | A candidate of an excluded offer outside the NAIVE arm is recorded with that reason at priority 0, and with its own cost and unit |
| `Fates.ControlFate` | services/worker/src/worker/pipeline.py:487-492 | A standing candidate of a CONTROL unit is recorded as held out at its own priority |
| `Fates.EngineFate` | services/worker/src/worker/pipeline.py:489-497 | A standing candidate of an ENGINE unit gets an allocator decision at its own priority |
| `Fates.BaselineFate` | services/worker/src/worker/pipeline.py:539-576 | A candidate of a NAIVE unit is never chosen if it is a group candidate; otherwise it is recorded as below the threshold or with the first hard rule it breaks, or it is picked, or recorded as not chosen at the risk of the user |
| `PickSafety.PickIsItem` | services/worker/src/worker/pipeline.py:503-522 | A pick stands for the one chosen item of its key: same candidates, same cost, same circle |
| `PickSafety.SpentIsPickCosts` | services/worker/src/worker/pipeline.py:503-522 | The costs of the engine picks add up to the reported spend, which is within the budget |
| `PickSafety.OnePickPerUnit` | services/worker/src/worker/pipeline.py:501-522 | Candidates of two engine picks never belong to one unit, a unit being the circle of a group offer and otherwise the user |
| `Terms.PickTerms` | services/worker/src/worker/pipeline.py:478-576 | Every candidate of a pick, in whatever arm, is for an incentive that changes no credit terms, urges no over-indebted user to borrow and keeps the cap; engine picks are for persuadable users, baseline picks for at-risk NAIVE users |
| `Shown.RunnersAreItem` | services/worker/src/worker/pipeline.py:503-507 | The runner-up decisions of a key are those of the one runner-up item, one for each of its candidates |
| `Shown.EnginePickShows` | services/worker/src/worker/pipeline.py:499-522 | Every engine pick shows the rank and the value of the item it stands for, and as runner-up exactly the candidates of the best other positive item of its key, none if there is none, and never one of its own |
| `Fates.NaivePickShows` | services/worker/src/worker/pipeline.py:558-575 | Every baseline pick offers the cheapest eligible candidate of the user, unranked and at the risk of the user, and shows the cheapest other eligible one as runner-up, if there is one |
| `Listing.PickAscends` | services/worker/src/worker/pipeline.py:503-516 | An engine pick lists its candidates, and with them its members, by ascending candidate id |
| `Listing.EnginePicksInOrder` | services/worker/src/worker/pipeline.py:503 | The engine picks are listed by ascending circle key or user |
| `Listing.NaivePicksInOrder` | services/worker/src/worker/pipeline.py:553 | The baseline picks are listed by ascending user |
| `Reach.GroupPickReaches` | services/worker/src/worker/pipeline.py:388-420 | A group pick reaches exactly the scored members of its circle |
| `Reach.SoloPickReaches` | services/worker/src/worker/pipeline.py:518-575 | A pick without a circle reaches exactly one user, whose own unit is in the arm of the pick |
| `Reach.SharedUserExactly` | services/worker/src/worker/pipeline.py:499-522 | With disjoint circles two engine picks share a user if and only if one of them is an individual pick whose user is a scored member of the other one's circle |
| `Reach.PicksApart` | services/worker/src/worker/pipeline.py:499-575 | With disjoint circles, of two picks of a run for one user, in whatever arm, one is individual and the other a group pick |
| `Reach.ControlReachedExactly` | services/worker/src/worker/pipeline.py:489-522 | A user whose own unit is held out is reached if and only if some engine group pick has a circle of which the user is a scored member |
| `Reach.CapExceededExactly` | packages/policy-guard/src/policy_guard/rules.py:32-39 | Counting the picks of the run as contacts, a reached user goes over the frequency cap if and only if one contact was left and both an individual and a group pick reach the user |
| `Reach.FoundCirclesDisjoint` | packages/graph-signal/src/graph_signal/circles.py:30-37 | Circles found in the graph are disjoint |
| `Reachable.GroupPickStands` | services/worker/src/worker/pipeline.py:388-522 | A group pick is made for a large enough circle in the ENGINE arm with a group incentive no scored member is denied, and costs the incentive once for each scored member |
| `Reachable.ControlReachableExactly` | services/worker/src/worker/pipeline.py:388-522 | Told before ALLOCATE: some run with the given arms and budget reaches a user whose own unit is held out if and only if the user is a scored member of a circle with such an offer that the budget can pay for |
| `Reachable.TwiceReachableExactly` | services/worker/src/worker/pipeline.py:383-576 | Told before ALLOCATE: some run gives a user an individual and a group pick if and only if such an offer to a circle of the user and an individual offer to the user both stand and the budget can pay for what the engine makes of them |
| `Reachable.CapExceedableExactly` | packages/policy-guard/src/policy_guard/rules.py:32-39 | Told before ALLOCATE, with disjoint circles: some run takes a user over the frequency cap if and only if exactly one contact is left and both kinds of offers stand as above |
| `ReachWitness.ControlUserReached` | services/worker/src/worker/pipeline.py:388-522 | A concrete world of two users in one circle and a finished run that reaches a held-out user |
| `ReachWitness.CapIsExceeded` | packages/policy-guard/src/policy_guard/rules.py:32-39 | The same world, one contact a day allowed and none made: a finished run picks one user twice |
| `RunExistence.AllocationExists` | packages/allocator/src/allocator/selection.py:43-98 | Every list of candidates with different item ids has an allocation under any settings |
| `RunExistence.RunExists` | services/worker/src/worker/pipeline.py:376-536 | Every sane world and plan has a finished run, so no statement about finished runs is empty |
| `PickSafety.EnginePicksApproved` | services/worker/src/worker/pipeline.py:485-522 | Every candidate of an engine pick is in the engine arm, passed every hard rule and is persuadable |
| `PickSafety.GroupPickIsWhole` | services/worker/src/worker/pipeline.py:388-420 | A group pick is made to every scored member of its circle, each once |
| `PickSafety.SoloPickIsSingle` | services/worker/src/worker/pipeline.py:518-522 | A pick without a circle holds one individual candidate |
| `PickSafety.NaivePicksCheapest` | services/worker/src/worker/pipeline.py:539-575 | Every baseline pick of a run is the cheapest allowed offer of an at-risk user of the naive arm |
| `PickSafety.NaiveUsersServed` | services/worker/src/worker/pipeline.py:553-575 | Every at-risk naive user with an allowed offer is served |
| `PickSafety.NoControlPicks` | services/worker/src/worker/pipeline.py:490-492 | No candidate of a control unit is picked in any arm |
| `PickSafety.UnsetCapMeansNoPicks` | packages/policy-guard/src/policy_guard/rules.py:32-39 | Without a complete frequency cap there are no picks in any arm |

## Left out

- Float rounding: values, priorities, tokens and parsed numbers are exact reals, and the rounded-up division of a cost by the scale is exact; only the allocator's 1e-9 tolerance is kept, as the parameter `eps`.
- NaN and infinite scores or priorities.
- Database mechanics: SQL, locking, row-level security, grants and migrations. Each repository call is one atomic step; rows held by other transactions enter `RunTable.Table.ClaimQueued` and `RunTable.Table.ReclaimStale` as a set.
- Two approvals that run at the same time: the sibling test reads siblings without locking them, so `Recommendations.OneLivePerSubject` is about serialised calls. The partial unique index on live recommendations of a user is not part of this model.
- Recommendation columns that no rule reads (timestamps, cost, priority, explanation text).
- Token buckets: the lock is modelled by treating checks of one key in lock order; process restarts are not modelled.
- Scoring, ranking regressors and feature windows: foreign calls behind arbitrary functions.
- Hashes: `Ids` aside, ids and circle digests are arbitrary functions. Candidate ids are assumed to differ only for the users, codes and circles one run hashes (`Candidates.IdsTellApart`).
- Decisions.PickAll: the hashed id and mean scores of a bundle's representative and the copied policy decision of a pick are not modelled.
- The filter of incentives by profile type, and the counters each stage reports.
- The INGEST loop's mapping of a raw body is an arbitrary function that stamps the run's own tenant; loading events for the time window after the drain is not modelled, nor is the Postgres store.
- Narration.ExtractNumbers: ASCII text only; Unicode digits, letters and white space beyond what `Text.IsSpace` lists are not modelled.
- Narration.FindsAmount: negative amounts are not printed by this model.
- The narration validator's checks for length and emptiness, its collection of allowed numbers, and the comparison of hex ids with the fact sheet.
- Template.FirstSentenceDecides: the opening sentence only, for a priority whose whole part has fewer than twelve digits; a longer one is cut out as a hex identifier. The other sentences print percentages and names in the same way.
- Greedy.GreedyBound: stated for one item per choice key only, because with several items per key the density run has no such bound.
- Ids.Encode: a negative width, for which the source returns the empty string.
- Worker.PollTenant: describes a poll with no other worker about; interleavings are covered by `RunProtocol`.
- Clocks: all workers of `RunProtocol` read one shared clock, and a pass of `Worker` reads one time throughout.
- API routers, settings, feeds, the language-model narrator, graph decay weights, impact segments, lift formulas and the web console.
