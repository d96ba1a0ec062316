# Single-machine weighted-tardiness scheduling: a verified model

This project models the core of a small scheduler. The scheduler orders jobs on
one machine under precedence constraints and minimises the total weighted
tardiness. A schedule is a sequence of job ids `1..n`. Job `j` has processing
time `p[j-1]`, due date `d[j-1]` and weight `w[j-1]`. Jobs run back to back from
time 0.

The model has four parts.

- `utils.dfy` (module `Utils`) models the cost function. `Tardiness` is a recursive
  reference definition. `TotalWeightedTardiness` is the accumulator loop, proved
  equal to it. `TardinessByPositions` ties both to a per-position sum.
- `dag.dfy` (module `Dags`) models the precedence graph `DAG`.
  - The class `Dag` keeps the two maps `dependencies` and `dependents`, which
    default to the empty set like `defaultdict(set)`.
  - The edge set of the graph library is the field `graph`. The accepted edges
    are the ghost field `edges`.
  - The object invariant `Valid` says four things. The maps mirror each other.
    `dependencies` holds exactly the transitive closure of `edges`. `edges` has no
    cycle. `graph` holds `edges`, and anything more it holds closes a cycle.
  - `SetItem` rejects a value other than 1 and an edge after which `graph` has a
    cycle. Otherwise it extends the closure.
  - A rejected edge stays in `graph`, as it does in the library's graph. Every
    later insertion is then rejected as well (see Findings). `SetItemRestoring`
    is the corrected insertion, which takes a rejected edge out again.
  - `CheckValid` is the nested loop over pairs of positions.
- `tabu.dfy` (module `TabuSearch`) models `Tabu.tabu_search` as written.
  - `Step` and `Run` are the reference semantics of one iteration and of `n`
    iterations. `SearchResult` is the whole call.
  - The class `Tabu` holds the loops and is proved to compute exactly that
    semantics.
  - `tabu_test.dfy` (module `TabuTest`) proves the one unit test of the
    repository step by step.
- `rvns.dfy` (module `Rvns`) models `neighborhood_by_swap` and `RVNS.rvns_search`.
  - The random generator is a stream of draws `(x, y)`: the values the two
    `randint` calls return once the generator has been seeded.
  - `Shake` is the neighbourhood as a function of that stream. `Inner`, `Run` and
    `Final` are the search loops.
  - The class `RvnsSearch` holds the loops and the check-point log
    `checkPoints`, and is proved to compute exactly that semantics.

`wrappers.dfy` defines `Option`, `Result` and `Outcome`.

Errors the source raises become `Err` values:

- `assert` failures in `DAG.__setitem__`.
- The length assertion of `tabu_search`.
- The `ValueError` of `deque(maxlen=L)` when `L < 0`.
- The `IndexError` of the first swap on a schedule shorter than two jobs.
- The `ValueError` of `randint(0, -1)` on an empty schedule.

Wherever processing times, due dates or weights are read, job ids must lie in `1..n`
(the `Indexable` precondition).

## Model

| member | source | states |
|---|---|---|
| Utils.TotalWeightedTardiness | utils.py:20-26 | the accumulator loop returns exactly `Tardiness(schedule)`, the sum over jobs of `max(0, completion - due) * weight` with completion times accumulated from 0 |
| Utils.TardinessAppend | utils.py:22-25 | appending job `j` adds exactly `max(0, TotalTime(s) + p[j-1] - d[j-1]) * w[j-1]` to the cost of `s` |
| Utils.TardinessByPositions | utils.py:20-26 | the cost of every prefix `s[..n]` equals the sum over positions `k < n` of the weighted tardiness of `s[k]` at the total processing time of `s[..k+1]` |
| Utils.TardinessNonNegative | utils.py:25 | with non-negative weights no schedule has negative cost, from any start time |
| Utils.BaseCases | utils.py:20-26 | the empty schedule costs 0; a one-job schedule costs `max(0, p - d) * w` of that job |
| Dags.Dag.constructor | dag.py:11-14 | a new graph has no edges, accepted or in the library's graph, relates no pair of jobs in either map, and satisfies the object invariant |
| Dags.Dag.Get | dag.py:61-73 | `G[x, y]` is 0 or 1, and is 1 exactly when `x` is in the dependency set of `y` |
| Dags.Dag.AddDependency | dag.py:30-44 | only the two maps change; every job of `{child} + dependents[child]` gains every job of `{parent} + dependencies[parent]` as dependencies, `dependents` is extended symmetrically, and no other entry changes |
| Dags.Dag.SetItem | dag.py:46-59 | keeps the invariant; fails with `ValueNotOne` iff `value != 1`; otherwise adds the edge to the library's graph and fails with `CycleError` iff that graph then has a cycle; a failure leaves the maps and the accepted edges unchanged; on success the accepted edges are the library's graph, `G[parent, child] == 1`, and the closure is extended by exactly `Above(parent) x Below(child)` |
| Dags.Dag.CheckValid | dag.py:75-91 | returns true iff no job precedes, per the closure, a job scheduled before it |
| Dags.GetIsReachability | dag.py:57-73 | under the invariant `G[x, y] == 1` iff the accepted edges have a path from `x` to `y` |
| Dags.NoSelfDependency | dag.py:58 | under the invariant no job depends on itself |
| Dags.MirrorAndTransitive | dag.py:39-44 | under the invariant `x in dependencies[y]` iff `y in dependents[x]`, and `G` is transitive |
| Dags.CycleCriterion | dag.py:57-58 | with a closed, acyclic, mirrored graph, adding edge `(p, c)` keeps it acyclic iff `p != c` and `c` does not already precede `p` |
| Dags.ClosureIsReachability | dag.py:39-44 | a transitively closed relation containing every edge relates exactly the pairs joined by a path |
| Dags.ExtendCloses | dag.py:39-44 | adding `Above(p) x Below(c)` to the closure of `E` gives the closure of `E + {(p, c)}` |
| Dags.LibraryCheck | dag.py:58 | under the invariant the library's graph is acyclic iff the closure holds every edge of it, and then it holds only accepted edges |
| Dags.CycleStays | dag.py:57-58 | adding an edge to a graph with a cycle leaves a cycle |
| Dags.RejectionSticks | dag.py:57-58 | once an insertion has been rejected, every later insertion fails the acyclicity test |
| Dags.RejectedEdgeStays | dag.py:46-59 | `G[1, 2] = 1` is accepted, `G[2, 1] = 1` is rejected, and then `G[3, 4] = 1` is rejected too |
| Dags.Dag.SetItemRestoring | dag.py:55-59 | the corrected insertion keeps the invariant and keeps the library's graph equal to the accepted edges: the same outcomes as `SetItem`, but a failure leaves the graph, the maps and the accepted edges as they were |
| Dags.RestoredEdgeAccepts | dag.py:55-59 | with the corrected insertion, `G[1, 2] = 1` is accepted, `G[2, 1] = 1` is rejected, and then `G[3, 4] = 1` is accepted |
| Dags.AddToEach | dag.py:41-44 | adds the set `extra` to the entry of every key in `keys` and changes no other entry |
| TabuSearch.Push | tabu.py:122 | `deque(maxlen=L).append(x)` keeps the newest `min(|t| + 1, L)` entries of `t + [x]` |
| TabuSearch.PushFull | tabu.py:122 | appending to a full tabu list drops the oldest pair and keeps the rest in order |
| TabuSearch.Swap | tabu.py:137-138 | the copy with positions `i` and `i + 1` exchanged, all other positions kept, a permutation of the input |
| TabuSearch.SuccIsMod | tabu.py:149 | `(i + 1) % (n - 1)` is the cyclic successor `Succ(i)` |
| TabuSearch.PosBijective | tabu.py:135-152 | the scan from `last_swap_index` visits every position `0..n-2` exactly once |
| TabuSearch.AdmissibleTest | tabu.py:139-141 | the swap is admissible iff `(current_cost - new_cost > -gamma and the pair is not tabu) or new_cost < best_cost` |
| TabuSearch.FirstAdmissibleSome | tabu.py:135-148 | when the scan accepts, it accepts the first admissible position in cyclic order from `last_swap_index`, and every earlier one is inadmissible |
| TabuSearch.FirstAdmissibleNone | tabu.py:135-152 | the scan finds nothing iff every remaining position is inadmissible |
| TabuSearch.IdleStep | tabu.py:149-154 | an iteration with no admissible swap changes nothing but `last_swap_index`, which advances by one modulo `n - 1` |
| TabuSearch.StepInv | tabu.py:141-154 | one iteration keeps the loop invariant (permutations of the initial schedule, exact costs, `best_cost <= current_cost`, tabu list within `L`) and never raises `best_cost` |
| TabuSearch.RunInv | tabu.py:125-155 | every state of the outer loop keeps that invariant, so `best_cost` never exceeds the initial cost |
| TabuSearch.SearchResultSound | tabu.py:93-157 | a successful search returns a permutation of the initial schedule, its exact cost, at most the initial cost; it fails iff the lengths differ, `L < 0`, or `K >= 0` with fewer than two jobs |
| TabuSearch.Tabu.constructor | tabu.py:36-46 | stores `L` and `gamma` |
| TabuSearch.Tabu.TotalWeightedTardiness | tabu.py:48-71 | returns exactly `Tardiness(schedule)`; it delegates to `Utils.TotalWeightedTardiness`, the loop that tabu.py:65-71 duplicates |
| TabuSearch.Tabu.SwapInTabuList | tabu.py:73-91 | true iff `(x1, x2)` or `(x2, x1)` is in the list |
| TabuSearch.Tabu.Examine | tabu.py:137-148 | accepts iff the swap at `i` is admissible, and then yields the state after accepting it: new current, best updated only on a strict improvement, pair pushed, scan start `(i + 1) % (n - 1)` |
| TabuSearch.Tabu.Iteration | tabu.py:135-154 | the inner scan computes exactly `Step`: the first admissible swap in cyclic order, or only the scan start moved on |
| TabuSearch.Tabu.Iterations | tabu.py:125-155 | `count` outer iterations compute exactly `Run(start, count)` |
| TabuSearch.Tabu.Search | tabu.py:93-157 | returns exactly `SearchResult`; on success a permutation of the initial schedule, its exact cost, and at most the initial cost |
| TabuTest.TestT3P7 | test.py:6-11 | with `L = 2`, `gamma = 100` and `K = 3` the search from `[2, 1, 4, 3]` returns `([1, 4, 2, 3], 408)` |
| Rvns.Exchange | rvns.py:43 | positions `x` and `y` exchanged, all others kept |
| Rvns.ExchangePermutes | rvns.py:43 | an exchange is a permutation |
| Rvns.ShakeSwaps | rvns.py:31-45 | exactly `i` swaps are applied (none when `i <= 0`), each a pair of positions `0 <= y <= x < n`, and the neighbour is the input with those swaps applied in order |
| Rvns.ShakeRest | rvns.py:33-44 | the draws left over are a suffix of the stream, and still fit the schedule |
| Rvns.ShakePermutes | rvns.py:31-45 | the neighbour is a permutation of the input schedule |
| Rvns.ExchangeKeepsValid | rvns.py:36-43 | a swap that passes the validation scan keeps a precedence-valid schedule precedence-valid |
| Rvns.ShakeKeepsValid | rvns.py:31-45 | a precedence-valid input yields a precedence-valid neighbour |
| Rvns.ShakeFails | rvns.py:33-35 | the neighbourhood fails with `EmptyRange` iff `i > 0` on an empty schedule; no other failure is possible besides an exhausted stream |
| Rvns.NeighborhoodBySwap | rvns.py:18-45 | the loop with its validation scan computes exactly `Shake` on the draws |
| Rvns.Candidate | rvns.py:108-111 | a candidate is a permutation of the current schedule together with its exact cost, refined or not, and leaves draws that still fit |
| Rvns.AsWrittenRefinementFails | rvns.py:108-111 | as written, with refinement every candidate ends in an error, `UnexpectedKeyword` once the shake succeeds; without refinement the written code agrees with `Candidate` |
| Rvns.InnerAccept | rvns.py:112-116 | a strictly cheaper candidate is accepted, logged as `(schedule, cost, k, i)`, and ends the inner loop |
| Rvns.InnerReject | rvns.py:112-117 | a candidate that is not cheaper moves the inner loop to `i + 1`, with only the draws advanced |
| Rvns.InnerFail | rvns.py:108-111 | a failing candidate stops the run with the state as it stands |
| Rvns.LogOkAccept | rvns.py:112-115 | accepting a strictly cheaper schedule extends a well-formed log |
| Rvns.InnerSound | rvns.py:107-117 | the inner loop keeps the current schedule a permutation with its exact cost, never raises the cost, and without refinement keeps precedence validity |
| Rvns.InnerLog | rvns.py:107-117 | the inner loop of iteration `k` adds at most one log entry, tagged `k` and `1 <= i <= max_I`, strictly cheaper than the previous one |
| Rvns.StepInv | rvns.py:98-118 | one outer iteration keeps both invariants |
| Rvns.RunInv | rvns.py:98-118 | every state of the outer loop keeps both invariants |
| Rvns.RunHalted | rvns.py:98-118 | after a failure further iterations change nothing |
| Rvns.FinalIs | rvns.py:119 | the final log entry `(current, cost, K, 0)` is appended unless the run failed |
| Rvns.FinalSound | rvns.py:89-120 | a run that does not fail returns a permutation of the initial schedule with its exact cost, at most the initial cost; without refinement a precedence-valid start gives a precedence-valid result; the log holds strictly improving entries with `0 <= k < K`, increasing `k` and `1 <= i <= max_I`, and ends with `(current, cost, K, 0)` |
| Rvns.RvnsSearch.constructor | rvns.py:48-62 | stores `max_I` and the seed and starts with an empty log |
| Rvns.RvnsSearch.NewCandidate | rvns.py:108-111 | the neighbour, its cost, and when optimising the tabu search result, exactly as `Candidate` |
| Rvns.RvnsSearch.Round | rvns.py:106-117 | the inner loop computes exactly `Inner` from neighbourhood 1, log included |
| Rvns.RvnsSearch.Rounds | rvns.py:94-118 | the outer loop computes exactly `Run` for `max(K, 0)` iterations |
| Rvns.RvnsSearch.Search | rvns.py:89-120 | clears the log, runs the loops, and returns and logs exactly `Final` |

## Left out

- Floating-point processing times, due dates, weights and `gamma` are modelled as
  unbounded integers. Rounding is not modelled.
- A job id outside `1..n` is not modelled where it indexes the cost tables.
  Python would read id 0 as the last entry through negative indexing. Every
  member that reads processing times, due dates or weights requires ids in
  `1..n`. The graph, tabu-list and swap members accept any integer id.
- The `random` module is not modelled. The draws are a parameter.
  - Seeding at `rvns.py:89` and the reproducibility it gives are represented only
    by `Final` being a function of the draws.
  - The field `seed` is stored but not used.
  - `OutOfDraws` is the one failure of the model that the real generator cannot
    have. A real run with all draws rejected loops forever, and the model
    reports `OutOfDraws` instead.
- The graph library is not modelled beyond its edge set `graph`. Its acyclicity
  test (`dag.py:58`) is the ghost predicate `Acyclic` over `graph`. `SetItem`
  decides it from the closure, and `LibraryCheck` and `CycleCriterion` prove the
  two agree.
  - The library's node set is not modelled, nor are the properties `edges` and
    `nodes` (`dag.py:16-28`).
- Dags.Dag.AddDependency: the recursion of `dag.py:39-44` is modelled by its net
  effect: adding `Above(parent) x Below(child)` to both maps with two set loops.
  The order in which the recursion visits the sets is not modelled, and nor is
  the insertion of empty keys by `defaultdict` lookups.
- `save_fig` (`dag.py:93-106`) is not part of this model. It renders an image.
- The debug messages of `tabu_search` and `rvns_search` are not part of this
  model. They are output only.
- `RVNS.__init__` takes the neighbourhood as a callable. The model fixes it to
  `neighborhood_by_swap`, the only one the repository defines.
- Rvns.Candidate performs the refinement call of `rvns.py:111` without the
  keyword `G` (see Findings), so the refinement ignores precedence.
- Rvns.FinalSound: precedence validity of the result is stated only without
  refinement, because tabu search as written does not check precedence.
- TabuSearch.Tabu.Search models tabu.py:93-157 as written. The acceptance test
  has no precedence check, although the header comment at tabu.py:9-10 asks for a
  strategy that accounts for precedences. A scan that finds nothing does not stop
  the search, and nothing is logged. An idle iteration only advances
  `last_swap_index`, as `IdleStep` states.
- The command-line entry point and the instance loaders (`main.py`) are not part
  of this model.

## Findings

| source | as written | input that shows it | evidently intended | confidence | as-written member | corrected member |
|---|---|---|---|---|---|---|
| dag.py:57-58 | `__setitem__` adds the edge to the library's graph before the acyclicity assertion and does not remove it when the assertion fails, so the graph keeps the cycle and every later insertion fails the assertion | `G[1, 2] = 1`, then `G[2, 1] = 1` (rejected), then `G[3, 4] = 1`, which is rejected although it closes no cycle | a rejected edge leaves the graph as it was, so later insertions are judged on their own | not executed; medium (the assertion may be meant to abort the program) | Dags.RejectedEdgeStays | Dags.Dag.SetItemRestoring |
| rvns.py:111 | the refinement calls `tabu_search(..., G=G, K=i)`, but `tabu_search` (tabu.py:93) has no parameter `G`, so Python raises `TypeError` | `rvns_search` with `optimization=True`, `K >= 1`, `max_I >= 1` and a non-empty schedule | refine the shaken schedule by a tabu search of `i` iterations and take its schedule and cost | not executed; high | Rvns.AsWrittenRefinementFails | Rvns.Candidate |
