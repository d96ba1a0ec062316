/**
 * Tabu search over adjacent swaps (tabu.py), as written there: no precedence
 * graph, no checkpoint log, and no early stop when a scan finds no admissible swap.
 *
 * The functions below are the reference semantics of one run; the class `Tabu`
 * holds the loops of tabu.py and is proved to compute exactly that semantics.
 */
module TabuSearch {
  import opened Wrappers
  import opened Utils

  /** A swap recorded in the tabu list: the two job ids in their order before the swap. */
  type Pair = (int, int)

  /**
   * `deque(maxlen=L).append(x)`: the newest `min(|t| + 1, L)` entries of `t + [x]`;
   * when the deque is full the oldest entry is evicted.
   */
  function Push(t: seq<Pair>, x: Pair, maxLen: nat): (r: seq<Pair>)
    ensures |r| == if |t| + 1 <= maxLen then |t| + 1 else maxLen
    ensures r == (t + [x])[|t| + 1 - |r|..]
  {
    if |t| + 1 <= maxLen then t + [x] else (t + [x])[|t| + 1 - maxLen..]
  }

  /** Appending to a full tabu list drops its oldest pair and keeps the rest in order. */
  lemma PushFull(t: seq<Pair>, x: Pair, maxLen: nat)
    requires |t| == maxLen > 0
    ensures Push(t, x, maxLen) == t[1..] + [x]
    ensures |Push(t, x, maxLen)| == maxLen
  {
    assert (t + [x])[1..] == t[1..] + [x];
  }

  /** The swap of `x1` and `x2` is tabu in either order. */
  predicate InTabu(t: seq<Pair>, x1: int, x2: int) {
    (x1, x2) in t || (x2, x1) in t
  }

  /** The schedule with positions `i` and `i + 1` exchanged. */
  function Swap(s: seq<int>, i: nat): (r: seq<int>)
    requires i + 1 < |s|
    ensures |r| == |s| && r[i] == s[i + 1] && r[i + 1] == s[i]
    ensures forall k {:trigger r[k]} :: 0 <= k < |s| && k != i && k != i + 1 ==> r[k] == s[k]
    ensures multiset(r) == multiset(s)
  {
    s[i := s[i + 1]][i + 1 := s[i]]
  }

  lemma SwapIndexable(s: seq<int>, i: nat, p: seq<int>, d: seq<int>, w: seq<int>)
    requires i + 1 < |s| && Indexable(s, p, d, w)
    ensures Indexable(Swap(s, i), p, d, w)
  {
    var r := Swap(s, i);
    forall k | 0 <= k < |r| ensures IsJob(r[k], p, d, w) {
      if k != i && k != i + 1 {
        assert r[k] == s[k];
      }
    }
  }

  /** Instance data and the parameters `gamma` and `L` of one run. */
  datatype Env = Env(p: seq<int>, d: seq<int>, w: seq<int>, gamma: int, maxLen: nat)

  /** The variables of the main loop of `tabu_search`. */
  datatype State = State(current: seq<int>, currentCost: int, best: seq<int>, bestCost: int, tabu: seq<Pair>, last: nat)

  /** A state the loop body can run on: at least two jobs and a scan start in `0..n-2`. */
  predicate Ready(env: Env, st: State) {
    |st.current| >= 2 && st.last < Width(st) && Indexable(st.current, env.p, env.d, env.w)
  }

  /** The number `n - 1` of adjacent positions of the current schedule. */
  function Width(st: State): nat {
    if |st.current| == 0 then 0 else |st.current| - 1
  }

  /** The position inspected `off` steps after `last`, cyclically over `0..m-1`. */
  function Pos(last: nat, off: nat, m: nat): (r: nat)
    requires last < m && off < m
    ensures r < m
  {
    if last + off < m then last + off else last + off - m
  }

  /** The position after `i` in the cyclic order over `0..m-1`, which tabu.py writes `(i + 1) % m`. */
  function Succ(i: nat, m: nat): (r: nat)
    requires i < m
    ensures r < m
  {
    if i + 1 < m then i + 1 else 0
  }

  lemma SuccIsMod(i: nat, m: nat)
    requires i < m
    ensures (i + 1) % m == Succ(i, m)
  {
    if i + 1 == m {
      assert (i + 1) % m == m % m == 0;
    }
  }

  /** Stepping the scan: `Succ` moves one offset on, and it is back at `last` only after `m` steps. */
  lemma PosNext(last: nat, off: nat, m: nat)
    requires last < m && off < m
    ensures Succ(Pos(last, off, m), m) == if off + 1 < m then Pos(last, off + 1, m) else last
    ensures off + 1 < m ==> Pos(last, off + 1, m) != last
  {
  }

  /** Distinct offsets inspect distinct positions, and every position is inspected at some offset. */
  lemma PosBijective(last: nat, m: nat, i: nat)
    requires last < m && i < m
    ensures forall o1, o2 :: 0 <= o1 < o2 < m ==> Pos(last, o1, m) != Pos(last, o2, m)
    ensures exists off :: 0 <= off < m && Pos(last, off, m) == i
  {
    var off := if last <= i then i - last else i + m - last;
    assert Pos(last, off, m) == i;
  }

  function Cost(env: Env, s: seq<int>): int
    requires Indexable(s, env.p, env.d, env.w)
  {
    Tardiness(s, env.p, env.d, env.w)
  }

  /** The acceptance test of tabu.py for a swap at position `i`. */
  predicate Admissible(env: Env, st: State, i: nat)
    requires Ready(env, st) && i < Width(st)
  {
    SwapIndexable(st.current, i, env.p, env.d, env.w);
    var newCost := Cost(env, Swap(st.current, i));
    (st.currentCost - newCost > -env.gamma && !InTabu(st.tabu, st.current[i], st.current[i + 1]))
    || newCost < st.bestCost
  }

  /** The first admissible position of the scan from offset `off` on, if any. */
  function FirstAdmissible(env: Env, st: State, off: nat): (r: Option<nat>)
    requires Ready(env, st) && off <= Width(st)
    ensures r.Some? ==> r.value < Width(st)
    decreases Width(st) - off
  {
    var m := Width(st);
    if off == m then None
    else if Admissible(env, st, Pos(st.last, off, m)) then Some(Pos(st.last, off, m))
    else FirstAdmissible(env, st, off + 1)
  }

  /** The state after accepting the swap at position `i`. */
  function Accept(env: Env, st: State, i: nat): (r: State)
    requires Ready(env, st) && i < Width(st)
    ensures Ready(env, r) && |r.current| == |st.current|
  {
    SwapIndexable(st.current, i, env.p, env.d, env.w);
    var next := Swap(st.current, i);
    var nextCost := Cost(env, next);
    State(next, nextCost,
          if nextCost < st.bestCost then next else st.best,
          if nextCost < st.bestCost then nextCost else st.bestCost,
          Push(st.tabu, (st.current[i], st.current[i + 1]), env.maxLen),
          Succ(i, Width(st)))
  }

  /** One iteration of the outer loop. */
  function Step(env: Env, st: State): (r: State)
    requires Ready(env, st)
    ensures Ready(env, r) && |r.current| == |st.current|
  {
    match FirstAdmissible(env, st, 0)
    case None => st.(last := Succ(st.last, Width(st)))
    case Some(i) => Accept(env, st, i)
  }

  /** The scan stops at the first admissible position it meets. */
  lemma ScanAccept(env: Env, st: State, off: nat)
    requires Ready(env, st) && off < Width(st)
    requires FirstAdmissible(env, st, off) == FirstAdmissible(env, st, 0)
    requires Admissible(env, st, Pos(st.last, off, Width(st)))
    ensures Step(env, st) == Accept(env, st, Pos(st.last, off, Width(st)))
  {
  }

  /** Passing over an inadmissible position leaves the outcome of the scan unchanged. */
  lemma ScanSkip(env: Env, st: State, off: nat)
    requires Ready(env, st) && off < Width(st)
    requires !Admissible(env, st, Pos(st.last, off, Width(st)))
    ensures FirstAdmissible(env, st, off + 1) == FirstAdmissible(env, st, off)
  {
  }

  /** Moving the scan past an inadmissible position `i` to the next position. */
  lemma ScanAdvance(env: Env, st: State, off: nat)
    requires Ready(env, st) && off < Width(st)
    requires !Admissible(env, st, Pos(st.last, off, Width(st)))
    ensures FirstAdmissible(env, st, off + 1) == FirstAdmissible(env, st, off)
    ensures Succ(Pos(st.last, off, Width(st)), Width(st)) == if off + 1 < Width(st) then Pos(st.last, off + 1, Width(st)) else st.last
    ensures off + 1 < Width(st) ==> Pos(st.last, off + 1, Width(st)) != st.last
  {
    ScanSkip(env, st, off);
    PosNext(st.last, off, Width(st));
  }

  /** A scan that passes every position finds nothing, and the iteration only advances `last`. */
  lemma ScanExhausted(env: Env, st: State)
    requires Ready(env, st)
    requires FirstAdmissible(env, st, Width(st)) == FirstAdmissible(env, st, 0)
    ensures Step(env, st) == st.(last := Succ(st.last, Width(st)))
  {
    assert FirstAdmissible(env, st, 0).None?;
  }

  /** The acceptance test as the loop body computes it, from the new cost and the tabu lookup. */
  lemma AdmissibleTest(env: Env, st: State, i: nat, newCost: int, tabu: bool)
    requires Ready(env, st) && i < Width(st)
    requires Indexable(Swap(st.current, i), env.p, env.d, env.w)
    requires newCost == Cost(env, Swap(st.current, i))
    requires tabu == InTabu(st.tabu, st.current[i], st.current[i + 1])
    ensures Admissible(env, st, i) <==> (st.currentCost - newCost > -env.gamma && !tabu) || newCost < st.bestCost
  {
  }

  /** `n` iterations of the outer loop. */
  function Run(env: Env, st: State, n: nat): (r: State)
    requires Ready(env, st)
    ensures Ready(env, r) && |r.current| == |st.current|
  {
    if n == 0 then st else Step(env, Run(env, st, n - 1))
  }

  lemma RunNext(env: Env, st: State, n: nat)
    requires Ready(env, st)
    ensures Run(env, st, n + 1) == Step(env, Run(env, st, n))
  {
  }

  datatype TabuError = LengthMismatch | NegativeTabuLength | IndexOutOfRange

  predicate SameLength(s: seq<int>, p: seq<int>, d: seq<int>, w: seq<int>) {
    |s| == |p| && |p| == |d| && |d| == |w|
  }

  /** The result of `tabu_search(initial, p, d, w, K)` with tabu length `maxLen` and threshold `gamma`. */
  function SearchResult(maxLen: int, gamma: int, initial: seq<int>, p: seq<int>, d: seq<int>, w: seq<int>, K: int)
    : Result<(seq<int>, int), TabuError>
    requires SameLength(initial, p, d, w) ==> Indexable(initial, p, d, w)
  {
    if !SameLength(initial, p, d, w) then Err(LengthMismatch)
    else if maxLen < 0 then Err(NegativeTabuLength)
    else
      var cost := Tardiness(initial, p, d, w);
      if K < 0 then Ok((initial, cost))
      else if |initial| < 2 then Err(IndexOutOfRange)
      else
        var final := Run(Env(p, d, w, gamma, maxLen), State(initial, cost, initial, cost, [], 0), K + 1);
        Ok((final.best, final.bestCost))
  }

  /** The invariant of the main loop relative to the initial schedule `init` and its cost. */
  predicate Inv(env: Env, init: seq<int>, initCost: int, st: State) {
    && Ready(env, st)
    && Indexable(st.best, env.p, env.d, env.w)
    && st.currentCost == Cost(env, st.current)
    && st.bestCost == Cost(env, st.best)
    && multiset(st.current) == multiset(init)
    && multiset(st.best) == multiset(init)
    && |st.tabu| <= env.maxLen
    && st.bestCost <= st.currentCost
    && st.bestCost <= initCost
  }

  /** A scan from offset `o` that finds nothing has passed over offset `off`. */
  lemma {:induction false} NonePasses(env: Env, st: State, o: nat, off: nat)
    requires Ready(env, st) && o <= off < Width(st)
    requires FirstAdmissible(env, st, o).None?
    ensures !Admissible(env, st, Pos(st.last, off, Width(st)))
    decreases off - o
  {
    if o < off {
      assert !Admissible(env, st, Pos(st.last, o, Width(st)));
      NonePasses(env, st, o + 1, off);
    }
  }

  /** The scan from offset `o` finds nothing exactly when no position at offset `o` or later is admissible. */
  lemma FirstAdmissibleNone(env: Env, st: State, o: nat)
    requires Ready(env, st) && o <= Width(st)
    ensures FirstAdmissible(env, st, o).None? <==>
      forall off :: o <= off < Width(st) ==> !Admissible(env, st, Pos(st.last, off, Width(st)))
  {
    if FirstAdmissible(env, st, o).Some? {
      var off := FirstAdmissibleSome(env, st, o);
    } else {
      forall off | o <= off < Width(st)
        ensures !Admissible(env, st, Pos(st.last, off, Width(st)))
      {
        NonePasses(env, st, o, off);
      }
    }
  }

  /**
   * The acceptance rule: the scan from offset `o` yields the position of the first
   * offset, in cyclic order from `last`, that is admissible.
   */
  lemma {:induction false} FirstAdmissibleSome(env: Env, st: State, o: nat) returns (off: nat)
    requires Ready(env, st) && o <= Width(st)
    requires FirstAdmissible(env, st, o).Some?
    ensures o <= off < Width(st)
    ensures FirstAdmissible(env, st, o).value == Pos(st.last, off, Width(st))
    ensures Admissible(env, st, Pos(st.last, off, Width(st)))
    ensures forall off' :: o <= off' < off ==> !Admissible(env, st, Pos(st.last, off', Width(st)))
    decreases Width(st) - o
  {
    var m := Width(st);
    if Admissible(env, st, Pos(st.last, o, m)) {
      off := o;
    } else {
      off := FirstAdmissibleSome(env, st, o + 1);
    }
  }

  /** An iteration that finds no admissible position changes only `last`, which advances by one modulo `n - 1`. */
  lemma IdleStep(env: Env, st: State)
    requires Ready(env, st)
    requires forall i :: 0 <= i < Width(st) ==> !Admissible(env, st, i)
    ensures Step(env, st) == st.(last := Succ(st.last, Width(st)))
  {
    FirstAdmissibleNone(env, st, 0);
  }

  /** One iteration keeps the invariant and never raises the best cost. */
  lemma StepInv(env: Env, init: seq<int>, initCost: int, st: State)
    requires Inv(env, init, initCost, st)
    ensures Inv(env, init, initCost, Step(env, st))
    ensures Step(env, st).bestCost <= st.bestCost
  {
    var r := Step(env, st);
    match FirstAdmissible(env, st, 0)
    case None =>
    case Some(i) =>
      SwapIndexable(st.current, i, env.p, env.d, env.w);
      assert r.current == Swap(st.current, i);
  }

  lemma RunStepInv(env: Env, init: seq<int>, initCost: int, st: State, n: nat)
    requires Ready(env, st) && Inv(env, init, initCost, Run(env, st, n))
    ensures Inv(env, init, initCost, Run(env, st, n + 1))
  {
    StepInv(env, init, initCost, Run(env, st, n));
    RunNext(env, st, n);
  }

  /** Every state reached by the outer loop keeps the invariant; in particular the best cost never rises above `initCost`. */
  lemma RunInv(env: Env, init: seq<int>, initCost: int, st: State, n: nat)
    requires Inv(env, init, initCost, st)
    ensures Inv(env, init, initCost, Run(env, st, n))
  {
    var k := 0;
    while k < n
      invariant k <= n && Inv(env, init, initCost, Run(env, st, k))
    {
      RunStepInv(env, init, initCost, st, k);
      k := k + 1;
    }
  }

  /**
   * What a successful search returns: a permutation of the initial schedule whose
   * cost is exactly its weighted tardiness and at most that of the initial schedule.
   */
  lemma SearchResultSound(maxLen: int, gamma: int, initial: seq<int>, p: seq<int>, d: seq<int>, w: seq<int>, K: int)
    requires SameLength(initial, p, d, w) ==> Indexable(initial, p, d, w)
    ensures var r := SearchResult(maxLen, gamma, initial, p, d, w, K);
      r.Ok? ==> && multiset(r.value.0) == multiset(initial)
                && Indexable(r.value.0, p, d, w)
                && r.value.1 == Tardiness(r.value.0, p, d, w)
                && r.value.1 <= Tardiness(initial, p, d, w)
    ensures SearchResult(maxLen, gamma, initial, p, d, w, K).Err? <==>
      !SameLength(initial, p, d, w) || maxLen < 0 || (K >= 0 && |initial| < 2)
  {
    if SameLength(initial, p, d, w) && maxLen >= 0 && K >= 0 && |initial| >= 2 {
      var env := Env(p, d, w, gamma, maxLen);
      var cost := Tardiness(initial, p, d, w);
      RunInv(env, initial, cost, State(initial, cost, initial, cost, [], 0), K + 1);
    }
  }

  class Tabu {
    /** The length `L` of the tabu list. */
    const maxLen: int
    /** The tolerated cost increase of a non-aspiring move. */
    const gamma: int

    constructor (L: int, gamma: int)
      ensures maxLen == L && this.gamma == gamma
    {
      maxLen := L;
      this.gamma := gamma;
    }

    /** `_total_weighted_tardiness`: the same accumulator loop as utils.py. */
    method TotalWeightedTardiness(schedule: seq<int>, processingTimes: seq<int>, dueDates: seq<int>, weights: seq<int>)
      returns (tardiness: int)
      requires Indexable(schedule, processingTimes, dueDates, weights)
      ensures tardiness == Tardiness(schedule, processingTimes, dueDates, weights)
    {
      tardiness := Utils.TotalWeightedTardiness(schedule, processingTimes, dueDates, weights);
    }

    /** `_swap_in_tabu_list`: scans the list and returns at the first pair that matches in either order. */
    method SwapInTabuList(tabuList: seq<Pair>, x1: int, x2: int) returns (found: bool)
      ensures found <==> InTabu(tabuList, x1, x2)
    {
      for k := 0 to |tabuList|
        invariant forall k' :: 0 <= k' < k ==> tabuList[k'] != (x1, x2) && tabuList[k'] != (x2, x1)
      {
        if (x1, x2) == tabuList[k] || (x2, x1) == tabuList[k] {
          return true;
        }
      }
      return false;
    }

    /**
     * The body of the inner loop of `tabu_search` for position `i`: the swap, its cost,
     * the acceptance test and, when it passes, the state after accepting the swap.
     */
    method Examine(processingTimes: seq<int>, dueDates: seq<int>, weights: seq<int>, st: State, i: nat)
      returns (accepted: bool, next: State)
      requires maxLen >= 0
      requires Ready(Env(processingTimes, dueDates, weights, gamma, maxLen), st) && i < Width(st)
      ensures accepted == Admissible(Env(processingTimes, dueDates, weights, gamma, maxLen), st, i)
      ensures accepted ==> next == Accept(Env(processingTimes, dueDates, weights, gamma, maxLen), st, i)
    {
      ghost var env := Env(processingTimes, dueDates, weights, gamma, maxLen);
      var m := |st.current| - 1;
      SwapIndexable(st.current, i, processingTimes, dueDates, weights);
      var newSchedule := Swap(st.current, i);
      var newCost := TotalWeightedTardiness(newSchedule, processingTimes, dueDates, weights);
      var delta := st.currentCost - newCost;
      var tabu := SwapInTabuList(st.tabu, st.current[i], st.current[i + 1]);
      AdmissibleTest(env, st, i, newCost, tabu);
      accepted := (delta > -gamma && !tabu) || newCost < st.bestCost;
      next := st;
      if accepted {
        var tabuList := Push(st.tabu, (st.current[i], st.current[i + 1]), maxLen);
        var bestSchedule, bestCost := st.best, st.bestCost;
        if newCost < st.bestCost {
          bestSchedule := newSchedule;
          bestCost := newCost;
        }
        SuccIsMod(i, m);
        next := State(newSchedule, newCost, bestSchedule, bestCost, tabuList, (i + 1) % m);
      }
    }

    /**
     * The body of the outer loop of `tabu_search`: scans cyclically from `last`,
     * takes the first admissible swap, and moves the scan start past it.
     */
    method Iteration(processingTimes: seq<int>, dueDates: seq<int>, weights: seq<int>, st: State) returns (next: State)
      requires maxLen >= 0
      requires Ready(Env(processingTimes, dueDates, weights, gamma, maxLen), st)
      ensures next == Step(Env(processingTimes, dueDates, weights, gamma, maxLen), st)
    {
      ghost var env := Env(processingTimes, dueDates, weights, gamma, maxLen);
      var m := |st.current| - 1;
      var i := st.last;
      ghost var off: nat := 0;
      while true
        invariant off < m && i == Pos(st.last, off, m)
        invariant FirstAdmissible(env, st, off) == FirstAdmissible(env, st, 0)
        decreases m - off
      {
        var accepted, candidate := Examine(processingTimes, dueDates, weights, st, i);
        if accepted {
          ScanAccept(env, st, off);
          return candidate;
        }
        ScanAdvance(env, st, off);
        SuccIsMod(i, m);
        i := (i + 1) % m;
        off := off + 1;
        if i == st.last {
          // every position has been inspected once
          ScanExhausted(env, st);
          SuccIsMod(i, m);
          return st.(last := (i + 1) % m);
        }
      }
    }

    /** The outer loop of `tabu_search`: `count` iterations from `start`. */
    method Iterations(processingTimes: seq<int>, dueDates: seq<int>, weights: seq<int>, start: State, count: nat)
      returns (st: State)
      requires maxLen >= 0
      requires Ready(Env(processingTimes, dueDates, weights, gamma, maxLen), start)
      ensures st == Run(Env(processingTimes, dueDates, weights, gamma, maxLen), start, count)
    {
      ghost var env := Env(processingTimes, dueDates, weights, gamma, maxLen);
      st := start;
      var k := 0;
      while k < count
        invariant k <= count
        invariant st == Run(env, start, k)
      {
        st := Iteration(processingTimes, dueDates, weights, st);
        RunNext(env, start, k);
        k := k + 1;
      }
    }

    /** `tabu_search`: runs `K + 1` iterations of the scan and returns the best schedule and its cost. */
    method Search(initialSchedule: seq<int>, processingTimes: seq<int>, dueDates: seq<int>, weights: seq<int>, K: int)
      returns (r: Result<(seq<int>, int), TabuError>)
      requires SameLength(initialSchedule, processingTimes, dueDates, weights) ==> Indexable(initialSchedule, processingTimes, dueDates, weights)
      ensures r == SearchResult(maxLen, gamma, initialSchedule, processingTimes, dueDates, weights, K)
      ensures r.Ok? ==> && multiset(r.value.0) == multiset(initialSchedule)
                        && Indexable(r.value.0, processingTimes, dueDates, weights)
                        && r.value.1 == Tardiness(r.value.0, processingTimes, dueDates, weights)
                        && r.value.1 <= Tardiness(initialSchedule, processingTimes, dueDates, weights)
    {
      var n := |initialSchedule|;
      if !(n == |processingTimes| && |processingTimes| == |dueDates| && |dueDates| == |weights|) {
        return Err(LengthMismatch);
      }
      var currentCost := TotalWeightedTardiness(initialSchedule, processingTimes, dueDates, weights);
      if maxLen < 0 {
        return Err(NegativeTabuLength);
      }
      if K < 0 {
        // the loop `while k <= K` does not run
        r := Ok((initialSchedule, currentCost));
        SearchResultSound(maxLen, gamma, initialSchedule, processingTimes, dueDates, weights, K);
        return;
      }
      if n < 2 {
        // the first iteration reads position 1, which a list of fewer than two jobs lacks
        return Err(IndexOutOfRange);
      }
      // current and best schedule, their costs, the tabu list and last_swap_index
      var start := State(initialSchedule, currentCost, initialSchedule, currentCost, [], 0);
      var st := Iterations(processingTimes, dueDates, weights, start, K + 1);
      r := Ok((st.best, st.bestCost));
      SearchResultSound(maxLen, gamma, initialSchedule, processingTimes, dueDates, weights, K);
    }
  }
}
