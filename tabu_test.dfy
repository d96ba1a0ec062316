/**
 * The unit test of tabu.py (test.py): four jobs, `L = 2`, `gamma = 100`,
 * `K = 3`, from the schedule `[2, 1, 4, 3]`. The run is followed iteration by
 * iteration through the reference semantics of `TabuSearch`.
 */
module TabuTest {
  import opened Wrappers
  import opened Utils
  import opened TabuSearch

  const P: seq<int> := [10, 10, 13, 4]
  const D: seq<int> := [4, 2, 1, 12]
  const W: seq<int> := [14, 12, 1, 12]

  /** `Tabu(L=2, gamma=100)` on the instance above. */
  const E: Env := Env(P, D, W, 100, 2)

  /** The weighted tardiness of a four-job schedule of this instance, written out job by job. */
  lemma TardinessOfFour(s: seq<int>)
    requires |s| == 4 && Indexable(s, P, D, W)
    ensures var c0 := P[s[0] - 1]; var c1 := c0 + P[s[1] - 1]; var c2 := c1 + P[s[2] - 1]; var c3 := c2 + P[s[3] - 1];
      Tardiness(s, P, D, W) == Tardy(c0, D[s[0] - 1], W[s[0] - 1]) + Tardy(c1, D[s[1] - 1], W[s[1] - 1])
                             + Tardy(c2, D[s[2] - 1], W[s[2] - 1]) + Tardy(c3, D[s[3] - 1], W[s[3] - 1])
  {
    var c0 := P[s[0] - 1]; var c1 := c0 + P[s[1] - 1]; var c2 := c1 + P[s[2] - 1]; var c3 := c2 + P[s[3] - 1];
    assert s[1..][1..] == s[2..] && s[2..][1..] == s[3..] && s[3..][1..] == [];
    assert TardinessFrom(s[3..], P, D, W, c2) == Tardy(c3, D[s[3] - 1], W[s[3] - 1]);
    assert TardinessFrom(s[2..], P, D, W, c1) == Tardy(c2, D[s[2] - 1], W[s[2] - 1]) + TardinessFrom(s[3..], P, D, W, c2);
    assert TardinessFrom(s[1..], P, D, W, c0) == Tardy(c1, D[s[1] - 1], W[s[1] - 1]) + TardinessFrom(s[2..], P, D, W, c1);
    assert TardinessFrom(s, P, D, W, 0) == Tardy(c0, D[s[0] - 1], W[s[0] - 1]) + TardinessFrom(s[1..], P, D, W, c0);
  }

  /** A four-job schedule of ids in `1..4` indexes the attribute arrays. */
  lemma IndexableFour(s: seq<int>)
    requires |s| == 4 && 1 <= s[0] <= 4 && 1 <= s[1] <= 4 && 1 <= s[2] <= 4 && 1 <= s[3] <= 4
    ensures Indexable(s, P, D, W)
  {
    forall k | 0 <= k < 4 ensures IsJob(s[k], P, D, W) {
      assert k == 0 || k == 1 || k == 2 || k == 3;
    }
  }

  /** The weighted tardiness of each schedule the example run visits. */
  lemma CostOf(s: seq<int>, c: int)
    requires || (s == [2, 1, 4, 3] && c == 500) || (s == [1, 2, 4, 3] && c == 480) || (s == [1, 4, 2, 3] && c == 408)
             || (s == [1, 4, 3, 2] && c == 554) || (s == [4, 1, 2, 3] && c == 440) || (s == [4, 2, 1, 3] && c == 460)
    ensures Indexable(s, P, D, W) && Tardiness(s, P, D, W) == c
  {
    IndexableFour(s);
    TardinessOfFour(s);
  }

  /** Tabu lookups and appends on the short lists of the run (`L = 2`). */
  lemma NotTabuOne(a: Pair, x1: int, x2: int)
    requires a != (x1, x2) && a != (x2, x1)
    ensures !InTabu([a], x1, x2)
  {
  }

  lemma PushShort(t: seq<Pair>, x: Pair)
    requires |t| < 2
    ensures Push(t, x, 2) == t + [x]
  {
  }

  lemma NotTabuTwo(a: Pair, b: Pair, x1: int, x2: int)
    requires a != (x1, x2) && a != (x2, x1) && b != (x1, x2) && b != (x2, x1)
    ensures !InTabu([a, b], x1, x2)
  {
  }

  lemma PushTwo(a: Pair, b: Pair, x: Pair)
    ensures Push([a, b], x, 2) == [b, x]
  {
    PushFull([a, b], x, 2);
  }

  /** An iteration whose scan accepts the swap at offset `off` after rejecting every earlier offset. */
  lemma StepAt(env: Env, st: State, off: nat, next: seq<int>, nextCost: int)
    requires Ready(env, st) && off < Width(st)
    requires FirstAdmissible(env, st, off) == FirstAdmissible(env, st, 0)
    requires next == Swap(st.current, Pos(st.last, off, Width(st)))
    requires Indexable(next, env.p, env.d, env.w) && nextCost == Cost(env, next)
    requires var i := Pos(st.last, off, Width(st));
      (st.currentCost - nextCost > -env.gamma && !InTabu(st.tabu, st.current[i], st.current[i + 1])) || nextCost < st.bestCost
    ensures var i := Pos(st.last, off, Width(st));
      Step(env, st) == State(next, nextCost,
                             if nextCost < st.bestCost then next else st.best,
                             if nextCost < st.bestCost then nextCost else st.bestCost,
                             Push(st.tabu, (st.current[i], st.current[i + 1]), env.maxLen),
                             Succ(i, Width(st)))
  {
    ScanAccept(env, st, off);
  }

  /** Iteration 0 swaps positions 0 and 1: cost 500 falls to 480, a new best. */
  lemma Iteration0(env: Env, st: State)
    requires env == E && st == State([2, 1, 4, 3], 500, [2, 1, 4, 3], 500, [], 0)
    ensures Step(env, st) == State([1, 2, 4, 3], 480, [1, 2, 4, 3], 480, [(2, 1)], 1)
  {
    Iteration0Facts(env, st);
    StepAt(env, st, 0, [1, 2, 4, 3], 480);
    PushShort([], (2, 1));
  }

  lemma Iteration0Facts(env: Env, st: State)
    requires env == E && st == State([2, 1, 4, 3], 500, [2, 1, 4, 3], 500, [], 0)
    ensures Ready(env, st) && Width(st) == 3 && Pos(st.last, 0, Width(st)) == 0 && Succ(0, Width(st)) == 1
    ensures [1, 2, 4, 3] == Swap(st.current, Pos(st.last, 0, Width(st)))
    ensures Indexable([1, 2, 4, 3], env.p, env.d, env.w) && 480 == Cost(env, [1, 2, 4, 3])
    ensures !InTabu(st.tabu, st.current[0], st.current[1]) && st.currentCost - 480 > -env.gamma
    ensures st.current[0] == 2 && st.current[1] == 1 && env.maxLen == 2 && st.bestCost == 500 && st.tabu == []
  {
    var next := Swap(st.current, 0);
    assert next == [1, 2, 4, 3];
    CostOf(next, 480);
    IndexableFour(st.current);
  }

  /** Iteration 1 swaps positions 1 and 2: cost 408, a new best. */
  lemma Iteration1(env: Env, st: State)
    requires env == E && st == State([1, 2, 4, 3], 480, [1, 2, 4, 3], 480, [(2, 1)], 1)
    ensures Step(env, st) == State([1, 4, 2, 3], 408, [1, 4, 2, 3], 408, [(2, 1), (2, 4)], 2)
  {
    Iteration1Facts(env, st);
    StepAt(env, st, 0, [1, 4, 2, 3], 408);
    PushShort([(2, 1)], (2, 4));
  }

  lemma Iteration1Facts(env: Env, st: State)
    requires env == E && st == State([1, 2, 4, 3], 480, [1, 2, 4, 3], 480, [(2, 1)], 1)
    ensures Ready(env, st) && Width(st) == 3 && Pos(st.last, 0, Width(st)) == 1 && Succ(1, Width(st)) == 2
    ensures [1, 4, 2, 3] == Swap(st.current, Pos(st.last, 0, Width(st)))
    ensures Indexable([1, 4, 2, 3], env.p, env.d, env.w) && 408 == Cost(env, [1, 4, 2, 3])
    ensures !InTabu(st.tabu, st.current[1], st.current[2]) && st.currentCost - 408 > -env.gamma
    ensures st.current[1] == 2 && st.current[2] == 4 && env.maxLen == 2 && st.bestCost == 480 && st.tabu == [(2, 1)]
  {
    var next := Swap(st.current, 1);
    assert next == [1, 4, 2, 3];
    CostOf(next, 408);
    IndexableFour(st.current);
    NotTabuOne((2, 1), 2, 4);
  }

  /**
   * Iteration 2 first tries positions 2 and 3 (cost 554: more than `gamma` above
   * 408 and no new best), then accepts positions 0 and 1 at cost 440; the best stays 408.
   */
  lemma Iteration2(env: Env, st: State)
    requires env == E && st == State([1, 4, 2, 3], 408, [1, 4, 2, 3], 408, [(2, 1), (2, 4)], 2)
    ensures Step(env, st) == State([4, 1, 2, 3], 440, [1, 4, 2, 3], 408, [(2, 4), (1, 4)], 1)
  {
    Iteration2Reject(env, st);
    Iteration2Facts(env, st);
    StepAt(env, st, 1, [4, 1, 2, 3], 440);
    PushTwo((2, 1), (2, 4), (1, 4));
  }

  lemma Iteration2Reject(env: Env, st: State)
    requires env == E && st == State([1, 4, 2, 3], 408, [1, 4, 2, 3], 408, [(2, 1), (2, 4)], 2)
    ensures Ready(env, st) && Width(st) == 3
    ensures FirstAdmissible(env, st, 1) == FirstAdmissible(env, st, 0)
  {
    IndexableFour(st.current);
    assert Pos(2, 0, 3) == 2;
    var rejected := Swap(st.current, 2);
    assert rejected == [1, 4, 3, 2];
    CostOf(rejected, 554);
    AdmissibleTest(env, st, 2, 554, InTabu(st.tabu, st.current[2], st.current[3]));
    ScanSkip(env, st, 0);
  }

  lemma Iteration2Facts(env: Env, st: State)
    requires env == E && st == State([1, 4, 2, 3], 408, [1, 4, 2, 3], 408, [(2, 1), (2, 4)], 2)
    ensures Pos(st.last, 1, 3) == 0 && Succ(0, 3) == 1
    ensures [4, 1, 2, 3] == Swap(st.current, 0)
    ensures Indexable([4, 1, 2, 3], env.p, env.d, env.w) && 440 == Cost(env, [4, 1, 2, 3])
    ensures !InTabu(st.tabu, st.current[0], st.current[1]) && st.currentCost - 440 > -env.gamma
    ensures st.current[0] == 1 && st.current[1] == 4 && env.maxLen == 2 && st.bestCost == 408
  {
    var next := Swap(st.current, 0);
    assert next == [4, 1, 2, 3];
    CostOf(next, 440);
    NotTabuTwo((2, 1), (2, 4), 1, 4);
  }

  /** Iteration 3 swaps positions 1 and 2: cost 460; the best stays 408. */
  lemma Iteration3(env: Env, st: State)
    requires env == E && st == State([4, 1, 2, 3], 440, [1, 4, 2, 3], 408, [(2, 4), (1, 4)], 1)
    ensures Step(env, st) == State([4, 2, 1, 3], 460, [1, 4, 2, 3], 408, [(1, 4), (1, 2)], 2)
  {
    Iteration3Facts(env, st);
    StepAt(env, st, 0, [4, 2, 1, 3], 460);
    PushTwo((2, 4), (1, 4), (1, 2));
  }

  lemma Iteration3Facts(env: Env, st: State)
    requires env == E && st == State([4, 1, 2, 3], 440, [1, 4, 2, 3], 408, [(2, 4), (1, 4)], 1)
    ensures Ready(env, st) && Width(st) == 3 && Pos(st.last, 0, Width(st)) == 1 && Succ(1, Width(st)) == 2
    ensures [4, 2, 1, 3] == Swap(st.current, Pos(st.last, 0, Width(st)))
    ensures Indexable([4, 2, 1, 3], env.p, env.d, env.w) && 460 == Cost(env, [4, 2, 1, 3])
    ensures !InTabu(st.tabu, st.current[1], st.current[2]) && st.currentCost - 460 > -env.gamma
    ensures st.current[1] == 1 && st.current[2] == 2 && env.maxLen == 2 && st.bestCost == 408 && st.tabu == [(2, 4), (1, 4)]
  {
    var next := Swap(st.current, 1);
    assert next == [4, 2, 1, 3];
    CostOf(next, 460);
    IndexableFour(st.current);
    NotTabuTwo((2, 4), (1, 4), 1, 2);
  }

  /** `test_t3_p7`: `tabu_search([2, 1, 4, 3], p, d, w, K=3)` returns `([1, 4, 2, 3], 408)`. */
  lemma TestT3P7()
    ensures SearchResult(2, 100, [2, 1, 4, 3], P, D, W, 3) == Ok(([1, 4, 2, 3], 408))
  {
    var s0 := State([2, 1, 4, 3], 500, [2, 1, 4, 3], 500, [], 0);
    CostOf([2, 1, 4, 3], 500);
    RunNext(E, s0, 0);
    Iteration0(E, s0);
    RunNext(E, s0, 1);
    Iteration1(E, Run(E, s0, 1));
    RunNext(E, s0, 2);
    Iteration2(E, Run(E, s0, 2));
    RunNext(E, s0, 3);
    Iteration3(E, Run(E, s0, 3));
  }
}
