/**
 * Reduced variable neighbourhood search (rvns.py).
 *
 * The random generator is modelled as a finite stream of draws `(x, y)`, the
 * values `random.randint(0, n - 1)` and `random.randint(0, x)` would return
 * after the generator is seeded. A stream that runs dry is reported as
 * `OutOfDraws`, the one failure the real generator cannot have.
 */
module Rvns {
  import opened Wrappers
  import opened Utils
  import opened Dags
  import TabuSearch

  /** One draw of the generator: a position `x` and a position `y <= x`. */
  type Draw = (int, int)

  /** Every draw names two positions `0 <= y <= x < n`, as `randint` guarantees. */
  predicate DrawsFit(draws: seq<Draw>, n: int) {
    forall k :: 0 <= k < |draws| ==> 0 <= draws[k].1 <= draws[k].0 < n
  }

  datatype Failure =
    | EmptyRange                         // randint(0, -1) on an empty schedule
    | OutOfDraws                         // the modelled draw stream is exhausted
    | TabuFailed(error: TabuSearch.TabuError)
    | UnexpectedKeyword                  // tabu_search() got an unexpected keyword argument 'G'

  /**
   * The swap of positions `y <= x` is rejected: some job between them (ends
   * included) must follow the job at `y` or precede the job at `x`.
   */
  predicate Blocked(deps: map<int, set<int>>, s: seq<int>, x: int, y: int)
    requires 0 <= y <= x < |s|
  {
    exists j :: y <= j <= x && (Precedes(deps, s[y], s[j]) || Precedes(deps, s[j], s[x]))
  }

  /** `s` with the jobs at positions `x` and `y` exchanged. */
  function Exchange(s: seq<int>, x: int, y: int): (r: seq<int>)
    requires 0 <= y <= x < |s|
    ensures |r| == |s| && r[x] == s[y] && r[y] == s[x]
    ensures forall k {:trigger r[k]} :: 0 <= k < |s| && k != x && k != y ==> r[k] == s[k]
  {
    s[x := s[y]][y := s[x]]
  }

  lemma ExchangePermutes(s: seq<int>, x: int, y: int)
    requires 0 <= y <= x < |s|
    ensures multiset(Exchange(s, x, y)) == multiset(s)
  {
    var t := s[x := s[y]];
    assert multiset(t) == multiset(s) - multiset{s[x]} + multiset{s[y]};
  }

  /** Applies the swaps of `swaps` to `s` in order. */
  function Replay(s: seq<int>, swaps: seq<Draw>): seq<int>
    requires DrawsFit(swaps, |s|)
    decreases |swaps|
  {
    if swaps == [] then s
    else Replay(Exchange(s, swaps[0].0, swaps[0].1), swaps[1..])
  }

  /** The result of `neighborhood_by_swap`: the new schedule, the swaps applied in order, and the unused draws. */
  datatype Shaken = Shaken(schedule: seq<int>, swaps: seq<Draw>, rest: seq<Draw>)

  /**
   * `neighborhood_by_swap(s, i, G)` run on the draws `draws`, after the swaps
   * `done` have been applied: rejected draws are skipped without counting, each
   * accepted one swaps its two positions, until `i` swaps have been applied.
   */
  function Shake(deps: map<int, set<int>>, s: seq<int>, i: int, draws: seq<Draw>, done: seq<Draw>): Result<Shaken, Failure>
    requires DrawsFit(draws, |s|)
    decreases |draws|
  {
    if i <= 0 then Ok(Shaken(s, done, draws))
    else if |s| == 0 then Err(EmptyRange)
    else if draws == [] then Err(OutOfDraws)
    else
      var (x, y) := draws[0];
      if Blocked(deps, s, x, y) then Shake(deps, s, i, draws[1..], done)
      else Shake(deps, Exchange(s, x, y), i - 1, draws[1..], done + [(x, y)])
  }

  /** The unused draws are a suffix of the stream. */
  lemma {:induction false} ShakeRest(deps: map<int, set<int>>, s: seq<int>, i: int, draws: seq<Draw>, done: seq<Draw>)
    requires DrawsFit(draws, |s|)
    ensures var r := Shake(deps, s, i, draws, done);
      r.Ok? ==> && |r.value.rest| <= |draws| && r.value.rest == draws[|draws| - |r.value.rest|..]
                && DrawsFit(r.value.rest, |s|)
    decreases |draws|
  {
    var r := Shake(deps, s, i, draws, done);
    if i <= 0 || |s| == 0 || draws == [] {
      assert draws[|draws| - |draws|..] == draws;
    } else {
      var (x, y) := draws[0];
      if Blocked(deps, s, x, y) {
        ShakeRest(deps, s, i, draws[1..], done);
      } else {
        ShakeRest(deps, Exchange(s, x, y), i - 1, draws[1..], done + [(x, y)]);
      }
      if r.Ok? {
        var rest := r.value.rest;
        assert draws[1..][|draws[1..]| - |rest|..] == draws[|draws| - |rest|..];
      }
    }
  }

  /**
   * Exactly `i` swaps are applied (none when `i <= 0`), each of them a draw that
   * fits the schedule, and the result is the input with those swaps applied in order.
   */
  lemma {:induction false} ShakeSwaps(deps: map<int, set<int>>, s: seq<int>, i: int, draws: seq<Draw>, done: seq<Draw>)
    requires DrawsFit(draws, |s|)
    ensures var r := Shake(deps, s, i, draws, done);
      r.Ok? ==> && |r.value.swaps| == |done| + (if i > 0 then i else 0)
                && r.value.swaps[..|done|] == done
                && DrawsFit(r.value.swaps[|done|..], |s|)
                && r.value.schedule == Replay(s, r.value.swaps[|done|..])
    decreases |draws|
  {
    var r := Shake(deps, s, i, draws, done);
    if i <= 0 || |s| == 0 || draws == [] {
      if r.Ok? {
        assert r.value.swaps[|done|..] == [];
      }
    } else {
      var (x, y) := draws[0];
      if Blocked(deps, s, x, y) {
        ShakeSwaps(deps, s, i, draws[1..], done);
      } else {
        var t := Exchange(s, x, y);
        ShakeSwaps(deps, t, i - 1, draws[1..], done + [(x, y)]);
        if r.Ok? {
          var sw := r.value.swaps;
          assert sw[..|done|] == (sw[..|done| + 1])[..|done|];
          assert sw[|done|..] == [(x, y)] + sw[|done| + 1..];
          assert sw[|done|..][1..] == sw[|done| + 1..];
        }
      }
    }
  }

  /** The neighbour is a permutation of the input schedule. */
  lemma {:induction false} ShakePermutes(deps: map<int, set<int>>, s: seq<int>, i: int, draws: seq<Draw>, done: seq<Draw>)
    requires DrawsFit(draws, |s|)
    ensures var r := Shake(deps, s, i, draws, done);
      r.Ok? ==> |r.value.schedule| == |s| && multiset(r.value.schedule) == multiset(s)
    decreases |draws|
  {
    if i > 0 && |s| > 0 && draws != [] {
      var (x, y) := draws[0];
      if Blocked(deps, s, x, y) {
        ShakePermutes(deps, s, i, draws[1..], done);
      } else {
        ExchangePermutes(s, x, y);
        ShakePermutes(deps, Exchange(s, x, y), i - 1, draws[1..], done + [(x, y)]);
      }
    }
  }

  /** A swap that is not blocked keeps a precedence-valid schedule valid. */
  lemma ExchangeKeepsValid(deps: map<int, set<int>>, s: seq<int>, x: int, y: int)
    requires 0 <= y <= x < |s|
    requires ValidSchedule(deps, s) && !Blocked(deps, s, x, y)
    ensures ValidSchedule(deps, Exchange(s, x, y))
  {
    var t := Exchange(s, x, y);
    forall a, b | 0 <= a < b < |t| ensures !Precedes(deps, t[b], t[a]) {
      if a == y && b == x {
        assert !(Precedes(deps, s[y], s[x]));
      } else if a == y && b < x {
        assert !(Precedes(deps, s[y], s[b]) || Precedes(deps, s[b], s[x]));
      } else if y < a && b == x {
        assert !(Precedes(deps, s[y], s[a]) || Precedes(deps, s[a], s[x]));
      } else if a == y {
        assert t[a] == s[x] && t[b] == s[b] && x < b;
      } else if b == x {
        assert t[b] == s[y] && t[a] == s[a] && a < y;
      } else if b == y {
        assert t[b] == s[x] && t[a] == s[a] && a < x;
      } else if a == x {
        assert t[a] == s[y] && t[b] == s[b] && y < b;
      } else {
        assert t[a] == s[a] && t[b] == s[b];
      }
    }
  }

  /** Every accepted swap keeps precedence validity, so a valid input yields a valid neighbour. */
  lemma {:induction false} ShakeKeepsValid(deps: map<int, set<int>>, s: seq<int>, i: int, draws: seq<Draw>, done: seq<Draw>)
    requires DrawsFit(draws, |s|) && ValidSchedule(deps, s)
    ensures var r := Shake(deps, s, i, draws, done);
      r.Ok? ==> ValidSchedule(deps, r.value.schedule)
    decreases |draws|
  {
    if i > 0 && |s| > 0 && draws != [] {
      var (x, y) := draws[0];
      if Blocked(deps, s, x, y) {
        ShakeKeepsValid(deps, s, i, draws[1..], done);
      } else {
        ExchangeKeepsValid(deps, s, x, y);
        ShakeKeepsValid(deps, Exchange(s, x, y), i - 1, draws[1..], done + [(x, y)]);
      }
    }
  }

  /** Only an empty schedule with work to do, or a stream that runs dry, makes the neighbourhood fail. */
  lemma {:induction false} ShakeFails(deps: map<int, set<int>>, s: seq<int>, i: int, draws: seq<Draw>, done: seq<Draw>)
    requires DrawsFit(draws, |s|)
    ensures Shake(deps, s, i, draws, done) == Err(EmptyRange) <==> i > 0 && |s| == 0
    ensures Shake(deps, s, i, draws, done).Err? ==> Shake(deps, s, i, draws, done).error in {EmptyRange, OutOfDraws}
    decreases |draws|
  {
    if i > 0 && |s| > 0 && draws != [] {
      var (x, y) := draws[0];
      if Blocked(deps, s, x, y) {
        ShakeFails(deps, s, i, draws[1..], done);
      } else {
        ShakeFails(deps, Exchange(s, x, y), i - 1, draws[1..], done + [(x, y)]);
      }
    }
  }

  /** A permutation of an indexable schedule is indexable. */
  lemma PermutationIndexable(s: seq<int>, t: seq<int>, p: seq<int>, d: seq<int>, w: seq<int>)
    requires Indexable(s, p, d, w) && multiset(t) == multiset(s)
    ensures Indexable(t, p, d, w)
  {
    forall k | 0 <= k < |t| ensures IsJob(t[k], p, d, w) {
      assert t[k] in multiset(s);
      var m :| 0 <= m < |s| && s[m] == t[k];
    }
  }

  /** `neighborhood_by_swap`: the counter-driven loop of rvns.py with its validation scan, on a copy of the schedule. */
  method NeighborhoodBySwap(currentSchedule: seq<int>, i: int, g: Dag, draws: seq<Draw>) returns (r: Result<Shaken, Failure>)
    requires DrawsFit(draws, |currentSchedule|)
    ensures r == Shake(g.dependencies, currentSchedule, i, draws, [])
  {
    var newSchedule := currentSchedule;
    var count := 0;
    var stream := draws;
    var applied: seq<Draw> := [];
    while count < i
      invariant |newSchedule| == |currentSchedule| && DrawsFit(stream, |newSchedule|)
      invariant Shake(g.dependencies, newSchedule, i - count, stream, applied)
             == Shake(g.dependencies, currentSchedule, i, draws, [])
      decreases |stream|
    {
      if |newSchedule| == 0 {
        return Err(EmptyRange);
      }
      if stream == [] {
        return Err(OutOfDraws);
      }
      var (x, y) := stream[0];
      stream := stream[1..];
      var valid := true;
      for j := y to x + 1
        invariant valid
        invariant forall j' :: y <= j' < j ==>
          !(Precedes(g.dependencies, newSchedule[y], newSchedule[j']) || Precedes(g.dependencies, newSchedule[j'], newSchedule[x]))
      {
        if g.Get(newSchedule[y], newSchedule[j]) == 1 || g.Get(newSchedule[j], newSchedule[x]) == 1 {
          valid := false;
          break;
        }
      }
      if !valid {
        continue;
      }
      newSchedule := newSchedule[x := newSchedule[y]][y := newSchedule[x]];
      applied := applied + [(x, y)];
      count := count + 1;
    }
    return Ok(Shaken(newSchedule, applied, stream));
  }

  /** One record of the search log: a schedule, its cost, the iteration `k` and the neighbourhood index `i`. */
  datatype CheckPoint = CheckPoint(schedule: seq<int>, cost: int, k: int, i: int)

  /** Instance data and the fixed parameters of one search. */
  datatype Env = Env(deps: map<int, set<int>>, p: seq<int>, d: seq<int>, w: seq<int>, maxI: int, optimization: bool)

  /** The variables of the search loops, the log built so far, the unused draws and the failure that stopped the run, if any. */
  datatype State = State(current: seq<int>, cost: int, log: seq<CheckPoint>, draws: seq<Draw>, failure: Option<Failure>)

  /** The states the loops work on: the current schedule indexes the attribute arrays and the draws fit it. */
  predicate Ready(env: Env, st: State) {
    Indexable(st.current, env.p, env.d, env.w) && DrawsFit(st.draws, |st.current|)
  }

  /** The candidate for neighbourhood `i`: the shaken schedule and its cost, refined by a tabu search of `i` iterations when optimising. */
  function Candidate(env: Env, s: seq<int>, i: int, draws: seq<Draw>): (r: Result<(seq<int>, int, seq<Draw>), Failure>)
    requires Indexable(s, env.p, env.d, env.w) && DrawsFit(draws, |s|)
    ensures r.Ok? ==> && |r.value.0| == |s| && multiset(r.value.0) == multiset(s)
                      && Indexable(r.value.0, env.p, env.d, env.w)
                      && r.value.1 == Tardiness(r.value.0, env.p, env.d, env.w)
                      && DrawsFit(r.value.2, |s|)
  {
    ShakePermutes(env.deps, s, i, draws, []);
    ShakeRest(env.deps, s, i, draws, []);
    match Shake(env.deps, s, i, draws, [])
    case Err(e) => Err(e)
    case Ok(sh) =>
      PermutationIndexable(s, sh.schedule, env.p, env.d, env.w);
      if !env.optimization then
        Ok((sh.schedule, Tardiness(sh.schedule, env.p, env.d, env.w), sh.rest))
      else
        TabuSearch.SearchResultSound(env.maxI, 0, sh.schedule, env.p, env.d, env.w, i);
        match TabuSearch.SearchResult(env.maxI, 0, sh.schedule, env.p, env.d, env.w, i)
        case Err(e) => Err(TabuFailed(e))
        case Ok((t, c)) => Ok((t, c, sh.rest))
  }

  /**
   * The candidate as rvns.py writes the refinement call: it passes the keyword `G`,
   * which `tabu_search` does not declare, so the call raises before any search runs.
   */
  function CandidateAsWritten(env: Env, s: seq<int>, i: int, draws: seq<Draw>): (r: Result<(seq<int>, int, seq<Draw>), Failure>)
    requires Indexable(s, env.p, env.d, env.w) && DrawsFit(draws, |s|)
  {
    ShakePermutes(env.deps, s, i, draws, []);
    match Shake(env.deps, s, i, draws, [])
    case Err(e) => Err(e)
    case Ok(sh) =>
      PermutationIndexable(s, sh.schedule, env.p, env.d, env.w);
      if !env.optimization then
        Ok((sh.schedule, Tardiness(sh.schedule, env.p, env.d, env.w), sh.rest))
      else
        Err(UnexpectedKeyword)
  }

  /**
   * As written, refinement never yields a candidate: every shaken schedule ends in
   * `UnexpectedKeyword`. Without refinement the written code and `Candidate` agree.
   */
  lemma AsWrittenRefinementFails(env: Env, s: seq<int>, i: int, draws: seq<Draw>)
    requires Indexable(s, env.p, env.d, env.w) && DrawsFit(draws, |s|)
    ensures env.optimization ==> CandidateAsWritten(env, s, i, draws).Err?
    ensures env.optimization && Shake(env.deps, s, i, draws, []).Ok? ==> CandidateAsWritten(env, s, i, draws) == Err(UnexpectedKeyword)
    ensures env.optimization && i <= 0 ==> CandidateAsWritten(env, s, i, draws) == Err(UnexpectedKeyword)
    ensures !env.optimization ==> CandidateAsWritten(env, s, i, draws) == Candidate(env, s, i, draws)
  {
  }

  /** The inner loop of `rvns_search` for iteration `k`, from neighbourhood `i` on. */
  function Inner(env: Env, st: State, k: int, i: int): (r: State)
    requires Ready(env, st)
    ensures Ready(env, r) && |r.current| == |st.current|
    decreases env.maxI - i + 1, 1
  {
    if st.failure.Some? || i > env.maxI then st else Examine(env, st, k, i)
  }

  /** Neighbourhood `i` of iteration `k`: a cheaper candidate is accepted and logged, a dearer one passes to `i + 1`. */
  function Examine(env: Env, st: State, k: int, i: int): (r: State)
    requires Ready(env, st) && i <= env.maxI
    ensures Ready(env, r) && |r.current| == |st.current|
    decreases env.maxI - i + 1, 0
  {
    match Candidate(env, st.current, i, st.draws)
    case Err(e) => st.(failure := Some(e))
    case Ok((s, c, rest)) =>
      if c < st.cost then State(s, c, st.log + [CheckPoint(s, c, k, i)], rest, None)
      else Inner(env, st.(draws := rest), k, i + 1)
  }

  /** The inner loop stops at an accepted candidate and logs it. */
  lemma InnerAccept(env: Env, st: State, k: int, i: int, s: seq<int>, c: int, rest: seq<Draw>)
    requires Ready(env, st) && st.failure.None? && i <= env.maxI
    requires Candidate(env, st.current, i, st.draws) == Ok((s, c, rest)) && c < st.cost
    ensures Inner(env, st, k, i) == State(s, c, st.log + [CheckPoint(s, c, k, i)], rest, None)
  {
  }

  /** A candidate that is not cheaper moves the inner loop on to neighbourhood `i + 1`. */
  lemma InnerReject(env: Env, st: State, k: int, i: int, s: seq<int>, c: int, rest: seq<Draw>)
    requires Ready(env, st) && st.failure.None? && i <= env.maxI
    requires Candidate(env, st.current, i, st.draws) == Ok((s, c, rest)) && c >= st.cost
    ensures Ready(env, st.(draws := rest))
    ensures Inner(env, st, k, i) == Inner(env, st.(draws := rest), k, i + 1)
  {
  }

  /** A failing candidate stops the run with the log as it stands. */
  lemma InnerFail(env: Env, st: State, k: int, i: int, e: Failure)
    requires Ready(env, st) && st.failure.None? && i <= env.maxI
    requires Candidate(env, st.current, i, st.draws) == Err(e)
    ensures Inner(env, st, k, i) == st.(failure := Some(e))
  {
  }

  /** `n` iterations of the outer loop. */
  function Run(env: Env, st: State, n: nat): (r: State)
    requires Ready(env, st)
    ensures Ready(env, r) && |r.current| == |st.current|
  {
    if n == 0 then st else Inner(env, Run(env, st, n - 1), n - 1, 1)
  }

  /** The run of `rvns_search` with `K` outer iterations; the log ends with the final entry `(current, cost, K, 0)` unless the run failed. */
  function Final(env: Env, initial: seq<int>, K: int, draws: seq<Draw>): State
    requires Indexable(initial, env.p, env.d, env.w) && DrawsFit(draws, |initial|)
  {
    var st := Run(env, State(initial, Tardiness(initial, env.p, env.d, env.w), [], draws, None), if K > 0 then K else 0);
    if st.failure.Some? then st
    else st.(log := st.log + [CheckPoint(st.current, st.cost, K, 0)])
  }

  /** The current schedule is a permutation of `init`, its cost is exact and at most `initCost`, and without refinement it keeps precedence validity. */
  predicate Sound(env: Env, init: seq<int>, initCost: int, st: State) {
    && Ready(env, st)
    && multiset(st.current) == multiset(init)
    && st.cost == Tardiness(st.current, env.p, env.d, env.w)
    && st.cost <= initCost
    && (!env.optimization && ValidSchedule(env.deps, init) ==> ValidSchedule(env.deps, st.current))
  }

  /**
   * The log after `n` iterations: entries have `0 <= k < n` and `1 <= i <= max_I`,
   * at most one per iteration, with strictly falling costs below `initCost`, and
   * the newest entry is the current schedule and cost.
   */
  predicate LogOk(env: Env, initCost: int, n: nat, st: State) {
    && (forall a :: 0 <= a < |st.log| ==> 0 <= st.log[a].k < n && 1 <= st.log[a].i <= env.maxI && st.log[a].cost < initCost)
    && (forall a, b :: 0 <= a < b < |st.log| ==> st.log[a].k < st.log[b].k && st.log[b].cost < st.log[a].cost)
    && (st.log != [] ==> st.log[|st.log| - 1].schedule == st.current && st.log[|st.log| - 1].cost == st.cost)
  }

  predicate Inv(env: Env, init: seq<int>, initCost: int, n: nat, st: State) {
    Sound(env, init, initCost, st) && LogOk(env, initCost, n, st)
  }

  /** A log that is good after `n` iterations is good after `n + 1`. */
  lemma LogOkLater(env: Env, initCost: int, n: nat, st: State, st': State)
    requires LogOk(env, initCost, n, st)
    requires st'.log == st.log && st'.current == st.current && st'.cost == st.cost
    ensures LogOk(env, initCost, n + 1, st')
  {
  }

  /** Accepting a strictly cheaper schedule in iteration `n` at neighbourhood `i` extends a good log. */
  lemma LogOkAccept(env: Env, initCost: int, n: nat, st: State, st': State, i: int)
    requires LogOk(env, initCost, n, st) && st.cost <= initCost
    requires 1 <= i <= env.maxI && st'.cost < st.cost
    requires st'.log == st.log + [CheckPoint(st'.current, st'.cost, n, i)]
    ensures LogOk(env, initCost, n + 1, st')
  {
    if st.log != [] {
      assert st.log[|st.log| - 1].cost == st.cost;
    }
    forall a, b | 0 <= a < b < |st'.log| ensures st'.log[a].k < st'.log[b].k && st'.log[b].cost < st'.log[a].cost {
      if b == |st.log| {
        assert st'.log[a] == st.log[a];
        if a < |st.log| - 1 {
          assert st.log[|st.log| - 1].cost < st.log[a].cost;
        }
      }
    }
  }

  /** Accepting the candidate of neighbourhood `i` keeps the current schedule sound. */
  lemma SoundAccept(env: Env, init: seq<int>, initCost: int, st: State, i: int, s: seq<int>, c: int, rest: seq<Draw>, log: seq<CheckPoint>)
    requires Sound(env, init, initCost, st)
    requires Candidate(env, st.current, i, st.draws) == Ok((s, c, rest)) && c < st.cost
    ensures Sound(env, init, initCost, State(s, c, log, rest, None))
  {
    if !env.optimization && ValidSchedule(env.deps, init) {
      ShakeKeepsValid(env.deps, st.current, i, st.draws, []);
    }
  }

  /** The inner loop keeps the current schedule sound and never raises its cost. */
  lemma {:induction false} InnerSound(env: Env, init: seq<int>, initCost: int, n: nat, st: State, i: int)
    requires Sound(env, init, initCost, st)
    ensures Sound(env, init, initCost, Inner(env, st, n, i))
    ensures Inner(env, st, n, i).cost <= st.cost
    decreases env.maxI - i + 1
  {
    if st.failure.None? && i <= env.maxI {
      var cand := Candidate(env, st.current, i, st.draws);
      if cand.Ok? {
        var (s, c, rest) := cand.value;
        if c < st.cost {
          SoundAccept(env, init, initCost, st, i, s, c, rest, st.log + [CheckPoint(s, c, n, i)]);
        } else {
          InnerSound(env, init, initCost, n, st.(draws := rest), i + 1);
        }
      }
    }
  }

  /** The inner loop for iteration `n` adds at most one entry to the log, for a strictly cheaper schedule. */
  lemma {:induction false} InnerLog(env: Env, initCost: int, n: nat, st: State, i: int)
    requires Ready(env, st) && LogOk(env, initCost, n, st) && st.cost <= initCost && i >= 1
    ensures LogOk(env, initCost, n + 1, Inner(env, st, n, i))
    decreases env.maxI - i + 1
  {
    var r := Inner(env, st, n, i);
    if st.failure.Some? || i > env.maxI {
      LogOkLater(env, initCost, n, st, r);
    } else {
      assert r == Examine(env, st, n, i);
      var cand := Candidate(env, st.current, i, st.draws);
      if cand.Err? {
        LogOkLater(env, initCost, n, st, r);
      } else {
        var (s, c, rest) := cand.value;
        if c < st.cost {
          LogOkAccept(env, initCost, n, st, r, i);
        } else {
          InnerLog(env, initCost, n, st.(draws := rest), i + 1);
        }
      }
    }
  }

  /** One outer iteration keeps the invariant. */
  lemma StepInv(env: Env, init: seq<int>, initCost: int, n: nat, st: State)
    requires Inv(env, init, initCost, n, st)
    ensures Inv(env, init, initCost, n + 1, Inner(env, st, n, 1))
  {
    InnerSound(env, init, initCost, n, st, 1);
    InnerLog(env, initCost, n, st, 1);
  }

  lemma RunStepInv(env: Env, init: seq<int>, initCost: int, st: State, n: nat)
    requires Ready(env, st) && Inv(env, init, initCost, n, Run(env, st, n))
    ensures Inv(env, init, initCost, n + 1, Run(env, st, n + 1))
  {
    StepInv(env, init, initCost, n, Run(env, st, n));
  }

  /** Every state the outer loop reaches keeps the invariant. */
  lemma RunInv(env: Env, init: seq<int>, initCost: int, st: State, n: nat)
    requires Inv(env, init, initCost, 0, st)
    ensures Inv(env, init, initCost, n, Run(env, st, n))
  {
    var k := 0;
    while k < n
      invariant k <= n && Inv(env, init, initCost, k, Run(env, st, k))
    {
      RunStepInv(env, init, initCost, st, k);
      k := k + 1;
    }
  }

  lemma RunNext(env: Env, st: State, n: nat)
    requires Ready(env, st)
    ensures Run(env, st, n + 1) == Inner(env, Run(env, st, n), n, 1)
  {
  }

  /** `Final` in terms of the state `st` the outer loop ends in. */
  lemma FinalIs(env: Env, initial: seq<int>, K: int, draws: seq<Draw>, st: State)
    requires Indexable(initial, env.p, env.d, env.w) && DrawsFit(draws, |initial|)
    requires st == Run(env, State(initial, Tardiness(initial, env.p, env.d, env.w), [], draws, None), if K > 0 then K else 0)
    ensures Final(env, initial, K, draws)
         == if st.failure.Some? then st else st.(log := st.log + [CheckPoint(st.current, st.cost, K, 0)])
  {
  }

  /** Once a failure has stopped the run, further iterations change nothing. */
  lemma {:induction false} RunHalted(env: Env, st: State, k: nat, n: nat)
    requires Ready(env, st) && k <= n && Run(env, st, k).failure.Some?
    ensures Run(env, st, n) == Run(env, st, k)
    decreases n - k
  {
    if k < n {
      RunHalted(env, st, k, n - 1);
    }
  }

  /**
   * What `rvns_search` returns and logs: the result is a permutation of the initial
   * schedule whose cost is its weighted tardiness and at most the initial cost; the
   * log holds one strictly improving entry per accepting iteration `0 <= k < K`
   * with `1 <= i <= max_I`, and ends with `(current, cost, K, 0)`; without
   * refinement, a precedence-valid initial schedule yields a precedence-valid result.
   */
  lemma FinalSound(env: Env, initial: seq<int>, K: int, draws: seq<Draw>)
    requires Indexable(initial, env.p, env.d, env.w) && DrawsFit(draws, |initial|)
    ensures var f := Final(env, initial, K, draws);
      var c0 := Tardiness(initial, env.p, env.d, env.w);
      f.failure.None? ==>
        && multiset(f.current) == multiset(initial)
        && f.cost == Tardiness(f.current, env.p, env.d, env.w)
        && f.cost <= c0
        && (!env.optimization && ValidSchedule(env.deps, initial) ==> ValidSchedule(env.deps, f.current))
        && |f.log| >= 1
        && f.log[|f.log| - 1] == CheckPoint(f.current, f.cost, K, 0)
        && (forall a :: 0 <= a < |f.log| - 1 ==> 0 <= f.log[a].k < K && 1 <= f.log[a].i <= env.maxI && f.log[a].cost < c0)
        && (forall a, b :: 0 <= a < b < |f.log| - 1 ==> f.log[a].k < f.log[b].k && f.log[b].cost < f.log[a].cost)
  {
    var c0 := Tardiness(initial, env.p, env.d, env.w);
    var st := State(initial, c0, [], draws, None);
    var n: nat := if K > 0 then K else 0;
    RunInv(env, initial, c0, st, n);
  }

  class RvnsSearch {
    /** The largest neighbourhood index `max_I`. */
    const maxI: int
    /** The seed the generator is reset with; the draws passed to `Search` stand for the stream it yields. */
    const seed: int
    /** The log of accepted moves of the last search. */
    var checkPoints: seq<CheckPoint>

    constructor (maxI: int, seed: int)
      ensures this.maxI == maxI && this.seed == seed && checkPoints == []
    {
      this.maxI := maxI;
      this.seed := seed;
      checkPoints := [];
    }

    /**
     * The candidate of neighbourhood `i`: a shaken copy of the current schedule
     * and its cost, replaced by the result of the embedded tabu search when
     * optimising.
     */
    method NewCandidate(currentSchedule: seq<int>, processingTimes: seq<int>, dueDates: seq<int>, weights: seq<int>,
                        i: int, g: Dag, tabu: TabuSearch.Tabu?, optimization: bool, draws: seq<Draw>)
      returns (r: Result<(seq<int>, int, seq<Draw>), Failure>)
      requires Indexable(currentSchedule, processingTimes, dueDates, weights)
      requires DrawsFit(draws, |currentSchedule|)
      requires optimization ==> tabu != null && tabu.maxLen == maxI && tabu.gamma == 0
      ensures r == Candidate(Env(g.dependencies, processingTimes, dueDates, weights, maxI, optimization), currentSchedule, i, draws)
    {
      var shaken := NeighborhoodBySwap(currentSchedule, i, g, draws);
      ShakePermutes(g.dependencies, currentSchedule, i, draws, []);
      ShakeRest(g.dependencies, currentSchedule, i, draws, []);
      if shaken.Err? {
        return Err(shaken.error);
      }
      var newSchedule := shaken.value.schedule;
      PermutationIndexable(currentSchedule, newSchedule, processingTimes, dueDates, weights);
      var newCost := Utils.TotalWeightedTardiness(newSchedule, processingTimes, dueDates, weights);
      if optimization {
        var refined := tabu.Search(newSchedule, processingTimes, dueDates, weights, i);
        if refined.Err? {
          return Err(TabuFailed(refined.error));
        }
        newSchedule, newCost := refined.value.0, refined.value.1;
      }
      return Ok((newSchedule, newCost, shaken.value.rest));
    }

    /**
     * The inner loop of `rvns_search` for iteration `k`: tries neighbourhoods
     * `1..max_I` in turn and stops at the first strictly cheaper candidate,
     * which it logs.
     */
    method Round(currentSchedule: seq<int>, currentCost: int, processingTimes: seq<int>, dueDates: seq<int>, weights: seq<int>,
                 k: int, g: Dag, tabu: TabuSearch.Tabu?, optimization: bool, draws: seq<Draw>)
      returns (schedule: seq<int>, cost: int, rest: seq<Draw>, failure: Option<Failure>)
      requires Ready(Env(g.dependencies, processingTimes, dueDates, weights, maxI, optimization), State(currentSchedule, currentCost, checkPoints, draws, None))
      requires optimization ==> tabu != null && tabu.maxLen == maxI && tabu.gamma == 0
      modifies this`checkPoints
      ensures State(schedule, cost, checkPoints, rest, failure)
           == Inner(Env(g.dependencies, processingTimes, dueDates, weights, maxI, optimization),
                    State(currentSchedule, currentCost, old(checkPoints), draws, None), k, 1)
    {
      ghost var env := Env(g.dependencies, processingTimes, dueDates, weights, maxI, optimization);
      ghost var start := State(currentSchedule, currentCost, checkPoints, draws, None);
      schedule, cost, rest, failure := currentSchedule, currentCost, draws, None;
      var i := 1;
      while i <= maxI
        invariant 1 <= i
        invariant Ready(env, State(schedule, cost, checkPoints, rest, None))
        invariant Inner(env, State(schedule, cost, checkPoints, rest, None), k, i) == Inner(env, start, k, 1)
        decreases maxI - i + 1
      {
        ghost var st := State(schedule, cost, checkPoints, rest, None);
        var candidate := NewCandidate(schedule, processingTimes, dueDates, weights, i, g, tabu, optimization, rest);
        if candidate.Err? {
          InnerFail(env, st, k, i, candidate.error);
          return schedule, cost, rest, Some(candidate.error);
        }
        var (newSchedule, newCost, unused) := candidate.value;
        if newCost < cost {
          InnerAccept(env, st, k, i, newSchedule, newCost, unused);
          checkPoints := checkPoints + [CheckPoint(newSchedule, newCost, k, i)];
          return newSchedule, newCost, unused, None;
        }
        InnerReject(env, st, k, i, newSchedule, newCost, unused);
        rest := unused;
        i := i + 1;
      }
    }

    /** The outer loop of `rvns_search`: `K` rounds, stopping early only at a failure. */
    method Rounds(currentSchedule: seq<int>, currentCost: int, processingTimes: seq<int>, dueDates: seq<int>, weights: seq<int>,
                  K: int, g: Dag, tabu: TabuSearch.Tabu?, optimization: bool, draws: seq<Draw>)
      returns (schedule: seq<int>, cost: int, rest: seq<Draw>, failure: Option<Failure>)
      requires Ready(Env(g.dependencies, processingTimes, dueDates, weights, maxI, optimization), State(currentSchedule, currentCost, checkPoints, draws, None))
      requires optimization ==> tabu != null && tabu.maxLen == maxI && tabu.gamma == 0
      modifies this`checkPoints
      ensures State(schedule, cost, checkPoints, rest, failure)
           == Run(Env(g.dependencies, processingTimes, dueDates, weights, maxI, optimization),
                  State(currentSchedule, currentCost, old(checkPoints), draws, None), if K > 0 then K else 0)
    {
      ghost var env := Env(g.dependencies, processingTimes, dueDates, weights, maxI, optimization);
      ghost var st0 := State(currentSchedule, currentCost, checkPoints, draws, None);
      ghost var rounds: nat := if K > 0 then K else 0;
      schedule, cost, rest, failure := currentSchedule, currentCost, draws, None;
      var k := 0;
      while k < K
        invariant 0 <= k <= rounds
        invariant failure.None? && Run(env, st0, k) == State(schedule, cost, checkPoints, rest, failure)
      {
        RunNext(env, st0, k);
        schedule, cost, rest, failure := Round(schedule, cost, processingTimes, dueDates, weights, k, g, tabu, optimization, rest);
        if failure.Some? {
          RunHalted(env, st0, k + 1, rounds);
          return;
        }
        k := k + 1;
      }
      assert k == rounds;
    }

    /**
     * `rvns_search`: clears the log, then for `k` in `0..K-1` shakes the current
     * schedule in neighbourhoods `1..max_I` and accepts the first strictly cheaper
     * candidate; the log ends with `(current, cost, K, 0)`.
     */
    method Search(initialSchedule: seq<int>, processingTimes: seq<int>, dueDates: seq<int>, weights: seq<int>,
                  K: int, g: Dag, optimization: bool, draws: seq<Draw>)
      returns (r: Result<(seq<int>, int), Failure>)
      requires Indexable(initialSchedule, processingTimes, dueDates, weights)
      requires DrawsFit(draws, |initialSchedule|)
      modifies this`checkPoints
      ensures var f := Final(Env(g.dependencies, processingTimes, dueDates, weights, maxI, optimization), initialSchedule, K, draws);
        && checkPoints == f.log
        && r == (if f.failure.Some? then Err(f.failure.value) else Ok((f.current, f.cost)))
    {
      ghost var env := Env(g.dependencies, processingTimes, dueDates, weights, maxI, optimization);
      checkPoints := [];
      var currentCost := Utils.TotalWeightedTardiness(initialSchedule, processingTimes, dueDates, weights);
      var tabu: TabuSearch.Tabu? := null;
      if optimization {
        tabu := new TabuSearch.Tabu(maxI, 0);
      }
      var currentSchedule, stream, failure;
      currentSchedule, currentCost, stream, failure :=
        Rounds(initialSchedule, currentCost, processingTimes, dueDates, weights, K, g, tabu, optimization, draws);
      FinalIs(env, initialSchedule, K, draws, State(currentSchedule, currentCost, checkPoints, stream, failure));
      if failure.Some? {
        return Err(failure.value);
      }
      checkPoints := checkPoints + [CheckPoint(currentSchedule, currentCost, K, 0)];
      return Ok((currentSchedule, currentCost));
    }
  }
}
