/**
 * Total weighted tardiness of a single-machine schedule (utils.py).
 *
 * A schedule is a sequence of job ids; job `j` has processing time `p[j-1]`,
 * due date `d[j-1]` and weight `w[j-1]`. Jobs run back to back from time 0.
 */
module Utils {

  /** `j` is a job id that can index all three attribute arrays. */
  predicate IsJob(j: int, p: seq<int>, d: seq<int>, w: seq<int>) {
    1 <= j && j <= |p| && j <= |d| && j <= |w|
  }

  /** Every id in `s` can index the attribute arrays (they are indexed by `id - 1`). */
  predicate Indexable(s: seq<int>, p: seq<int>, d: seq<int>, w: seq<int>) {
    forall k :: 0 <= k < |s| ==> IsJob(s[k], p, d, w)
  }

  function Max(a: int, b: int): int {
    if a < b then b else a
  }

  /** Weighted tardiness of one job that completes at `completion`. */
  function Tardy(completion: int, due: int, weight: int): int {
    Max(0, completion - due) * weight
  }

  /** Sum of the processing times of the jobs of `s`. */
  function TotalTime(s: seq<int>, p: seq<int>, d: seq<int>, w: seq<int>): int
    requires Indexable(s, p, d, w)
  {
    if s == [] then 0 else p[s[0] - 1] + TotalTime(s[1..], p, d, w)
  }

  /** Weighted tardiness of running `s` on the machine from time `start` on. */
  function TardinessFrom(s: seq<int>, p: seq<int>, d: seq<int>, w: seq<int>, start: int): int
    requires Indexable(s, p, d, w)
  {
    if s == [] then 0
    else
      var completion := start + p[s[0] - 1];
      Tardy(completion, d[s[0] - 1], w[s[0] - 1]) + TardinessFrom(s[1..], p, d, w, completion)
  }

  /** The total weighted tardiness of the schedule `s`, starting at time 0. */
  function Tardiness(s: seq<int>, p: seq<int>, d: seq<int>, w: seq<int>): int
    requires Indexable(s, p, d, w)
  {
    TardinessFrom(s, p, d, w, 0)
  }

  /**
   * Reference definition by positions: the job at position `k` completes at the
   * sum of the processing times of positions `0..k`.
   */
  function PositionSum(s: seq<int>, p: seq<int>, d: seq<int>, w: seq<int>, n: nat): int
    requires Indexable(s, p, d, w) && n <= |s|
  {
    if n == 0 then 0
    else PositionSum(s, p, d, w, n - 1) + Tardy(TotalTime(s[..n], p, d, w), d[s[n - 1] - 1], w[s[n - 1] - 1])
  }

  lemma {:induction false} TotalTimeAppend(s: seq<int>, j: int, p: seq<int>, d: seq<int>, w: seq<int>)
    requires Indexable(s, p, d, w) && IsJob(j, p, d, w)
    ensures Indexable(s + [j], p, d, w)
    ensures TotalTime(s + [j], p, d, w) == TotalTime(s, p, d, w) + p[j - 1]
  {
    if s != [] {
      assert (s + [j])[1..] == s[1..] + [j];
      TotalTimeAppend(s[1..], j, p, d, w);
    }
  }

  lemma {:induction false} TardinessFromAppend(s: seq<int>, j: int, p: seq<int>, d: seq<int>, w: seq<int>, start: int)
    requires Indexable(s, p, d, w) && IsJob(j, p, d, w)
    ensures Indexable(s + [j], p, d, w)
    ensures TardinessFrom(s + [j], p, d, w, start)
         == TardinessFrom(s, p, d, w, start) + Tardy(start + TotalTime(s + [j], p, d, w), d[j - 1], w[j - 1])
  {
    TotalTimeAppend(s, j, p, d, w);
    if s == [] {
      assert [j][1..] == [];
    } else {
      assert (s + [j])[1..] == s[1..] + [j];
      TardinessFromAppend(s[1..], j, p, d, w, start + p[s[0] - 1]);
      TotalTimeAppend(s[1..], j, p, d, w);
    }
  }

  /** Appending job `j` adds exactly its own weighted tardiness at its completion time. */
  lemma TardinessAppend(s: seq<int>, j: int, p: seq<int>, d: seq<int>, w: seq<int>)
    requires Indexable(s, p, d, w) && IsJob(j, p, d, w)
    ensures Indexable(s + [j], p, d, w)
    ensures Tardiness(s + [j], p, d, w)
         == Tardiness(s, p, d, w) + Tardy(TotalTime(s, p, d, w) + p[j - 1], d[j - 1], w[j - 1])
  {
    TardinessFromAppend(s, j, p, d, w, 0);
    TotalTimeAppend(s, j, p, d, w);
  }

  /** The simulation agrees with the per-position sum of weighted tardiness. */
  lemma {:induction false} TardinessByPositions(s: seq<int>, p: seq<int>, d: seq<int>, w: seq<int>, n: nat)
    requires Indexable(s, p, d, w) && n <= |s|
    ensures Indexable(s[..n], p, d, w)
    ensures Tardiness(s[..n], p, d, w) == PositionSum(s, p, d, w, n)
  {
    if n == 0 {
      assert s[..0] == [];
    } else {
      TardinessByPositions(s, p, d, w, n - 1);
      assert s[..n] == s[..n - 1] + [s[n - 1]];
      TardinessAppend(s[..n - 1], s[n - 1], p, d, w);
      TotalTimeAppend(s[..n - 1], s[n - 1], p, d, w);
    }
  }

  /** With non-negative weights no schedule has negative cost. */
  lemma {:induction false} TardinessNonNegative(s: seq<int>, p: seq<int>, d: seq<int>, w: seq<int>, start: int)
    requires Indexable(s, p, d, w)
    requires forall k :: 0 <= k < |w| ==> w[k] >= 0
    ensures TardinessFrom(s, p, d, w, start) >= 0
  {
    if s != [] {
      var c := start + p[s[0] - 1];
      assert Tardy(c, d[s[0] - 1], w[s[0] - 1]) >= 0 by {
        assert Max(0, c - d[s[0] - 1]) >= 0 && w[s[0] - 1] >= 0;
      }
      TardinessNonNegative(s[1..], p, d, w, c);
    }
  }

  /** The empty schedule costs 0; a one-job schedule costs that job's tardiness at its processing time. */
  lemma BaseCases(j: int, p: seq<int>, d: seq<int>, w: seq<int>)
    requires IsJob(j, p, d, w)
    ensures Tardiness([], p, d, w) == 0
    ensures Indexable([j], p, d, w)
    ensures Tardiness([j], p, d, w) == Max(0, p[j - 1] - d[j - 1]) * w[j - 1]
  {
    assert [j][1..] == [];
    assert TardinessFrom([j], p, d, w, 0) == Tardy(0 + p[j - 1], d[j - 1], w[j - 1]) + TardinessFrom([], p, d, w, p[j - 1]);
  }

  /** Computes the total weighted tardiness with the accumulator loop of utils.py. */
  method TotalWeightedTardiness(schedule: seq<int>, processingTimes: seq<int>, dueDates: seq<int>, weights: seq<int>)
    returns (tardiness: int)
    requires Indexable(schedule, processingTimes, dueDates, weights)
    ensures tardiness == Tardiness(schedule, processingTimes, dueDates, weights)
  {
    tardiness := 0;
    var time := 0;
    for n := 0 to |schedule|
      invariant Indexable(schedule[..n], processingTimes, dueDates, weights)
      invariant time == TotalTime(schedule[..n], processingTimes, dueDates, weights)
      invariant tardiness == Tardiness(schedule[..n], processingTimes, dueDates, weights)
    {
      var job := schedule[n] - 1;
      assert schedule[..n + 1] == schedule[..n] + [schedule[n]];
      TardinessAppend(schedule[..n], schedule[n], processingTimes, dueDates, weights);
      TotalTimeAppend(schedule[..n], schedule[n], processingTimes, dueDates, weights);
      time := time + processingTimes[job];
      tardiness := tardiness + Max(0, time - dueDates[job]) * weights[job];
    }
    assert schedule[..|schedule|] == schedule;
  }
}
