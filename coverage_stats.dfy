/** What `calculateAverageResults`, `calculateMinimumValues` and `calculateMaximumValues`
    of DroidCoverage/src/main/java/phd/research/coverage/Coverage.java compute, stated
    independently of the order in which the HashMaps are iterated. The runs are
    combined index by index: the value at an interaction index is reduced over the set
    of runs whose series has that index. Coverage figures are reals. */
module CoverageStatistics {
  import opened Wrappers
  import opened Graph

  /** One run's coverage series: interaction index to snapshot. */
  type Series = map<int, Snapshot>

  /** All runs: test number to series (the `testResults` field). */
  type Results = map<int, Series>

  datatype Statistic = Total | Minimum | Maximum

  /** One step of a loop: the stored value combined with a run's value. */
  function Combine(stat: Statistic, acc: Snapshot, x: Snapshot): Snapshot {
    match stat
    case Total =>
      Snapshot(acc.interfaceCoverage + x.interfaceCoverage, acc.methodCoverage + x.methodCoverage)
    case Minimum =>
      Snapshot(if x.interfaceCoverage < acc.interfaceCoverage then x.interfaceCoverage else acc.interfaceCoverage,
               if x.methodCoverage < acc.methodCoverage then x.methodCoverage else acc.methodCoverage)
    case Maximum =>
      Snapshot(if x.interfaceCoverage > acc.interfaceCoverage then x.interfaceCoverage else acc.interfaceCoverage,
               if x.methodCoverage > acc.methodCoverage then x.methodCoverage else acc.methodCoverage)
  }

  /** What a loop stores for a key: the stored value combined with `x`; a key not stored
      yet starts from (0, 0) for the total and from `x` itself (`getOrDefault`) for min and max. */
  function Merge(stat: Statistic, acc: Option<Snapshot>, x: Snapshot): Snapshot {
    var start := if acc.Some? then acc.value else if stat == Total then Snapshot(0.0, 0.0) else x;
    Combine(stat, start, x)
  }

  /** A first value is stored as it is, whatever the statistic. */
  lemma MergeFirst(stat: Statistic, x: Snapshot)
    ensures Merge(stat, None, x) == x
  {
  }

  /** The value run `t` has at index `k`, if any. */
  function Contribution(results: Results, t: int, k: int): Option<Snapshot> {
    if t in results && k in results[t] then Some(results[t][k]) else None
  }

  function Add(stat: Statistic, acc: Option<Snapshot>, c: Option<Snapshot>): Option<Snapshot> {
    if c.None? then acc else Some(Merge(stat, acc, c.value))
  }

  /** The statistic at index `k` over the runs in `tests` (None when none of them reaches `k`). */
  ghost function Reduce(stat: Statistic, results: Results, tests: set<int>, k: int): Option<Snapshot>
    decreases tests
  {
    if |tests| == 0 then None
    else
      Witness(tests);
      var t :| t in tests;
      Add(stat, Reduce(stat, results, tests - {t}, k), Contribution(results, t, k))
  }

  /** A non-empty set has an element. */
  lemma Witness(s: set<int>)
    requires s != {}
    ensures exists x :: x in s
  {
    assert (forall x :: x !in s) ==> s == {};
  }

  /** Two runs can be combined in either order. */
  lemma AddCommutes(stat: Statistic, a: Option<Snapshot>, x: Option<Snapshot>, y: Option<Snapshot>)
    ensures Add(stat, Add(stat, a, x), y) == Add(stat, Add(stat, a, y), x)
  {
  }

  /** The reduction does not depend on the order of the runs: any run can be combined last. */
  lemma {:induction false} ReduceRemove(stat: Statistic, results: Results, tests: set<int>, k: int, u: int)
    requires u in tests
    ensures Reduce(stat, results, tests, k)
            == Add(stat, Reduce(stat, results, tests - {u}, k), Contribution(results, u, k))
    decreases |tests|
  {
    Witness(tests);
    var t :| t in tests && Reduce(stat, results, tests, k)
                           == Add(stat, Reduce(stat, results, tests - {t}, k), Contribution(results, t, k));
    if t != u {
      ReduceRemove(stat, results, tests - {t}, k, u);
      ReduceRemove(stat, results, tests - {u}, k, t);
      assert tests - {t} - {u} == tests - {u} - {t};
      AddCommutes(stat, Reduce(stat, results, tests - {t} - {u}, k), Contribution(results, u, k),
                  Contribution(results, t, k));
    }
  }

  /** A value exists at `k` exactly when some run reaches `k`. */
  lemma {:induction false} ReduceDefined(stat: Statistic, results: Results, tests: set<int>, k: int)
    ensures Reduce(stat, results, tests, k).Some? <==> exists t | t in tests :: Contribution(results, t, k).Some?
    decreases |tests|
  {
    if |tests| != 0 {
      Witness(tests);
      var t :| t in tests && Reduce(stat, results, tests, k)
                             == Add(stat, Reduce(stat, results, tests - {t}, k), Contribution(results, t, k));
      var rest := Reduce(stat, results, tests - {t}, k);
      assert Reduce(stat, results, tests, k) == Add(stat, rest, Contribution(results, t, k));
      ReduceDefined(stat, results, tests - {t}, k);
      if Contribution(results, t, k).None? && exists u | u in tests :: Contribution(results, u, k).Some? {
        var u :| u in tests && Contribution(results, u, k).Some?;
        assert u in tests - {t};
      }
    }
  }

  /** The minimum is at or below, and the maximum at or above, every run's value. */
  lemma {:induction false} ReduceBounds(results: Results, tests: set<int>, k: int, u: int)
    requires u in tests && Contribution(results, u, k).Some?
    ensures var x, lo, hi := results[u][k], Reduce(Minimum, results, tests, k), Reduce(Maximum, results, tests, k);
      lo.Some? && hi.Some?
      && lo.value.interfaceCoverage <= x.interfaceCoverage <= hi.value.interfaceCoverage
      && lo.value.methodCoverage <= x.methodCoverage <= hi.value.methodCoverage
  {
    ReduceRemove(Minimum, results, tests, k, u);
    ReduceRemove(Maximum, results, tests, k, u);
  }

  /** Every component of the minimum and of the maximum is some run's value. */
  lemma {:induction false} ReduceAttained(stat: Statistic, results: Results, tests: set<int>, k: int)
    requires stat != Total && Reduce(stat, results, tests, k).Some?
    ensures var r := Reduce(stat, results, tests, k).value;
      (exists t | t in tests && Contribution(results, t, k).Some? ::
         r.interfaceCoverage == results[t][k].interfaceCoverage)
      && (exists t | t in tests && Contribution(results, t, k).Some? ::
         r.methodCoverage == results[t][k].methodCoverage)
    decreases |tests|
  {
    Witness(tests);
    var t :| t in tests && Reduce(stat, results, tests, k)
                           == Add(stat, Reduce(stat, results, tests - {t}, k), Contribution(results, t, k));
    var r := Reduce(stat, results, tests, k).value;
    var rest := Reduce(stat, results, tests - {t}, k);
    var c := Contribution(results, t, k);
    assert Reduce(stat, results, tests, k) == Add(stat, rest, c);
    if rest.Some? {
      ReduceAttained(stat, results, tests - {t}, k);
      var t1 :| t1 in tests - {t} && Contribution(results, t1, k).Some?
                && rest.value.interfaceCoverage == results[t1][k].interfaceCoverage;
      var t2 :| t2 in tests - {t} && Contribution(results, t2, k).Some?
                && rest.value.methodCoverage == results[t2][k].methodCoverage;
      var w1, w2 := t1, t2;
      if c.Some? {
        assert r == Merge(stat, rest, results[t][k]);
        if r.interfaceCoverage != rest.value.interfaceCoverage {
          w1 := t;
        }
        if r.methodCoverage != rest.value.methodCoverage {
          w2 := t;
        }
      }
      assert w1 in tests && Contribution(results, w1, k).Some? && r.interfaceCoverage == results[w1][k].interfaceCoverage;
      assert w2 in tests && Contribution(results, w2, k).Some? && r.methodCoverage == results[w2][k].methodCoverage;
    } else {
      assert c.Some?;
      assert r == results[t][k];
    }
  }

  /** At every index the minimum is at most the maximum. */
  lemma {:induction false} MinimumBelowMaximum(results: Results, tests: set<int>, k: int)
    requires Reduce(Minimum, results, tests, k).Some?
    ensures var lo, hi := Reduce(Minimum, results, tests, k), Reduce(Maximum, results, tests, k);
      hi.Some? && lo.value.interfaceCoverage <= hi.value.interfaceCoverage
      && lo.value.methodCoverage <= hi.value.methodCoverage
  {
    ReduceAttained(Minimum, results, tests, k);
    var lo := Reduce(Minimum, results, tests, k).value;
    var t1 :| t1 in tests && Contribution(results, t1, k).Some?
              && lo.interfaceCoverage == results[t1][k].interfaceCoverage;
    var t2 :| t2 in tests && Contribution(results, t2, k).Some?
              && lo.methodCoverage == results[t2][k].methodCoverage;
    ReduceBounds(results, tests, k, t1);
    ReduceBounds(results, tests, k, t2);
  }

  /** An index that only one run reaches carries that run's value, for every statistic. */
  lemma {:induction false} ReduceSingle(stat: Statistic, results: Results, tests: set<int>, k: int, u: int)
    requires u in tests && Contribution(results, u, k).Some?
    requires forall t | t in tests && t != u :: Contribution(results, t, k).None?
    ensures Reduce(stat, results, tests, k) == Some(results[u][k])
  {
    ReduceRemove(stat, results, tests, k, u);
    ReduceDefined(stat, results, tests - {u}, k);
  }

  /** `n` copies of `lo` stay at or below `sum`, which stays at or below `n` copies of `hi`. */
  ghost predicate Between(n: real, lo: Snapshot, sum: Snapshot, hi: Snapshot) {
    n * lo.interfaceCoverage <= sum.interfaceCoverage <= n * hi.interfaceCoverage
    && n * lo.methodCoverage <= sum.methodCoverage <= n * hi.methodCoverage
  }

  /** When every run reaches `k`, the total lies between n times the minimum and n times the maximum. */
  lemma {:induction false} TotalBetween(results: Results, tests: set<int>, k: int)
    requires |tests| != 0
    requires forall t | t in tests :: Contribution(results, t, k).Some?
    ensures var sum, lo, hi := Reduce(Total, results, tests, k), Reduce(Minimum, results, tests, k),
                               Reduce(Maximum, results, tests, k);
      sum.Some? && lo.Some? && hi.Some? && Between(|tests| as real, lo.value, sum.value, hi.value)
    decreases |tests|
  {
    Witness(tests);
    var u :| u in tests;
    ReduceRemove(Total, results, tests, k, u);
    ReduceRemove(Minimum, results, tests, k, u);
    ReduceRemove(Maximum, results, tests, k, u);
    var rest := tests - {u};
    assert |tests| == |rest| + 1;
    var x := results[u][k];
    if |rest| != 0 {
      TotalBetween(results, rest, k);
      StepBetween(|rest| as real, Reduce(Minimum, results, rest, k).value, Reduce(Total, results, rest, k).value,
                  Reduce(Maximum, results, rest, k).value, x);
    } else {
      ReduceDefined(Total, results, rest, k);
      ReduceDefined(Minimum, results, rest, k);
      ReduceDefined(Maximum, results, rest, k);
      OneBetween(x);
    }
  }

  lemma OneBetween(x: Snapshot)
    ensures Between(1.0, Merge(Minimum, None, x), Merge(Total, None, x), Merge(Maximum, None, x))
  {
  }

  /** One more run keeps the total between m times the minimum and m times the maximum. */
  lemma StepBetween(m: real, lo: Snapshot, sum: Snapshot, hi: Snapshot, x: Snapshot)
    requires m >= 0.0 && Between(m, lo, sum, hi)
    ensures Between(m + 1.0, Merge(Minimum, Some(lo), x), Merge(Total, Some(sum), x), Merge(Maximum, Some(hi), x))
  {
    StepBetweenReal(m, lo.interfaceCoverage, sum.interfaceCoverage, hi.interfaceCoverage, x.interfaceCoverage);
    StepBetweenReal(m, lo.methodCoverage, sum.methodCoverage, hi.methodCoverage, x.methodCoverage);
  }

  lemma StepBetweenReal(m: real, lo: real, sum: real, hi: real, x: real)
    requires m >= 0.0 && m * lo <= sum <= m * hi
    ensures (m + 1.0) * (if x < lo then x else lo) <= sum + x <= (m + 1.0) * (if x > hi then x else hi)
  {
    var lo2 := if x < lo then x else lo;
    var hi2 := if x > hi then x else hi;
    assert m * lo2 <= m * lo by { MulMono(m, lo2, lo); }
    assert m * hi <= m * hi2 by { MulMono(m, hi, hi2); }
    assert (m + 1.0) * lo2 == m * lo2 + lo2;
    assert (m + 1.0) * hi2 == m * hi2 + hi2;
  }

  lemma MulMono(m: real, a: real, b: real)
    requires m >= 0.0 && a <= b
    ensures m * a <= m * b
  {
    assert m * b - m * a == m * (b - a);
  }

  // ---------------------------------------------------------------- the aggregate series

  /** Every interaction index reached by some run: the union of the series' key sets. */
  function AllKeys(results: Results): set<int> {
    set t, k | t in results && k in results[t] :: k
  }

  lemma {:induction false} InAllKeys(stat: Statistic, results: Results, k: int)
    ensures k in AllKeys(results) <==> Reduce(stat, results, results.Keys, k).Some?
  {
    ReduceDefined(stat, results, results.Keys, k);
    if k in AllKeys(results) {
      var t :| t in results && k in results[t];
      assert Contribution(results, t, k).Some?;
    }
  }

  function ValueOr0(o: Option<Snapshot>): Snapshot {
    if o.Some? then o.value else Snapshot(0.0, 0.0)
  }

  /** The totals, minimums or maximums: one value per index that some run reaches. */
  ghost function Aggregate(stat: Statistic, results: Results): (r: Series)
    ensures r.Keys == AllKeys(results)
  {
    map k | k in AllKeys(results) :: ValueOr0(Reduce(stat, results, results.Keys, k))
  }

  /** Each component divided by the number of runs (float division in the source). */
  function Scale(s: Snapshot, n: nat): Snapshot
    requires n > 0
  {
    Snapshot(s.interfaceCoverage / n as real, s.methodCoverage / n as real)
  }

  /** The averages: each index's total divided by the number of ALL runs, including the
      runs that stop before that index. */
  ghost function Averages(results: Results): (r: Series)
    ensures r.Keys == AllKeys(results)
  {
    if |results| == 0 then map[]
    else map k | k in AllKeys(results) :: Scale(Aggregate(Total, results)[k], |results|)
  }

  lemma AggregateAt(stat: Statistic, results: Results, k: int)
    requires k in AllKeys(results)
    ensures Reduce(stat, results, results.Keys, k).Some?
    ensures Aggregate(stat, results)[k] == Reduce(stat, results, results.Keys, k).value
  {
    InAllKeys(stat, results, k);
  }

  lemma AverageAt(results: Results, k: int)
    requires k in AllKeys(results)
    ensures |results| != 0 && k in Aggregate(Total, results)
    ensures Averages(results)[k] == Scale(Aggregate(Total, results)[k], |results|)
  {
    var t, k' :| t in results && k' in results[t] && k' == k;
    assert t in results.Keys;
  }

  /** At an index that every run reaches the average is the mean, between minimum and maximum. */
  lemma {:induction false} AverageBetween(results: Results, k: int)
    requires |results| != 0
    requires forall t | t in results :: k in results[t]
    ensures k in Averages(results) && k in Aggregate(Minimum, results) && k in Aggregate(Maximum, results)
    ensures var a, lo, hi := Averages(results)[k], Aggregate(Minimum, results)[k], Aggregate(Maximum, results)[k];
      lo.interfaceCoverage <= a.interfaceCoverage <= hi.interfaceCoverage
      && lo.methodCoverage <= a.methodCoverage <= hi.methodCoverage
  {
    assert |results.Keys| == |results|;
    Witness(results.Keys);
    var u :| u in results.Keys;
    assert k in AllKeys(results) by { assert k in results[u]; }
    forall t | t in results.Keys ensures Contribution(results, t, k).Some? {
    }
    TotalBetween(results, results.Keys, k);
    AggregateAt(Total, results, k);
    AggregateAt(Minimum, results, k);
    AggregateAt(Maximum, results, k);
    AverageAt(results, k);
    DivideBetween(|results|, Aggregate(Minimum, results)[k], Aggregate(Total, results)[k],
                  Aggregate(Maximum, results)[k]);
  }

  lemma DivideBetween(n: nat, lo: Snapshot, sum: Snapshot, hi: Snapshot)
    requires n > 0 && Between(n as real, lo, sum, hi)
    ensures var a := Scale(sum, n);
      lo.interfaceCoverage <= a.interfaceCoverage <= hi.interfaceCoverage
      && lo.methodCoverage <= a.methodCoverage <= hi.methodCoverage
  {
    DivideReal(lo.interfaceCoverage, sum.interfaceCoverage, hi.interfaceCoverage, n as real);
    DivideReal(lo.methodCoverage, sum.methodCoverage, hi.methodCoverage, n as real);
  }

  lemma DivideReal(lo: real, sum: real, hi: real, n: real)
    requires n > 0.0 && n * lo <= sum <= n * hi
    ensures lo <= sum / n <= hi
  {
  }

  /** An index that a single run reaches has that run's value as minimum and maximum,
      and that value divided by the number of runs as average. */
  lemma {:induction false} SingleRunIndex(results: Results, k: int, u: int)
    requires u in results && k in results[u]
    requires forall t | t in results && t != u :: k !in results[t]
    ensures Aggregate(Minimum, results)[k] == results[u][k]
    ensures Aggregate(Maximum, results)[k] == results[u][k]
    ensures Averages(results)[k] == Scale(results[u][k], |results|)
  {
    assert k in AllKeys(results);
    ReduceSingle(Minimum, results, results.Keys, k, u);
    ReduceSingle(Maximum, results, results.Keys, k, u);
    ReduceSingle(Total, results, results.Keys, k, u);
  }

  /** With runs of different lengths the average at a late index falls below the minimum:
      when only one of two or more runs reaches `k` with a positive coverage, the
      average at `k` (its value divided by the number of ALL runs) is strictly below the
      minimum at `k` (its value). */
  lemma {:induction false} AverageBelowMinimum(results: Results, k: int, u: int)
    requires u in results && k in results[u] && |results| >= 2
    requires forall t | t in results && t != u :: k !in results[t]
    requires results[u][k].interfaceCoverage > 0.0
    ensures k in Averages(results) && k in Aggregate(Minimum, results)
    ensures Averages(results)[k].interfaceCoverage < Aggregate(Minimum, results)[k].interfaceCoverage
  {
    SingleRunIndex(results, k, u);
    DivideShrinks(results[u][k].interfaceCoverage, |results| as real);
  }

  lemma DivideShrinks(x: real, n: real)
    requires x > 0.0 && n >= 2.0
    ensures x / n < x
  {
    var q := x / n;
    assert q * n == x;
    MulMono(x, 1.0, n - 1.0);
    assert (x - q) * n == x * (n - 1.0);
    PositiveFactor(x - q, n);
  }

  lemma PositiveFactor(a: real, n: real)
    requires n > 0.0 && a * n > 0.0
    ensures a > 0.0
  {
  }

  lemma OnlyMember(s: set<int>, x: int)
    requires x in s && |s - {x}| == 0
    ensures s == {x}
  {
    assert s - {x} == {};
  }

  /** A bound of everything but x, raised to x when x is larger, bounds the whole set. */
  lemma SplitBound(s: set<int>, x: int, bound: int)
    requires x in s && forall y | y in s - {x} :: y <= bound
    ensures forall y | y in s :: y <= (if x > bound then x else bound)
  {
    forall y | y in s ensures y <= (if x > bound then x else bound) {
      if y != x {
        assert y in s - {x};
      }
    }
  }

  /** `Collections.max` of a non-empty set of keys. */
  ghost function Largest(s: set<int>): (m: int)
    requires |s| != 0
    ensures m in s && forall x | x in s :: x <= m
    decreases s
  {
    Witness(s);
    var x :| x in s;
    if |s - {x}| == 0 then OnlyMember(s, x); x
    else
      var rest := Largest(s - {x});
      SplitBound(s, x, rest);
      if x > rest then x else rest
  }
}
