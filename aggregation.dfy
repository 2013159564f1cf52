/**
 * The per-language statistics that `main` computes twice in main.py, once
 * over SuperJob vacancies and once over HeadHunter vacancies: the number of
 * vacancies found, the number with a usable estimate, and the truncated
 * mean of those estimates.
 */
module Aggregation {
  import opened Outcomes
  import opened Salary

  /** One row of statistics; averageSalary is None when nothing was processed. */
  datatype LanguageStatistics =
    LanguageStatistics(vacanciesFound: nat, vacanciesProcessed: nat, averageSalary: Option<int>)

  /** `if expected_salary`: a null estimate and an estimate of 0.0 are both dropped. */
  predicate Kept(e: Option<real>) {
    e.Some? && e.value != 0.0
  }

  /** The estimates of `records` that are kept, in order, or the first exception raised. */
  function Collect<V>(records: seq<V>, estimate: V -> Result<Option<real>>): (r: Result<seq<real>>)
    ensures r.Ok? ==> |r.value| <= |records|
    ensures r.Ok? ==> forall i :: 0 <= i < |r.value| ==> r.value[i] != 0.0
    decreases |records|
  {
    if records == [] then Ok([])
    else
      match Collect(records[..|records| - 1], estimate)
      case Failure(e) => Failure(e)
      case Ok(gathered) =>
        match estimate(records[|records| - 1])
        case Failure(e) => Failure(e)
        case Ok(e) => Ok(if Kept(e) then gathered + [e.value] else gathered)
  }

  /** The positions of the vacancies whose estimate is kept: an independent count of the processed ones. */
  ghost function KeptIndices<V>(records: seq<V>, estimate: V -> Result<Option<real>>): set<int> {
    set i | 0 <= i < |records| && estimate(records[i]).Ok? && Kept(estimate(records[i]).value)
  }

  /** The number of salaries gathered is the number of vacancies whose estimate is kept. */
  lemma {:induction false} ProcessedCount<V>(records: seq<V>, estimate: V -> Result<Option<real>>)
    requires Collect(records, estimate).Ok?
    ensures |Collect(records, estimate).value| == |KeptIndices(records, estimate)|
    decreases |records|
  {
    if records == [] {
      assert KeptIndices(records, estimate) == {};
    } else {
      var n := |records| - 1;
      var init := records[..n];
      ProcessedCount(init, estimate);
      var a, b := KeptIndices(init, estimate), KeptIndices(records, estimate);
      var e := estimate(records[n]);
      if e.Ok? && Kept(e.value) {
        assert b == a + {n};
        assert n !in a;
      } else {
        assert b == a;
      }
    }
  }

  /** Python's `sum`, exact. */
  function Sum(s: seq<real>): real
    decreases |s|
  {
    if s == [] then 0.0 else Sum(s[..|s| - 1]) + s[|s| - 1]
  }

  /** Python's `int()` on a float: truncation toward zero. */
  function Trunc(x: real): (n: int)
    ensures 0.0 <= x ==> n as real <= x < n as real + 1.0
    ensures x < 0.0 ==> n as real - 1.0 < x <= n as real
  {
    if 0.0 <= x then x.Floor else -((-x).Floor)
  }

  /** `int(sum(s) / len(s)) if s else None`. */
  function Average(salaries: seq<real>): (r: Option<int>)
    ensures r.None? <==> salaries == []
  {
    if salaries == [] then None else Some(Trunc(Sum(salaries) / |salaries| as real))
  }

  /** The statistics of one language, or the exception that aborts the run. */
  function Statistics<V>(records: seq<V>, estimate: V -> Result<Option<real>>): (r: Result<LanguageStatistics>)
    ensures r.Failure? <==> Collect(records, estimate).Failure?
    ensures r.Ok? ==> r.value.vacanciesFound == |records|
    ensures r.Ok? ==> r.value.vacanciesProcessed == |KeptIndices(records, estimate)|
    ensures r.Ok? ==> r.value.vacanciesProcessed <= r.value.vacanciesFound
    ensures r.Ok? ==> (r.value.averageSalary.None? <==> r.value.vacanciesProcessed == 0)
  {
    match Collect(records, estimate)
    case Failure(e) => Failure(e)
    case Ok(salaries) =>
      ProcessedCount(records, estimate);
      Ok(LanguageStatistics(|records|, |salaries|, Average(salaries)))
  }

  /** An exception raised on a prefix of the records aborts the whole aggregation. */
  lemma {:induction false} CollectFailurePersists<V>(records: seq<V>, k: nat, estimate: V -> Result<Option<real>>)
    requires k <= |records|
    requires Collect(records[..k], estimate).Failure?
    ensures Collect(records, estimate) == Collect(records[..k], estimate)
    decreases |records|
  {
    if k < |records| {
      var init := records[..|records| - 1];
      assert init[..k] == records[..k];
      CollectFailurePersists(init, k, estimate);
    } else {
      assert records[..k] == records;
    }
  }

  /** The outcome of collecting two runs of records one after the other. */
  function Join(first: Result<seq<real>>, second: Result<seq<real>>): (r: Result<seq<real>>)
    ensures r.Ok? <==> first.Ok? && second.Ok?
  {
    match first
    case Failure(e) => Failure(e)
    case Ok(x) =>
      match second
      case Failure(e) => Failure(e)
      case Ok(y) => Ok(x + y)
  }

  /** Collecting a concatenation is collecting each part in turn. */
  lemma {:induction false} CollectConcat<V>(a: seq<V>, b: seq<V>, estimate: V -> Result<Option<real>>)
    ensures Collect(a + b, estimate) == Join(Collect(a, estimate), Collect(b, estimate))
    decreases |b|
  {
    if b == [] {
      assert a + b == a;
      if Collect(a, estimate).Ok? {
        assert Collect(a, estimate).value + [] == Collect(a, estimate).value;
      }
    } else {
      var b', last := b[..|b| - 1], b[|b| - 1];
      assert (a + b)[..|a + b| - 1] == a + b';
      assert (a + b)[|a + b| - 1] == last;
      CollectConcat(a, b', estimate);
      match Collect(a, estimate)
      case Failure(_) =>
      case Ok(x) =>
        match Collect(b', estimate)
        case Failure(_) =>
        case Ok(y) =>
          match estimate(last)
          case Failure(_) =>
          case Ok(e) =>
            if Kept(e) {
              assert (x + y) + [e.value] == x + (y + [e.value]);
            }
    }
  }

  /** The aggregation raises exactly when the estimate of some vacancy raises. */
  lemma {:induction false} CollectFailsIff<V>(records: seq<V>, estimate: V -> Result<Option<real>>)
    ensures Collect(records, estimate).Failure? <==>
            exists i :: 0 <= i < |records| && estimate(records[i]).Failure?
    decreases |records|
  {
    if records != [] {
      var init := records[..|records| - 1];
      CollectFailsIff(init, estimate);
      if exists i :: 0 <= i < |init| && estimate(init[i]).Failure? {
        var i :| 0 <= i < |init| && estimate(init[i]).Failure?;
        assert estimate(records[i]).Failure?;
      }
      if exists i :: 0 <= i < |records| && estimate(records[i]).Failure? {
        var i :| 0 <= i < |records| && estimate(records[i]).Failure?;
        if i < |init| {
          assert estimate(init[i]).Failure?;
        }
      }
    }
  }

  /**
   * The collected salaries are exactly the non-zero estimates of the
   * vacancies: nothing is invented and nothing truthy is lost.
   */
  lemma {:induction false} CollectMembers<V>(records: seq<V>, estimate: V -> Result<Option<real>>, x: real)
    requires Collect(records, estimate).Ok?
    ensures x in Collect(records, estimate).value <==>
            x != 0.0 && exists i :: 0 <= i < |records| && estimate(records[i]) == Ok(Some(x))
    decreases |records|
  {
    if records != [] {
      var init := records[..|records| - 1];
      CollectMembers(init, estimate, x);
      if exists i :: 0 <= i < |init| && estimate(init[i]) == Ok(Some(x)) {
        var i :| 0 <= i < |init| && estimate(init[i]) == Ok(Some(x));
        assert estimate(records[i]) == Ok(Some(x));
      }
      if exists i :: 0 <= i < |records| && estimate(records[i]) == Ok(Some(x)) {
        var i :| 0 <= i < |records| && estimate(records[i]) == Ok(Some(x));
        if i < |init| {
          assert estimate(init[i]) == Ok(Some(x));
        }
      }
    }
  }

  /**
   * Two sequences with the same elements: the last element of the first
   * occurs at some j in the second, and what remains on both sides still
   * has the same elements.
   */
  lemma MatchLast<T>(a: seq<T>, b: seq<T>) returns (j: nat)
    requires a != [] && multiset(a) == multiset(b)
    ensures j < |b| && b[j] == a[|a| - 1]
    ensures b == b[..j] + [b[j]] + b[j + 1..]
    ensures multiset(a[..|a| - 1]) == multiset(b[..j] + b[j + 1..])
  {
    var a', v := a[..|a| - 1], a[|a| - 1];
    assert a == a' + [v];
    assert v in multiset(b);
    j :| 0 <= j < |b| && b[j] == v;
    var b1, b2 := b[..j], b[j + 1..];
    assert b == b1 + [v] + b2;
    assert multiset(a) == multiset(a') + multiset{v};
    assert multiset(b) == multiset(b1) + multiset{v} + multiset(b2);
    assert multiset(b1 + b2) == multiset(b1) + multiset(b2);
    forall x ensures multiset(a')[x] == multiset(b1 + b2)[x] {
      assert multiset(a)[x] == multiset(b)[x];
    }
  }

  /** Whether the aggregation raises does not depend on the order of the vacancies. */
  lemma CollectFailsPermutation<V>(a: seq<V>, b: seq<V>, estimate: V -> Result<Option<real>>)
    requires multiset(a) == multiset(b)
    ensures Collect(a, estimate).Ok? <==> Collect(b, estimate).Ok?
  {
    CollectFailsIff(a, estimate);
    CollectFailsIff(b, estimate);
    if exists i :: 0 <= i < |b| && estimate(b[i]).Failure? {
      var i :| 0 <= i < |b| && estimate(b[i]).Failure?;
      assert b[i] in multiset(a);
      var k :| 0 <= k < |a| && a[k] == b[i];
    }
    if exists i :: 0 <= i < |a| && estimate(a[i]).Failure? {
      var i :| 0 <= i < |a| && estimate(a[i]).Failure?;
      assert a[i] in multiset(b);
      var k :| 0 <= k < |b| && b[k] == a[i];
    }
  }

  /** Reordering the vacancies reorders the collected salaries and changes nothing else. */
  lemma {:induction false} CollectPermutation<V>(a: seq<V>, b: seq<V>, estimate: V -> Result<Option<real>>)
    requires multiset(a) == multiset(b)
    requires Collect(a, estimate).Ok?
    ensures Collect(b, estimate).Ok?
    ensures multiset(Collect(a, estimate).value) == multiset(Collect(b, estimate).value)
    decreases |a|
  {
    CollectFailsPermutation(a, b, estimate);
    if a != [] {
      var j := MatchLast(a, b);
      var a', v, b1, b2 := a[..|a| - 1], a[|a| - 1], b[..j], b[j + 1..];
      assert a == a' + [v];
      CollectConcat(a', [v], estimate);
      CollectConcat(b1 + [v], b2, estimate);
      CollectConcat(b1, [v], estimate);
      CollectConcat(b1, b2, estimate);
      CollectPermutation(a', b1 + b2, estimate);
      var x, y1, y2, z := Collect(a', estimate).value, Collect(b1, estimate).value,
                          Collect(b2, estimate).value, Collect([v], estimate).value;
      assert Collect(a, estimate).value == x + z;
      assert Collect(b, estimate).value == y1 + z + y2;
      assert multiset(x) == multiset(y1 + y2);
    }
  }

  /** The sum of a concatenation is the sum of the parts. */
  lemma {:induction false} SumConcat(a: seq<real>, b: seq<real>)
    ensures Sum(a + b) == Sum(a) + Sum(b)
    decreases |b|
  {
    if b == [] {
      assert a + b == a;
    } else {
      var b' := b[..|b| - 1];
      assert (a + b)[..|a + b| - 1] == a + b';
      SumConcat(a, b');
    }
  }

  /** The sum of the salaries does not depend on their order. */
  lemma {:induction false} SumPermutation(a: seq<real>, b: seq<real>)
    requires multiset(a) == multiset(b)
    ensures Sum(a) == Sum(b)
    decreases |a|
  {
    if a == [] {
      assert |b| == |multiset(b)| == 0;
    } else {
      var j := MatchLast(a, b);
      var a', v, b1, b2 := a[..|a| - 1], a[|a| - 1], b[..j], b[j + 1..];
      SumPermutation(a', b1 + b2);
      SumConcat(b1 + [v], b2);
      SumConcat(b1, [v]);
      SumConcat(b1, b2);
    }
  }

  /**
   * The statistics of a language do not depend on the order in which the
   * platform lists its vacancies (salaries are exact reals here).
   */
  lemma StatisticsPermutation<V>(a: seq<V>, b: seq<V>, estimate: V -> Result<Option<real>>)
    requires multiset(a) == multiset(b)
    ensures Statistics(a, estimate).Ok? <==> Statistics(b, estimate).Ok?
    ensures Statistics(a, estimate).Ok? ==> Statistics(a, estimate) == Statistics(b, estimate)
  {
    assert |a| == |multiset(a)| == |multiset(b)| == |b|;
    if Collect(a, estimate).Ok? {
      CollectPermutation(a, b, estimate);
      var x, y := Collect(a, estimate).value, Collect(b, estimate).value;
      assert |x| == |multiset(x)| == |multiset(y)| == |y|;
      SumPermutation(x, y);
    } else {
      if Collect(b, estimate).Ok? {
        CollectPermutation(b, a, estimate);
      }
    }
  }

  /** The sum of salaries that all lie in [lo, hi] lies in [n lo, n hi]. */
  lemma {:induction false} SumWithin(s: seq<real>, lo: real, hi: real)
    requires forall i :: 0 <= i < |s| ==> lo <= s[i] <= hi
    ensures |s| as real * lo <= Sum(s) <= |s| as real * hi
    decreases |s|
  {
    if s != [] {
      SumWithin(s[..|s| - 1], lo, hi);
    }
  }

  /**
   * For non-negative salaries in [lo, hi] the reported average is their
   * mean rounded down, so it lies in (lo - 1, hi].
   */
  lemma AverageWithin(s: seq<real>, lo: real, hi: real)
    requires s != [] && 0.0 <= lo
    requires forall i :: 0 <= i < |s| ==> lo <= s[i] <= hi
    ensures Average(s).Some?
    ensures lo - 1.0 < Average(s).value as real <= hi
  {
    SumWithin(s, lo, hi);
    var n := |s| as real;
    var mean := Sum(s) / n;
    assert lo <= mean <= hi by {
      assert n * lo <= Sum(s) <= n * hi;
    }
  }

  /** Estimates 100 and 101 average to 100: the mean 100.5 is truncated, not rounded. */
  lemma AverageTruncates()
    ensures Average([100.0, 101.0]) == Some(100)
  {
    assert [100.0, 101.0][..1] == [100.0];
    assert [100.0][..0] == [];
    assert Sum([100.0, 101.0]) == 201.0;
  }

  /**
   * The aggregation loop of `main`: estimate each vacancy in turn, append
   * the kept estimates, and report the counts and the truncated mean.
   */
  method Aggregate<V>(records: seq<V>, estimate: V -> Result<Option<real>>) returns (r: Result<LanguageStatistics>)
    ensures r == Statistics(records, estimate)
  {
    var gathered: seq<real> := [];
    for i := 0 to |records|
      invariant Collect(records[..i], estimate) == Ok(gathered)
    {
      assert records[..i + 1][..i] == records[..i];
      var expected := estimate(records[i]);
      if expected.Failure? {
        assert Collect(records[..i + 1], estimate) == Failure(expected.error);
        CollectFailurePersists(records, i + 1, estimate);
        return Failure(expected.error);
      }
      if Kept(expected.value) {
        gathered := gathered + [expected.value.value];
      }
    }
    assert records[..|records|] == records;
    var average: Option<int> := None;
    if gathered != [] {
      average := Some(Trunc(Sum(gathered) / |gathered| as real));
    }
    r := Ok(LanguageStatistics(|records|, |gathered|, average));
  }

  /** The SuperJob block of `main`. */
  method AggregateSj(vacancies: seq<SjVacancy>) returns (r: Result<LanguageStatistics>)
    ensures r == Statistics(vacancies, PredictRubSalaryForSj)
  {
    r := Aggregate(vacancies, PredictRubSalaryForSj);
  }

  /** The HeadHunter block of `main`. */
  method AggregateHh(vacancies: seq<HhVacancy>) returns (r: Result<LanguageStatistics>)
    ensures r == Statistics(vacancies, PredictRubSalaryForHh)
  {
    r := Aggregate(vacancies, PredictRubSalaryForHh);
  }
}
