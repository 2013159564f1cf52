/**
 * The salary predictor and the two currency-filtering adapters of main.py.
 * Salaries are exact reals: the float rounding of `* 1.2` and `* 0.8`
 * is not modelled.
 */
module Salary {
  import opened Outcomes

  /** One salary bound as a platform sends it: a number or null. */
  type Bound = Option<real>

  /** Python truthiness of a bound: null and zero both read as "not given". */
  predicate Given(b: Bound) {
    b.Some? && b.value != 0.0
  }

  /**
   * predict_salary: the mean of two given bounds, the lower bound plus 20%,
   * or the upper bound minus 20%. When the lower bound is null and the upper
   * one is not given, the code multiplies None by 1.2 and raises.
   */
  function PredictSalary(from: Bound, to: Bound): (r: Result<real>)
    ensures r.Failure? <==> from.None? && !Given(to)
    ensures r.Failure? ==> r.error == NoneTimesFloat
  {
    if Given(from) && Given(to) then
      Ok((to.value + from.value) / 2.0)
    else if !Given(to) then
      if from.None? then Failure(NoneTimesFloat) else Ok(from.value * 1.2)
    else
      Ok(to.value * 0.8)
  }

  /** With both bounds given the estimate is their mean, so it lies between them. */
  lemma PredictBothGiven(from: real, to: real)
    requires from != 0.0 && to != 0.0
    ensures PredictSalary(Some(from), Some(to)) == Ok((from + to) / 2.0)
    ensures from <= to ==> from <= PredictSalary(Some(from), Some(to)).value <= to
  {
  }

  /** Only the lower bound given (the upper one null or zero): lower * 1.2. */
  lemma PredictOnlyFrom(from: real, to: Bound)
    requires !Given(to)
    ensures PredictSalary(Some(from), to) == Ok(from * 1.2)
  {
  }

  /** Only the upper bound given (the lower one null or zero): upper * 0.8. */
  lemma PredictOnlyTo(from: Bound, to: real)
    requires !Given(from) && to != 0.0
    ensures PredictSalary(from, Some(to)) == Ok(to * 0.8)
  {
  }

  /** An upper bound of zero is treated exactly like a null one. */
  lemma ZeroToIsNull(from: Bound)
    ensures PredictSalary(from, Some(0.0)) == PredictSalary(from, None)
  {
  }

  /**
   * A lower bound of zero is treated like a null one whenever the upper bound
   * is given; when it is not, zero yields 0.0 where null raises.
   */
  lemma ZeroFromIsNullUnlessToMissing(to: Bound)
    ensures Given(to) ==> PredictSalary(Some(0.0), to) == PredictSalary(None, to)
    ensures !Given(to) ==> PredictSalary(Some(0.0), to) == Ok(0.0) && PredictSalary(None, to).Failure?
  {
  }

  /**
   * For non-negative bounds lo <= hi the estimate lies in [0.8 lo, 1.2 hi],
   * and it is zero exactly when neither bound is given.
   */
  lemma PredictWithin(lo: real, hi: real)
    requires 0.0 <= lo <= hi
    ensures PredictSalary(Some(lo), Some(hi)).Ok?
    ensures 0.8 * lo <= PredictSalary(Some(lo), Some(hi)).value <= 1.2 * hi
    ensures PredictSalary(Some(lo), Some(hi)).value == 0.0 <==> hi == 0.0
  {
  }

  /** The worked values: (100, 200), (100, null), (null, 200), (0, 0), (null, null). */
  lemma PredictExamples()
    ensures PredictSalary(Some(100.0), Some(200.0)) == Ok(150.0)
    ensures PredictSalary(Some(100.0), None) == Ok(120.0)
    ensures PredictSalary(None, Some(200.0)) == Ok(160.0)
    ensures PredictSalary(Some(0.0), Some(0.0)) == Ok(0.0)
    ensures PredictSalary(None, None) == Failure(NoneTimesFloat)
  {
  }

  /** The salary object of a HeadHunter vacancy. */
  datatype HhSalary = HhSalary(from: Bound, to: Bound, currency: string)

  /** A HeadHunter vacancy; `salary` is null when the employer gave none. */
  datatype HhVacancy = HhVacancy(salary: Option<HhSalary>)

  /** A SuperJob vacancy: the currency and the payment bounds sit on the record itself. */
  datatype SjVacancy = SjVacancy(currency: string, paymentFrom: Bound, paymentTo: Bound)

  /** An estimate as the adapters return it: a salary, `None`, or the predictor's exception. */
  function AsEstimate(p: Result<real>): (r: Result<Option<real>>)
    ensures r.Ok? <==> p.Ok?
    ensures r.Ok? ==> r.value == Some(p.value)
    ensures r.Failure? ==> r.error == p.error
  {
    match p
    case Ok(x) => Ok(Some(x))
    case Failure(e) => Failure(e)
  }

  /**
   * predict_rub_salary_for_hh: no estimate for a vacancy without a salary or
   * with a currency other than RUR; otherwise the predictor on its bounds.
   */
  function PredictRubSalaryForHh(v: HhVacancy): (r: Result<Option<real>>)
    ensures r == Ok(None) <==> v.salary.None? || v.salary.value.currency != "RUR"
    ensures r != Ok(None) ==> r == AsEstimate(PredictSalary(v.salary.value.from, v.salary.value.to))
  {
    if v.salary.Some? && v.salary.value.currency == "RUR" then
      AsEstimate(PredictSalary(v.salary.value.from, v.salary.value.to))
    else
      Ok(None)
  }

  /**
   * predict_rub_salary_for_sj: no estimate exactly when the currency is not
   * "rub"; otherwise the predictor on the payment bounds.
   */
  function PredictRubSalaryForSj(v: SjVacancy): (r: Result<Option<real>>)
    ensures r == Ok(None) <==> v.currency != "rub"
    ensures r != Ok(None) ==> r == AsEstimate(PredictSalary(v.paymentFrom, v.paymentTo))
  {
    if v.currency == "rub" then
      AsEstimate(PredictSalary(v.paymentFrom, v.paymentTo))
    else
      Ok(None)
  }

  /** A vacancy in any currency other than RUR (HH) or rub (SJ) never yields an estimate, whatever its bounds. */
  lemma ForeignCurrencyIgnored(from: Bound, to: Bound, hh: string, sj: string)
    requires hh != "RUR" && sj != "rub"
    ensures PredictRubSalaryForHh(HhVacancy(Some(HhSalary(from, to, hh)))) == Ok(None)
    ensures PredictRubSalaryForSj(SjVacancy(sj, from, to)) == Ok(None)
  {
  }

  /** A rouble SuperJob vacancy paying 1000 to 2000 is estimated at 1500. */
  lemma SjRoubleExample()
    ensures PredictRubSalaryForSj(SjVacancy("rub", Some(1000.0), Some(2000.0))) == Ok(Some(1500.0))
  {
  }
}
