# Language salary report — a verified model

The script `main.py` asks two job boards, HeadHunter (HH) and SuperJob (SJ),
for programming vacancies in Moscow. It turns each vacancy's salary range into
one estimate, aggregates the estimates per programming language, and prints
one table per board. This project models the logic of that script in Dafny
and proves what it promises:

- `outcomes.dfy` (module `Outcomes`): `Option`, the two exceptions that can end
  a run (`NoneTimesFloat`, `HttpError`), and `Result`.
- `salary.dfy` (module `Salary`): `predict_salary` and the two currency
  adapters `predict_rub_salary_for_hh` and `predict_rub_salary_for_sj`, as
  functions over vacancy datatypes whose bounds are `Option<real>`.
- `aggregation.dfy` (module `Aggregation`): the statistics block that `main`
  runs for every language, once in the SuperJob loop and once in the
  HeadHunter loop. It is a method with a loop, proved against the
  specification function `Statistics`. Lemmas cover counting, error
  propagation, order independence and the bounds of the average.
- `pagination.dfy` (module `Pagination`): the page loops of
  `get_vacancies_from_hh` and `get_sj_vacancies`. Each is a method over an
  oracle of page replies, proved against `Gathered`. Lemmas give the exact
  number of requests and show that items keep page order.
- `report.dfy` (module `Report`): the row list built by `get_table`, and a
  worked run from one fetched page through the statistics to a language's row.

Modelling choices:

- A salary bound is `Option<real>`. "Given" means Python truthiness, so both
  `None` and `0` count as absent.
- `predict_salary` returns `Failure(NoneTimesFloat)` exactly when the code
  evaluates `None * 1.2`. That happens when the lower bound is null and the
  upper bound is null or zero.
- A failed page request is the oracle reply `Failed`. It stands for
  `raise_for_status` raising, and it aborts the fetch with `HttpError`.
- `int(sum / len)` is truncation toward zero on an exact real mean.
- The dictionary passed to `get_table` is the list of its (language,
  statistics) entries in insertion order.

Where the code and its own comments disagree, the model follows the code:

- The docstring of `predict_salary` (main.py:20) says it returns None when
  both bounds are null. The code evaluates `None * 1.2` and raises a
  `TypeError` (main.py:24-25).
- The code treats a zero bound as not given (main.py:22-26). The exception is
  a zero lower bound when the upper bound is null or zero: `(0, None)` and
  `(0, 0)` give `0.0`, while `(None, None)` and `(None, 0)` raise.
- An estimate of `0.0` is dropped by the aggregation (main.py:220-221), like
  a null one.

## Model

| member | source | states |
|---|---|---|
| `Salary.Given` | main.py:22-26 | a bound is given exactly when it is non-null and non-zero, as Python truthiness reads it |
| `Salary.PredictSalary` | main.py:10-27 | raises (None * 1.2) exactly when the lower bound is null and the upper bound is null or zero; never returns None |
| `Salary.PredictBothGiven` | main.py:22-23 | two non-zero bounds give their mean, which lies between them when from <= to |
| `Salary.PredictOnlyFrom` | main.py:24-25 | an upper bound that is null or zero gives lower * 1.2 for any present lower bound, zero included |
| `Salary.PredictOnlyTo` | main.py:26-27 | a lower bound that is null or zero with a non-zero upper bound gives upper * 0.8 |
| `Salary.ZeroToIsNull` | main.py:22-27 | an upper bound of 0 behaves exactly like a null one, for every lower bound |
| `Salary.ZeroFromIsNullUnlessToMissing` | main.py:22-27 | a lower bound of 0 behaves like null when the upper bound is given; otherwise 0 yields 0.0 and null raises |
| `Salary.PredictWithin` | main.py:22-27 | for 0 <= lo <= hi the estimate succeeds, lies in [0.8 lo, 1.2 hi], and is zero exactly when hi is zero |
| `Salary.PredictExamples` | main.py:10-27 | (100,200)=150, (100,null)=120, (null,200)=160, (0,0)=0, (null,null) raises |
| `Salary.PredictRubSalaryForHh` | main.py:30-42 | no estimate exactly when the salary is null or its currency is not RUR; otherwise the predictor's result on the salary's bounds |
| `Salary.PredictRubSalaryForSj` | main.py:45-57 | no estimate exactly when the currency is not rub; otherwise the predictor's result on payment_from and payment_to |
| `Salary.ForeignCurrencyIgnored` | main.py:38-57 | a HH vacancy in any currency other than RUR, and a SJ vacancy in any currency other than rub, yield no estimate whatever their bounds |
| `Salary.SjRoubleExample` | main.py:53-57 | a rub vacancy paying 1000 to 2000 is estimated at 1500 |
| `Aggregation.Kept` | main.py:220-221 | an estimate is kept exactly when it is non-null and non-zero |
| `Aggregation.Collect` | main.py:217-221 | the kept estimates are at most as many as the vacancies and none is zero |
| `Aggregation.KeptIndices` | main.py:218-221 | the positions of the vacancies whose estimate is kept, defined by index |
| `Aggregation.ProcessedCount` | main.py:218-224 | the number of gathered salaries equals the number of vacancies whose estimate is kept |
| `Aggregation.Sum` | main.py:226 | the exact sum of the gathered salaries, added in list order |
| `Aggregation.Trunc` | main.py:226 | int() of a real: the integer toward zero within distance less than 1 |
| `Aggregation.Average` | main.py:225-227 | the average is None exactly when no salary was gathered |
| `Aggregation.Statistics` | main.py:222-227 | found is the number of vacancies, processed is the number of vacancies whose estimate is kept (so at most found), the average is None exactly when processed is 0, and the run raises exactly when collecting raises |
| `Aggregation.CollectFailurePersists` | main.py:218-220 | an exception on some vacancy ends the whole aggregation with that same exception |
| `Aggregation.Aggregate` | main.py:217-228 | the loop's result equals the specification Statistics, including the exception case |
| `Aggregation.AggregateSj` | main.py:217-228 | the SuperJob block computes Statistics with the SJ adapter |
| `Aggregation.AggregateHh` | main.py:236-247 | the HeadHunter block computes Statistics with the HH adapter |
| `Aggregation.CollectConcat` | main.py:218-221 | collecting two runs of vacancies in turn concatenates their kept estimates, or raises |
| `Aggregation.CollectFailsIff` | main.py:218-220 | the aggregation raises if and only if the estimate of some vacancy raises |
| `Aggregation.CollectMembers` | main.py:218-221 | a salary is gathered if and only if it is non-zero and is the estimate of some vacancy |
| `Aggregation.CollectFailsPermutation` | main.py:217-221 | reordering the vacancies does not change whether the aggregation raises |
| `Aggregation.CollectPermutation` | main.py:217-221 | reordering the vacancies only reorders the gathered salaries |
| `Aggregation.SumConcat` | main.py:226 | the sum of a concatenation is the sum of its parts |
| `Aggregation.SumPermutation` | main.py:226 | the sum does not depend on the order of the salaries |
| `Aggregation.StatisticsPermutation` | main.py:217-228 | found, processed and average do not depend on the order of the vacancies |
| `Aggregation.SumWithin` | main.py:226 | n salaries in [lo, hi] sum to a value in [n lo, n hi] |
| `Aggregation.AverageWithin` | main.py:225-227 | for non-negative salaries in [lo, hi] the average exists and lies in (lo - 1, hi] |
| `Aggregation.AverageTruncates` | main.py:226 | estimates 100 and 101 average to 100 (truncated, not rounded) |
| `Pagination.FirstStop` | main.py:73-89 | the first requested page after which the loop leaves; no earlier page stops it |
| `Pagination.FirstStopIs` | main.py:73-89 | a page that stops the loop with no earlier page stopping it is the last page requested |
| `Pagination.ItemsOf` | main.py:87 | the items of the fetched pages concatenated in page order, as repeated `extend` builds them |
| `Pagination.Gathered` | main.py:73-90 | the items of pages 0 through the first stopping page, or HttpError when that request failed |
| `Pagination.HhIsLast` | main.py:88 | HH page p is the last once p >= pages - 1 |
| `Pagination.GetVacanciesFromHh` | main.py:60-90 | requests pages 0 up to the first page p with p >= pages - 1 or a failed request; returns their items in page order, or the HTTP error |
| `Pagination.HhRequestsDeclaredPages` | main.py:73-89 | with every page declaring n pages, exactly max(n, 1) pages are requested: page 0 always, never one beyond n - 1 |
| `Pagination.CeilDiv` | main.py:153-155 | math.ceil(a / b): the least c with a <= c b |
| `Pagination.SjLastPageInteger` | main.py:153-155 | for total >= 0 the last page is (total + 99) / 100 - 1 |
| `Pagination.SjLastPage` | main.py:153-155 | the SJ last page is ceil(total / 100) - 1 |
| `Pagination.SjIsLast` | main.py:156 | SJ page p is the last once p >= the last page computed from its total |
| `Pagination.GetSjVacancies` | main.py:118-158 | requests pages 0 up to the first page p with p >= ceil(total / 100) - 1 or a failed request; returns their objects in page order, or the HTTP error |
| `Pagination.SjRequestsDeclaredPages` | main.py:131-157 | with every page declaring the same total, exactly max(ceil(total / 100), 1) pages are requested, so a total of 0 still fetches page 0 |
| `Pagination.ItemsOfMembers` | main.py:87 | a vacancy is gathered if and only if some fetched page lists it |
| `Pagination.ItemsOfAppend` | main.py:152 | extending with more pages appends their items after the earlier ones |
| `Report.Header` | main.py:164-169 | the fixed four-column header: language, vacancies found, vacancies processed, average salary |
| `Report.AverageCell` | main.py:175 | the average cell holds None exactly when the average is None |
| `Report.RowOf` | main.py:171-176 | a language's row has the header's width and starts with the language name |
| `Report.GetTable` | main.py:161-176 | the header row, then one four-cell row per language in insertion order, holding its found, processed and average |
| `Report.HhSinglePageFetch` | main.py:73-89 | one page declaring one page is a single request returning its items unchanged |
| `Report.HhTwoVacancyStatistics` | main.py:236-247 | a RUR vacancy paying 50000 to 70000 and one in another currency give found 2, processed 1, average 60000 |
| `Report.HhSinglePageRow` | main.py:235-247 | fetching one page holding a RUR vacancy paying 50000 to 70000 and one in another currency, aggregating it and building the language's row gives [language, 2, 1, 60000] |

## Left out

- HTTP: `requests.get`, the query parameters, headers and URLs, and
  `raise_for_status`. Each page reply comes from an oracle sequence, and a
  rejected status is the reply `Failed`.
- `sj_authorization` (main.py:93-115) is a single credential-exchange request
  with no logic. The token it returns is only passed on as a request header.
- Environment configuration (`load_dotenv`, `os.getenv`), the fixed list of
  languages, and the Russian query strings. These are constants or foreign
  calls.
- The loop of `main` over the languages. It only fetches, aggregates and stores
  the result under the language's name. Each step is modelled, the storing as
  the entry list given to `GetTable`.
- `AsciiTable` rendering, the table title and `print`. They belong to a library
  outside this repository.
- Floating point: salaries are exact reals. `* 1.2` and `* 0.8` have no
  rounding, and `sum` does not depend on order. Float precision of
  `math.ceil(total / 100)` for very large totals is not modelled either.
- Malformed JSON (missing keys) is not modelled; records are typed datatypes.
  The model cannot represent an empty HH `salary` object: a present salary
  is always taken as truthy, while main.py:38 would treat an empty dict as
  no salary.
- `Pagination.GetVacanciesFromHh`: requires that the oracle eventually holds a
  failed reply or a last page. A platform that never reports a last page makes
  the source loop forever, and the model does not capture that.
- `Pagination.GetSjVacancies`: has the same eventual-end requirement, for the
  same reason.
- `Aggregation.StatisticsPermutation`: when both orders raise, it does not
  claim that they raise the same exception. A general estimate function may
  fail differently on different vacancies; the two adapters only ever raise
  `NoneTimesFloat`.
