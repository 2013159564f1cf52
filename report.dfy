/**
 * The row list that get_table in main.py hands to the table renderer, and
 * a worked run from one fetched page through the statistics to a language's row.
 */
module Report {
  import opened Outcomes
  import opened Salary
  import opened Aggregation
  import opened Pagination

  /** One table cell: a text, an integer, or Python's None. */
  datatype Cell = Text(text: string) | Number(n: int) | NoneCell

  type Row = seq<Cell>

  /** The fixed four-column header row. */
  const Header: Row := [
    Text("Язык программирования"),
    Text("Вакансий найдено"),
    Text("Вакансий обработано"),
    Text("Средняя зарплата")
  ]

  /** The cell of an average salary: the integer, or None when nothing was processed. */
  function AverageCell(average: Option<int>): (c: Cell)
    ensures c == NoneCell <==> average.None?
  {
    match average
    case None => NoneCell
    case Some(a) => Number(a)
  }

  /** The row of one language: its name, the two counts and the average. */
  function RowOf(language: string, s: LanguageStatistics): (row: Row)
    ensures |row| == |Header|
    ensures row[0] == Text(language)
  {
    [Text(language), Number(s.vacanciesFound), Number(s.vacanciesProcessed), AverageCell(s.averageSalary)]
  }

  /**
   * get_table: the header, then one row per language in the order the
   * statistics were recorded. The dictionary `salaries_per_language` is its
   * list of (language, statistics) entries in insertion order.
   */
  method GetTable(salariesPerLanguage: seq<(string, LanguageStatistics)>) returns (tableData: seq<Row>)
    ensures |tableData| == |salariesPerLanguage| + 1
    ensures tableData[0] == Header
    ensures forall i :: 0 <= i < |salariesPerLanguage| ==>
              tableData[i + 1] == RowOf(salariesPerLanguage[i].0, salariesPerLanguage[i].1)
    ensures forall i :: 0 <= i < |tableData| ==> |tableData[i]| == 4
  {
    tableData := [Header];
    for i := 0 to |salariesPerLanguage|
      invariant |tableData| == i + 1
      invariant tableData[0] == Header
      invariant forall k :: 0 <= k < i ==>
                  tableData[k + 1] == RowOf(salariesPerLanguage[k].0, salariesPerLanguage[k].1)
    {
      var (language, statistics) := salariesPerLanguage[i];
      tableData := tableData + [[
        Text(language),
        Number(statistics.vacanciesFound),
        Number(statistics.vacanciesProcessed),
        AverageCell(statistics.averageSalary)
      ]];
    }
    forall i | 0 < i < |tableData| ensures |tableData[i]| == 4 {
      var k := i - 1;
      assert tableData[k + 1] == RowOf(salariesPerLanguage[k].0, salariesPerLanguage[k].1);
    }
  }

  /** A single HeadHunter page declaring one page: one request, and its items come back as they are. */
  lemma HhSinglePageFetch(items: seq<HhVacancy>)
    ensures Ends([Page(HhPage(items, 1))], HhIsLast)
    ensures FirstStop([Page(HhPage(items, 1))], HhIsLast, 0) == 0
    ensures Gathered([Page(HhPage(items, 1))], HhIsLast, HhItems) == Ok(items)
  {
    var replies := [Page(HhPage(items, 1))];
    assert Stops(replies, 0, HhIsLast);
    assert replies[..1] == replies && replies[..0] == [];
    assert ItemsOf(replies[..0], HhItems) == [];
    assert ItemsOf(replies, HhItems) == [] + HhItems(HhPage(items, 1));
    assert [] + items == items;
  }

  /**
   * Two HeadHunter vacancies, one paying 50000 to 70000 roubles and one paid
   * in another currency: both are found, one is processed, and the average
   * is 60000.
   */
  lemma HhTwoVacancyStatistics(rub: HhVacancy, other: HhVacancy)
    requires rub == HhVacancy(Some(HhSalary(Some(50000.0), Some(70000.0), "RUR")))
    requires other.salary.Some? && other.salary.value.currency != "RUR"
    ensures Statistics([rub, other], PredictRubSalaryForHh) == Ok(LanguageStatistics(2, 1, Some(60000)))
  {
    assert PredictSalary(Some(50000.0), Some(70000.0)) == Ok(60000.0);
    assert PredictRubSalaryForHh(rub) == Ok(Some(60000.0));
    assert PredictRubSalaryForHh(other) == Ok(None);
    CollectConcat([rub], [other], PredictRubSalaryForHh);
    assert [rub] + [other] == [rub, other];
    assert [rub][..0] == [] && [other][..0] == [];
    assert Collect([], PredictRubSalaryForHh) == Ok([]);
    assert [] + [60000.0] == [60000.0];
    assert Collect([rub], PredictRubSalaryForHh) == Ok([60000.0]);
    assert Collect([other], PredictRubSalaryForHh) == Ok([]);
    assert [60000.0][..0] == [];
    assert Average([60000.0]) == Some(60000);
  }

  /**
   * The worked run end to end: the one page is fetched, its two vacancies
   * aggregated, and the language's row reads found 2, processed 1, 60000.
   */
  lemma HhSinglePageRow(language: string, rub: HhVacancy, other: HhVacancy)
    requires rub == HhVacancy(Some(HhSalary(Some(50000.0), Some(70000.0), "RUR")))
    requires other.salary.Some? && other.salary.value.currency != "RUR"
    ensures Ends([Page(HhPage([rub, other], 1))], HhIsLast)
    ensures
      var fetched := Gathered([Page(HhPage([rub, other], 1))], HhIsLast, HhItems);
      && fetched.Ok?
      && Statistics(fetched.value, PredictRubSalaryForHh).Ok?
      && RowOf(language, Statistics(fetched.value, PredictRubSalaryForHh).value)
         == [Text(language), Number(2), Number(1), Number(60000)]
  {
    HhSinglePageFetch([rub, other]);
    HhTwoVacancyStatistics(rub, other);
  }
}
