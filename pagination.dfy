/**
 * The two page loops of main.py: get_vacancies_from_hh and
 * get_sj_vacancies. Each HTTP request is replaced by the next reply of an
 * oracle: replies[p] is what the platform answers to the request for page p.
 */
module Pagination {
  import opened Outcomes
  import opened Salary

  /** The answer to one page request: a decoded body, or a status that raise_for_status rejects. */
  datatype Reply<+P> = Page(body: P) | Failed

  /** A HeadHunter page: its `items` and the declared number of `pages`. */
  datatype HhPage = HhPage(items: seq<HhVacancy>, pages: int)

  /** A SuperJob page: its `objects` and the declared `total` of matching vacancies. */
  datatype SjPage = SjPage(objects: seq<SjVacancy>, total: int)

  /** The `count` parameter of every SuperJob page request. */
  const MaxVacanciesPerPage := 100

  /** Whether the loop leaves after requesting page p: the request failed or the page is the last. */
  predicate Stops<P>(replies: seq<Reply<P>>, p: nat, isLast: (nat, P) -> bool) {
    p < |replies| && (replies[p].Failed? || isLast(p, replies[p].body))
  }

  /** The platform eventually answers with a failure or a last page. */
  predicate Ends<P>(replies: seq<Reply<P>>, isLast: (nat, P) -> bool) {
    exists p :: 0 <= p < |replies| && Stops(replies, p, isLast)
  }

  /** The first page at or after `from` after which the loop leaves. */
  function FirstStop<P>(replies: seq<Reply<P>>, isLast: (nat, P) -> bool, from: nat): (p: nat)
    requires exists q :: from <= q && Stops(replies, q, isLast)
    ensures from <= p && Stops(replies, p, isLast)
    ensures forall q :: from <= q < p ==> !Stops(replies, q, isLast)
    decreases |replies| - from
  {
    if Stops(replies, from, isLast) then from else FirstStop(replies, isLast, from + 1)
  }

  /** The items of the pages in `replies`, concatenated in page order. */
  function ItemsOf<P, V>(replies: seq<Reply<P>>, items: P -> seq<V>): seq<V>
    decreases |replies|
  {
    if replies == [] then []
    else
      var last := replies[|replies| - 1];
      ItemsOf(replies[..|replies| - 1], items) + (if last.Page? then items(last.body) else [])
  }

  /**
   * What a page loop returns: the items of pages 0 through the first page
   * at which it leaves, or the HTTP error if that request failed.
   */
  function Gathered<P, V>(replies: seq<Reply<P>>, isLast: (nat, P) -> bool, items: P -> seq<V>): Result<seq<V>>
    requires Ends(replies, isLast)
  {
    var p := FirstStop(replies, isLast, 0);
    if replies[p].Failed? then Failure(HttpError) else Ok(ItemsOf(replies[..p + 1], items))
  }

  /** HeadHunter: page p is the last once p >= pages - 1. */
  predicate HhIsLast(page: nat, body: HhPage) {
    page >= body.pages - 1
  }

  function HhItems(body: HhPage): seq<HhVacancy> {
    body.items
  }

  /** Python's math.ceil(a / b) for a positive b. */
  function CeilDiv(a: int, b: int): (c: int)
    requires b > 0
    ensures (c - 1) * b < a <= c * b
  {
    var q := (-a) / b;
    assert -a == b * q + (-a) % b;
    -q
  }

  /** SuperJob: `math.ceil(total / 100) - 1`. */
  function SjLastPage(total: int): int {
    CeilDiv(total, MaxVacanciesPerPage) - 1
  }

  /** SuperJob: page p is the last once p >= SjLastPage(total). */
  predicate SjIsLast(page: nat, body: SjPage) {
    page >= SjLastPage(body.total)
  }

  function SjObjects(body: SjPage): seq<SjVacancy> {
    body.objects
  }

  /** The first stop is the unique page that stops with no earlier page stopping. */
  lemma FirstStopIs<P>(replies: seq<Reply<P>>, isLast: (nat, P) -> bool, p: nat)
    requires Stops(replies, p, isLast)
    requires forall q :: 0 <= q < p ==> !Stops(replies, q, isLast)
    ensures Ends(replies, isLast)
    ensures FirstStop(replies, isLast, 0) == p
  {
  }

  /**
   * When every page succeeds and declares the same count n of pages,
   * HeadHunter is asked for exactly max(n, 1) pages: page 0 always, and
   * never a page beyond n - 1.
   */
  lemma HhRequestsDeclaredPages(replies: seq<Reply<HhPage>>, n: int)
    requires forall q :: 0 <= q < |replies| ==> replies[q].Page? && replies[q].body.pages == n
    requires |replies| >= n && |replies| >= 1
    ensures Ends(replies, HhIsLast)
    ensures FirstStop(replies, HhIsLast, 0) + 1 == if n < 1 then 1 else n
  {
    var last := if n < 1 then 0 else n - 1;
    forall q | 0 <= q < last ensures !Stops(replies, q, HhIsLast) {
      assert replies[q].Page? && replies[q].body.pages == n;
    }
    FirstStopIs(replies, HhIsLast, last);
  }

  /**
   * When every page succeeds and declares the same total, SuperJob is asked
   * for exactly max(ceil(total / 100), 1) pages; a total of 0 still
   * requests page 0.
   */
  lemma SjRequestsDeclaredPages(replies: seq<Reply<SjPage>>, total: int)
    requires forall q :: 0 <= q < |replies| ==> replies[q].Page? && replies[q].body.total == total
    requires |replies| >= CeilDiv(total, MaxVacanciesPerPage) && |replies| >= 1
    ensures Ends(replies, SjIsLast)
    ensures FirstStop(replies, SjIsLast, 0) + 1 ==
            if total <= 0 then 1 else CeilDiv(total, MaxVacanciesPerPage)
  {
    var pages := CeilDiv(total, MaxVacanciesPerPage);
    assert total <= 0 ==> pages <= 0;
    assert total > 0 ==> pages >= 1;
    var last := if pages < 1 then 0 else pages - 1;
    forall q | 0 <= q < last ensures !Stops(replies, q, SjIsLast) {
      assert replies[q].Page? && replies[q].body.total == total;
    }
    FirstStopIs(replies, SjIsLast, last);
  }

  /** The SuperJob stop rule agrees with the integer form (total + 99) / 100 - 1. */
  lemma SjLastPageInteger(total: nat)
    ensures SjLastPage(total) == (total + 99) / 100 - 1
  {
  }

  /**
   * The gathered list holds exactly the items of the fetched pages: an
   * item is in it if and only if some fetched page lists it.
   */
  lemma {:induction false} ItemsOfMembers<P, V>(replies: seq<Reply<P>>, items: P -> seq<V>, x: V)
    ensures x in ItemsOf(replies, items) <==>
            exists q :: 0 <= q < |replies| && replies[q].Page? && x in items(replies[q].body)
    decreases |replies|
  {
    if replies != [] {
      var init := replies[..|replies| - 1];
      ItemsOfMembers(init, items, x);
      if exists q :: 0 <= q < |init| && init[q].Page? && x in items(init[q].body) {
        var q :| 0 <= q < |init| && init[q].Page? && x in items(init[q].body);
        assert replies[q] == init[q];
      }
      if exists q :: 0 <= q < |replies| && replies[q].Page? && x in items(replies[q].body) {
        var q :| 0 <= q < |replies| && replies[q].Page? && x in items(replies[q].body);
        if q < |init| {
          assert replies[q] == init[q];
        }
      }
    }
  }

  /** Page order is kept: the items of a later page follow those of every earlier one. */
  lemma {:induction false} ItemsOfAppend<P, V>(replies: seq<Reply<P>>, more: seq<Reply<P>>, items: P -> seq<V>)
    ensures ItemsOf(replies + more, items) == ItemsOf(replies, items) + ItemsOf(more, items)
    decreases |more|
  {
    if more == [] {
      assert replies + more == replies;
    } else {
      var init := more[..|more| - 1];
      assert (replies + more)[..|replies + more| - 1] == replies + init;
      ItemsOfAppend(replies, init, items);
    }
  }

  /**
   * get_vacancies_from_hh: request pages 0, 1, 2, ... in order, extend the
   * gathered vacancies with each page's items, and leave after the first
   * page p with p >= pages - 1. `requested` is the number of page requests.
   */
  method GetVacanciesFromHh(replies: seq<Reply<HhPage>>) returns (r: Result<seq<HhVacancy>>, requested: nat)
    requires Ends(replies, HhIsLast)
    ensures requested == FirstStop(replies, HhIsLast, 0) + 1
    ensures r == Gathered(replies, HhIsLast, HhItems)
  {
    ghost var stop := FirstStop(replies, HhIsLast, 0);
    var gathered: seq<HhVacancy> := [];
    var page: nat := 0;
    while true
      invariant page <= stop
      invariant gathered == ItemsOf(replies[..page], HhItems)
      decreases stop - page
    {
      assert replies[..page + 1][..page] == replies[..page];
      var reply := replies[page];
      if reply.Failed? {
        assert Stops(replies, page, HhIsLast);
        return Failure(HttpError), page + 1;
      }
      gathered := gathered + reply.body.items;
      if page >= reply.body.pages - 1 {
        assert Stops(replies, page, HhIsLast);
        return Ok(gathered), page + 1;
      }
      page := page + 1;
    }
  }

  /**
   * get_sj_vacancies: the same loop over SuperJob pages of 100 vacancies,
   * leaving after the first page p with p >= ceil(total / 100) - 1.
   */
  method GetSjVacancies(replies: seq<Reply<SjPage>>) returns (r: Result<seq<SjVacancy>>, requested: nat)
    requires Ends(replies, SjIsLast)
    ensures requested == FirstStop(replies, SjIsLast, 0) + 1
    ensures r == Gathered(replies, SjIsLast, SjObjects)
  {
    ghost var stop := FirstStop(replies, SjIsLast, 0);
    var gathered: seq<SjVacancy> := [];
    var page: nat := 0;
    while true
      invariant page <= stop
      invariant gathered == ItemsOf(replies[..page], SjObjects)
      decreases stop - page
    {
      assert replies[..page + 1][..page] == replies[..page];
      var reply := replies[page];
      if reply.Failed? {
        assert Stops(replies, page, SjIsLast);
        return Failure(HttpError), page + 1;
      }
      gathered := gathered + reply.body.objects;
      var lastPage := SjLastPage(reply.body.total);
      if page >= lastPage {
        assert Stops(replies, page, SjIsLast);
        return Ok(gathered), page + 1;
      }
      page := page + 1;
    }
  }
}
