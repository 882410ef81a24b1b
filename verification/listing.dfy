/** The backend `GET /submissions` endpoint: page normalisation, the conjunctive WHERE
    predicate, the count, the newest-first page slice and hydration of each row. */
module Listing {
  import opened Common
  import opened Seqs
  import opened Text
  import opened Store

  datatype ListRequest = ListRequest(
    page: Option<int>,
    perPage: Option<int>,
    salaryMin: Option<int>,
    salaryMax: Option<int>,
    q: Option<string>,
    technologyIds: Option<seq<Id>>)

  /** The filtering part of a request: everything but the paging. */
  datatype Criteria = Criteria(
    salaryMin: Option<int>,
    salaryMax: Option<int>,
    q: Option<string>,
    technologyIds: Option<seq<Id>>)

  datatype ListResponse = ListResponse(
    submissions: seq<SubmissionDto>,
    total: nat,
    page: int,
    perPage: int,
    totalPages: nat)

  /** PostgreSQL rejects a negative LIMIT or OFFSET. */
  datatype ListError = NegativeLimit | NegativeOffset

  function CriteriaOf(req: ListRequest): Criteria {
    Criteria(req.salaryMin, req.salaryMax, req.q, req.technologyIds)
  }

  /** `x || d` on an optional number: both undefined and 0 are falsy. */
  function OrDefault(o: Option<int>, d: int): int {
    if o.None? || o.value == 0 then d else o.value
  }

  /** `req.page || 1`. */
  function PageOf(req: ListRequest): (p: int)
    ensures p != 0
    ensures req.page.None? || req.page.value == 0 ==> p == 1
    ensures req.page.Some? && req.page.value != 0 ==> p == req.page.value
  {
    OrDefault(req.page, 1)
  }

  /** `Math.min(req.perPage || 20, 100)`. */
  function PerPageOf(req: ListRequest): (n: int)
    ensures n != 0 && n <= 100
    ensures req.perPage.None? || req.perPage.value == 0 ==> n == 20
    ensures req.perPage.Some? && req.perPage.value != 0 ==> n == Min(req.perPage.value, 100)
  {
    Min(OrDefault(req.perPage, 20), 100)
  }

  /** Rows skipped before a page: `(page - 1) * perPage`. */
  function Offset(page: int, perPage: int): (k: int)
    ensures page >= 1 && perPage >= 1 ==> k >= 0
    ensures page >= 1 && perPage >= 1 ==> k + perPage == page * perPage
  {
    page * perPage - perPage
  }

  predicate SalaryInRange(c: Criteria, s: SubmissionRow) {
    && (c.salaryMin.Some? ==> s.salary >= c.salaryMin.value)
    && (c.salaryMax.Some? ==> s.salary <= c.salaryMax.value)
  }

  /** `if (req.q)`: an empty query is falsy and imposes nothing. */
  predicate MatchesQuery(c: Criteria, s: SubmissionRow) {
    c.q.None? || c.q.value == ""
    || ContainsIgnoringCase(s.companyName, c.q.value)
    || ContainsIgnoringCase(s.position, c.q.value)
  }

  /** Some bridge row links submission `sid` to one of `ids`. */
  predicate LinkedToAny(db: Db, sid: Id, ids: seq<Id>) {
    exists l :: l in db.links && l.submissionId == sid && l.technologyId in ids
  }

  predicate MatchesTechnologies(db: Db, c: Criteria, s: SubmissionRow) {
    c.technologyIds.None? || |c.technologyIds.value| == 0
    || LinkedToAny(db, s.id, c.technologyIds.value)
  }

  /** The WHERE clause: the supplied conditions joined with AND. */
  predicate Matches(db: Db, c: Criteria, s: SubmissionRow) {
    SalaryInRange(c, s) && MatchesQuery(c, s) && MatchesTechnologies(db, c, s)
  }

  /** The submissions the WHERE clause keeps, in table order. */
  function MatchingRows(db: Db, c: Criteria): (r: seq<SubmissionRow>)
    ensures forall s :: s in r <==> s in db.submissions && Matches(db, c, s)
    ensures |r| <= |db.submissions|
  {
    Filter(db.submissions, s => Matches(db, c, s))
  }

  /** `ORDER BY s.created_at DESC`. */
  predicate NewerFirst(a: SubmissionRow, b: SubmissionRow) {
    a.createdAt >= b.createdAt
  }

  lemma NewerFirstTotalPreorder()
    ensures TotalPreorder(NewerFirst)
  {
  }

  /** The matches, newest first: the query before LIMIT/OFFSET. */
  function OrderedMatches(db: Db, c: Criteria): (r: seq<SubmissionRow>)
    ensures Sorted(r, NewerFirst)
    ensures forall i :: 0 <= i < |r| ==> r[i] in db.submissions && Matches(db, c, r[i])
    ensures multiset(r) == multiset(MatchingRows(db, c))
    ensures |r| == |MatchingRows(db, c)|
  {
    NewerFirstTotalPreorder();
    var m := MatchingRows(db, c);
    var r := Sort(m, NewerFirst);
    PermutationMembers(r, m);
    r
  }

  function HydrateFn(db: Db): SubmissionRow -> SubmissionDto {
    s => Hydrate(db, s)
  }

  function HydrateAll(db: Db, rows: seq<SubmissionRow>): (r: seq<SubmissionDto>)
    ensures |r| == |rows|
    ensures forall i :: 0 <= i < |rows| ==> r[i] == Hydrate(db, rows[i])
  {
    Map(rows, HydrateFn(db))
  }

  /** One page of results: LIMIT perPage OFFSET (page - 1) * perPage. */
  function PageRows(db: Db, c: Criteria, page: int, perPage: int): (r: seq<SubmissionRow>)
    requires page >= 1 && perPage >= 1
    ensures |r| <= perPage
    ensures forall i :: 0 <= i < |r| ==> r[i] in db.submissions && Matches(db, c, r[i])
    ensures Sorted(r, NewerFirst)
  {
    var ordered := OrderedMatches(db, c);
    WindowSorted(ordered, Offset(page, perPage), perPage, NewerFirst);
    Window(ordered, Offset(page, perPage), perPage)
  }

  /** The handler. */
  function List(db: Db, req: ListRequest): (r: Result<ListResponse, ListError>)
    ensures r.Failure? <==> PerPageOf(req) < 0 || PageOf(req) < 1
    ensures r.Success? ==>
      && r.value.page == PageOf(req) >= 1
      && 1 <= r.value.perPage == PerPageOf(req) <= 100
      && |r.value.submissions| <= r.value.perPage
  {
    var perPage := PerPageOf(req);
    var page := PageOf(req);
    if perPage < 0 then Failure(NegativeLimit)
    else if page < 1 then Failure(NegativeOffset)
    else
      var c := CriteriaOf(req);
      var total := |MatchingRows(db, c)|;
      Success(ListResponse(HydrateAll(db, PageRows(db, c, page, perPage)), total, page, perPage,
                           CeilDiv(total, perPage)))
  }

  /** `totalPages = Math.ceil(total / perPage)`: the fewest pages that hold every match,
      and 0 when nothing matches. */
  lemma TotalPagesIsCeiling(db: Db, req: ListRequest)
    requires List(db, req).Success?
    ensures var resp := List(db, req).value;
      && resp.totalPages * resp.perPage >= resp.total
      && (resp.totalPages == 0 || resp.totalPages * resp.perPage < resp.total + resp.perPage)
      && (resp.totalPages == 0 <==> resp.total == 0)
  {
    var resp := List(db, req).value;
    ListCounts(db, req);
    var n, d, q := resp.total, resp.perPage, resp.totalPages;
    assert q * d >= n && (q == 0 || q * d < n + d) && (q == 0 <==> n == 0) by {
      CeilingBounds(n, d);
    }
  }

  /** The ceiling of `n / d` is the fewest `d`-sized pages that hold `n` rows. */
  lemma CeilingBounds(n: nat, d: nat)
    requires d > 0
    ensures var q := CeilDiv(n, d);
      q * d >= n && (q == 0 || q * d < n + d) && (q == 0 <==> n == 0)
  {
  }

  /** The count fields of a successful response. */
  lemma ListCounts(db: Db, req: ListRequest)
    requires List(db, req).Success?
    ensures var resp := List(db, req).value;
      && resp.perPage == PerPageOf(req) >= 1
      && resp.total == |MatchingRows(db, CriteriaOf(req))|
      && resp.totalPages == CeilDiv(resp.total, resp.perPage)
  {
  }

  /** Each listed submission satisfies every supplied condition, and the page is
      ordered newest first. */
  lemma ListedSatisfyFilters(db: Db, req: ListRequest)
    requires List(db, req).Success?
    ensures var subs := List(db, req).value.submissions;
      && (forall i, j :: 0 <= i < j < |subs| ==> subs[i].createdAt >= subs[j].createdAt)
      && forall d :: d in subs ==>
        && (req.salaryMin.Some? ==> d.salary >= req.salaryMin.value)
        && (req.salaryMax.Some? ==> d.salary <= req.salaryMax.value)
        && (req.q.Some? && req.q.value != "" ==>
              ContainsIgnoringCase(d.companyName, req.q.value) || ContainsIgnoringCase(d.position, req.q.value))
  {
    var resp := List(db, req).value;
    var rows := PageRows(db, CriteriaOf(req), resp.page, resp.perPage);
    assert resp.submissions == HydrateAll(db, rows);
  }

  /** A row that passes the technology condition of a well-formed store hydrates
      with one of the requested technologies. */
  lemma RowHasRequestedTechnology(db: Db, c: Criteria, s: SubmissionRow)
    requires WellFormed(db)
    requires c.technologyIds.Some? && |c.technologyIds.value| > 0
    requires Matches(db, c, s)
    ensures exists t :: t in Hydrate(db, s).technologies && t.id in c.technologyIds.value
  {
    var l :| l in db.links && l.submissionId == s.id && l.technologyId in c.technologyIds.value;
    var t :| t in db.technologies && t.id == l.technologyId;
    assert Link(s.id, t.id) == l;
    HydrateFaithful(db, s);
  }

  /** Every submission on a page of a well-formed store carries one of the requested
      technologies. */
  lemma ListedHaveRequestedTechnology(db: Db, req: ListRequest)
    requires WellFormed(db)
    requires List(db, req).Success?
    requires req.technologyIds.Some? && |req.technologyIds.value| > 0
    ensures forall d :: d in List(db, req).value.submissions ==>
      exists t :: t in d.technologies && t.id in req.technologyIds.value
  {
    var resp := List(db, req).value;
    var rows := PageRows(db, CriteriaOf(req), resp.page, resp.perPage);
    assert resp.submissions == HydrateAll(db, rows);
    forall d | d in resp.submissions
      ensures exists t :: t in d.technologies && t.id in req.technologyIds.value
    {
      var i :| 0 <= i < |resp.submissions| && resp.submissions[i] == d;
      RowHasRequestedTechnology(db, CriteriaOf(req), rows[i]);
    }
  }

  /** The requested page does not affect the count. */
  lemma TotalIndependentOfPage(db: Db, req: ListRequest, p: int)
    requires List(db, req).Success?
    requires List(db, req.(page := Some(p))).Success?
    ensures List(db, req.(page := Some(p))).value.total == List(db, req).value.total
  {
    assert CriteriaOf(req.(page := Some(p))) == CriteriaOf(req);
  }

  /** Without any filter every submission matches. */
  lemma NoFiltersMatchAll(db: Db)
    ensures MatchingRows(db, Criteria(None, None, None, None)) == db.submissions
  {
    var c := Criteria(None, None, None, None);
    FilterAll(db.submissions, s => Matches(db, c, s));
  }

  /** The submissions the endpoint lists on page `k`; nothing for page 0. */
  ghost function ListedPage(db: Db, req: ListRequest): (nat -> seq<SubmissionDto>) {
    k => if k == 0 then [] else
      var r := List(db, req.(page := Some(k)));
      if r.Success? then r.value.submissions else []
  }

  /** The submissions of pages 1..n, concatenated. */
  ghost function PagesThrough(db: Db, req: ListRequest, n: nat): seq<SubmissionDto> {
    Concat(ListedPage(db, req), n)
  }

  lemma PagingLeavesCriteria(req: ListRequest, n: int)
    requires n > 0
    ensures CriteriaOf(req.(page := Some(n))) == CriteriaOf(req)
    ensures PerPageOf(req.(page := Some(n))) == PerPageOf(req)
    ensures PageOf(req.(page := Some(n))) == n
  {
  }

  /** Page `n` of a request is the `n`-th window of the ordered matches. */
  lemma PageIsWindow(db: Db, req: ListRequest, n: nat)
    requires PerPageOf(req) > 0 && n > 0
    ensures List(db, req.(page := Some(n))).value.submissions ==
      HydrateAll(db, Window(OrderedMatches(db, CriteriaOf(req)), Offset(n, PerPageOf(req)), PerPageOf(req)))
  {
    PagingLeavesCriteria(req, n);
    var c := CriteriaOf(req);
    var perPage := PerPageOf(req);
    assert PageRows(db, c, n, perPage) == Window(OrderedMatches(db, c), Offset(n, perPage), perPage);
  }

  /** Page `k` as the endpoint lists it is the `k`-th window of the ordered matches,
      hydrated. */
  lemma ListedPageIsWindow(db: Db, req: ListRequest, k: nat)
    requires PerPageOf(req) > 0 && k >= 1
    ensures ListedPage(db, req)(k) ==
      Map(Window(OrderedMatches(db, CriteriaOf(req)), PageStart(k, PerPageOf(req)), PerPageOf(req)), HydrateFn(db))
  {
    var p := req.(page := Some(k));
    var perPage: nat := PerPageOf(req);
    var ordered := OrderedMatches(db, CriteriaOf(req));
    assert List(db, p).Success? by {
      PagingLeavesCriteria(req, k);
    }
    assert List(db, p).value.submissions == HydrateAll(db, Window(ordered, Offset(k, perPage), perPage)) by {
      PageIsWindow(db, req, k);
    }
    assert Offset(k, perPage) == PageStart(k, perPage);
    assert ListedPage(db, req)(k) == List(db, p).value.submissions;
  }

  /** Walking pages 1..n of a request gives the first `n` windows of its ordered
      matches, hydrated. */
  lemma PagesThroughAreWindows(db: Db, req: ListRequest, n: nat)
    requires PerPageOf(req) > 0
    ensures PagesThrough(db, req, n) ==
      HydrateAll(db, Pages(OrderedMatches(db, CriteriaOf(req)), PerPageOf(req), n))
  {
    var perPage: nat := PerPageOf(req);
    var ordered := OrderedMatches(db, CriteriaOf(req));
    forall k | 1 <= k <= n
      ensures ListedPage(db, req)(k) == Map(Window(ordered, PageStart(k, perPage), perPage), HydrateFn(db))
    {
      ListedPageIsWindow(db, req, k);
    }
    ConcatOfPages(ListedPage(db, req), ordered, perPage, HydrateFn(db), n);
  }

  /** Walking pages 1..totalPages lists every match exactly once, newest first, so the
      page sizes add up to the total. */
  lemma PagesCoverMatches(db: Db, req: ListRequest)
    requires List(db, req).Success?
    ensures var resp := List(db, req).value;
      && PagesThrough(db, req, resp.totalPages) == HydrateAll(db, OrderedMatches(db, CriteriaOf(req)))
      && |PagesThrough(db, req, resp.totalPages)| == resp.total
  {
    var resp := List(db, req).value;
    PagesThroughAreWindows(db, req, resp.totalPages);
    PagesCoverAll(OrderedMatches(db, CriteriaOf(req)), PerPageOf(req));
  }
}
