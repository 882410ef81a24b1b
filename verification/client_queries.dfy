/** The browser-side data layer that talks to the hosted database directly: mapping a
    query row to a submission, the two-step submission insert, the paginated
    submission and technology queries, and the bare technology insert. */
module ClientQueries {
  import opened Common
  import opened Seqs
  import opened Text
  import opened Store
  import Listing
  import SubmissionCreate

  // ---------------------------------------------------------------- row mapping

  /** A technology embedded in a query result; its `name` column may be NULL. */
  datatype RawTechnology = RawTechnology(id: Id, name: Option<string>, createdAt: int)

  /** An embedded bridge row; `technology` is NULL when the nested join finds no row. */
  datatype RawLink = RawLink(technologyId: Id, technology: Option<RawTechnology>)

  /** A `submissions` row as a query returns it: any column may come back missing. */
  datatype RawRow = RawRow(
    id: Id,
    createdAt: int,
    companyName: Option<string>,
    companyLink: Option<string>,
    position: Option<string>,
    salary: Option<int>,
    comments: Option<string>,
    benefits: Option<string>,
    links: Option<seq<RawLink>>)

  function MapTechnology(t: RawTechnology): Technology {
    Technology(t.id, t.name.GetOr(""), t.createdAt)
  }

  /** The embedded technologies of a row, keeping only the bridge rows whose join found
      a technology, in bridge order. */
  function Embedded(links: seq<RawLink>): (r: seq<Technology>)
    ensures |r| <= |links|
    ensures forall t :: t in r ==> exists l :: l in links && l.technology.Some? && MapTechnology(l.technology.value) == t
    ensures forall l :: l in links && l.technology.Some? ==> MapTechnology(l.technology.value) in r
    ensures (forall l :: l in links ==> l.technology.None?) <==> r == []
  {
    if |links| == 0 then []
    else
      assert links == [links[0]] + links[1..];
      var rest := Embedded(links[1..]);
      match links[0].technology
      case Some(t) => [MapTechnology(t)] + rest
      case None => rest
  }

  /** The client-side submission: missing text becomes "", a missing salary 0, and
      comments/benefits pass through as they are (an empty string stays). */
  function MapSubmissionRow(row: RawRow): (d: SubmissionDto)
    ensures d.id == row.id && d.createdAt == row.createdAt
    ensures row.companyName.None? ==> d.companyName == ""
    ensures row.companyName.Some? ==> d.companyName == row.companyName.value
    ensures row.companyLink.None? ==> d.companyLink == ""
    ensures row.companyLink.Some? ==> d.companyLink == row.companyLink.value
    ensures row.position.None? ==> d.position == ""
    ensures row.position.Some? ==> d.position == row.position.value
    ensures row.salary.None? ==> d.salary == 0
    ensures row.salary.Some? ==> d.salary == row.salary.value
    ensures d.comments == row.comments && d.benefits == row.benefits
    ensures row.links.None? ==> d.technologies == []
    ensures row.links.Some? ==> d.technologies == Embedded(row.links.value)
  {
    SubmissionDto(row.id, row.companyName.GetOr(""), row.companyLink.GetOr(""), row.position.GetOr(""),
                  row.salary.GetOr(0), row.comments, row.benefits,
                  Embedded(row.links.GetOr([])), row.createdAt)
  }

  // ------------------------------------------------ what the database sends back

  /** An embedded-relation filter: `None` keeps every bridge row. */
  predicate Admits(restrict: Option<seq<Id>>, id: Id) {
    restrict.None? || id in restrict.value
  }

  function RawTechnologyOf(db: Db, id: Id): Option<RawTechnology> {
    match FindTechnology(db, id)
    case Some(t) => Some(RawTechnology(t.id, Some(t.name), t.createdAt))
    case None => None
  }

  /** The embedded bridge rows of submission `sid` that the filter admits, with their
      technologies joined in. */
  function RawLinks(db: Db, links: seq<Link>, sid: Id, restrict: Option<seq<Id>>): seq<RawLink> {
    if |links| == 0 then []
    else
      var rest := RawLinks(db, links[1..], sid, restrict);
      if links[0].submissionId == sid && Admits(restrict, links[0].technologyId) then
        [RawLink(links[0].technologyId, RawTechnologyOf(db, links[0].technologyId))] + rest
      else rest
  }

  /** A stored submission as the nested select returns it. */
  function RawOf(db: Db, s: SubmissionRow, restrict: Option<seq<Id>>): RawRow {
    RawRow(s.id, s.createdAt, Some(s.companyName), Some(s.companyLink), Some(s.position), Some(s.salary),
           s.comments, s.benefits, Some(RawLinks(db, db.links, s.id, restrict)))
  }

  /** A stored submission read back and mapped. */
  function ReadBack(db: Db, s: SubmissionRow, restrict: Option<seq<Id>>): SubmissionDto {
    MapSubmissionRow(RawOf(db, s, restrict))
  }

  lemma {:induction false} EmbeddedAppend(a: seq<RawLink>, b: seq<RawLink>)
    ensures Embedded(a + b) == Embedded(a) + Embedded(b)
  {
    if |a| == 0 {
      assert a + b == b;
    } else {
      assert (a + b)[0] == a[0];
      assert (a + b)[1..] == a[1..] + b;
      EmbeddedAppend(a[1..], b);
    }
  }

  /** The technologies a read-back shows for submission `sid` are exactly the stored
      technologies it is linked to through `links` that the filter admits. */
  lemma {:induction false} EmbeddedOfRawLinks(db: Db, links: seq<Link>, sid: Id, restrict: Option<seq<Id>>, t: Technology)
    requires TechnologyIdsUnique(db)
    ensures t in Embedded(RawLinks(db, links, sid, restrict)) <==>
      t in db.technologies && Link(sid, t.id) in links && Admits(restrict, t.id)
  {
    if |links| > 0 {
      var l := links[0];
      var rest := RawLinks(db, links[1..], sid, restrict);
      EmbeddedOfRawLinks(db, links[1..], sid, restrict, t);
      assert links == [l] + links[1..];
      if l.submissionId == sid && Admits(restrict, l.technologyId) {
        var head := RawLink(l.technologyId, RawTechnologyOf(db, l.technologyId));
        EmbeddedAppend([head], rest);
        match FindTechnology(db, l.technologyId)
        case Some(u) =>
          assert Embedded([head]) == [u];
        case None =>
          assert Embedded([head]) == [];
      }
    }
  }

  /** Reading a stored submission back gives its own column values (comments and
      benefits unchanged, an empty string included) and exactly the admitted
      technologies it is linked to. */
  lemma ReadBackFaithful(db: Db, s: SubmissionRow, restrict: Option<seq<Id>>)
    requires TechnologyIdsUnique(db)
    ensures var d := ReadBack(db, s, restrict);
      && (d.id, d.companyName, d.companyLink, d.position, d.salary, d.createdAt)
         == (s.id, s.companyName, s.companyLink, s.position, s.salary, s.createdAt)
      && d.comments == s.comments && d.benefits == s.benefits
      && forall t :: t in d.technologies <==> t in db.technologies && Link(s.id, t.id) in db.links && Admits(restrict, t.id)
  {
    forall t
      ensures t in ReadBack(db, s, restrict).technologies <==>
        t in db.technologies && Link(s.id, t.id) in db.links && Admits(restrict, t.id)
    {
      EmbeddedOfRawLinks(db, db.links, s.id, restrict, t);
    }
  }

  /** Unlike the backend, the client keeps an empty comment as "" rather than reading it
      as absent. */
  lemma ReadBackKeepsEmptyComments(db: Db, s: SubmissionRow)
    requires s.comments == Some("")
    ensures ReadBack(db, s, None).comments == Some("")
    ensures Hydrate(db, s).comments.None?
  {
  }

  // ------------------------------------------------------------ submission insert

  /** The column values the client inserts: absent comments/benefits become "". */
  datatype InsertPayload = InsertPayload(
    companyName: string,
    companyLink: string,
    position: string,
    salary: int,
    comments: string,
    benefits: string)

  function Payload(req: SubmissionCreate.CreateRequest): (p: InsertPayload)
    ensures (p.companyName, p.companyLink, p.position, p.salary)
            == (req.companyName, req.companyLink, req.position, req.salary)
    ensures req.comments.None? ==> p.comments == ""
    ensures req.comments.Some? ==> p.comments == req.comments.value
    ensures req.benefits.None? ==> p.benefits == ""
    ensures req.benefits.Some? ==> p.benefits == req.benefits.value
  {
    InsertPayload(req.companyName, req.companyLink, req.position, req.salary,
                  req.comments.GetOr(""), req.benefits.GetOr(""))
  }

  /** The submission row the first insert writes; `owner` is the value the database
      fills into `user_id` by itself. */
  function InsertedRow(db: Db, req: SubmissionCreate.CreateRequest, owner: string, now: int): SubmissionRow {
    var p := Payload(req);
    SubmissionRow(db.nextId, p.companyName, p.companyLink, p.position, p.salary,
                  Some(p.comments), Some(p.benefits), now, owner)
  }

  /** The bridge insert is rejected (foreign or primary key violation). */
  datatype ClientInsertError = BridgeRejected

  /** `insertSubmissionWithTechnologies`: insert the submission, then (only when there
      are ids) all bridge rows in one statement, then read the submission back. The two
      inserts are separate statements: a rejected bridge insert leaves the submission
      row in place. */
  function InsertSubmission(db: Db, req: SubmissionCreate.CreateRequest, owner: string, now: int)
    : (r: (Db, Result<SubmissionDto, ClientInsertError>))
    ensures r.0.submissions == db.submissions + [InsertedRow(db, req, owner, now)]
    ensures r.0.technologies == db.technologies && r.0.nextId == db.nextId + 1
    ensures r.1.Failure? <==>
      (|req.technologyIds.GetOr([])| > 0 &&
       !SubmissionCreate.CanLink(db.(submissions := r.0.submissions), db.nextId, req.technologyIds.value))
    ensures r.1.Failure? ==> r.0.links == db.links
    ensures r.1.Success? ==>
      && r.0.links == db.links + SubmissionCreate.LinksFor(db.nextId, req.technologyIds.GetOr([]))
      && r.1.value == ReadBack(r.0, InsertedRow(db, req, owner, now), None)
  {
    var row := InsertedRow(db, req, owner, now);
    var db1 := db.(submissions := db.submissions + [row], nextId := db.nextId + 1);
    var ids := req.technologyIds.GetOr([]);
    if |ids| == 0 then
      assert db1.links + SubmissionCreate.LinksFor(row.id, ids) == db1.links;
      (db1, Success(ReadBack(db1, row, None)))
    else if SubmissionCreate.CanLink(db1, row.id, ids) then
      var db2 := db1.(links := db1.links + SubmissionCreate.LinksFor(row.id, ids));
      (db2, Success(ReadBack(db2, row, None)))
    else
      (db1, Failure(BridgeRejected))
  }

  /** The insert succeeds on a well-formed store exactly when the backend create would:
      every id names a stored technology and none repeats (an empty list always
      succeeds, where the backend needs the list to be present). */
  lemma InsertSucceedsIff(db: Db, req: SubmissionCreate.CreateRequest, owner: string, now: int)
    requires WellFormed(db)
    ensures var ids := req.technologyIds.GetOr([]);
      InsertSubmission(db, req, owner, now).1.Success? <==>
        SubmissionCreate.Distinct(ids) && forall i :: 0 <= i < |ids| ==> HasTechnology(db, ids[i])
  {
    SubmissionCreate.FreshIdUnlinked(db);
  }

  /** A rejected bridge insert leaves an orphan: the new submission stays stored with
      no technology attached, which the backend's transaction rules out. */
  lemma RejectedBridgeLeavesSubmission(db: Db, req: SubmissionCreate.CreateRequest, owner: string, now: int)
    requires WellFormed(db)
    requires InsertSubmission(db, req, owner, now).1.Failure?
    ensures var db' := InsertSubmission(db, req, owner, now).0;
      && HasSubmission(db', db.nextId)
      && !HasSubmission(db, db.nextId)
      && (forall l :: l in db'.links ==> l.submissionId != db.nextId)
      && SubmissionCreate.Create(db, req, owner, now).0 == db
  {
    var db' := InsertSubmission(db, req, owner, now).0;
    assert InsertedRow(db, req, owner, now) in db'.submissions;
    SubmissionCreate.FreshIdUnlinked(db);
    SubmissionCreate.CreateFailsIff(db, req, owner, now);
    InsertSucceedsIff(db, req, owner, now);
  }

  /** Where both paths succeed they store the same bridge rows and the same technologies;
      the rows differ only in how absent comments and benefits are stored ("" here,
      NULL in the backend). */
  lemma InsertAgreesWithBackend(db: Db, req: SubmissionCreate.CreateRequest, owner: string, now: int)
    requires WellFormed(db)
    requires SubmissionCreate.Create(db, req, owner, now).1.Success?
    ensures var (c, cr) := InsertSubmission(db, req, owner, now);
      var (b, _) := SubmissionCreate.Create(db, req, owner, now);
      && cr.Success?
      && c.links == b.links && c.technologies == b.technologies && |c.submissions| == |b.submissions|
      && (req.comments.None? ==> c.submissions[|db.submissions|].comments == Some("")
                                 && b.submissions[|db.submissions|].comments.None?)
  {
    SubmissionCreate.CreateFailsIff(db, req, owner, now);
    InsertSucceedsIff(db, req, owner, now);
  }

  /** The insert keeps the schema constraints, whether or not the bridge rows go in. */
  lemma InsertPreservesWellFormed(db: Db, req: SubmissionCreate.CreateRequest, owner: string, now: int)
    requires WellFormed(db)
    ensures WellFormed(InsertSubmission(db, req, owner, now).0)
  {
    var r := InsertSubmission(db, req, owner, now);
    var row := InsertedRow(db, req, owner, now);
    var ids := req.technologyIds.GetOr([]);
    InsertSucceedsIff(db, req, owner, now);
    if r.1.Success? {
      assert r.0 == SubmissionCreate.Extended(db, row, ids);
      SubmissionCreate.ExtendedPreservesWellFormed(db, row, ids);
    } else {
      assert SubmissionCreate.LinksFor(row.id, []) == [];
      assert r.0 == SubmissionCreate.Extended(db, row, []);
      SubmissionCreate.ExtendedPreservesWellFormed(db, row, []);
    }
  }

  // ------------------------------------------------------------ technology insert

  /** `insertTechnology`: the name is stored as given, with no trimming and no check
      for an existing technology of the same name. */
  function InsertTechnology(db: Db, name: string, now: int): (r: (Db, Technology))
    ensures r.1.name == name && r.1.createdAt == now
    ensures r.1.id == db.nextId
    ensures r.0 == db.(technologies := db.technologies + [r.1], nextId := db.nextId + 1)
  {
    var t := Technology(db.nextId, name, now);
    (db.(technologies := db.technologies + [t], nextId := db.nextId + 1), t)
  }

  /** The insert keeps the schema constraints: the new id is above every stored one,
      so it is unique, and no bridge row changes. */
  lemma InsertTechnologyPreservesWellFormed(db: Db, name: string, now: int)
    requires WellFormed(db)
    ensures var (db', t) := InsertTechnology(db, name, now);
      && WellFormed(db')
      && forall u :: u in db.technologies ==> u.id != t.id
  {
    var (db', t) := InsertTechnology(db, name, now);
    forall i, j | 0 <= i < j < |db'.technologies|
      ensures db'.technologies[i].id != db'.technologies[j].id
    {
      if j < |db.technologies| {
        assert db'.technologies[i] == db.technologies[i] && db'.technologies[j] == db.technologies[j];
      } else {
        assert db.technologies[i] in db.technologies;
      }
    }
    forall l | l in db'.links
      ensures HasSubmission(db', l.submissionId) && HasTechnology(db', l.technologyId)
    {
      var u :| u in db.technologies && u.id == l.technologyId;
      assert u in db'.technologies;
    }
  }

  /** Inserting a name that differs from a stored one only in case gives two
      technologies whose names collide case-insensitively. */
  lemma InsertTechnologyCanDuplicate(db: Db, now: int)
    requires db.technologies == [Technology(0, "react", 0)] && db.nextId == 1
    ensures var (db', t) := InsertTechnology(db, "React", now);
      && |db'.technologies| == 2
      && Lower(db'.technologies[0].name) == Lower(db'.technologies[1].name)
  {
    var (db', t) := InsertTechnology(db, "React", now);
    assert Lower("React") == "react";
    assert Lower("react") == "react";
  }

  // ------------------------------------------------------------ paginated queries

  datatype Direction = Asc | Desc

  datatype SortOption = Recent | Oldest | SalaryDesc | SalaryAsc | Alpha

  /** The parameters of the submissions query; `sortSalary` is the older way of asking
      for a salary order. */
  datatype Params = Params(
    page: Option<int>,
    perPage: Option<int>,
    salaryMin: Option<int>,
    salaryMax: Option<int>,
    searchQuery: Option<string>,
    technologyIds: Option<seq<Id>>,
    sortSalary: Option<Direction>,
    sort: Option<SortOption>)

  datatype Column = CreatedAt | Salary | CompanyName

  /** One `ORDER BY column ASC|DESC`. */
  datatype OrderSpec = OrderSpec(column: Column, ascending: bool)

  /** The order requested: `sortSalary` counts only when `sort` is absent; an absent
      `sort` otherwise means most recent first. */
  function ChooseOrder(sort: Option<SortOption>, sortSalary: Option<Direction>): (o: OrderSpec)
    ensures sort.None? && sortSalary.Some? ==> o == OrderSpec(Salary, sortSalary.value == Asc)
    ensures sort.Some? ==> o.column == (match sort.value
                                          case Recent => CreatedAt
                                          case Oldest => CreatedAt
                                          case SalaryDesc => Salary
                                          case SalaryAsc => Salary
                                          case Alpha => CompanyName)
    ensures sort.None? && sortSalary.None? ==> o == OrderSpec(CreatedAt, false)
    ensures o.ascending <==> (sort.None? && sortSalary == Some(Asc)) || sort in {Some(Oldest), Some(SalaryAsc), Some(Alpha)}
  {
    if sort.None? && sortSalary.Some? then OrderSpec(Salary, sortSalary.value == Asc)
    else
      match sort
      case Some(Oldest) => OrderSpec(CreatedAt, true)
      case Some(SalaryDesc) => OrderSpec(Salary, false)
      case Some(SalaryAsc) => OrderSpec(Salary, true)
      case Some(Alpha) => OrderSpec(CompanyName, true)
      case _ => OrderSpec(CreatedAt, false)
  }

  /** `page && page > 0 ? page : 1` (the same rule, with 20, for `perPage`). */
  function PositiveOr(o: Option<int>, d: int): (n: int)
    requires d > 0
    ensures n > 0
    ensures o.Some? && o.value > 0 ==> n == o.value
    ensures o.None? || o.value <= 0 ==> n == d
  {
    if o.Some? && o.value > 0 then o.value else d
  }

  /** The inclusive row range `[from, to]` of a page. */
  function RangeOf(page: int, perPage: int): (r: (int, int))
    requires page >= 1 && perPage >= 1
    ensures r.0 >= 0 && r.0 + perPage == page * perPage
    ensures r.0 == PageStart(page, perPage)
    ensures r.1 - r.0 + 1 == perPage
  {
    var from := Listing.Offset(page, perPage);
    (from, from + perPage - 1)
  }

  /** The filtering part of the parameters, normalised: `text` is the trimmed query
      when that is non-empty, `techIds` the id list when it is non-empty. */
  datatype Where = Where(salaryMin: Option<int>, salaryMax: Option<int>, text: Option<string>, techIds: Option<seq<Id>>)

  function QueryText(q: Option<string>): (r: Option<string>)
    ensures r.Some? <==> q.Some? && Trim(q.value) != ""
    ensures r.Some? ==> r.value == Trim(q.value)
  {
    if q.Some? && Trim(q.value) != "" then Some(Trim(q.value)) else None
  }

  function WhereOf(p: Params): (w: Where)
    ensures w.techIds.Some? <==> p.technologyIds.Some? && |p.technologyIds.value| > 0
    ensures w.techIds.Some? ==> w.techIds == p.technologyIds
  {
    Where(p.salaryMin, p.salaryMax, QueryText(p.searchQuery),
          if p.technologyIds.Some? && |p.technologyIds.value| > 0 then p.technologyIds else None)
  }

  /** The filters the query builder adds, joined with AND. With ids, the inner join
      keeps only submissions having a bridge row to one of them. */
  predicate Selects(db: Db, w: Where, s: SubmissionRow) {
    && (w.salaryMin.Some? ==> s.salary >= w.salaryMin.value)
    && (w.salaryMax.Some? ==> s.salary <= w.salaryMax.value)
    && (w.text.Some? ==> ContainsIgnoringCase(s.companyName, w.text.value) || ContainsIgnoringCase(s.position, w.text.value))
    && (w.techIds.Some? ==> Listing.LinkedToAny(db, s.id, w.techIds.value))
  }

  /** The sort key a column order compares. */
  datatype SortKey = SortKey(createdAt: int, salary: int, companyName: string)

  function RowKey(s: SubmissionRow): SortKey {
    SortKey(s.createdAt, s.salary, s.companyName)
  }

  function ItemKey(d: SubmissionDto): SortKey {
    SortKey(d.createdAt, d.salary, d.companyName)
  }

  /** `a` may come before `b` under the order. */
  predicate Precedes(o: OrderSpec, a: SortKey, b: SortKey) {
    match o.column
    case CreatedAt => if o.ascending then a.createdAt <= b.createdAt else a.createdAt >= b.createdAt
    case Salary => if o.ascending then a.salary <= b.salary else a.salary >= b.salary
    case CompanyName => if o.ascending then LexLe(a.companyName, b.companyName) else LexLe(b.companyName, a.companyName)
  }

  function RowOrder(o: OrderSpec): (SubmissionRow, SubmissionRow) -> bool {
    (a: SubmissionRow, b: SubmissionRow) => Precedes(o, RowKey(a), RowKey(b))
  }

  lemma RowOrderTotalPreorder(o: OrderSpec)
    ensures TotalPreorder(RowOrder(o))
  {
    forall a: SubmissionRow, b: SubmissionRow
      ensures RowOrder(o)(a, b) || RowOrder(o)(b, a)
    {
      LexTotal(a.companyName, b.companyName);
    }
    forall a: SubmissionRow, b: SubmissionRow, c: SubmissionRow | RowOrder(o)(a, b) && RowOrder(o)(b, c)
      ensures RowOrder(o)(a, c)
    {
      assert Precedes(o, RowKey(a), RowKey(b)) && Precedes(o, RowKey(b), RowKey(c));
      if o.column != CompanyName {
      } else if o.ascending {
        LexTransitive(a.companyName, b.companyName, c.companyName);
      } else {
        LexTransitive(c.companyName, b.companyName, a.companyName);
      }
    }
  }

  /** The selected submissions in the requested order, before the range applies. */
  function Selected(db: Db, w: Where, o: OrderSpec): (r: seq<SubmissionRow>)
    ensures Sorted(r, RowOrder(o))
    ensures forall i :: 0 <= i < |r| ==> r[i] in db.submissions && Selects(db, w, r[i])
    ensures multiset(r) == multiset(Filter(db.submissions, s => Selects(db, w, s)))
    ensures |r| == |Filter(db.submissions, s => Selects(db, w, s))|
  {
    RowOrderTotalPreorder(o);
    var m := Filter(db.submissions, s => Selects(db, w, s));
    var r := Sort(m, RowOrder(o));
    assert forall i :: 0 <= i < |r| ==> r[i] in m by {
      forall i | 0 <= i < |r|
        ensures r[i] in m
      {
        assert r[i] in multiset(r);
      }
    }
    r
  }

  /** A page of results with its metadata. */
  datatype Page<T> = Page(items: seq<T>, total: nat, page: int, perPage: int, totalPages: int)

  /** The service refuses a range starting beyond the last row, and a filter string
      it cannot read. */
  datatype QueryError = RangeNotSatisfiable | FilterSyntax

  /** The characters that separate and group the conditions of an `or=(…)` filter. */
  predicate IsFilterDelimiter(c: char) {
    c == ',' || c == '(' || c == ')'
  }

  /** The trimmed query holds a delimiter. It is pasted unescaped into
      `company_name.ilike.%q%,position.ilike.%q%`, so the two conditions no longer
      read as written. */
  predicate BreaksOrFilter(q: Option<string>) {
    var t := QueryText(q);
    t.Some? && exists i :: 0 <= i < |t.value| && IsFilterDelimiter(t.value[i])
  }

  lemma DelimiterNotBlank(c: char)
    requires IsFilterDelimiter(c)
    ensures !IsWhitespace(c)
  {
  }

  /** A delimiter of `q` lies inside any slice with only blanks around it. */
  lemma DelimiterInsideSlice(q: string, a: int, b: int, i: int)
    requires 0 <= a <= b <= |q| && BlankOutside(q, a, b)
    requires 0 <= i < |q| && IsFilterDelimiter(q[i])
    ensures a <= i < b && q[a..b][i - a] == q[i]
  {
    DelimiterNotBlank(q[i]);
  }

  /** A delimiter anywhere in the raw query breaks the filter: trimming never
      removes it. */
  lemma DelimiterBreaksOrFilter(q: string, i: int)
    requires 0 <= i < |q| && IsFilterDelimiter(q[i])
    ensures BreaksOrFilter(Some(q))
  {
    var t := Trim(q);
    TrimIsInfix(q);
    var a, b :| 0 <= a <= b <= |q| && t == q[a..b] && BlankOutside(q, a, b);
    DelimiterInsideSlice(q, a, b, i);
    assert t != "" && IsFilterDelimiter(t[i - a]);
  }

  /** A query without delimiters keeps the filter intact. */
  lemma PlainQueryKeepsOrFilter(q: string)
    requires forall i :: 0 <= i < |q| ==> !IsFilterDelimiter(q[i])
    ensures !BreaksOrFilter(Some(q))
  {
    var t := QueryText(Some(q));
    if t.Some? {
      TrimIsInfix(q);
      var a, b :| 0 <= a <= b <= |q| && t.value == q[a..b] && BlankOutside(q, a, b);
      forall i | 0 <= i < |t.value|
        ensures !IsFilterDelimiter(t.value[i])
      {
        assert t.value[i] == q[a + i];
      }
    }
  }

  /** The filter breaks exactly when the raw query holds a delimiter. */
  lemma BreaksOrFilterIff(q: string)
    ensures BreaksOrFilter(Some(q)) <==> exists i :: 0 <= i < |q| && IsFilterDelimiter(q[i])
  {
    if i :| 0 <= i < |q| && IsFilterDelimiter(q[i]) {
      DelimiterBreaksOrFilter(q, i);
    } else {
      PlainQueryKeepsOrFilter(q);
    }
  }

  predicate OutOfRange(from: int, total: nat) {
    from > total
  }

  /** `Math.max(1, Math.ceil(total / perPage))`. */
  function TotalPages(total: nat, perPage: int): (n: int)
    requires perPage >= 1
    ensures n >= 1 && n * perPage >= total
    ensures n == 1 || n * perPage < total + perPage
  {
    Max(1, CeilDiv(total, perPage))
  }

  function ReadFn(db: Db, restrict: Option<seq<Id>>): SubmissionRow -> SubmissionDto {
    s => ReadBack(db, s, restrict)
  }

  function ReadAll(db: Db, rows: seq<SubmissionRow>, restrict: Option<seq<Id>>): (r: seq<SubmissionDto>)
    ensures |r| == |rows|
    ensures forall i :: 0 <= i < |rows| ==> r[i] == ReadBack(db, rows[i], restrict)
  {
    Map(rows, ReadFn(db, restrict))
  }

  /** The rows of one page of a result: `.range(from, to)` asks for the `perPage` rows
      after the earlier pages, fewer at the end and none past it. */
  function PageWindow<T>(rows: seq<T>, page: int, perPage: int): (r: seq<T>)
    requires page >= 1 && perPage >= 1
    ensures r == Window(rows, PageStart(page, perPage), perPage)
    ensures |r| <= perPage
    ensures forall i :: 0 <= i < |r| ==>
      RangeOf(page, perPage).0 + i < |rows| && r[i] == rows[RangeOf(page, perPage).0 + i]
  {
    var (from, to) := RangeOf(page, perPage);
    Window(rows, from, to - from + 1)
  }

  /** The stored rows on the requested page: selected by the filters and in the
      requested order. */
  function FetchedRows(db: Db, p: Params): (r: seq<SubmissionRow>)
    ensures |r| <= PositiveOr(p.perPage, 20)
    ensures forall i :: 0 <= i < |r| ==> r[i] in db.submissions && Selects(db, WhereOf(p), r[i])
    ensures Sorted(r, RowOrder(ChooseOrder(p.sort, p.sortSalary)))
    ensures r == Window(Selected(db, WhereOf(p), ChooseOrder(p.sort, p.sortSalary)),
                        PageStart(PositiveOr(p.page, 1), PositiveOr(p.perPage, 20)), PositiveOr(p.perPage, 20))
  {
    var page := PositiveOr(p.page, 1);
    var perPage := PositiveOr(p.perPage, 20);
    var rows := Selected(db, WhereOf(p), ChooseOrder(p.sort, p.sortSalary));
    var (from, to) := RangeOf(page, perPage);
    WindowSorted(rows, from, to - from + 1, RowOrder(ChooseOrder(p.sort, p.sortSalary)));
    PageWindow(rows, page, perPage)
  }

  /** The number of submissions the filters select. */
  function SelectedCount(db: Db, p: Params): (n: nat)
    ensures n <= |db.submissions|
  {
    |Filter(db.submissions, s => Selects(db, WhereOf(p), s))|
  }

  /** The submissions of the requested page, read back with their technologies. */
  function PageItems(db: Db, p: Params): seq<SubmissionDto> {
    ReadAll(db, FetchedRows(db, p), WhereOf(p).techIds)
  }

  /** `fetchSubmissions`. */
  function FetchSubmissions(db: Db, p: Params): (r: Result<Page<SubmissionDto>, QueryError>)
    ensures r.Success? ==>
      && r.value.page == PositiveOr(p.page, 1) >= 1
      && r.value.perPage == PositiveOr(p.perPage, 20) >= 1
      && r.value.total == SelectedCount(db, p)
      && r.value.totalPages == TotalPages(r.value.total, r.value.perPage)
    ensures r.Failure? <==>
      BreaksOrFilter(p.searchQuery)
      || OutOfRange(RangeOf(PositiveOr(p.page, 1), PositiveOr(p.perPage, 20)).0, SelectedCount(db, p))
    ensures BreaksOrFilter(p.searchQuery) ==> r == Failure(FilterSyntax)
    ensures PositiveOr(p.page, 1) == 1 && !BreaksOrFilter(p.searchQuery) ==> r.Success?
  {
    var page := PositiveOr(p.page, 1);
    var perPage := PositiveOr(p.perPage, 20);
    var total := SelectedCount(db, p);
    if BreaksOrFilter(p.searchQuery) then Failure(FilterSyntax)
    else if OutOfRange(RangeOf(page, perPage).0, total) then Failure(RangeNotSatisfiable)
    else Success(Page(PageItems(db, p), total, page, perPage, TotalPages(total, perPage)))
  }

  /** The page holds at most `perPage` submissions, each a stored row read back. */
  lemma FetchedItems(db: Db, p: Params)
    requires FetchSubmissions(db, p).Success?
    ensures var items := FetchSubmissions(db, p).value.items;
      && |items| <= PositiveOr(p.perPage, 20)
      && |items| == |FetchedRows(db, p)|
      && forall i :: 0 <= i < |items| ==> items[i] == ReadBack(db, FetchedRows(db, p)[i], WhereOf(p).techIds)
  {
  }

  /** Every listed submission meets each supplied filter: salary within the given
      bounds, the trimmed query in its company or position ignoring case, and, with
      technology ids, at least one technology attached and only technologies among
      those ids (the filtered inner join drops the others). */
  lemma FetchedSatisfyFilters(db: Db, p: Params, i: int)
    requires WellFormed(db)
    requires FetchSubmissions(db, p).Success?
    requires 0 <= i < |FetchSubmissions(db, p).value.items|
    ensures var d := FetchSubmissions(db, p).value.items[i];
      && (p.salaryMin.Some? ==> d.salary >= p.salaryMin.value)
      && (p.salaryMax.Some? ==> d.salary <= p.salaryMax.value)
      && (p.searchQuery.Some? && Trim(p.searchQuery.value) != "" ==>
            ContainsIgnoringCase(d.companyName, Trim(p.searchQuery.value))
            || ContainsIgnoringCase(d.position, Trim(p.searchQuery.value)))
      && (p.technologyIds.Some? && |p.technologyIds.value| > 0 ==>
            && d.technologies != []
            && forall t :: t in d.technologies ==> t.id in p.technologyIds.value)
  {
    var w := WhereOf(p);
    var rows := FetchedRows(db, p);
    var s := rows[i];
    var d := FetchSubmissions(db, p).value.items[i];
    FetchedItems(db, p);
    ReadBackFaithful(db, s, w.techIds);
    if w.techIds.Some? {
      var l :| l in db.links && l.submissionId == s.id && l.technologyId in w.techIds.value;
      assert HasTechnology(db, l.technologyId);
      var t :| t in db.technologies && t.id == l.technologyId;
      assert Link(s.id, t.id) == l;
      assert t in d.technologies;
    }
  }

  /** The page lists its submissions in the requested order. */
  lemma FetchedInRequestedOrder(db: Db, p: Params)
    requires FetchSubmissions(db, p).Success?
    ensures var items := FetchSubmissions(db, p).value.items;
      forall i, j :: 0 <= i < j < |items| ==>
        Precedes(ChooseOrder(p.sort, p.sortSalary), ItemKey(items[i]), ItemKey(items[j]))
  {
    var o := ChooseOrder(p.sort, p.sortSalary);
    var rows := FetchedRows(db, p);
    var items := FetchSubmissions(db, p).value.items;
    FetchedItems(db, p);
    forall i, j | 0 <= i < j < |items|
      ensures Precedes(o, ItemKey(items[i]), ItemKey(items[j]))
    {
      assert RowOrder(o)(rows[i], rows[j]);
      assert ItemKey(items[i]) == RowKey(rows[i]) && ItemKey(items[j]) == RowKey(rows[j]);
    }
  }

  /** The count is that of every selected submission, whatever page is asked for. */
  lemma FetchedTotalIgnoresPage(db: Db, p: Params, page: Option<int>)
    requires FetchSubmissions(db, p).Success? && FetchSubmissions(db, p.(page := page)).Success?
    ensures FetchSubmissions(db, p).value.total == FetchSubmissions(db, p.(page := page)).value.total
                                              == |Filter(db.submissions, s => Selects(db, WhereOf(p), s))|
  {
    assert WhereOf(p.(page := page)) == WhereOf(p);
  }

  /** Unlike the backend, the client does not cap the page size. */
  lemma FetchedPageSizeUncapped(db: Db, p: Params)
    requires p.perPage == Some(1000) && p.page.None?
    ensures FetchSubmissions(db, p).Success? <==> !BreaksOrFilter(p.searchQuery)
    ensures FetchSubmissions(db, p).Success? ==> FetchSubmissions(db, p).value.perPage == 1000
  {
  }

  /** The submissions the client lists on page `k` of a query; a refused page lists
      none. */
  ghost function FetchedPage(db: Db, p: Params): nat -> seq<SubmissionDto> {
    k => if k == 0 then [] else
      var r := FetchSubmissions(db, p.(page := Some(k)));
      if r.Success? then r.value.items else []
  }

  /** Page `k` of a query lists the `k`-th window of the selected submissions in the
      requested order, read back; a page past the end lists nothing, and neither does
      a query that breaks the filter string. */
  lemma FetchedPageIsWindow(db: Db, p: Params, k: nat)
    requires k >= 1
    ensures BreaksOrFilter(p.searchQuery) ==> FetchedPage(db, p)(k) == []
    ensures !BreaksOrFilter(p.searchQuery) ==> (FetchedPage(db, p)(k) ==
      Map(Window(Selected(db, WhereOf(p), ChooseOrder(p.sort, p.sortSalary)),
                 PageStart(k, PositiveOr(p.perPage, 20)), PositiveOr(p.perPage, 20)),
          ReadFn(db, WhereOf(p).techIds)))
  {
    var q := p.(page := Some(k));
    assert WhereOf(q) == WhereOf(p);
    var perPage := PositiveOr(p.perPage, 20);
    var rows := Selected(db, WhereOf(p), ChooseOrder(p.sort, p.sortSalary));
    assert FetchedRows(db, q) == Window(rows, PageStart(k, perPage), perPage);
    if FetchSubmissions(db, q).Failure? && !BreaksOrFilter(p.searchQuery) {
      assert PageStart(k, perPage) > |rows|;
    }
  }

  /** Walking pages 1..totalPages lists every selected submission exactly once, in the
      requested order, and the page sizes add up to the total. */
  lemma FetchedPagesCoverSelected(db: Db, p: Params)
    requires FetchSubmissions(db, p).Success?
    ensures var r := FetchSubmissions(db, p).value;
      && Concat(FetchedPage(db, p), r.totalPages) ==
           ReadAll(db, Selected(db, WhereOf(p), ChooseOrder(p.sort, p.sortSalary)), WhereOf(p).techIds)
      && |Concat(FetchedPage(db, p), r.totalPages)| == r.total
  {
    var r := FetchSubmissions(db, p).value;
    var n: nat := r.totalPages;
    var perPage: nat := PositiveOr(p.perPage, 20);
    var rows := Selected(db, WhereOf(p), ChooseOrder(p.sort, p.sortSalary));
    var f := ReadFn(db, WhereOf(p).techIds);
    forall k | 1 <= k <= n
      ensures FetchedPage(db, p)(k) == Map(Window(rows, PageStart(k, perPage), perPage), f)
    {
      FetchedPageIsWindow(db, p, k);
    }
    ConcatOfPages(FetchedPage(db, p), rows, perPage, f, n);
    assert |rows| == r.total;
    PagesCoverFrom(rows, perPage, n);
  }

  // ------------------------------------------------------------ technology query

  datatype TechParams = TechParams(page: Option<int>, perPage: Option<int>, searchQuery: Option<string>)

  /** The query runs only once something has been typed (blanks included). */
  function TechQueryEnabled(p: TechParams): (enabled: bool)
    ensures enabled <==> p.searchQuery.Some? && p.searchQuery.value != ""
  {
    |p.searchQuery.GetOr("")| > 0
  }

  /** `name ILIKE %text%` when there is a trimmed query. */
  predicate TechSelects(text: Option<string>, t: Technology) {
    text.None? || ContainsIgnoringCase(t.name, text.value)
  }

  function TechMatches(db: Db, text: Option<string>): (r: seq<Technology>)
    ensures forall t :: t in r <==> t in db.technologies && TechSelects(text, t)
  {
    Filter(db.technologies, t => TechSelects(text, t))
  }

  /** The matching technologies, ordered by name: the query before the range applies. */
  function TechOrdered(db: Db, text: Option<string>): (r: seq<Technology>)
    ensures Sorted(r, ByName)
    ensures multiset(r) == multiset(TechMatches(db, text))
  {
    ByNameTotalPreorder();
    Sort(TechMatches(db, text), ByName)
  }

  /** The stored technologies on the requested page: matching, ordered by name. */
  function TechRows(db: Db, p: TechParams): (r: seq<Technology>)
    ensures |r| <= PositiveOr(p.perPage, 20)
    ensures forall i :: 0 <= i < |r| ==> r[i] in db.technologies && TechSelects(QueryText(p.searchQuery), r[i])
    ensures Sorted(r, ByName)
    ensures r == Window(TechOrdered(db, QueryText(p.searchQuery)),
                        PageStart(PositiveOr(p.page, 1), PositiveOr(p.perPage, 20)), PositiveOr(p.perPage, 20))
  {
    var m := TechMatches(db, QueryText(p.searchQuery));
    var ordered := TechOrdered(db, QueryText(p.searchQuery));
    var (from, to) := RangeOf(PositiveOr(p.page, 1), PositiveOr(p.perPage, 20));
    WindowSorted(ordered, from, to - from + 1, ByName);
    PermutationMembers(ordered, m);
    PageWindow(ordered, PositiveOr(p.page, 1), PositiveOr(p.perPage, 20))
  }

  /** A technology as the client maps it: a NULL name becomes "". */
  function MapTechnologyRow(t: Technology): Technology {
    MapTechnology(RawTechnology(t.id, Some(t.name), t.createdAt))
  }

  /** The page's rows mapped one by one; a stored name is never NULL, so each comes
      back as stored. */
  function MapTechnologyRows(rows: seq<Technology>): (r: seq<Technology>)
    ensures r == rows
  {
    var r := Map(rows, MapTechnologyRow);
    assert forall i :: 0 <= i < |rows| ==> r[i] == rows[i];
    r
  }

  /** `fetchTechnologies`. */
  function FetchTechnologies(db: Db, p: TechParams): (r: Result<Page<Technology>, QueryError>)
    ensures r.Success? ==>
      && r.value.page == PositiveOr(p.page, 1)
      && r.value.perPage == PositiveOr(p.perPage, 20)
      && r.value.total == |TechMatches(db, QueryText(p.searchQuery))|
      && r.value.totalPages == TotalPages(r.value.total, r.value.perPage)
      && r.value.items == TechRows(db, p)
    ensures r.Failure? <==>
      OutOfRange(RangeOf(PositiveOr(p.page, 1), PositiveOr(p.perPage, 20)).0, |TechMatches(db, QueryText(p.searchQuery))|)
  {
    var page := PositiveOr(p.page, 1);
    var perPage := PositiveOr(p.perPage, 20);
    var total := |TechMatches(db, QueryText(p.searchQuery))|;
    if OutOfRange(RangeOf(page, perPage).0, total) then Failure(RangeNotSatisfiable)
    else Success(Page(MapTechnologyRows(TechRows(db, p)), total, page, perPage, TotalPages(total, perPage)))
  }

  /** Each listed technology is stored, contains the trimmed query ignoring case, and
      the page is ordered by name and no longer than the page size. */
  lemma FetchedTechnologiesMatch(db: Db, p: TechParams)
    requires FetchTechnologies(db, p).Success?
    ensures var items := FetchTechnologies(db, p).value.items;
      && |items| <= PositiveOr(p.perPage, 20)
      && Sorted(items, ByName)
      && forall t :: t in items ==>
           (t in db.technologies &&
            (p.searchQuery.Some? && Trim(p.searchQuery.value) != "" ==> ContainsIgnoringCase(t.name, Trim(p.searchQuery.value))))
  {
    var items := FetchTechnologies(db, p).value.items;
    forall t | t in items
      ensures t in db.technologies
    {
      var i :| 0 <= i < |items| && items[i] == t;
    }
  }

  /** A query of blanks trims to nothing, so it selects no text filter. */
  lemma BlankQueryHasNoText()
    ensures QueryText(Some(" ")) == None
  {
    assert IsWhitespace(" "[0]);
  }

  /** Without a text filter every stored technology matches, in table order. */
  lemma NoTextMatchesAll(db: Db)
    ensures TechMatches(db, None) == db.technologies
  {
    FilterAll(db.technologies, t => TechSelects(None, t));
  }

  /** A query of blanks enables the request but filters nothing: every technology is
      counted. */
  lemma BlankQueryListsAll(db: Db, p: TechParams)
    requires p.searchQuery == Some(" ")
    ensures TechQueryEnabled(p)
    ensures FetchTechnologies(db, p).Success? ==> FetchTechnologies(db, p).value.total == |db.technologies|
  {
    BlankQueryHasNoText();
    NoTextMatchesAll(db);
  }

  /** The technologies the client lists on page `k` of a query; a refused page lists
      none. */
  ghost function FetchedTechPage(db: Db, p: TechParams): nat -> seq<Technology> {
    k => if k == 0 then [] else
      var r := FetchTechnologies(db, p.(page := Some(k)));
      if r.Success? then r.value.items else []
  }

  /** Page `k` lists the `k`-th window of the matching technologies ordered by name; a
      page past the end lists nothing. */
  lemma FetchedTechPageIsWindow(db: Db, p: TechParams, k: nat)
    requires k >= 1
    ensures FetchedTechPage(db, p)(k) ==
      Window(TechOrdered(db, QueryText(p.searchQuery)), PageStart(k, PositiveOr(p.perPage, 20)), PositiveOr(p.perPage, 20))
  {
    var q := p.(page := Some(k));
    var perPage := PositiveOr(p.perPage, 20);
    var ordered := TechOrdered(db, QueryText(p.searchQuery));
    assert TechRows(db, q) == Window(ordered, PageStart(k, perPage), perPage);
    if FetchTechnologies(db, q).Failure? {
      assert PageStart(k, perPage) > |ordered|;
    }
  }

  /** Walking pages 1..totalPages lists every matching technology exactly once, by
      name, and the page sizes add up to the total. */
  lemma FetchedTechPagesCoverMatches(db: Db, p: TechParams)
    requires FetchTechnologies(db, p).Success?
    ensures var r := FetchTechnologies(db, p).value;
      && Concat(FetchedTechPage(db, p), r.totalPages) == TechOrdered(db, QueryText(p.searchQuery))
      && |Concat(FetchedTechPage(db, p), r.totalPages)| == r.total
  {
    var r := FetchTechnologies(db, p).value;
    var n: nat := r.totalPages;
    var perPage: nat := PositiveOr(p.perPage, 20);
    var ordered := TechOrdered(db, QueryText(p.searchQuery));
    forall k | 1 <= k <= n
      ensures FetchedTechPage(db, p)(k) == Window(ordered, PageStart(k, perPage), perPage)
    {
      FetchedTechPageIsWindow(db, p, k);
    }
    ConcatOfWindows(FetchedTechPage(db, p), ordered, perPage, n);
    assert |ordered| == r.total;
    PagesCoverFrom(ordered, perPage, n);
  }
}
