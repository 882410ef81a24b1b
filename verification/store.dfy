/** The relational store: the `submissions`, `technologies` and `submission_technologies`
    tables as sequences of rows, and the hydration of a submission row into the
    submission returned to clients. */
module Store {
  import opened Common
  import opened Seqs
  import opened Text

  datatype Technology = Technology(id: Id, name: string, createdAt: int)

  /** A row of `submissions`; `comments`/`benefits` are nullable columns. */
  datatype SubmissionRow = SubmissionRow(
    id: Id,
    companyName: string,
    companyLink: string,
    position: string,
    salary: int,
    comments: Option<string>,
    benefits: Option<string>,
    createdAt: int,
    userId: string)

  /** A row of the bridge table `submission_technologies`. */
  datatype Link = Link(submissionId: Id, technologyId: Id)

  /** The database; `nextId` is the next identifier the store hands out. */
  datatype Db = Db(
    submissions: seq<SubmissionRow>,
    technologies: seq<Technology>,
    links: seq<Link>,
    nextId: Id)

  /** The submission as the API returns it: nullable text becomes optional and the
      linked technologies are attached. */
  datatype SubmissionDto = SubmissionDto(
    id: Id,
    companyName: string,
    companyLink: string,
    position: string,
    salary: int,
    comments: Option<string>,
    benefits: Option<string>,
    technologies: seq<Technology>,
    createdAt: int)

  predicate HasSubmission(db: Db, id: Id) {
    exists s :: s in db.submissions && s.id == id
  }

  predicate HasTechnology(db: Db, id: Id) {
    exists t :: t in db.technologies && t.id == id
  }

  predicate TechnologyIdsUnique(db: Db) {
    forall i, j :: 0 <= i < j < |db.technologies| ==> db.technologies[i].id != db.technologies[j].id
  }

  predicate SubmissionIdsUnique(db: Db) {
    forall i, j :: 0 <= i < j < |db.submissions| ==> db.submissions[i].id != db.submissions[j].id
  }

  /** The constraints of the schema: primary keys are unique and below the id
      counter, bridge rows reference existing rows (foreign keys) and are themselves
      unique (composite primary key). */
  predicate WellFormed(db: Db) {
    && SubmissionIdsUnique(db)
    && TechnologyIdsUnique(db)
    && (forall s :: s in db.submissions ==> s.id < db.nextId)
    && (forall t :: t in db.technologies ==> t.id < db.nextId)
    && (forall l :: l in db.links ==> HasSubmission(db, l.submissionId) && HasTechnology(db, l.technologyId))
    && (forall i, j :: 0 <= i < j < |db.links| ==> db.links[i] != db.links[j])
  }

  /** The empty database. */
  function Empty(): (db: Db)
    ensures WellFormed(db)
  {
    Db([], [], [], 0)
  }

  /** The technology row with the given id, as a join on `technologies.id` finds it. */
  function FindTechnology(db: Db, id: Id): (r: Option<Technology>)
    ensures r.Some? ==> r.value in db.technologies && r.value.id == id
    ensures r.None? <==> !HasTechnology(db, id)
    ensures TechnologyIdsUnique(db) ==> forall t :: t in db.technologies && t.id == id ==> r == Some(t)
  {
    FindIn(db.technologies, id)
  }

  function FindIn(ts: seq<Technology>, id: Id): (r: Option<Technology>)
    ensures r.Some? ==> r.value in ts && r.value.id == id
    ensures r.None? <==> forall t :: t in ts ==> t.id != id
  {
    if |ts| == 0 then None
    else if ts[0].id == id then Some(ts[0])
    else
      FindIn(ts[1..], id)
  }

  /** The technologies that bridge rows in `links` attach to submission `sid`, in
      bridge-table order (`JOIN technologies t ON st.technology_id = t.id`). */
  function LinkedVia(db: Db, links: seq<Link>, sid: Id): (r: seq<Technology>)
    ensures forall t :: t in r ==> t in db.technologies && Link(sid, t.id) in links
    ensures TechnologyIdsUnique(db) ==>
      forall t :: t in db.technologies && Link(sid, t.id) in links ==> t in r
    ensures |r| <= |links|
    ensures (forall l :: l in links ==> l.submissionId != sid) ==> r == []
  {
    if |links| == 0 then []
    else
      var rest := LinkedVia(db, links[1..], sid);
      assert links == [links[0]] + links[1..];
      if links[0].submissionId == sid then
        match FindTechnology(db, links[0].technologyId)
        case Some(t) => [t] + rest
        case None => rest
      else rest
  }

  function LinkedTechnologies(db: Db, sid: Id): (r: seq<Technology>)
    ensures forall t :: t in r ==> t in db.technologies && Link(sid, t.id) in db.links
    ensures TechnologyIdsUnique(db) ==>
      forall t :: t in db.technologies && Link(sid, t.id) in db.links ==> t in r
    ensures (forall l :: l in db.links ==> l.submissionId != sid) ==> r == []
  {
    LinkedVia(db, db.links, sid)
  }

  /** `ORDER BY t.name`. */
  predicate ByName(a: Technology, b: Technology) {
    LexLe(a.name, b.name)
  }

  lemma ByNameTotalPreorder()
    ensures TotalPreorder(ByName)
  {
    forall a: Technology, b: Technology
      ensures ByName(a, b) || ByName(b, a)
    {
      LexTotal(a.name, b.name);
    }
    forall a: Technology, b: Technology, c: Technology | ByName(a, b) && ByName(b, c)
      ensures ByName(a, c)
    {
      LexTransitive(a.name, b.name, c.name);
    }
  }

  /** `x || undefined` on a nullable text column: both NULL and "" read as absent. */
  function Truthy(o: Option<string>): (r: Option<string>)
    ensures r.None? <==> (o.None? || o.value == "")
    ensures r.Some? ==> r == o
  {
    if o.Some? && o.value != "" then o else None
  }

  /** `technologies.map((t) => t.id)`. */
  function IdsOf(ts: seq<Technology>): (r: seq<Id>)
    ensures |r| == |ts|
    ensures forall i :: 0 <= i < |ts| ==> r[i] == ts[i].id
  {
    seq(|ts|, i requires 0 <= i < |ts| => ts[i].id)
  }

  /** Technologies of one submission, ordered by name. */
  function TechnologiesOf(db: Db, sid: Id): (r: seq<Technology>)
    ensures Sorted(r, ByName)
    ensures multiset(r) == multiset(LinkedTechnologies(db, sid))
  {
    ByNameTotalPreorder();
    Sort(LinkedTechnologies(db, sid), ByName)
  }

  /** A submission row with its technologies, as both the list and the create
      endpoints return it. */
  function Hydrate(db: Db, s: SubmissionRow): (d: SubmissionDto)
    ensures (d.id, d.companyName, d.companyLink, d.position, d.salary, d.createdAt)
         == (s.id, s.companyName, s.companyLink, s.position, s.salary, s.createdAt)
    ensures d.comments.None? <==> s.comments.None? || s.comments.value == ""
    ensures d.comments.Some? ==> d.comments == s.comments
    ensures d.benefits.None? <==> s.benefits.None? || s.benefits.value == ""
    ensures d.benefits.Some? ==> d.benefits == s.benefits
    ensures Sorted(d.technologies, ByName)
    ensures multiset(d.technologies) == multiset(LinkedTechnologies(db, s.id))
  {
    SubmissionDto(s.id, s.companyName, s.companyLink, s.position, s.salary,
                  Truthy(s.comments), Truthy(s.benefits), TechnologiesOf(db, s.id), s.createdAt)
  }

  /** A hydrated submission carries exactly the technologies its bridge rows link to,
      ordered by name (none when it has no bridge rows), and reads NULL or empty
      comments and benefits as absent. */
  lemma HydrateFaithful(db: Db, s: SubmissionRow)
    requires WellFormed(db)
    ensures var d := Hydrate(db, s);
      && Sorted(d.technologies, ByName)
      && (forall t :: t in d.technologies <==> t in db.technologies && Link(s.id, t.id) in db.links)
      && ((forall l :: l in db.links ==> l.submissionId != s.id) ==> d.technologies == [])
      && (d.comments.None? <==> s.comments.None? || s.comments.value == "")
      && (d.benefits.None? <==> s.benefits.None? || s.benefits.value == "")
      && (d.comments.Some? ==> d.comments == s.comments)
      && (d.benefits.Some? ==> d.benefits == s.benefits)
      && (d.companyName, d.companyLink, d.position) == (s.companyName, s.companyLink, s.position)
      && (d.id, d.salary, d.createdAt) == (s.id, s.salary, s.createdAt)
  {
    var d := Hydrate(db, s);
    var linked := LinkedTechnologies(db, s.id);
    forall t
      ensures t in d.technologies <==> t in linked
    {
      assert t in d.technologies <==> t in multiset(d.technologies);
    }
    if forall l :: l in db.links ==> l.submissionId != s.id {
      assert multiset(d.technologies) == multiset(linked) == multiset{};
    }
  }
}
