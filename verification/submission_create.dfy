/** The backend `POST /submissions` endpoint: inside one transaction, insert the
    submission, insert one bridge row per technology id, read the technologies back
    ordered by name, and commit; any failure rolls the transaction back. */
module SubmissionCreate {
  import opened Common
  import opened Seqs
  import opened Store

  /** The request body. `technologyIds` is optional because the handler reads it although
      the declared request type does not carry it. */
  datatype CreateRequest = CreateRequest(
    companyName: string,
    companyLink: string,
    position: string,
    salary: int,
    comments: Option<string>,
    benefits: Option<string>,
    technologyIds: Option<seq<Id>>)

  datatype CreateError =
    | TechnologyIdsMissing      // iterating an undefined `technologyIds` throws
    | UnknownTechnology(id: Id) // foreign-key violation on the bridge row
    | DuplicateLink(id: Id)     // primary-key violation on the bridge row

  predicate Distinct(ids: seq<Id>) {
    forall i, j :: 0 <= i < j < |ids| ==> ids[i] != ids[j]
  }

  /** The bridge rows for submission `sid`, one per id, in request order. */
  function LinksFor(sid: Id, ids: seq<Id>): (r: seq<Link>)
    ensures |r| == |ids|
    ensures forall i :: 0 <= i < |ids| ==> r[i] == Link(sid, ids[i])
  {
    if |ids| == 0 then [] else [Link(sid, ids[0])] + LinksFor(sid, ids[1..])
  }

  /** The row the INSERT writes: falsy comments and benefits become NULL. */
  function NewRow(db: Db, req: CreateRequest, userId: string, now: int): SubmissionRow {
    SubmissionRow(db.nextId, req.companyName, req.companyLink, req.position, req.salary,
                  Truthy(req.comments), Truthy(req.benefits), now, userId)
  }

  lemma DistinctCons(ids: seq<Id>)
    requires |ids| > 0
    ensures Distinct(ids) <==> ids[0] !in ids[1..] && Distinct(ids[1..])
  {
    if ids[0] !in ids[1..] && Distinct(ids[1..]) {
      forall i, j | 0 <= i < j < |ids|
        ensures ids[i] != ids[j]
      {
        if i == 0 {
          assert ids[j] == ids[1..][j - 1];
        } else {
          assert ids[i] == ids[1..][i - 1] && ids[j] == ids[1..][j - 1];
        }
      }
    }
    if Distinct(ids) {
      forall i, j | 0 <= i < j < |ids[1..]|
        ensures ids[1..][i] != ids[1..][j]
      {
        assert ids[1..][i] == ids[i + 1] && ids[1..][j] == ids[j + 1];
      }
    }
  }

  /** Every id names an existing technology not yet linked to `sid`, and no id repeats:
      the bridge inserts for `sid` all succeed. */
  predicate CanLink(db: Db, sid: Id, ids: seq<Id>) {
    && (forall i :: 0 <= i < |ids| ==> HasTechnology(db, ids[i]) && Link(sid, ids[i]) !in db.links)
    && Distinct(ids)
  }

  /** After inserting the first bridge row, the remaining ids meet the success
      condition on the grown table exactly when all ids met it on the original one. */
  lemma InsertLinksStep(db: Db, sid: Id, ids: seq<Id>)
    requires |ids| > 0 && HasTechnology(db, ids[0]) && Link(sid, ids[0]) !in db.links
    ensures CanLink(db.(links := db.links + [Link(sid, ids[0])]), sid, ids[1..]) <==> CanLink(db, sid, ids)
  {
    DistinctCons(ids);
    var db1 := db.(links := db.links + [Link(sid, ids[0])]);
    assert forall id :: Link(sid, id) in db1.links <==> Link(sid, id) in db.links || id == ids[0];
    assert forall i :: 0 <= i < |ids[1..]| ==> ids[1..][i] == ids[i + 1];
    if ids[0] in ids[1..] {
      var k :| 0 <= k < |ids[1..]| && ids[1..][k] == ids[0];
      assert Link(sid, ids[1..][k]) in db1.links;
    }
  }

  /** Appending the first id's bridge row and then the rest appends them all. */
  lemma LinksForCons(links: seq<Link>, sid: Id, ids: seq<Id>)
    requires |ids| > 0
    ensures (links + [Link(sid, ids[0])]) + LinksFor(sid, ids[1..]) == links + LinksFor(sid, ids)
  {
    assert LinksFor(sid, ids) == [Link(sid, ids[0])] + LinksFor(sid, ids[1..]);
  }

  /** The loop of bridge-row inserts, one statement per id. */
  function InsertLinks(db: Db, sid: Id, ids: seq<Id>): (r: Result<Db, CreateError>)
    ensures r.Success? <==> CanLink(db, sid, ids)
    ensures r.Success? ==> r.value == db.(links := db.links + LinksFor(sid, ids))
    decreases |ids|
  {
    if |ids| == 0 then
      assert db.links + LinksFor(sid, ids) == db.links;
      Success(db)
    else
      assert !HasTechnology(db, ids[0]) || Link(sid, ids[0]) in db.links ==> !CanLink(db, sid, ids);
      if !HasTechnology(db, ids[0]) then Failure(UnknownTechnology(ids[0]))
      else if Link(sid, ids[0]) in db.links then Failure(DuplicateLink(ids[0]))
      else
        var db1 := db.(links := db.links + [Link(sid, ids[0])]);
        LinksForCons(db.links, sid, ids);
        InsertLinksStep(db, sid, ids);
        InsertLinks(db1, sid, ids[1..])
  }

  /** The handler, returning the store after the call and the outcome. */
  function Create(db: Db, req: CreateRequest, userId: string, now: int): (r: (Db, Result<SubmissionDto, CreateError>))
    ensures r.1.Failure? ==> r.0 == db
    ensures r.1.Failure? <==>
      || req.technologyIds.None?
      || !Distinct(req.technologyIds.value)
      || exists i :: 0 <= i < |req.technologyIds.value| &&
           (!HasTechnology(db, req.technologyIds.value[i]) || Link(db.nextId, req.technologyIds.value[i]) in db.links)
    ensures r.1.Success? ==>
      && r.0.submissions == db.submissions + [NewRow(db, req, userId, now)]
      && r.0.links == db.links + LinksFor(db.nextId, req.technologyIds.value)
      && r.0.technologies == db.technologies
      && r.1.value == Hydrate(r.0, NewRow(db, req, userId, now))
  {
    var row := NewRow(db, req, userId, now);
    var db1 := db.(submissions := db.submissions + [row], nextId := db.nextId + 1);
    if req.technologyIds.None? then (db, Failure(TechnologyIdsMissing))
    else
      match InsertLinks(db1, row.id, req.technologyIds.value)
      case Failure(e) => (db, Failure(e))
      case Success(db2) => (db2, Success(Hydrate(db2, row)))
  }

  /** On a well-formed store, only an absent, repeated or unknown technology id makes
      the call fail; the new submission's id is fresh, so none of its bridge rows
      already exists. */
  lemma CreateFailsIff(db: Db, req: CreateRequest, userId: string, now: int)
    requires WellFormed(db)
    ensures Create(db, req, userId, now).1.Failure? <==>
      || req.technologyIds.None?
      || !Distinct(req.technologyIds.value)
      || exists i :: 0 <= i < |req.technologyIds.value| && !HasTechnology(db, req.technologyIds.value[i])
  {
    FreshIdUnlinked(db);
  }

  /** No bridge row of a well-formed store mentions the next submission id. */
  lemma FreshIdUnlinked(db: Db)
    requires WellFormed(db)
    ensures forall l :: l in db.links ==> l.submissionId != db.nextId
  {
    forall l | l in db.links
      ensures l.submissionId != db.nextId
    {
      assert HasSubmission(db, l.submissionId);
    }
  }

  /** Appending a row with a fresh id keeps submission ids unique. */
  lemma AppendFreshSubmission(db: Db, row: SubmissionRow)
    requires WellFormed(db) && row.id == db.nextId
    ensures SubmissionIdsUnique(db.(submissions := db.submissions + [row]))
  {
    var subs := db.submissions + [row];
    forall i, j | 0 <= i < j < |subs|
      ensures subs[i].id != subs[j].id
    {
      if j == |db.submissions| {
        assert subs[i] in db.submissions;
      } else {
        assert subs[i] == db.submissions[i] && subs[j] == db.submissions[j];
      }
    }
  }

  /** Two repetition-free sequences with no row in common concatenate to a
      repetition-free sequence. */
  lemma AppendDistinctRows(a: seq<Link>, b: seq<Link>)
    requires forall i, j :: 0 <= i < j < |a| ==> a[i] != a[j]
    requires forall i, j :: 0 <= i < j < |b| ==> b[i] != b[j]
    requires forall i, k :: 0 <= i < |a| && 0 <= k < |b| ==> a[i] != b[k]
    ensures forall i, j :: 0 <= i < j < |a + b| ==> (a + b)[i] != (a + b)[j]
  {
    var ab := a + b;
    forall i, j | 0 <= i < j < |ab|
      ensures ab[i] != ab[j]
    {
      if j < |a| {
        assert ab[i] == a[i] && ab[j] == a[j];
      } else if i < |a| {
        assert ab[i] == a[i] && ab[j] == b[j - |a|];
      } else {
        assert ab[i] == b[i - |a|] && ab[j] == b[j - |a|];
      }
    }
  }

  /** Bridge rows for a fresh submission are distinct from the existing ones. */
  lemma AppendFreshLinks(db: Db, ids: seq<Id>)
    requires WellFormed(db) && Distinct(ids)
    ensures var links := db.links + LinksFor(db.nextId, ids);
      forall i, j :: 0 <= i < j < |links| ==> links[i] != links[j]
  {
    FreshIdUnlinked(db);
    var added := LinksFor(db.nextId, ids);
    assert forall i, k :: 0 <= i < |db.links| && 0 <= k < |added| ==> db.links[i] != added[k] by {
      forall i, k | 0 <= i < |db.links| && 0 <= k < |added|
        ensures db.links[i] != added[k]
      {
        assert db.links[i] in db.links;
      }
    }
    AppendDistinctRows(db.links, added);
  }

  /** The store a successful create leaves: one more submission, its bridge rows, and
      the id counter advanced. */
  function Extended(db: Db, row: SubmissionRow, ids: seq<Id>): Db {
    Db(db.submissions + [row], db.technologies, db.links + LinksFor(row.id, ids), db.nextId + 1)
  }

  lemma ExtendedPreservesWellFormed(db: Db, row: SubmissionRow, ids: seq<Id>)
    requires WellFormed(db) && row.id == db.nextId
    requires Distinct(ids) && forall i :: 0 <= i < |ids| ==> HasTechnology(db, ids[i])
    ensures WellFormed(Extended(db, row, ids))
  {
    var db' := Extended(db, row, ids);
    var added := LinksFor(row.id, ids);
    AppendFreshSubmission(db, row);
    AppendFreshLinks(db, ids);
    assert row in db'.submissions;
    forall l | l in db'.links
      ensures HasSubmission(db', l.submissionId) && HasTechnology(db', l.technologyId)
    {
      if l in db.links {
        var s :| s in db.submissions && s.id == l.submissionId;
        assert s in db'.submissions;
      } else {
        var k :| 0 <= k < |added| && added[k] == l;
        assert HasTechnology(db, ids[k]);
      }
    }
  }

  /** A create keeps the schema constraints. */
  lemma CreatePreservesWellFormed(db: Db, req: CreateRequest, userId: string, now: int)
    requires WellFormed(db)
    ensures WellFormed(Create(db, req, userId, now).0)
  {
    var r := Create(db, req, userId, now);
    if r.1.Success? {
      var row := NewRow(db, req, userId, now);
      var ids := req.technologyIds.value;
      assert r.0 == Extended(db, row, ids);
      ExtendedPreservesWellFormed(db, row, ids);
    }
  }

  /** The bridge rows of one submission, as a filter. */
  function OfSubmission(sid: Id): Link -> bool {
    (l: Link) => l.submissionId == sid
  }

  /** Appending the bridge rows of a submission that had none gives it one row per id. */
  lemma LinkCountAppend(links: seq<Link>, sid: Id, ids: seq<Id>)
    requires forall i :: 0 <= i < |links| ==> links[i].submissionId != sid
    ensures |Filter(links + LinksFor(sid, ids), OfSubmission(sid))| == |ids|
  {
    var p := OfSubmission(sid);
    var added := LinksFor(sid, ids);
    FilterAppend(links, added, p);
    assert forall i :: 0 <= i < |added| ==> p(added[i]);
    FilterAll(added, p);
    FilterNone(links, p);
  }

  /** After a create, the new submission has exactly one bridge row per requested id. */
  lemma ExtendedLinkCount(db: Db, row: SubmissionRow, ids: seq<Id>)
    requires WellFormed(db) && row.id == db.nextId
    ensures |Filter(Extended(db, row, ids).links, OfSubmission(row.id))| == |ids|
  {
    FreshIdUnlinked(db);
    assert forall i :: 0 <= i < |db.links| ==> db.links[i].submissionId != row.id by {
      forall i | 0 <= i < |db.links|
        ensures db.links[i].submissionId != row.id
      {
        assert db.links[i] in db.links;
      }
    }
    LinkCountAppend(db.links, row.id, ids);
  }

  /** After a create, the new submission is linked to a technology id exactly when the
      request named it. */
  lemma ExtendedLinkedIff(db: Db, row: SubmissionRow, ids: seq<Id>, x: Id)
    requires WellFormed(db) && row.id == db.nextId
    ensures Link(row.id, x) in Extended(db, row, ids).links <==> x in ids
  {
    var added := LinksFor(row.id, ids);
    FreshIdUnlinked(db);
    if x in ids {
      var k :| 0 <= k < |ids| && ids[k] == x;
      assert added[k] == Link(row.id, x);
    }
    if Link(row.id, x) in added {
      var k :| 0 <= k < |added| && added[k] == Link(row.id, x);
    }
  }

  /** On success the store holds exactly one bridge row per requested technology for
      the new submission, and the response lists exactly those technologies, ordered
      by name. */
  lemma CreateLinksRequestedTechnologies(db: Db, req: CreateRequest, userId: string, now: int)
    requires WellFormed(db)
    requires Create(db, req, userId, now).1.Success?
    ensures var (db', resp) := Create(db, req, userId, now);
      && |Filter(db'.links, OfSubmission(resp.value.id))| == |req.technologyIds.value|
      && Sorted(resp.value.technologies, ByName)
      && forall t :: t in resp.value.technologies <==> t in db.technologies && t.id in req.technologyIds.value
  {
    var (db', resp) := Create(db, req, userId, now);
    var ids := req.technologyIds.value;
    var row := NewRow(db, req, userId, now);
    assert db' == Extended(db, row, ids);
    assert resp.value == Hydrate(db', row);
    ExtendedPreservesWellFormed(db, row, ids);
    ExtendedLinkCount(db, row, ids);
    HydrateFaithful(db', row);
    forall t: Technology
      ensures Link(row.id, t.id) in db'.links <==> t.id in ids
    {
      ExtendedLinkedIff(db, row, ids, t.id);
    }
  }

  // ------------------------------------------------ absent technology ids read as none

  /** The handler with an absent `technologyIds` read as the empty list, so that a
      request of the declared type, which has no such field, stores a submission
      without technologies instead of failing. */
  function CreateWithDefaultIds(db: Db, req: CreateRequest, userId: string, now: int): (r: (Db, Result<SubmissionDto, CreateError>))
    ensures r.1.Failure? ==> r.0 == db
    ensures req.technologyIds.Some? ==> r == Create(db, req, userId, now)
  {
    Create(db, req.(technologyIds := Some(req.technologyIds.GetOr([]))), userId, now)
  }

  /** On a well-formed store a request without ids goes through: the submission is
      stored, no bridge row is added, and it comes back with no technologies. */
  lemma DefaultIdsCreateSucceeds(db: Db, req: CreateRequest, userId: string, now: int)
    requires WellFormed(db) && req.technologyIds.None?
    ensures var r := CreateWithDefaultIds(db, req, userId, now);
      && r.1.Success?
      && r.0.submissions == db.submissions + [NewRow(db, req, userId, now)]
      && r.0.links == db.links
      && r.1.value.technologies == []
  {
    var req' := req.(technologyIds := Some([]));
    var r := Create(db, req', userId, now);
    CreateFailsIff(db, req', userId, now);
    CreatePreservesWellFormed(db, req', userId, now);
    assert NewRow(db, req', userId, now) == NewRow(db, req, userId, now);
    assert r.0.links == db.links by {
      assert LinksFor(db.nextId, []) == [];
    }
    FreshIdUnlinked(db);
    HydrateFaithful(r.0, NewRow(db, req, userId, now));
  }

  /** On a well-formed store the corrected handler fails only on given ids that repeat
      or are unknown. */
  lemma DefaultIdsCreateFailsIff(db: Db, req: CreateRequest, userId: string, now: int)
    requires WellFormed(db)
    ensures CreateWithDefaultIds(db, req, userId, now).1.Failure? <==>
      && req.technologyIds.Some?
      && (|| !Distinct(req.technologyIds.value)
          || exists i :: 0 <= i < |req.technologyIds.value| && !HasTechnology(db, req.technologyIds.value[i]))
  {
    if req.technologyIds.None? {
      DefaultIdsCreateSucceeds(db, req, userId, now);
    } else {
      CreateFailsIff(db, req, userId, now);
    }
  }
}
