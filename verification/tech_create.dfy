/** The backend `POST /technologies` endpoint: a case-insensitive existence check on the
    name as given, then an insert of the trimmed name. */
module TechCreate {
  import opened Common
  import opened Text
  import opened Store

  datatype CreateTechnologyError = AlreadyExists

  /** `SELECT … WHERE LOWER(name) = name.toLowerCase()` finds a row. */
  predicate NameTaken(db: Db, name: string) {
    exists t :: t in db.technologies && Lower(t.name) == Lower(name)
  }

  /** No two technologies share a name up to case. */
  predicate NamesUnique(db: Db) {
    forall i, j :: 0 <= i < j < |db.technologies| ==>
      Lower(db.technologies[i].name) != Lower(db.technologies[j].name)
  }

  /** The handler, returning the store after the call and the outcome. */
  function CreateTechnology(db: Db, name: string, now: int): (r: (Db, Result<Technology, CreateTechnologyError>))
    ensures r.1.Failure? <==> exists t :: t in db.technologies && Lower(t.name) == Lower(name)
    ensures r.1.Failure? ==> r.0 == db
    ensures r.1.Success? ==>
      && r.1.value.name == Trim(name)
      && r.1.value.createdAt == now
      && r.0.technologies == db.technologies + [r.1.value]
      && (WellFormed(db) ==> forall t :: t in db.technologies ==> t.id != r.1.value.id)
      && r.0.submissions == db.submissions
      && r.0.links == db.links
  {
    if NameTaken(db, name) then (db, Failure(AlreadyExists))
    else
      var t := Technology(db.nextId, Trim(name), now);
      assert WellFormed(db) ==> forall u :: u in db.technologies ==> u.id != t.id;
      (db.(technologies := db.technologies + [t], nextId := db.nextId + 1), Success(t))
  }

  /** Creating a technology keeps the schema constraints. */
  lemma CreatePreservesWellFormed(db: Db, name: string, now: int)
    requires WellFormed(db)
    ensures WellFormed(CreateTechnology(db, name, now).0)
  {
    var r := CreateTechnology(db, name, now);
    if r.1.Success? {
      var db' := r.0;
      var t := r.1.value;
      assert t.id == db.nextId && db'.nextId == db.nextId + 1;
      assert TechnologyIdsUnique(db') by {
        forall i, j | 0 <= i < j < |db'.technologies|
          ensures db'.technologies[i].id != db'.technologies[j].id
        {
          assert db'.technologies[i] in db.technologies;
        }
      }
      assert forall u :: u in db'.technologies ==> u.id < db'.nextId;
      forall l | l in db'.links
        ensures HasSubmission(db', l.submissionId) && HasTechnology(db', l.technologyId)
      {
        var t :| t in db.technologies && t.id == l.technologyId;
        assert t in db'.technologies;
      }
    }
  }

  /** For a name that is already trimmed, creation keeps names unique up to case. */
  lemma TrimmedCreateKeepsNamesUnique(db: Db, name: string, now: int)
    requires NamesUnique(db)
    requires Trim(name) == name
    ensures NamesUnique(CreateTechnology(db, name, now).0)
  {
    var r := CreateTechnology(db, name, now);
    if r.1.Success? {
      var ts := r.0.technologies;
      forall i, j | 0 <= i < j < |ts|
        ensures Lower(ts[i].name) != Lower(ts[j].name)
      {
        if j == |ts| - 1 {
          assert ts[i] in db.technologies;
        }
      }
    }
  }

  /** Creating the same already-trimmed name twice: the second call fails. */
  lemma CreateTwiceFails(db: Db, name: string, now: int, later: int)
    requires Trim(name) == name
    requires CreateTechnology(db, name, now).1.Success?
    ensures CreateTechnology(CreateTechnology(db, name, now).0, name, later).1 == Failure(AlreadyExists)
  {
    var r := CreateTechnology(db, name, now);
    assert r.1.value in r.0.technologies;
  }

  lemma TrimLeadingBlank()
    ensures Trim(" Go") == "Go"
  {
    assert IsWhitespace(' ') && !IsWhitespace('G') && !IsWhitespace('o');
    assert " Go"[1..] == "Go";
    assert TrimStart(" Go") == "Go";
    assert TrimEnd("Go") == "Go";
  }

  lemma LowerSamples()
    ensures Lower(" Go") == " go" && Lower("Go") == "go" && Lower("go") == "go"
  {
  }

  /** The check compares the untrimmed name while the insert trims it, so a name with
      surrounding blanks slips past an existing technology of the same name. */
  lemma UntrimmedNameDuplicates()
    ensures var db := Db([], [Technology(0, "go", 0)], [], 1);
      var r := CreateTechnology(db, " Go", 5);
      && r.1 == Success(Technology(1, "Go", 5))
      && NamesUnique(db)
      && !NamesUnique(r.0)
  {
    var db := Db([], [Technology(0, "go", 0)], [], 1);
    LowerSamples();
    TrimLeadingBlank();
    assert !NameTaken(db, " Go") by {
      assert |Lower(" Go")| != |Lower("go")|;
    }
    var r := CreateTechnology(db, " Go", 5);
    assert r.1 == Success(Technology(1, "Go", 5));
    assert r.0.technologies == [Technology(0, "go", 0), Technology(1, "Go", 5)];
    assert Lower(r.0.technologies[0].name) == Lower(r.0.technologies[1].name);
  }
}
