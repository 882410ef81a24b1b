/** The submission form, in its two versions: the one that writes through the
    database client (with a technology picker and a salary in cents) and the one that
    calls the backend's create endpoint. Both keep the field values in one record,
    check the required fields on submit and turn empty optional texts into "absent". */
module SubmissionForm {
  import opened Common
  import opened Store
  import opened SubmissionCreate
  import ClientQueries
  import TechPicker
  import Currency

  /** The form's field values; `salary` is the number typed in the salary box. */
  datatype FormData = FormData(
    companyName: string,
    companyLink: string,
    position: string,
    salary: int,
    comments: string,
    benefits: string)

  /** The text inputs: every field but the salary. */
  datatype TextField = CompanyName | CompanyLink | Position | Comments | Benefits

  function Blank(): FormData {
    FormData("", "", "", 0, "", "")
  }

  function FieldValue(f: FormData, field: TextField): string {
    match field
    case CompanyName => f.companyName
    case CompanyLink => f.companyLink
    case Position => f.position
    case Comments => f.comments
    case Benefits => f.benefits
  }

  /** `handleInputChange` for a text input: that field takes the new text, nothing else
      changes. */
  function SetText(f: FormData, field: TextField, v: string): (r: FormData)
    ensures FieldValue(r, field) == v
    ensures forall g :: g != field ==> FieldValue(r, g) == FieldValue(f, g)
    ensures r.salary == f.salary
  {
    match field
    case CompanyName => f.(companyName := v)
    case CompanyLink => f.(companyLink := v)
    case Position => f.(position := v)
    case Comments => f.(comments := v)
    case Benefits => f.(benefits := v)
  }

  /** The salary box's change handler, `parseFloat(text) || 0`: `parsed` is the number
      read from the text, None when it is not a number; that and zero both store 0. */
  function SetSalary(f: FormData, parsed: Option<int>): (r: FormData)
    ensures parsed.Some? ==> r.salary == parsed.value
    ensures parsed.None? ==> r.salary == 0
    ensures forall g :: FieldValue(r, g) == FieldValue(f, g)
  {
    f.(salary := parsed.GetOr(0))
  }

  /** The submit handler's check: the three required texts are non-empty and the
      salary is not zero. */
  predicate RequiredFilled(f: FormData) {
    f.companyName != "" && f.companyLink != "" && f.position != "" && f.salary != 0
  }

  /** `formData.comments || undefined`. */
  function OrAbsent(s: string): (r: Option<string>)
    ensures r.None? <==> s == ""
    ensures r.Some? ==> r.value == s
  {
    Truthy(Some(s))
  }

  /** The client form's request as the code builds it: the typed salary goes out
      unchanged as the amount in cents. None is the "required fields" message. */
  function SubmitAsWritten(f: FormData, selected: seq<Technology>): (r: Option<CreateRequest>)
    ensures r.None? <==> !RequiredFilled(f)
    ensures r.Some? ==>
      && r.value.companyName == f.companyName
      && r.value.companyLink == f.companyLink
      && r.value.position == f.position
      && r.value.comments == OrAbsent(f.comments)
      && r.value.benefits == OrAbsent(f.benefits)
      && r.value.technologyIds == Some(IdsOf(selected))
    ensures r.Some? ==> r.value.salary == f.salary
  {
    if RequiredFilled(f) then
      Some(CreateRequest(f.companyName, f.companyLink, f.position, f.salary,
                         OrAbsent(f.comments), OrAbsent(f.benefits), Some(IdsOf(selected))))
    else None
  }

  /** The client form's request with the typed dollar amount converted to cents; all
      other fields are as in `SubmitAsWritten`. */
  function Submit(f: FormData, selected: seq<Technology>): (r: Option<CreateRequest>)
    ensures r.None? <==> !RequiredFilled(f)
    ensures r.Some? ==>
      && r.value.companyName == f.companyName
      && r.value.companyLink == f.companyLink
      && r.value.position == f.position
      && r.value.comments == OrAbsent(f.comments)
      && r.value.benefits == OrAbsent(f.benefits)
      && r.value.technologyIds == Some(IdsOf(selected))
    ensures r.Some? ==> r.value.salary / 100 == f.salary && r.value.salary % 100 == 0
  {
    if RequiredFilled(f) then
      Some(CreateRequest(f.companyName, f.companyLink, f.position, f.salary * 100,
                         OrAbsent(f.comments), OrAbsent(f.benefits), Some(IdsOf(selected))))
    else None
  }

  /** The backend form's request: the form record spread as is, with empty optional
      texts made absent; it has no technology ids. */
  function SubmitToBackend(f: FormData): (r: Option<CreateRequest>)
    ensures r.None? <==> !RequiredFilled(f)
    ensures r.Some? ==>
      && r.value.companyName == f.companyName
      && r.value.companyLink == f.companyLink
      && r.value.position == f.position
      && r.value.salary == f.salary
      && r.value.comments == OrAbsent(f.comments)
      && r.value.benefits == OrAbsent(f.benefits)
      && r.value.technologyIds.None?
  {
    if RequiredFilled(f) then
      Some(CreateRequest(f.companyName, f.companyLink, f.position, f.salary,
                         OrAbsent(f.comments), OrAbsent(f.benefits), None))
    else None
  }

  // ------------------------------------------------------------------ properties

  /** A fresh form cannot be submitted, and neither can one whose salary text did not
      parse, whatever else was typed. */
  lemma UnparsedSalaryBlocksSubmit(f: FormData, selected: seq<Technology>)
    ensures Submit(Blank(), selected).None?
    ensures Submit(SetSalary(f, None), selected).None?
    ensures SubmitToBackend(SetSalary(f, None)).None?
  {
  }

  /** Filling the three required texts and a non-zero salary, in any order, makes the
      form submittable. */
  lemma FilledFormSubmits(f: FormData, name: string, link: string, position: string, salary: int)
    requires name != "" && link != "" && position != "" && salary != 0
    ensures var g := SetSalary(SetText(SetText(SetText(f, CompanyName, name), CompanyLink, link), Position, position), Some(salary));
      Submit(g, []).Some? && SubmitToBackend(g).Some?
  {
  }

  /** Every request the backend form sends is refused by the create endpoint, which
      then leaves the store as it was. */
  lemma BackendFormAlwaysRejected(db: Db, f: FormData, userId: string, now: int)
    requires RequiredFilled(f)
    ensures var r := Create(db, SubmitToBackend(f).value, userId, now);
      r.1 == Failure(TechnologyIdsMissing) && r.0 == db
  {
  }

  /** With absent ids read as none, every request the backend form sends is stored on
      a well-formed store. */
  lemma BackendFormAcceptedWithDefaultIds(db: Db, f: FormData, userId: string, now: int)
    requires WellFormed(db) && RequiredFilled(f)
    ensures var r := CreateWithDefaultIds(db, SubmitToBackend(f).value, userId, now);
      r.1.Success? && r.0.links == db.links
  {
    DefaultIdsCreateSucceeds(db, SubmitToBackend(f).value, userId, now);
  }

  /** A selection built with the picker (no repeats, every entry stored) goes through:
      the client insert writes the submission and one bridge row per technology. */
  lemma PickedTechnologiesInsert(db: Db, f: FormData, picker: TechPicker.Picker, owner: string, now: int)
    requires WellFormed(db) && RequiredFilled(f)
    requires TechPicker.DistinctIds(picker.selected)
    requires forall i :: 0 <= i < |picker.selected| ==> picker.selected[i] in db.technologies
    ensures var req := Submit(f, picker.selected).value;
      var r := ClientQueries.InsertSubmission(db, req, owner, now);
      && r.1.Success?
      && r.0.links == db.links + LinksFor(db.nextId, IdsOf(picker.selected))
  {
    var ids := IdsOf(picker.selected);
    var req := Submit(f, picker.selected).value;
    assert Distinct(ids);
    forall i | 0 <= i < |ids|
      ensures HasTechnology(db, ids[i])
    {
      assert picker.selected[i] in db.technologies && picker.selected[i].id == ids[i];
    }
    ClientQueries.InsertSucceedsIff(db, req, owner, now);
  }

  /** The code as written stores the typed dollars as cents: a salary typed as 8500
      is stored as 8500 cents, which the currency display shows as 85 dollars. */
  lemma TypedDollarsStoredAsCents(f: FormData)
    requires RequiredFilled(f) && f.salary == 8500
    ensures var cents := SubmitAsWritten(f, []).value.salary;
      cents == 8500 && cents / 100 == 85 && cents / 100 != f.salary
  {
  }

  /** With the conversion, the stored amount shows the typed dollars and zero cents. */
  lemma SubmitShowsTypedDollars(f: FormData)
    requires RequiredFilled(f) && f.salary > 0
    ensures var cents := Submit(f, []).value.salary;
      cents > 0 &&
      Text.DigitsOf(Currency.FormatToCurrency(cents)) == Currency.Decimal(f.salary) + "00"
  {
    var cents := Submit(f, []).value.salary;
    Currency.FormatDigits(cents);
    assert cents / 100 == f.salary && cents % 100 == 0;
    assert Currency.TwoDigits(0) == "00";
  }
}
