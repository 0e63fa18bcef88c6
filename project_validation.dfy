/**
 * Project request validation (apps/validations/project_validation.py). As
 * with tasks, a missing body raises AttributeError.
 */
module ProjectValidation {
  import opened Common
  import opened ValidationRules
  import P = ProjectModel

  const NameRequired := "Project name is required"
  const NameShort := "Project name must be at least 3 characters"
  const NameLong := "Project name must not exceed 100 characters"
  const DescriptionLong := "Project description must not exceed 500 characters"
  const StatusInvalid := "Invalid project status"
  const Valid := "Valid"

  /** The validator's name limit; the column itself is wider. */
  const NameMax := 100
  const DescriptionMax := 500

  /** The strings the validators accept for `status`: the members' upper-case names. */
  const StatusNames := ["PLANNING", "IN_PROGRESS", "ON_HOLD", "COMPLETED", "CANCELLED"]

  /** The lower-case enumeration values, which the validators were evidently meant to accept. */
  const StatusValues := [P.StatusValue(P.Planning), P.StatusValue(P.InProgress), P.StatusValue(P.OnHold),
                         P.StatusValue(P.Completed), P.StatusValue(P.Cancelled)]

  function OptionalFieldsProblem(d: Body, statusNames: seq<string>): Py<Option<string>> {
    match TextProblem(d, "description", DescriptionMax, DescriptionLong)
    case Raise(e) => Raise(e)
    case Ret(Some(m)) => Ret(Some(m))
    case Ret(None) =>
      if EnumProblem(d, "status", statusNames, StatusInvalid).Some? then Ret(Some(StatusInvalid)) else Ret(None)
  }

  function AsVerdict(p: Py<Option<string>>): Py<Verdict> {
    match p
    case Raise(e) => Raise(e)
    case Ret(Some(m)) => Ret(Verdict(false, m))
    case Ret(None) => Ret(Verdict(true, Valid))
  }

  /** `validate_project_creation(data)`, parameterised by the list the status is checked against. */
  function CreationWith(data: Option<Body>, statusNames: seq<string>): Py<Verdict> {
    if data.None? then Raise(AttributeError)
    else
      var d := data.value;
      if !Truthy(Get(d, "name")) then Ret(Verdict(false, NameRequired))
      else match NameProblem(d["name"], NameMax, NameShort, NameLong)
        case Raise(e) => Raise(e)
        case Ret(Some(m)) => Ret(Verdict(false, m))
        case Ret(None) => AsVerdict(OptionalFieldsProblem(d, statusNames))
  }

  /** `validate_project_update(data)`, parameterised like `CreationWith`. */
  function UpdateWith(data: Option<Body>, statusNames: seq<string>): Py<Verdict> {
    if data.None? then Raise(AttributeError)
    else
      var d := data.value;
      var name := if Truthy(Get(d, "name")) then NameProblem(d["name"], NameMax, NameShort, NameLong) else Ret(None);
      match name
      case Raise(e) => Raise(e)
      case Ret(Some(m)) => Ret(Verdict(false, m))
      case Ret(None) => AsVerdict(OptionalFieldsProblem(d, statusNames))
  }

  /** `validate_project_creation(data)` as written. */
  function ValidateProjectCreation(data: Option<Body>): (r: Py<Verdict>)
    ensures r == Ret(Verdict(true, Valid)) <==>
      && data.Some?
      && "name" in data.value && data.value["name"].Str?
      && 3 <= |Strip(data.value["name"].s)| && |data.value["name"].s| <= NameMax
      && OptionalFieldsOk(data.value, StatusNames)
    ensures data.None? ==> r == Raise(AttributeError)
  {
    CreationAccepted(data, StatusNames);
    CreationWith(data, StatusNames)
  }

  /** `validate_project_update(data)` as written. */
  function ValidateProjectUpdate(data: Option<Body>): (r: Py<Verdict>)
    ensures r == Ret(Verdict(true, Valid)) <==>
      && data.Some?
      && (Truthy(Get(data.value, "name")) ==>
            data.value["name"].Str? && 3 <= |Strip(data.value["name"].s)| && |data.value["name"].s| <= NameMax)
      && OptionalFieldsOk(data.value, StatusNames)
    ensures data.None? ==> r == Raise(AttributeError)
  {
    UpdateAccepted(data, StatusNames);
    UpdateWith(data, StatusNames)
  }

  /** The intended update validator, checking the status against the enumeration values. */
  function ValidateProjectUpdateIntended(data: Option<Body>): Py<Verdict> {
    UpdateWith(data, StatusValues)
  }

  // ------------------------------------------------------------ properties

  predicate OptionalFieldsOk(d: Body, statusNames: seq<string>) {
    && (Truthy(Get(d, "description")) ==> Len(d["description"]).Ret? && Len(d["description"]).value <= DescriptionMax)
    && (Truthy(Get(d, "status")) ==> d["status"].Str? && d["status"].s in statusNames)
  }

  /**
   * A creation request is accepted exactly when the body exists, its name is
   * a string of at least 3 characters once stripped and at most 100 raw, and
   * the description and status pass.
   */
  lemma CreationAccepted(data: Option<Body>, statusNames: seq<string>)
    ensures CreationWith(data, statusNames) == Ret(Verdict(true, Valid)) <==>
      && data.Some?
      && "name" in data.value && data.value["name"].Str?
      && 3 <= |Strip(data.value["name"].s)| && |data.value["name"].s| <= NameMax
      && OptionalFieldsOk(data.value, statusNames)
    ensures data.None? ==> CreationWith(data, statusNames) == Raise(AttributeError)
  {
  }

  /** An update request is accepted exactly when a truthy name passes the name rules and the optional fields pass. */
  lemma UpdateAccepted(data: Option<Body>, statusNames: seq<string>)
    ensures UpdateWith(data, statusNames) == Ret(Verdict(true, Valid)) <==>
      && data.Some?
      && (Truthy(Get(data.value, "name")) ==>
            data.value["name"].Str? && 3 <= |Strip(data.value["name"].s)| && |data.value["name"].s| <= NameMax)
      && OptionalFieldsOk(data.value, statusNames)
    ensures UpdateWith(Some(map[]), statusNames) == Ret(Verdict(true, Valid))
  {
  }

  /**
   * As written, a status the update validator lets through is never one
   * `ProjectStatus(...)` accepts.
   */
  lemma AcceptedStatusNeverParses(data: Option<Body>)
    requires ValidateProjectUpdate(data) == Ret(Verdict(true, Valid))
    ensures "status" in data.value ==> P.ParseStatus(data.value["status"]).None?
  {
    UpdateAccepted(data, StatusNames);
  }

  /** With the intended list, an accepted truthy status is always a `ProjectStatus` value. */
  lemma IntendedStatusParses(data: Option<Body>)
    requires ValidateProjectUpdateIntended(data) == Ret(Verdict(true, Valid))
    ensures Truthy(Get(data.value, "status")) ==> P.ParseStatus(data.value["status"]).Some?
  {
    UpdateAccepted(data, StatusValues);
  }
}
