/**
 * Task request validation (apps/validations/task_validation.py). The
 * validators take the raw request body; a missing body (`None`) has no
 * `get` and raises AttributeError.
 */
module TaskValidation {
  import opened Common
  import opened ValidationRules
  import T = TaskModel

  const TitleRequired := "Task title is required"
  const TitleShort := "Task title must be at least 3 characters"
  const TitleLong := "Task title must not exceed 200 characters"
  const ProjectRequired := "Project ID is required"
  const DescriptionLong := "Task description must not exceed 1000 characters"
  const StatusInvalid := "Invalid task status"
  const PriorityInvalid := "Invalid task priority"
  const Valid := "Valid"

  const TitleMax := 200
  const DescriptionMax := 1000

  /** The strings the validators accept for `status` and `priority`: the members' upper-case names. */
  const StatusNames := ["TODO", "IN_PROGRESS", "IN_REVIEW", "DONE"]
  const PriorityNames := ["LOW", "MEDIUM", "HIGH", "URGENT"]

  /** The description, status and priority rules shared by creation and update. */
  function OptionalFieldsProblem(d: Body, statusNames: seq<string>, priorityNames: seq<string>): Py<Option<string>> {
    match TextProblem(d, "description", DescriptionMax, DescriptionLong)
    case Raise(e) => Raise(e)
    case Ret(Some(m)) => Ret(Some(m))
    case Ret(None) =>
      if EnumProblem(d, "status", statusNames, StatusInvalid).Some? then Ret(Some(StatusInvalid))
      else if EnumProblem(d, "priority", priorityNames, PriorityInvalid).Some? then Ret(Some(PriorityInvalid))
      else Ret(None)
  }

  function AsVerdict(p: Py<Option<string>>): Py<Verdict> {
    match p
    case Raise(e) => Raise(e)
    case Ret(Some(m)) => Ret(Verdict(false, m))
    case Ret(None) => Ret(Verdict(true, Valid))
  }

  /** `validate_task_creation(data)`, parameterised by the lists the status and priority are checked against. */
  function CreationWith(data: Option<Body>, statusNames: seq<string>, priorityNames: seq<string>): Py<Verdict> {
    if data.None? then Raise(AttributeError)
    else
      var d := data.value;
      if !Truthy(Get(d, "title")) then Ret(Verdict(false, TitleRequired))
      else match NameProblem(d["title"], TitleMax, TitleShort, TitleLong)
        case Raise(e) => Raise(e)
        case Ret(Some(m)) => Ret(Verdict(false, m))
        case Ret(None) =>
          if !Truthy(Get(d, "project_id")) then Ret(Verdict(false, ProjectRequired))
          else AsVerdict(OptionalFieldsProblem(d, statusNames, priorityNames))
  }

  /** `validate_task_update(data)`, parameterised like `CreationWith`. */
  function UpdateWith(data: Option<Body>, statusNames: seq<string>, priorityNames: seq<string>): Py<Verdict> {
    if data.None? then Raise(AttributeError)
    else
      var d := data.value;
      var title := if Truthy(Get(d, "title")) then NameProblem(d["title"], TitleMax, TitleShort, TitleLong) else Ret(None);
      match title
      case Raise(e) => Raise(e)
      case Ret(Some(m)) => Ret(Verdict(false, m))
      case Ret(None) => AsVerdict(OptionalFieldsProblem(d, statusNames, priorityNames))
  }

  /** `validate_task_creation(data)` as written: upper-case names. */
  function ValidateTaskCreation(data: Option<Body>): (r: Py<Verdict>)
    ensures r == Ret(Verdict(true, Valid)) <==>
      && data.Some?
      && "title" in data.value && data.value["title"].Str?
      && 3 <= |Strip(data.value["title"].s)| && |data.value["title"].s| <= TitleMax
      && Truthy(Get(data.value, "project_id"))
      && OptionalFieldsOk(data.value, StatusNames, PriorityNames)
    ensures data.None? ==> r == Raise(AttributeError)
  {
    CreationAccepted(data, StatusNames, PriorityNames);
    CreationWith(data, StatusNames, PriorityNames)
  }

  /** `validate_task_update(data)` as written: upper-case names. */
  function ValidateTaskUpdate(data: Option<Body>): (r: Py<Verdict>)
    ensures r == Ret(Verdict(true, Valid)) <==>
      && data.Some?
      && (Truthy(Get(data.value, "title")) ==>
            data.value["title"].Str? && 3 <= |Strip(data.value["title"].s)| && |data.value["title"].s| <= TitleMax)
      && OptionalFieldsOk(data.value, StatusNames, PriorityNames)
    ensures data.None? ==> r == Raise(AttributeError)
  {
    UpdateAccepted(data, StatusNames, PriorityNames);
    UpdateWith(data, StatusNames, PriorityNames)
  }

  /** The lower-case enumeration values, which the validators were evidently meant to accept. */
  const StatusValues := [T.StatusValue(T.Todo), T.StatusValue(T.InProgress), T.StatusValue(T.InReview), T.StatusValue(T.Done)]
  const PriorityValues := [T.PriorityValue(T.Low), T.PriorityValue(T.Medium), T.PriorityValue(T.High), T.PriorityValue(T.Urgent)]

  /** The intended creation validator: checks `status` and `priority` against the enumeration values. */
  function ValidateTaskCreationIntended(data: Option<Body>): Py<Verdict> {
    CreationWith(data, StatusValues, PriorityValues)
  }

  /** The intended update validator. */
  function ValidateTaskUpdateIntended(data: Option<Body>): Py<Verdict> {
    UpdateWith(data, StatusValues, PriorityValues)
  }

  // ------------------------------------------------------------ properties

  /** Whether the description, status and priority of `d` pass against the given lists. */
  predicate OptionalFieldsOk(d: Body, statusNames: seq<string>, priorityNames: seq<string>) {
    && (Truthy(Get(d, "description")) ==> Len(d["description"]).Ret? && Len(d["description"]).value <= DescriptionMax)
    && (Truthy(Get(d, "status")) ==> d["status"].Str? && d["status"].s in statusNames)
    && (Truthy(Get(d, "priority")) ==> d["priority"].Str? && d["priority"].s in priorityNames)
  }

  lemma OptionalFieldsAccepted(d: Body, statusNames: seq<string>, priorityNames: seq<string>)
    ensures OptionalFieldsProblem(d, statusNames, priorityNames) == Ret(None) <==> OptionalFieldsOk(d, statusNames, priorityNames)
  {
  }

  /**
   * A creation request is accepted exactly when the body exists, its title is
   * a string of at least 3 characters once stripped and at most 200 raw, its
   * project id is truthy, and the optional fields pass.
   */
  lemma CreationAccepted(data: Option<Body>, statusNames: seq<string>, priorityNames: seq<string>)
    ensures CreationWith(data, statusNames, priorityNames) == Ret(Verdict(true, Valid)) <==>
      && data.Some?
      && "title" in data.value && data.value["title"].Str?
      && 3 <= |Strip(data.value["title"].s)| && |data.value["title"].s| <= TitleMax
      && Truthy(Get(data.value, "project_id"))
      && OptionalFieldsOk(data.value, statusNames, priorityNames)
    ensures data.None? ==> CreationWith(data, statusNames, priorityNames) == Raise(AttributeError)
  {
    if data.Some? {
      OptionalFieldsAccepted(data.value, statusNames, priorityNames);
    }
  }

  /**
   * An update request is accepted exactly when a truthy title passes the name
   * rules and the optional fields pass; absent fields are not required.
   */
  lemma UpdateAccepted(data: Option<Body>, statusNames: seq<string>, priorityNames: seq<string>)
    ensures UpdateWith(data, statusNames, priorityNames) == Ret(Verdict(true, Valid)) <==>
      && data.Some?
      && (Truthy(Get(data.value, "title")) ==>
            data.value["title"].Str? && 3 <= |Strip(data.value["title"].s)| && |data.value["title"].s| <= TitleMax)
      && OptionalFieldsOk(data.value, statusNames, priorityNames)
    ensures UpdateWith(Some(map[]), statusNames, priorityNames) == Ret(Verdict(true, Valid))
  {
    if data.Some? {
      OptionalFieldsAccepted(data.value, statusNames, priorityNames);
    }
  }

  /** No upper-case name is an enumeration value, and no enumeration value is an upper-case name. */
  lemma NamesAreNotValues()
    ensures forall n :: n in StatusNames ==> T.ParseStatus(Str(n)).None?
    ensures forall n :: n in PriorityNames ==> T.ParsePriority(Str(n)).None?
    ensures forall s :: T.StatusValue(s) !in StatusNames
    ensures forall p :: T.PriorityValue(p) !in PriorityNames
  {
  }

  /**
   * As written, a status or priority the validators let through is never one
   * that `TaskStatus(...)` / `TaskPriority(...)` accepts: an accepted truthy
   * value is an upper-case name, a falsy one is no value at all.
   */
  lemma AcceptedEnumsNeverParse(data: Option<Body>)
    requires ValidateTaskCreation(data) == Ret(Verdict(true, Valid)) || ValidateTaskUpdate(data) == Ret(Verdict(true, Valid))
    ensures "status" in data.value ==> T.ParseStatus(data.value["status"]).None?
    ensures "priority" in data.value ==> T.ParsePriority(data.value["priority"]).None?
  {
    CreationAccepted(data, StatusNames, PriorityNames);
    UpdateAccepted(data, StatusNames, PriorityNames);
    NamesAreNotValues();
    var d := data.value;
    if "status" in d && !Truthy(d["status"]) {
      FalsyNotEnum(d["status"]);
    }
    if "priority" in d && !Truthy(d["priority"]) {
      FalsyNotEnum(d["priority"]);
    }
  }

  /** A falsy JSON value is neither a status nor a priority. */
  lemma FalsyNotEnum(v: Value)
    requires !Truthy(v)
    ensures T.ParseStatus(v).None? && T.ParsePriority(v).None?
  {
  }

  /**
   * With the intended lists, every truthy status or priority that is accepted
   * is an enumeration value, and every enumeration value is accepted.
   */
  lemma IntendedEnumsParse(data: Option<Body>)
    requires ValidateTaskCreationIntended(data) == Ret(Verdict(true, Valid)) || ValidateTaskUpdateIntended(data) == Ret(Verdict(true, Valid))
    ensures Truthy(Get(data.value, "status")) ==> T.ParseStatus(data.value["status"]).Some?
    ensures Truthy(Get(data.value, "priority")) ==> T.ParsePriority(data.value["priority"]).Some?
  {
    CreationAccepted(data, StatusValues, PriorityValues);
    UpdateAccepted(data, StatusValues, PriorityValues);
  }

  lemma IntendedListsAreValues()
    ensures forall s :: T.StatusValue(s) in StatusValues
    ensures forall p :: T.PriorityValue(p) in PriorityValues
  {
  }
}
