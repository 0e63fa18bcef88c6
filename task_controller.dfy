/**
 * The task endpoints (apps/controllers/task_controller.py). Each handler
 * that writes is a method on the database whose whole effect, response and
 * new tables, is the function of the same name with `Handled` appended;
 * the read-only handlers are functions of the tables. The current user is
 * the token payload `token_required` passes in.
 *
 * The validators are parameterised by the status and priority names they
 * accept: `AsWritten` are the upper-case member names the source lists,
 * `Intended` the enumeration values the handlers then parse.
 */
module TaskController {
  import opened Common
  import opened Http
  import opened Store
  import T = TaskModel
  import TV = TaskValidation
  import TS = TaskService
  import PS = ProjectService
  import A = AuthService

  const PriorityInvalid := "Priority không hợp lệ"
  const StatusInvalid := "Trạng thái không hợp lệ"
  const DateInvalid := "Format ngày không hợp lệ"
  const ProjectMissing := "Dự án không tồn tại"
  const TaskMissing := "Task không tồn tại"
  const NotYoursToEdit := "Bạn không có quyền sửa task này"
  const NotYoursToDelete := "Bạn không có quyền xóa task này"

  /** The names the validators accept for `status` and `priority`. */
  datatype EnumNames = EnumNames(statuses: seq<string>, priorities: seq<string>)

  const AsWritten := EnumNames(TV.StatusNames, TV.PriorityNames)
  const Intended := EnumNames(TV.StatusValues, TV.PriorityValues)

  // ------------------------------------------------------------ create

  datatype CreateArgs = CreateArgs(title: string, description: string, projectId: Value,
                                   assignee: Cell<string>, priority: T.TaskPriority, due: Cell<DateTime>)

  /**
   * The lines of `create_task()` before its `try`: validation, the stripped
   * title and description, the raw project id, the assignee, the priority
   * (default `medium`) and the due date. Exceptions here escape the view.
   */
  function PrepareCreate(data: Option<Body>, names: EnumNames, parseDate: string -> Option<DateTime>): (p: Prepared<CreateArgs>)
    ensures p.Call? ==> data.Some? && TV.CreationWith(data, names.statuses, names.priorities) == Ret(Verdict(true, TV.Valid))
    ensures p.Call? ==>
      var d := data.value;
      && d["title"].Str? && p.args.title == Strip(d["title"].s)
      && GetOr(d, "description", Str("")).Str? && p.args.description == Strip(GetOr(d, "description", Str("")).s)
      && p.args.projectId == d["project_id"]
      && p.args.assignee == IdCell(Get(d, "assignee_id"))
      && T.ParsePriority(GetOr(d, "priority", Str("medium"))) == Some(p.args.priority)
      && IsoDate(Get(d, "due_date"), parseDate) == Some(p.args.due)
    ensures data.Some? && "priority" in data.value && T.ParsePriority(data.value["priority"]).None? ==> p.Answer? && !Succeeded(p.response)
  {
    match data
    case None => Answer(Unhandled(AttributeError))
    case Some(d) =>
      match Screen(TV.CreationWith(data, names.statuses, names.priorities))
      case Some(r) => Answer(r)
      case None =>
        match StripField(data, "title")
        case Raise(e) => Answer(Unhandled(e))
        case Ret(title) =>
          match StripValue(GetOr(d, "description", Str("")))
          case Raise(e) => Answer(Unhandled(e))
          case Ret(description) =>
            match RawField(data, "project_id")
            case Raise(e) => Answer(Unhandled(e))
            case Ret(projectId) =>
              match T.ParsePriority(GetOr(d, "priority", Str("medium")))
              case None => Answer(Fail(400, PriorityInvalid))
              case Some(priority) =>
                match IsoDate(Get(d, "due_date"), parseDate)
                case None => Answer(Fail(400, DateInvalid))
                case Some(due) => Call(CreateArgs(title, description, projectId, IdCell(Get(d, "assignee_id")), priority, due))
  }

  /**
   * `create_task(current_user)` on the tables `t`; `newId`, `stamp`,
   * `fault` and `errText` are the service's hidden inputs. A project id that
   * is not a stored id, whatever its type, finds no project.
   */
  function CreateTaskHandled(t: Tables, current: A.Claims, data: Option<Body>, names: EnumNames,
                             parseDate: string -> Option<DateTime>, newId: string, stamp: DateTime,
                             fault: bool, errText: string): (Response, Tables) {
    match PrepareCreate(data, names, parseDate)
    case Answer(r) => (r, t)
    case Call(a) =>
      if !a.projectId.Str? || PS.Locate(t.projects, a.projectId.s).None? then (Fail(404, ProjectMissing), t)
      else
        var (reply, after) := TS.CreateTaskSpec(t, a.title, a.description, a.projectId.s, current.userId,
                                                a.assignee, a.priority, a.due, newId, stamp, fault, errText);
        if !reply.success then (Fail(400, reply.message), after)
        else (Done(201, reply.message, Obj(TS.TaskToDict(reply.task.value))), after)
  }

  /** `TaskController.create_task(current_user)` */
  method CreateTask(db: Database, current: A.Claims, data: Option<Body>, names: EnumNames,
                    parseDate: string -> Option<DateTime>, newId: string, stamp: DateTime,
                    fault: bool, errText: string) returns (resp: Response)
    requires db.Valid()
    modifies db
    ensures db.Valid()
    ensures (resp, db.Snapshot()) == CreateTaskHandled(old(db.Snapshot()), current, data, names, parseDate, newId, stamp, fault, errText)
  {
    var p := PrepareCreate(data, names, parseDate);
    if p.Answer? {
      return p.response;
    }
    var a := p.args;
    if !a.projectId.Str? || PS.Locate(db.projects, a.projectId.s).None? {
      return Fail(404, ProjectMissing);
    }
    var r := TS.CreateTask(db, a.title, a.description, a.projectId.s, current.userId,
                           a.assignee, a.priority, a.due, newId, stamp, fault, errText);
    if !r.success {
      return Fail(400, r.message);
    }
    resp := Done(201, r.message, Obj(TS.TaskToDict(r.task.value)));
  }

  // ------------------------------------------------------------ read

  /** `[task_to_dict(t) for t in tasks]` */
  function Dicts(tasks: seq<T.Task>): (ds: seq<Value>)
    ensures |ds| == |tasks| && forall k :: 0 <= k < |tasks| ==> ds[k] == Obj(T.ToDict(tasks[k]))
  {
    seq(|tasks|, k requires 0 <= k < |tasks| => Obj(T.ToDict(tasks[k])))
  }

  /** `get_task(current_user, task_id)` */
  function GetTask(tasks: seq<T.Task>, taskId: string): (r: Response)
    ensures Status(r) == 200 <==> HasTask(tasks, taskId)
    ensures !HasTask(tasks, taskId) ==> r == Fail(404, TaskMissing)
    ensures Status(r) == 200 ==>
      exists k :: 0 <= k < |tasks| && tasks[k].id == taskId && r == Data(200, Obj(T.ToDict(tasks[k])))
  {
    match TS.Locate(tasks, taskId)
    case None => Fail(404, TaskMissing)
    case Some(i) => Data(200, Obj(TS.TaskToDict(tasks[i])))
  }

  /** `get_tasks_by_project(current_user, project_id)`; `parseInt` is `int()` on a query argument. */
  function TasksByProject(t: Tables, projectId: string, args: map<string, string>, parseInt: string -> Option<int>): (r: Response)
    ensures Status(r) == 200 ==> HasProject(t.projects, projectId) && Succeeded(r)
    ensures IntArg(args, "skip", 0, parseInt).Ret? && IntArg(args, "limit", 100, parseInt).Ret? && !HasProject(t.projects, projectId) ==>
      r == Fail(404, ProjectMissing)
    ensures "skip" in args && parseInt(args["skip"]).None? ==> r == ServerError(ValueError)
  {
    match IntArg(args, "skip", 0, parseInt)
    case Raise(e) => ServerError(e)
    case Ret(skip) =>
      match IntArg(args, "limit", 100, parseInt)
      case Raise(e) => ServerError(e)
      case Ret(limit) =>
        if PS.Locate(t.projects, projectId).None? then Fail(404, ProjectMissing)
        else Caught(TS.ByProject(t.tasks, projectId, skip, limit), (ts: seq<T.Task>) => Listed(Dicts(ts)))
  }

  /** `get_my_tasks(current_user)`: the tasks assigned to the caller. */
  function MyTasks(tasks: seq<T.Task>, current: A.Claims, args: map<string, string>, parseInt: string -> Option<int>): (r: Response)
    ensures Status(r) == 200 <==> Succeeded(r)
    ensures Succeeded(r) <==>
      && IntArg(args, "skip", 0, parseInt).Ret? && IntArg(args, "skip", 0, parseInt).value >= 0
      && IntArg(args, "limit", 100, parseInt).Ret? && IntArg(args, "limit", 100, parseInt).value >= 0
  {
    match IntArg(args, "skip", 0, parseInt)
    case Raise(e) => ServerError(e)
    case Ret(skip) =>
      match IntArg(args, "limit", 100, parseInt)
      case Raise(e) => ServerError(e)
      case Ret(limit) => Caught(TS.ByAssignee(tasks, current.userId, skip, limit), (ts: seq<T.Task>) => Listed(Dicts(ts)))
  }

  // ------------------------------------------------------------ update

  /** `data[key].strip()` if `key in data`, inside the `try`. */
  function StripIfPresent(d: Body, key: string): Py<Option<string>> {
    if key !in d then Ret(None)
    else match StripValue(d[key])
      case Raise(e) => Raise(e)
      case Ret(s) => Ret(Some(s))
  }

  /**
   * The `update_data` arguments `update_task()` builds, in the order title,
   * description, status, priority, assignee; an exception is caught (500),
   * an unknown status or priority is a 400.
   */
  function UpdateFields(d: Body): Prepared<seq<TS.TaskField>> {
    match StripIfPresent(d, "title")
    case Raise(e) => Answer(ServerError(e))
    case Ret(title) =>
      match StripIfPresent(d, "description")
      case Raise(e) => Answer(ServerError(e))
      case Ret(description) =>
        if "status" in d && T.ParseStatus(d["status"]).None? then Answer(Fail(400, StatusInvalid))
        else if "priority" in d && T.ParsePriority(d["priority"]).None? then Answer(Fail(400, PriorityInvalid))
        else
          var fs0: seq<TS.TaskField> := [];
          var fs1 := if title.Some? then fs0 + [TS.Title(title.value)] else fs0;
          var fs2 := if description.Some? then fs1 + [TS.Description(description.value)] else fs1;
          var fs3 := if "status" in d then fs2 + [TS.Status(T.ParseStatus(d["status"]).value)] else fs2;
          var fs4 := if "priority" in d then fs3 + [TS.Priority(T.ParsePriority(d["priority"]).value)] else fs3;
          Call(if "assignee_id" in d then fs4 + [TS.Assignee(IdCell(d["assignee_id"]))] else fs4)
  }

  /** `update_task(current_user, task_id)` on the tables `t`. */
  function UpdateTaskHandled(t: Tables, current: A.Claims, taskId: string, data: Option<Body>, names: EnumNames,
                             stamp: DateTime, fault: bool, errText: string): (Response, Tables) {
    match data
    case None => (Unhandled(AttributeError), t)
    case Some(d) =>
      match Screen(TV.UpdateWith(data, names.statuses, names.priorities))
      case Some(r) => (r, t)
      case None =>
        match TS.Locate(t.tasks, taskId)
        case None => (Fail(404, TaskMissing), t)
        case Some(i) =>
          if t.tasks[i].creatorId != current.userId then (Fail(403, NotYoursToEdit), t)
          else match UpdateFields(d)
            case Answer(r) => (r, t)
            case Call(fs) =>
              var (reply, after) := TS.UpdateTaskSpec(t, taskId, fs, stamp, fault, errText);
              if !reply.success then (Fail(400, reply.message), after)
              else (Done(200, reply.message, Obj(TS.TaskToDict(reply.task.value))), after)
  }

  /** The lines of `update_task()` that build `update_data`, one key at a time. */
  method BuildUpdates(d: Body) returns (p: Prepared<seq<TS.TaskField>>)
    ensures p == UpdateFields(d)
  {
    var title := StripIfPresent(d, "title");
    if title.Raise? {
      return Answer(ServerError(title.exc));
    }
    var description := StripIfPresent(d, "description");
    if description.Raise? {
      return Answer(ServerError(description.exc));
    }
    var updates: seq<TS.TaskField> := [];
    if title.value.Some? {
      updates := updates + [TS.Title(title.value.value)];
    }
    if description.value.Some? {
      updates := updates + [TS.Description(description.value.value)];
    }
    if "status" in d {
      var s := T.ParseStatus(d["status"]);
      if s.None? {
        return Answer(Fail(400, StatusInvalid));
      }
      updates := updates + [TS.Status(s.value)];
    }
    if "priority" in d {
      var p := T.ParsePriority(d["priority"]);
      if p.None? {
        return Answer(Fail(400, PriorityInvalid));
      }
      updates := updates + [TS.Priority(p.value)];
    }
    if "assignee_id" in d {
      updates := updates + [TS.Assignee(IdCell(d["assignee_id"]))];
    }
    p := Call(updates);
  }

  /** `TaskController.update_task(current_user, task_id)`: the checks, then `update_data`, then the service. */
  method UpdateTask(db: Database, current: A.Claims, taskId: string, data: Option<Body>, names: EnumNames,
                    stamp: DateTime, fault: bool, errText: string) returns (resp: Response)
    requires db.Valid()
    modifies db
    ensures db.Valid()
    ensures (resp, db.Snapshot()) == UpdateTaskHandled(old(db.Snapshot()), current, taskId, data, names, stamp, fault, errText)
  {
    if data.None? {
      return Unhandled(AttributeError);
    }
    var d := data.value;
    var screen := Screen(TV.UpdateWith(data, names.statuses, names.priorities));
    if screen.Some? {
      return screen.value;
    }
    var found := TS.Locate(db.tasks, taskId);
    if found.None? {
      return Fail(404, TaskMissing);
    }
    if db.tasks[found.value].creatorId != current.userId {
      return Fail(403, NotYoursToEdit);
    }
    var fields := BuildUpdates(d);
    if fields.Answer? {
      return fields.response;
    }
    var updates := fields.args;
    var r := TS.UpdateTask(db, taskId, updates, stamp, fault, errText);
    if !r.success {
      return Fail(400, r.message);
    }
    resp := Done(200, r.message, Obj(TS.TaskToDict(r.task.value)));
  }

  // ------------------------------------------------------------ delete

  /** `delete_task(current_user, task_id)` on the tables `t`. */
  function DeleteTaskHandled(t: Tables, current: A.Claims, taskId: string, fault: bool, errText: string): (Response, Tables) {
    match TS.Locate(t.tasks, taskId)
    case None => (Fail(404, TaskMissing), t)
    case Some(i) =>
      if t.tasks[i].creatorId != current.userId then (Fail(403, NotYoursToDelete), t)
      else
        var (reply, after) := TS.DeleteTaskSpec(t, taskId, fault, errText);
        if !reply.success then (Fail(400, reply.message), after) else (DoneNoData(200, reply.message), after)
  }

  /** `TaskController.delete_task(current_user, task_id)` */
  method DeleteTask(db: Database, current: A.Claims, taskId: string, fault: bool, errText: string) returns (resp: Response)
    requires db.Valid()
    modifies db
    ensures db.Valid()
    ensures (resp, db.Snapshot()) == DeleteTaskHandled(old(db.Snapshot()), current, taskId, fault, errText)
  {
    var found := TS.Locate(db.tasks, taskId);
    if found.None? {
      return Fail(404, TaskMissing);
    }
    if db.tasks[found.value].creatorId != current.userId {
      return Fail(403, NotYoursToDelete);
    }
    var r := TS.DeleteTask(db, taskId, fault, errText);
    if !r.success {
      return Fail(400, r.message);
    }
    resp := DoneNoData(200, r.message);
  }

  // ------------------------------------------------------------ properties

  /**
   * The checks of `update_task()` come in order: validation (400), then
   * the task's existence (404), then its creator (403); each answers
   * without touching the tables.
   */
  lemma UpdateChecksInOrder(t: Tables, current: A.Claims, taskId: string, d: Body, names: EnumNames,
                            stamp: DateTime, fault: bool, errText: string, m: string)
    ensures TV.UpdateWith(Some(d), names.statuses, names.priorities) == Ret(Verdict(false, m)) ==>
      UpdateTaskHandled(t, current, taskId, Some(d), names, stamp, fault, errText) == (Fail(400, m), t)
    ensures TV.UpdateWith(Some(d), names.statuses, names.priorities) == Ret(Verdict(true, TV.Valid)) ==>
      && (!HasTask(t.tasks, taskId) ==> UpdateTaskHandled(t, current, taskId, Some(d), names, stamp, fault, errText) == (Fail(404, TaskMissing), t))
      && (forall x :: x in t.tasks && x.id == taskId && x.creatorId != current.userId && UniqueBy(t.tasks, (y: T.Task) => y.id) ==>
            UpdateTaskHandled(t, current, taskId, Some(d), names, stamp, fault, errText) == (Fail(403, NotYoursToEdit), t))
  {
    if HasTask(t.tasks, taskId) {
      var i := TS.Locate(t.tasks, taskId).value;
      forall x | x in t.tasks && x.id == taskId && x.creatorId != current.userId && UniqueBy(t.tasks, (y: T.Task) => y.id)
        ensures t.tasks[i].creatorId != current.userId
      {
        var k :| 0 <= k < |t.tasks| && t.tasks[k] == x;
        assert t.tasks[k].id == t.tasks[i].id;
      }
    }
  }

  /** The stored task the request names, and whether the caller created it. */
  predicate CreatedBy(t: Tables, taskId: string, userId: string) {
    exists x :: x in t.tasks && x.id == taskId && x.creatorId == userId
  }

  /**
   * Only the task's creator can change the tables through `update_task()`
   * or `delete_task()`, and a request that changes them reports success.
   */
  lemma OnlyCreatorWrites(t: Tables, current: A.Claims, taskId: string, data: Option<Body>, names: EnumNames,
                          stamp: DateTime, fault: bool, errText: string)
    ensures var (resp, after) := UpdateTaskHandled(t, current, taskId, data, names, stamp, fault, errText);
      after != t ==> CreatedBy(t, taskId, current.userId) && Succeeded(resp)
    ensures var (resp, after) := DeleteTaskHandled(t, current, taskId, fault, errText);
      after != t ==> CreatedBy(t, taskId, current.userId) && Succeeded(resp)
  {
    if HasTask(t.tasks, taskId) {
      var i := TS.Locate(t.tasks, taskId).value;
      assert t.tasks[i] in t.tasks;
    }
  }

  /**
   * The row an update writes: each column named in the body takes the
   * stripped text or the parsed value, an assignee only when it is a
   * string, and every other column keeps its value.
   */
  lemma UpdateFieldsEffect(task: T.Task, d: Body)
    requires UpdateFields(d).Call?
    ensures TS.ApplyAll(task, UpdateFields(d).args) == task.(
      title := if "title" in d then Strip(d["title"].s) else task.title,
      description := if "description" in d then Strip(d["description"].s) else task.description,
      status := if "status" in d then T.ParseStatus(d["status"]).value else task.status,
      priority := if "priority" in d then T.ParsePriority(d["priority"]).value else task.priority,
      assigneeId := if "assignee_id" in d && d["assignee_id"].Str? then Some(d["assignee_id"].s) else task.assigneeId)
  {
    FieldsSpelledOut(d);
    var a1 := TS.ApplyAll(task, TextArgs(d));
    var a2 := TS.ApplyAll(a1, EnumArgs(d));
    TextEffect(task, d);
    EnumEffect(a1, d);
    AssigneeEffect(a2, d);
    ApplyAllAppend(task, TextArgs(d), EnumArgs(d));
    ApplyAllAppend(task, TextArgs(d) + EnumArgs(d), AssigneeArgs(d));
  }

  /** The text arguments of a body that `UpdateFields` accepts: title, then description. */
  function TextArgs(d: Body): seq<TS.TaskField>
    requires "title" in d ==> d["title"].Str?
    requires "description" in d ==> d["description"].Str?
  {
    var fs0: seq<TS.TaskField> := [];
    var fs1 := if "title" in d then fs0 + [TS.Title(Strip(d["title"].s))] else fs0;
    if "description" in d then fs1 + [TS.Description(Strip(d["description"].s))] else fs1
  }

  /** The enumeration arguments: status, then priority. */
  function EnumArgs(d: Body): seq<TS.TaskField>
    requires "status" in d ==> T.ParseStatus(d["status"]).Some?
    requires "priority" in d ==> T.ParsePriority(d["priority"]).Some?
  {
    var fs0: seq<TS.TaskField> := [];
    var fs1 := if "status" in d then fs0 + [TS.Status(T.ParseStatus(d["status"]).value)] else fs0;
    if "priority" in d then fs1 + [TS.Priority(T.ParsePriority(d["priority"]).value)] else fs1
  }

  /** The assignee argument, when the body names one. */
  function AssigneeArgs(d: Body): seq<TS.TaskField> {
    if "assignee_id" in d then [TS.Assignee(IdCell(d["assignee_id"]))] else []
  }

  /** The arguments a body yields, with each present text column stripped. */
  lemma FieldsSpelledOut(d: Body)
    requires UpdateFields(d).Call?
    ensures "status" in d ==> T.ParseStatus(d["status"]).Some?
    ensures "priority" in d ==> T.ParsePriority(d["priority"]).Some?
    ensures "title" in d ==> d["title"].Str?
    ensures "description" in d ==> d["description"].Str?
    ensures UpdateFields(d).args == TextArgs(d) + EnumArgs(d) + AssigneeArgs(d)
  {
    assert "title" in d ==> d["title"].Str? && StripIfPresent(d, "title") == Ret(Some(Strip(d["title"].s)));
    assert "description" in d ==> d["description"].Str? && StripIfPresent(d, "description") == Ret(Some(Strip(d["description"].s)));
  }

  /** The text arguments set the title and the description they carry. */
  lemma TextEffect(task: T.Task, d: Body)
    requires "title" in d ==> d["title"].Str?
    requires "description" in d ==> d["description"].Str?
    ensures TS.ApplyAll(task, TextArgs(d)) == task.(
      title := if "title" in d then Strip(d["title"].s) else task.title,
      description := if "description" in d then Strip(d["description"].s) else task.description)
  {
    var fs0: seq<TS.TaskField> := [];
    var fs1 := if "title" in d then fs0 + [TS.Title(Strip(d["title"].s))] else fs0;
    if "title" in d { ApplySnoc(task, fs0, TS.Title(Strip(d["title"].s))); }
    if "description" in d { ApplySnoc(task, fs1, TS.Description(Strip(d["description"].s))); }
  }

  /** The enumeration arguments set the status and the priority they carry. */
  lemma EnumEffect(task: T.Task, d: Body)
    requires "status" in d ==> T.ParseStatus(d["status"]).Some?
    requires "priority" in d ==> T.ParsePriority(d["priority"]).Some?
    ensures TS.ApplyAll(task, EnumArgs(d)) == task.(
      status := if "status" in d then T.ParseStatus(d["status"]).value else task.status,
      priority := if "priority" in d then T.ParsePriority(d["priority"]).value else task.priority)
  {
    var fs0: seq<TS.TaskField> := [];
    var fs1 := if "status" in d then fs0 + [TS.Status(T.ParseStatus(d["status"]).value)] else fs0;
    if "status" in d { ApplySnoc(task, fs0, TS.Status(T.ParseStatus(d["status"]).value)); }
    if "priority" in d { ApplySnoc(task, fs1, TS.Priority(T.ParsePriority(d["priority"]).value)); }
  }

  /** The assignee argument sets the assignee only when it is text. */
  lemma AssigneeEffect(task: T.Task, d: Body)
    ensures TS.ApplyAll(task, AssigneeArgs(d)) ==
      if "assignee_id" in d && d["assignee_id"].Str? then task.(assigneeId := Some(d["assignee_id"].s)) else task
  {
    if "assignee_id" in d { ApplySnoc(task, [], TS.Assignee(IdCell(d["assignee_id"]))); }
  }

  /** Applying two runs of arguments is applying the second to the result of the first. */
  lemma {:induction false} ApplyAllAppend(task: T.Task, p: seq<TS.TaskField>, q: seq<TS.TaskField>)
    ensures TS.ApplyAll(task, p + q) == TS.ApplyAll(TS.ApplyAll(task, p), q)
    decreases |q|
  {
    if q != [] {
      var q' := q[..|q| - 1];
      ApplyAllAppend(task, p, q');
      assert (p + q)[..|p + q| - 1] == p + q';
    } else {
      assert p + q == p;
    }
  }

  /** Applying one more argument applies it to the result of the others. */
  lemma ApplySnoc(task: T.Task, fs: seq<TS.TaskField>, f: TS.TaskField)
    ensures TS.ApplyAll(task, fs + [f]) == TS.Apply(TS.ApplyAll(task, fs), f)
  {
    assert (fs + [f])[..|fs|] == fs;
  }

  /**
   * As written, no request can create a task with an explicit priority: an
   * upper-case name passes the validator and fails `TaskPriority(...)`, and
   * an enumeration value fails the validator.
   */
  lemma AsWrittenPriorityRejected(t: Tables, current: A.Claims, d: Body, parseDate: string -> Option<DateTime>,
                                  newId: string, stamp: DateTime, fault: bool, errText: string)
    requires "priority" in d
    ensures var (resp, after) := CreateTaskHandled(t, current, Some(d), AsWritten, parseDate, newId, stamp, fault, errText);
      !Succeeded(resp) && after == t
  {
    if TV.CreationWith(Some(d), AsWritten.statuses, AsWritten.priorities) == Ret(Verdict(true, TV.Valid)) {
      TV.AcceptedEnumsNeverParse(Some(d));
    }
  }

  /**
   * As written, no update with a `status` or a `priority` key stores
   * anything, whoever asks and whatever the value.
   */
  lemma AsWrittenEnumUpdateRejected(t: Tables, current: A.Claims, taskId: string, d: Body,
                                    stamp: DateTime, fault: bool, errText: string)
    requires "status" in d || "priority" in d
    ensures var (resp, after) := UpdateTaskHandled(t, current, taskId, Some(d), AsWritten, stamp, fault, errText);
      !Succeeded(resp) && after == t
  {
    if TV.UpdateWith(Some(d), AsWritten.statuses, AsWritten.priorities) == Ret(Verdict(true, TV.Valid)) {
      TV.AcceptedEnumsNeverParse(Some(d));
    }
  }

  /** Where the task is stored, when the caller created it. */
  lemma CreatorAt(t: Tables, taskId: string, userId: string) returns (i: nat)
    requires Committable(t) && CreatedBy(t, taskId, userId)
    ensures TS.Locate(t.tasks, taskId) == Some(i) && i < |t.tasks| && t.tasks[i].creatorId == userId
  {
    var x :| x in t.tasks && x.id == taskId && x.creatorId == userId;
    i := TS.Locate(t.tasks, taskId).value;
    var k :| 0 <= k < |t.tasks| && t.tasks[k] == x;
    assert t.tasks[k].id == t.tasks[i].id;
  }

  /** A successful status update stores a row with that id and that status. */
  lemma StatusStored(t: Tables, taskId: string, s: T.TaskStatus, stamp: DateTime, errText: string)
    ensures var (reply, after) := TS.UpdateTaskSpec(t, taskId, [TS.Status(s)], stamp, false, errText);
      reply.success ==> reply.task.Some? && reply.task.value in after.tasks
                        && reply.task.value.id == taskId && reply.task.value.status == s
  {
    if HasTask(t.tasks, taskId) {
      var i := TS.Locate(t.tasks, taskId).value;
      TS.SingleFieldUpdates(t.tasks[i], s, "", stamp);
      var row := TS.Merged(t.tasks[i], [TS.Status(s)], stamp);
      assert row.status == s && row.id == taskId;
      assert t.tasks[i := row][i] == row;
    }
  }

  /** A body naming only an enumeration status passes the intended validator and becomes one argument. */
  lemma StatusBody(s: T.TaskStatus)
    ensures var d := map["status" := Str(T.StatusValue(s))];
      && TV.UpdateWith(Some(d), Intended.statuses, Intended.priorities) == Ret(Verdict(true, TV.Valid))
      && UpdateFields(d) == Call([TS.Status(s)])
  {
    var d := map["status" := Str(T.StatusValue(s))];
    TV.UpdateAccepted(Some(d), TV.StatusValues, TV.PriorityValues);
    TV.IntendedListsAreValues();
    assert "title" !in d && "description" !in d && "priority" !in d && "assignee_id" !in d;
    assert StripIfPresent(d, "title") == Ret(None);
    assert StripIfPresent(d, "description") == Ret(None);
    assert T.ParseStatus(d["status"]) == Some(s);
    var e: seq<TS.TaskField> := [];
    assert e + [TS.Status(s)] == [TS.Status(s)];
  }

  /**
   * With the intended names, the task's creator can set its status: the
   * request succeeds with 200 and the stored row has the new status. As
   * written, the same request is refused and nothing changes.
   */
  lemma IntendedStatusUpdate(t: Tables, current: A.Claims, taskId: string, s: T.TaskStatus, stamp: DateTime, errText: string)
    requires Committable(t) && CreatedBy(t, taskId, current.userId)
    ensures var d := map["status" := Str(T.StatusValue(s))];
      var (resp, after) := UpdateTaskHandled(t, current, taskId, Some(d), Intended, stamp, false, errText);
      && Status(resp) == 200 && Succeeded(resp)
      && exists x :: x in after.tasks && x.id == taskId && x.status == s
    ensures var d := map["status" := Str(T.StatusValue(s))];
      var (resp, after) := UpdateTaskHandled(t, current, taskId, Some(d), AsWritten, stamp, false, errText);
      !Succeeded(resp) && after == t
  {
    IntendedStatusSucceeds(t, current, taskId, s, stamp, errText);
    AsWrittenEnumUpdateRejected(t, current, taskId, map["status" := Str(T.StatusValue(s))], stamp, false, errText);
  }

  /** The intended half of `IntendedStatusUpdate`. */
  lemma IntendedStatusSucceeds(t: Tables, current: A.Claims, taskId: string, s: T.TaskStatus, stamp: DateTime, errText: string)
    requires Committable(t) && CreatedBy(t, taskId, current.userId)
    ensures var d := map["status" := Str(T.StatusValue(s))];
      var (resp, after) := UpdateTaskHandled(t, current, taskId, Some(d), Intended, stamp, false, errText);
      && Status(resp) == 200 && Succeeded(resp)
      && exists x :: x in after.tasks && x.id == taskId && x.status == s
  {
    var d := map["status" := Str(T.StatusValue(s))];
    StatusBody(s);
    assert Screen(TV.UpdateWith(Some(d), Intended.statuses, Intended.priorities)).None?;
    var i := CreatorAt(t, taskId, current.userId);
    var fs := [TS.Status(s)];
    TS.UpdateSucceeds(t, taskId, fs, stamp, errText);
    var (reply, after) := TS.UpdateTaskSpec(t, taskId, fs, stamp, false, errText);
    assert reply.success && reply.task.Some?;
    assert UpdateTaskHandled(t, current, taskId, Some(d), Intended, stamp, false, errText)
        == (Done(200, reply.message, Obj(TS.TaskToDict(reply.task.value))), after);
    StatusStored(t, taskId, s, stamp, errText);
  }

  /**
   * With the intended names, a creation request with a valid title, a
   * project id and an enumeration priority reaches the service with that
   * priority; as written it is refused.
   */
  lemma IntendedPriorityCreate(t: Tables, current: A.Claims, title: string, projectId: string, p: T.TaskPriority,
                               parseDate: string -> Option<DateTime>, newId: string, stamp: DateTime, fault: bool, errText: string)
    requires 3 <= |Strip(title)| && |title| <= TV.TitleMax && projectId != []
    ensures var d := map["title" := Str(title), "project_id" := Str(projectId), "priority" := Str(T.PriorityValue(p))];
      PrepareCreate(Some(d), Intended, parseDate) == Call(CreateArgs(Strip(title), "", Str(projectId), Empty, p, Empty))
    ensures var d := map["title" := Str(title), "project_id" := Str(projectId), "priority" := Str(T.PriorityValue(p))];
      var (resp, after) := CreateTaskHandled(t, current, Some(d), AsWritten, parseDate, newId, stamp, fault, errText);
      !Succeeded(resp) && after == t
  {
    var d := map["title" := Str(title), "project_id" := Str(projectId), "priority" := Str(T.PriorityValue(p))];
    TV.CreationAccepted(Some(d), TV.StatusValues, TV.PriorityValues);
    assert TV.CreationWith(Some(d), TV.StatusValues, TV.PriorityValues) == Ret(Verdict(true, TV.Valid));
    assert Strip("") == "";
    AsWrittenPriorityRejected(t, current, d, parseDate, newId, stamp, fault, errText);
  }

  /**
   * Once the request is read, a task is stored exactly when the project
   * exists and the service succeeds: its creator is the caller and the
   * answer is 201 with the new row; otherwise the tables are unchanged.
   */
  lemma CreateAnswers(t: Tables, current: A.Claims, data: Option<Body>, names: EnumNames,
                      parseDate: string -> Option<DateTime>, newId: string, stamp: DateTime, fault: bool, errText: string)
    requires PrepareCreate(data, names, parseDate).Call?
    ensures var a := PrepareCreate(data, names, parseDate).args;
      var (resp, after) := CreateTaskHandled(t, current, data, names, parseDate, newId, stamp, fault, errText);
      && (!a.projectId.Str? || !HasProject(t.projects, a.projectId.s) ==> (resp, after) == (Fail(404, ProjectMissing), t))
      && (after != t <==> Succeeded(resp))
      && (Succeeded(resp) ==>
            var row := TS.NewTask(newId, a.title, a.description, a.projectId.s, current.userId, a.assignee, a.priority, a.due, stamp);
            && after == t.(tasks := t.tasks + [row])
            && resp == Done(201, TS.Created, Obj(T.ToDict(row))))
  {
    var a := PrepareCreate(data, names, parseDate).args;
    if a.projectId.Str? && HasProject(t.projects, a.projectId.s) {
      TS.CreateOutcome(t, a.title, a.description, a.projectId.s, current.userId, a.assignee, a.priority, a.due, newId, stamp, fault, errText);
    }
  }

  /**
   * A listing's count is the number of tasks it carries; a `skip` that is
   * not a number is a 500; with no arguments and at most 100 tasks, the
   * caller's listing holds every task assigned to them.
   */
  lemma ListingsCount(t: Tables, projectId: string, current: A.Claims, args: map<string, string>, parseInt: string -> Option<int>)
    ensures var resp := TasksByProject(t, projectId, args, parseInt);
      Succeeded(resp) ==> resp.body["count"] == Int(|resp.body["data"].items|)
    ensures var resp := MyTasks(t.tasks, current, args, parseInt);
      && (Succeeded(resp) ==> resp.body["count"] == Int(|resp.body["data"].items|))
      && (Succeeded(resp) ==>
            forall v :: v in resp.body["data"].items ==>
              exists x :: x in t.tasks && x.assigneeId == Some(current.userId) && v == Obj(T.ToDict(x)))
      && ("skip" in args && parseInt(args["skip"]).None? ==> resp == ServerError(ValueError))
      && (args == map[] && |t.tasks| <= 100 ==> resp == Listed(Dicts(Filter(t.tasks, (x: T.Task) => x.assigneeId == Some(current.userId)))))
  {
    ListedCount(t, projectId, args, parseInt);
    MyTasksListing(t.tasks, current, args, parseInt);
  }

  /** The by-project listing's `count` is the length of its `data`. */
  lemma ListedCount(t: Tables, projectId: string, args: map<string, string>, parseInt: string -> Option<int>)
    ensures var resp := TasksByProject(t, projectId, args, parseInt);
      Succeeded(resp) ==> resp.body["count"] == Int(|resp.body["data"].items|)
  {
  }

  /** `get_my_tasks()`: `count` is the length of `data`, a 200 lists only the caller's tasks, a bad skip is a 500. */
  lemma MyTasksListing(tasks: seq<T.Task>, current: A.Claims, args: map<string, string>, parseInt: string -> Option<int>)
    ensures var resp := MyTasks(tasks, current, args, parseInt);
      && (Succeeded(resp) ==> resp.body["count"] == Int(|resp.body["data"].items|))
      && (Succeeded(resp) ==>
            forall v :: v in resp.body["data"].items ==>
              exists x :: x in tasks && x.assigneeId == Some(current.userId) && v == Obj(T.ToDict(x)))
      && ("skip" in args && parseInt(args["skip"]).None? ==> resp == ServerError(ValueError))
      && (args == map[] && |tasks| <= 100 ==> resp == Listed(Dicts(Filter(tasks, (x: T.Task) => x.assigneeId == Some(current.userId)))))
  {
    MyTasksAssigned(tasks, current, args, parseInt);
    if args == map[] && |tasks| <= 100 {
      MyTasksDefault(tasks, current, parseInt);
    }
  }

  /** Without paging arguments and with at most 100 tasks, `get_my_tasks()` lists every task assigned to the caller. */
  lemma MyTasksDefault(tasks: seq<T.Task>, current: A.Claims, parseInt: string -> Option<int>)
    requires |tasks| <= 100
    ensures MyTasks(tasks, current, map[], parseInt)
            == Listed(Dicts(Filter(tasks, (x: T.Task) => x.assigneeId == Some(current.userId))))
  {
    var mine := Filter(tasks, (x: T.Task) => x.assigneeId == Some(current.userId));
    TS.QueriesMatch(tasks, current.userId, 0, 100);
    WindowWithin(mine, 0, 100);
    assert Window(mine, 0, 100).value == mine;
  }

  /** A 200 from `get_my_tasks()` lists only stored tasks assigned to the caller. */
  lemma MyTasksAssigned(tasks: seq<T.Task>, current: A.Claims, args: map<string, string>, parseInt: string -> Option<int>)
    ensures var resp := MyTasks(tasks, current, args, parseInt);
      Succeeded(resp) ==>
        forall v :: v in resp.body["data"].items ==>
          exists x :: x in tasks && x.assigneeId == Some(current.userId) && v == Obj(T.ToDict(x))
  {
    var resp := MyTasks(tasks, current, args, parseInt);
    if Succeeded(resp) {
      var skip := IntArg(args, "skip", 0, parseInt).value;
      var limit := IntArg(args, "limit", 100, parseInt).value;
      var ts := TS.ByAssignee(tasks, current.userId, skip, limit).value;
      TS.QueriesMatch(tasks, current.userId, skip, limit);
      assert resp == Listed(Dicts(ts));
      forall v | v in resp.body["data"].items
        ensures exists x :: x in tasks && x.assigneeId == Some(current.userId) && v == Obj(T.ToDict(x))
      {
        var k :| 0 <= k < |ts| && Dicts(ts)[k] == v;
        assert ts[k] in ts;
      }
    }
  }

}
