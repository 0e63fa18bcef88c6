/**
 * Task persistence (apps/services/task_service.py). Each operation that
 * writes is a method on the database; its whole effect, reply and new
 * tables, is the specification function of the same name with `Spec`
 * appended, and the lemmas below are about those functions.
 */
module TaskService {
  import opened Common
  import U = UserModel
  import T = TaskModel
  import C = CommentModel
  import opened Store

  const Created := "Tạo task thành công"
  const CreateFailedPrefix := "Lỗi khi tạo task: "
  const NotFound := "Task không tồn tại"
  const Updated := "Cập nhật task thành công"
  const UpdateFailedPrefix := "Lỗi khi cập nhật: "
  const Deleted := "Xóa task thành công"
  const DeleteFailedPrefix := "Lỗi khi xóa: "

  /** The `(success, message, task)` triple; `delete_task` answers the first two only. */
  datatype TaskReply = TaskReply(success: bool, message: string, task: Option<T.Task>)

  // ------------------------------------------------------------ lookups and queries

  /** `get_task_by_id(db, task_id)`: the position of the row with that id. */
  function Locate(tasks: seq<T.Task>, id: string): (r: Option<nat>)
    ensures r.Some? ==> r.value < |tasks| && tasks[r.value].id == id
    ensures r.None? <==> !HasTask(tasks, id)
  {
    var r := First(tasks, (t: T.Task) => t.id == id);
    assert r.None? ==> forall t :: t in tasks ==> t.id != id by {
      if r.None? {
        forall t | t in tasks ensures t.id != id {
          var j :| 0 <= j < |tasks| && tasks[j] == t;
        }
      }
    }
    r
  }

  /** `get_tasks_by_project`: the matching rows, then `.offset(skip).limit(limit)`. */
  function ByProject(tasks: seq<T.Task>, projectId: string, skip: int, limit: int): (r: Py<seq<T.Task>>)
    ensures r.Ret? <==> skip >= 0 && limit >= 0
    ensures r.Ret? ==> |r.value| <= limit && forall x :: x in r.value ==> x in tasks && x.projectId == projectId
  {
    var p := (t: T.Task) => t.projectId == projectId;
    FilteredWindow(tasks, p, skip, limit);
    Window(Filter(tasks, p), skip, limit)
  }

  /** `get_tasks_by_assignee`: an unassigned task matches no assignee. */
  function ByAssignee(tasks: seq<T.Task>, assigneeId: string, skip: int, limit: int): (r: Py<seq<T.Task>>)
    ensures r.Ret? <==> skip >= 0 && limit >= 0
    ensures r.Ret? ==> |r.value| <= limit && forall x :: x in r.value ==> x in tasks && x.assigneeId == Some(assigneeId)
  {
    var p := (t: T.Task) => t.assigneeId == Some(assigneeId);
    FilteredWindow(tasks, p, skip, limit);
    Window(Filter(tasks, p), skip, limit)
  }

  /** `get_tasks_by_creator` */
  function ByCreator(tasks: seq<T.Task>, creatorId: string, skip: int, limit: int): (r: Py<seq<T.Task>>)
    ensures r.Ret? <==> skip >= 0 && limit >= 0
    ensures r.Ret? ==> |r.value| <= limit && forall x :: x in r.value ==> x in tasks && x.creatorId == creatorId
  {
    var p := (t: T.Task) => t.creatorId == creatorId;
    FilteredWindow(tasks, p, skip, limit);
    Window(Filter(tasks, p), skip, limit)
  }

  // ------------------------------------------------------------ create

  /** The row `create_task` adds: status TODO, the `uuid4()` id and `utcnow()` timestamps. */
  function NewTask(id: string, title: string, description: string, projectId: string, creatorId: string,
                   assignee: Cell<string>, priority: T.TaskPriority, due: Cell<DateTime>, stamp: DateTime): T.Task {
    T.Task(id, title, description, T.DefaultStatus, priority, projectId, CellValue(assignee), creatorId, CellValue(due), Some(stamp), Some(stamp))
  }

  /**
   * The effect of `create_task`; `fault` and `errText` stand for a failing
   * flush and its exception text. An assignee or due date the database
   * refuses fails the commit.
   */
  function CreateTaskSpec(t: Tables, title: string, description: string, projectId: string, creatorId: string,
                          assignee: Cell<string>, priority: T.TaskPriority, due: Cell<DateTime>,
                          newId: string, stamp: DateTime, fault: bool, errText: string): (TaskReply, Tables) {
    var row := NewTask(newId, title, description, projectId, creatorId, assignee, priority, due, stamp);
    var next := t.(tasks := t.tasks + [row]);
    if !fault && !assignee.Bad? && !due.Bad? && Committable(next) then (TaskReply(true, Created, Some(row)), next)
    else (TaskReply(false, CreateFailedPrefix + errText, None), t)
  }

  /** `create_task(db, title, description, project_id, creator_id, assignee_id, priority, due_date)` */
  method CreateTask(db: Database, title: string, description: string, projectId: string, creatorId: string,
                    assignee: Cell<string>, priority: T.TaskPriority, due: Cell<DateTime>,
                    newId: string, stamp: DateTime, fault: bool, errText: string) returns (r: TaskReply)
    requires db.Valid()
    modifies db
    ensures db.Valid()
    ensures (r, db.Snapshot()) == CreateTaskSpec(old(db.Snapshot()), title, description, projectId, creatorId,
                                                 assignee, priority, due, newId, stamp, fault, errText)
  {
    var row := NewTask(newId, title, description, projectId, creatorId, assignee, priority, due, stamp);
    var ok := db.Commit(db.Snapshot().(tasks := db.tasks + [row]), fault || assignee.Bad? || due.Bad?);
    if ok {
      r := TaskReply(true, Created, Some(row));
    } else {
      r := TaskReply(false, CreateFailedPrefix + errText, None);
    }
  }

  // ------------------------------------------------------------ update

  /** One `key=value` argument of `update_task`; an assignee may be None. */
  datatype TaskField =
    | Title(title: string)
    | Description(description: string)
    | Status(status: T.TaskStatus)
    | Priority(priority: T.TaskPriority)
    | Assignee(assignee: Cell<string>)

  /** `setattr(task, key, value)` if `value is not None`; a refused assignee fails at the commit instead. */
  function Apply(t: T.Task, f: TaskField): T.Task {
    match f
    case Title(x) => t.(title := x)
    case Description(x) => t.(description := x)
    case Status(x) => t.(status := x)
    case Priority(x) => t.(priority := x)
    case Assignee(Given(x)) => t.(assigneeId := Some(x))
    case Assignee(_) => t
  }

  /** The arguments applied in order. */
  function ApplyAll(t: T.Task, fs: seq<TaskField>): T.Task
    decreases |fs|
  {
    if fs == [] then t else Apply(ApplyAll(t, fs[..|fs| - 1]), fs[|fs| - 1])
  }

  /** Some argument binds a value the database refuses. */
  predicate Refused(fs: seq<TaskField>) {
    exists k :: 0 <= k < |fs| && fs[k] == Assignee(Bad)
  }

  /** The row after the updates; `updated_at` is reset (`onupdate`) only when a column actually changed. */
  function Merged(t: T.Task, fs: seq<TaskField>, stamp: DateTime): T.Task {
    var a := ApplyAll(t, fs);
    if a == t then t else a.(updatedAt := Some(stamp))
  }

  /** The effect of `update_task(db, task_id, **kwargs)`. */
  function UpdateTaskSpec(t: Tables, taskId: string, fs: seq<TaskField>, stamp: DateTime,
                          fault: bool, errText: string): (TaskReply, Tables) {
    match Locate(t.tasks, taskId)
    case None => (TaskReply(false, NotFound, None), t)
    case Some(i) =>
      var row := Merged(t.tasks[i], fs, stamp);
      var next := t.(tasks := t.tasks[i := row]);
      if !fault && !Refused(fs) && Committable(next) then (TaskReply(true, Updated, Some(row)), next)
      else (TaskReply(false, UpdateFailedPrefix + errText, None), t)
  }

  /** `update_task(db, task_id, **kwargs)` */
  method UpdateTask(db: Database, taskId: string, fs: seq<TaskField>, stamp: DateTime, fault: bool, errText: string)
    returns (r: TaskReply)
    requires db.Valid()
    modifies db
    ensures db.Valid()
    ensures (r, db.Snapshot()) == UpdateTaskSpec(old(db.Snapshot()), taskId, fs, stamp, fault, errText)
  {
    var found := Locate(db.tasks, taskId);
    if found.None? {
      return TaskReply(false, NotFound, None);
    }
    var i := found.value;
    var task := db.tasks[i];
    var refused := false;
    var k := 0;
    while k < |fs|
      invariant 0 <= k <= |fs|
      invariant task == ApplyAll(db.tasks[i], fs[..k])
      invariant refused <==> Refused(fs[..k])
    {
      assert fs[..k + 1][..k] == fs[..k];
      match fs[k] {
        case Title(x) => task := task.(title := x);
        case Description(x) => task := task.(description := x);
        case Status(x) => task := task.(status := x);
        case Priority(x) => task := task.(priority := x);
        case Assignee(Empty) =>
        case Assignee(Given(x)) => task := task.(assigneeId := Some(x));
        case Assignee(Bad) => refused := true;
      }
      assert refused <==> Refused(fs[..k]) || fs[k] == Assignee(Bad) by {
        if fs[k] == Assignee(Bad) { assert fs[..k + 1][k] == fs[k]; }
        if Refused(fs[..k + 1]) {
          var j :| 0 <= j < k + 1 && fs[..k + 1][j] == Assignee(Bad);
          if j < k { assert fs[..k][j] == fs[j]; }
        }
      }
      k := k + 1;
    }
    assert fs[..|fs|] == fs;
    if task != db.tasks[i] {
      task := task.(updatedAt := Some(stamp));
    }
    var ok := db.Commit(db.Snapshot().(tasks := db.tasks[i := task]), fault || refused);
    if ok {
      r := TaskReply(true, Updated, Some(task));
    } else {
      r := TaskReply(false, UpdateFailedPrefix + errText, None);
    }
  }

  /** `change_task_status(db, task_id, status)`: `update_task` with `status` alone. */
  method ChangeTaskStatus(db: Database, taskId: string, status: T.TaskStatus, stamp: DateTime, fault: bool, errText: string)
    returns (r: TaskReply)
    requires db.Valid()
    modifies db
    ensures db.Valid()
    ensures (r, db.Snapshot()) == UpdateTaskSpec(old(db.Snapshot()), taskId, [Status(status)], stamp, fault, errText)
  {
    r := UpdateTask(db, taskId, [Status(status)], stamp, fault, errText);
  }

  /** `assign_task(db, task_id, assignee_id)`: `update_task` with `assignee_id` alone. */
  method AssignTask(db: Database, taskId: string, assignee: Cell<string>, stamp: DateTime, fault: bool, errText: string)
    returns (r: TaskReply)
    requires db.Valid()
    modifies db
    ensures db.Valid()
    ensures (r, db.Snapshot()) == UpdateTaskSpec(old(db.Snapshot()), taskId, [Assignee(assignee)], stamp, fault, errText)
  {
    r := UpdateTask(db, taskId, [Assignee(assignee)], stamp, fault, errText);
  }

  // ------------------------------------------------------------ delete

  /** `db.delete(task)`: the row goes, and its comments with it (`cascade="all, delete-orphan"`). */
  function WithoutTask(t: Tables, id: string): Tables {
    t.(tasks := Filter(t.tasks, (x: T.Task) => x.id != id),
       comments := Filter(t.comments, (c: C.Comment) => c.taskId != id))
  }

  /** The effect of `delete_task(db, task_id)`. */
  function DeleteTaskSpec(t: Tables, taskId: string, fault: bool, errText: string): (TaskReply, Tables) {
    if Locate(t.tasks, taskId).None? then (TaskReply(false, NotFound, None), t)
    else
      var next := WithoutTask(t, taskId);
      if !fault && Committable(next) then (TaskReply(true, Deleted, None), next)
      else (TaskReply(false, DeleteFailedPrefix + errText, None), t)
  }

  /** `delete_task(db, task_id)` */
  method DeleteTask(db: Database, taskId: string, fault: bool, errText: string) returns (r: TaskReply)
    requires db.Valid()
    modifies db
    ensures db.Valid()
    ensures (r, db.Snapshot()) == DeleteTaskSpec(old(db.Snapshot()), taskId, fault, errText)
  {
    var found := Locate(db.tasks, taskId);
    if found.None? {
      return TaskReply(false, NotFound, None);
    }
    var ok := db.Commit(WithoutTask(db.Snapshot(), taskId), fault);
    if ok {
      r := TaskReply(true, Deleted, None);
    } else {
      r := TaskReply(false, DeleteFailedPrefix + errText, None);
    }
  }

  /** `task_to_dict(task)` */
  function TaskToDict(t: T.Task): (d: Body)
    ensures d.Keys == {"id", "title", "description", "status", "priority", "project_id",
                       "assignee_id", "creator_id", "due_date", "created_at", "updated_at"}
    ensures d["id"] == Str(t.id) && d["project_id"] == Str(t.projectId)
    ensures d["creator_id"] == Str(t.creatorId) && d["title"] == Str(t.title)
  {
    T.ToDict(t)
  }

  // ------------------------------------------------------------ properties

  /** The value the last argument that sets a column gives it, or `dflt` when none does. */
  function Last<X>(fs: seq<TaskField>, pick: TaskField -> Option<X>, dflt: X): X
    decreases |fs|
  {
    if fs == [] then dflt
    else match pick(fs[|fs| - 1])
      case Some(x) => x
      case None => Last(fs[..|fs| - 1], pick, dflt)
  }

  function TitleOf(f: TaskField): Option<string> { if f.Title? then Some(f.title) else None }
  function DescriptionOf(f: TaskField): Option<string> { if f.Description? then Some(f.description) else None }
  function StatusOf(f: TaskField): Option<T.TaskStatus> { if f.Status? then Some(f.status) else None }
  function PriorityOf(f: TaskField): Option<T.TaskPriority> { if f.Priority? then Some(f.priority) else None }
  /** Only an assignee that is not None is written. */
  function AssigneeOf(f: TaskField): Option<Option<string>> {
    if f.Assignee? && f.assignee.Given? then Some(Some(f.assignee.value)) else None
  }

  /**
   * The update loop overwrites each named column with the last value given
   * for it that is not None, and leaves every other column as it was.
   */
  lemma {:induction false} ApplyAllIsLastWrite(t: T.Task, fs: seq<TaskField>)
    ensures ApplyAll(t, fs) == t.(title := Last(fs, TitleOf, t.title),
                                  description := Last(fs, DescriptionOf, t.description),
                                  status := Last(fs, StatusOf, t.status),
                                  priority := Last(fs, PriorityOf, t.priority),
                                  assigneeId := Last(fs, AssigneeOf, t.assigneeId))
    decreases |fs|
  {
    if fs != [] {
      ApplyAllIsLastWrite(t, fs[..|fs| - 1]);
    }
  }

  /** An update never touches the id, the project, the creator, the due date or `created_at`. */
  lemma MergedKeeps(t: T.Task, fs: seq<TaskField>, stamp: DateTime)
    ensures var m := Merged(t, fs, stamp);
      && m.id == t.id && m.projectId == t.projectId && m.creatorId == t.creatorId
      && m.dueDate == t.dueDate && m.createdAt == t.createdAt
      && (m.updatedAt == t.updatedAt || m.updatedAt == Some(stamp))
  {
    ApplyAllIsLastWrite(t, fs);
  }

  /** `assignee_id=None` is skipped: it cannot unassign a task. */
  lemma NullAssigneeSkipped(t: T.Task, fs: seq<TaskField>, stamp: DateTime)
    ensures Merged(t, fs + [Assignee(Empty)], stamp) == Merged(t, fs, stamp)
    ensures t.assigneeId.Some? ==> Merged(t, [Assignee(Empty)], stamp).assigneeId == t.assigneeId
  {
    assert (fs + [Assignee(Empty)])[..|fs|] == fs;
    assert [Assignee(Empty)][..0] == [];
  }

  /** A lone `status` or `assignee_id` argument sets that column and nothing else (besides `updated_at`). */
  lemma SingleFieldUpdates(t: T.Task, s: T.TaskStatus, a: string, stamp: DateTime)
    ensures ApplyAll(t, [Status(s)]) == t.(status := s)
    ensures ApplyAll(t, [Assignee(Given(a))]) == t.(assigneeId := Some(a))
  {
    assert [Status(s)][..0] == [];
    assert [Assignee(Given(a))][..0] == [];
  }

  /**
   * An update of an unknown id answers "Task không tồn tại"; any failure
   * leaves every table as it was; a success replaces that one row with the
   * merged row and keeps all others.
   */
  lemma UpdateOutcome(t: Tables, taskId: string, fs: seq<TaskField>, stamp: DateTime, fault: bool, errText: string)
    ensures var (r, after) := UpdateTaskSpec(t, taskId, fs, stamp, fault, errText);
      && (!HasTask(t.tasks, taskId) ==> r == TaskReply(false, NotFound, None) && after == t)
      && (!r.success ==> after == t && r.task.None?)
      && (r.success ==>
            && after.users == t.users && after.projects == t.projects && after.comments == t.comments
            && |after.tasks| == |t.tasks|
            && (forall k :: 0 <= k < |t.tasks| && t.tasks[k].id != taskId ==> after.tasks[k] == t.tasks[k])
            && r.task.Some? && r.task.value.id == taskId
            && Locate(t.tasks, taskId).Some? && r.task.value == Merged(t.tasks[Locate(t.tasks, taskId).value], fs, stamp)
            && (forall x :: x in after.tasks && x.id == taskId ==> x == r.task.value))
      && (fault || Refused(fs) ==> !r.success)
  {
    var (r, after) := UpdateTaskSpec(t, taskId, fs, stamp, fault, errText);
    if r.success {
      var i := Locate(t.tasks, taskId).value;
      MergedKeeps(t.tasks[i], fs, stamp);
      forall k | 0 <= k < |t.tasks| && t.tasks[k].id != taskId ensures after.tasks[k] == t.tasks[k] {
      }
      forall x | x in after.tasks && x.id == taskId ensures x == r.task.value {
        var k :| 0 <= k < |after.tasks| && after.tasks[k] == x;
        assert UniqueBy(after.tasks, (x: T.Task) => x.id);
        assert after.tasks[i].id == taskId;
      }
    }
  }

  /** Deleting a task and its comments keeps the schema: the delete fails only when the flush does. */
  lemma DeleteKeepsSchema(t: Tables, id: string)
    requires Committable(t)
    ensures Committable(WithoutTask(t, id))
  {
    var n := WithoutTask(t, id);
    FilterUnique(t.tasks, (x: T.Task) => x.id != id, (x: T.Task) => x.id);
    FilterUnique(t.comments, (c: C.Comment) => c.taskId != id, (c: C.Comment) => c.id);
    forall c | c in n.comments ensures CommentRowOk(n.users, n.tasks, c) {
      assert c in t.comments && c.taskId != id;
      var x :| x in t.tasks && x.id == c.taskId;
      assert x in n.tasks;
    }
  }

  /**
   * A successful delete removes the task and exactly its comments; every
   * other task and comment stays. An unknown id answers "Task không tồn tại".
   */
  lemma DeleteOutcome(t: Tables, taskId: string, fault: bool, errText: string)
    requires Committable(t)
    ensures var (r, after) := DeleteTaskSpec(t, taskId, fault, errText);
      && (!HasTask(t.tasks, taskId) ==> r == TaskReply(false, NotFound, None) && after == t)
      && (HasTask(t.tasks, taskId) ==> (r.success <==> !fault))
      && (!r.success ==> after == t)
      && (r.success ==>
            && after.users == t.users && after.projects == t.projects
            && (forall x :: x in after.tasks <==> x in t.tasks && x.id != taskId)
            && (forall c :: c in after.comments <==> c in t.comments && c.taskId != taskId))
  {
    DeleteKeepsSchema(t, taskId);
  }

  /**
   * A created task has status TODO and the given fields, and the table grows
   * by exactly that row; a task for a project that does not exist is never
   * stored; any failure leaves the tables as they were.
   */
  lemma CreateOutcome(t: Tables, title: string, description: string, projectId: string, creatorId: string,
                      assignee: Cell<string>, priority: T.TaskPriority, due: Cell<DateTime>,
                      newId: string, stamp: DateTime, fault: bool, errText: string)
    ensures var (r, after) := CreateTaskSpec(t, title, description, projectId, creatorId, assignee, priority, due, newId, stamp, fault, errText);
      && (r.success ==>
            && r.task.Some? && after == t.(tasks := t.tasks + [r.task.value])
            && |after.tasks| == |t.tasks| + 1
            && r.task.value.status == T.Todo && r.task.value.priority == priority
            && r.task.value.title == title && r.task.value.projectId == projectId
            && r.task.value.creatorId == creatorId && r.task.value.assigneeId == CellValue(assignee))
      && (!r.success ==> after == t && r == TaskReply(false, CreateFailedPrefix + errText, None))
      && (!HasProject(t.projects, projectId) || !HasUser(t.users, creatorId) ==> !r.success)
  {
    var row := NewTask(newId, title, description, projectId, creatorId, assignee, priority, due, stamp);
    var next := t.(tasks := t.tasks + [row]);
    assert row in next.tasks;
  }

  /**
   * Every task a query returns is a stored task that matches its filter; at
   * most `limit` come back; from offset 0 with a large enough limit, all
   * matching tasks come back.
   */
  lemma QueriesMatch(tasks: seq<T.Task>, key: string, skip: int, limit: int)
    ensures ByProject(tasks, key, skip, limit).Ret? <==> skip >= 0 && limit >= 0
    ensures ByProject(tasks, key, skip, limit).Ret? ==>
      |ByProject(tasks, key, skip, limit).value| <= limit
      && forall x :: x in ByProject(tasks, key, skip, limit).value ==> x in tasks && x.projectId == key
    ensures skip == 0 && limit >= |tasks| ==>
      ByProject(tasks, key, skip, limit) == Ret(Filter(tasks, (x: T.Task) => x.projectId == key))
    ensures ByAssignee(tasks, key, skip, limit).Ret? <==> skip >= 0 && limit >= 0
    ensures ByAssignee(tasks, key, skip, limit).Ret? ==>
      |ByAssignee(tasks, key, skip, limit).value| <= limit
      && forall x :: x in ByAssignee(tasks, key, skip, limit).value ==> x in tasks && x.assigneeId == Some(key)
    ensures skip == 0 && limit >= |tasks| ==>
      ByAssignee(tasks, key, skip, limit) == Ret(Filter(tasks, (x: T.Task) => x.assigneeId == Some(key)))
    ensures ByCreator(tasks, key, skip, limit).Ret? <==> skip >= 0 && limit >= 0
    ensures ByCreator(tasks, key, skip, limit).Ret? ==>
      |ByCreator(tasks, key, skip, limit).value| <= limit
      && forall x :: x in ByCreator(tasks, key, skip, limit).value ==> x in tasks && x.creatorId == key
    ensures skip == 0 && limit >= |tasks| ==>
      ByCreator(tasks, key, skip, limit) == Ret(Filter(tasks, (x: T.Task) => x.creatorId == key))
  {
    FilteredWindow(tasks, (x: T.Task) => x.projectId == key, skip, limit);
    FilteredWindow(tasks, (x: T.Task) => x.assigneeId == Some(key), skip, limit);
    FilteredWindow(tasks, (x: T.Task) => x.creatorId == key, skip, limit);
  }

  /**
   * When every argument that sets a column sets it to `x`, the column ends
   * as `x` if some argument sets it and keeps `dflt` otherwise.
   */
  lemma {:induction false} LastOf<X>(fs: seq<TaskField>, pick: TaskField -> Option<X>, dflt: X, x: X)
    requires forall f :: f in fs ==> pick(f).None? || pick(f) == Some(x)
    ensures (exists f :: f in fs && pick(f).Some?) ==> Last(fs, pick, dflt) == x
    ensures (forall f :: f in fs ==> pick(f).None?) ==> Last(fs, pick, dflt) == dflt
    decreases |fs|
  {
    if fs != [] {
      var init := fs[..|fs| - 1];
      assert forall f :: f in init ==> f in fs;
      LastOf(init, pick, dflt, x);
      if pick(fs[|fs| - 1]).None? && exists f :: f in fs && pick(f).Some? {
        var f :| f in fs && pick(f).Some?;
        assert fs == init + [fs[|fs| - 1]];
        assert f in init;
      }
    }
  }

  /** The last value written to a column is the old value or one of the arguments. */
  lemma {:induction false} LastFrom<X>(fs: seq<TaskField>, pick: TaskField -> Option<X>, dflt: X)
    ensures Last(fs, pick, dflt) == dflt || exists k :: 0 <= k < |fs| && pick(fs[k]) == Some(Last(fs, pick, dflt))
    decreases |fs|
  {
    if fs != [] && pick(fs[|fs| - 1]).None? {
      var init := fs[..|fs| - 1];
      LastFrom(init, pick, dflt);
      if Last(init, pick, dflt) != dflt {
        var k :| 0 <= k < |init| && pick(init[k]) == Some(Last(init, pick, dflt));
        assert fs[k] == init[k];
      }
    }
  }

  /** The arguments fit the schema: titles fit the column and named assignees exist. */
  predicate FieldsFit(users: seq<U.User>, fs: seq<TaskField>) {
    && (forall k :: 0 <= k < |fs| && fs[k].Title? ==> |fs[k].title| <= T.TitleWidth)
    && (forall k :: 0 <= k < |fs| && fs[k].Assignee? && fs[k].assignee.Given? ==> HasUser(users, fs[k].assignee.value))
  }

  /**
   * Conversely, an update of a stored task succeeds whenever the flush
   * works, no value is refused, and the arguments fit the schema.
   */
  lemma UpdateSucceeds(t: Tables, taskId: string, fs: seq<TaskField>, stamp: DateTime, errText: string)
    requires Committable(t) && HasTask(t.tasks, taskId) && !Refused(fs) && FieldsFit(t.users, fs)
    ensures UpdateTaskSpec(t, taskId, fs, stamp, false, errText).0.success
  {
    var i := Locate(t.tasks, taskId).value;
    var old_ := t.tasks[i];
    var row := Merged(old_, fs, stamp);
    MergedKeeps(old_, fs, stamp);
    ApplyAllIsLastWrite(old_, fs);
    LastFrom(fs, TitleOf, old_.title);
    LastFrom(fs, AssigneeOf, old_.assigneeId);
    assert old_ in t.tasks;
    assert TaskRowOk(t.users, t.projects, row);
    ReplaceUnique(t.tasks, i, row, (x: T.Task) => x.id);
    var ts := t.tasks[i := row];
    forall x | x in ts ensures TaskRowOk(t.users, t.projects, x) {
      var k :| 0 <= k < |ts| && ts[k] == x;
      if k != i { assert t.tasks[k] in t.tasks; }
    }
    forall c | c in t.comments ensures CommentRowOk(t.users, ts, c) {
      var x :| x in t.tasks && x.id == c.taskId;
      var k :| 0 <= k < |t.tasks| && t.tasks[k] == x;
      assert ts[k].id == x.id;
      assert ts[k] in ts;
    }
  }
}
