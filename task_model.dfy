/** The `tasks` table and its two enumerations (apps/models/task.py). */
module TaskModel {
  import opened Common

  datatype TaskStatus = Todo | InProgress | InReview | Done

  datatype TaskPriority = Low | Medium | High | Urgent

  /** `TaskStatus.X.value` */
  function StatusValue(s: TaskStatus): string {
    match s
    case Todo => "todo"
    case InProgress => "in_progress"
    case InReview => "in_review"
    case Done => "done"
  }

  /** `TaskPriority.X.value` */
  function PriorityValue(p: TaskPriority): string {
    match p
    case Low => "low"
    case Medium => "medium"
    case High => "high"
    case Urgent => "urgent"
  }

  /** `TaskStatus(v)`: the member whose value is `v`; None stands for the ValueError. */
  function ParseStatus(v: Value): (r: Option<TaskStatus>)
    ensures r.Some? ==> v == Str(StatusValue(r.value))
    ensures forall s :: v == Str(StatusValue(s)) ==> r == Some(s)
  {
    if v == Str("todo") then Some(Todo)
    else if v == Str("in_progress") then Some(InProgress)
    else if v == Str("in_review") then Some(InReview)
    else if v == Str("done") then Some(Done)
    else None
  }

  /** `TaskPriority(v)`: the member whose value is `v`; None stands for the ValueError. */
  function ParsePriority(v: Value): (r: Option<TaskPriority>)
    ensures r.Some? ==> v == Str(PriorityValue(r.value))
    ensures forall p :: v == Str(PriorityValue(p)) ==> r == Some(p)
  {
    if v == Str("low") then Some(Low)
    else if v == Str("medium") then Some(Medium)
    else if v == Str("high") then Some(High)
    else if v == Str("urgent") then Some(Urgent)
    else None
  }

  /** The wire values of TaskStatus are exactly these four strings. */
  lemma StatusValues(w: string)
    ensures ParseStatus(Str(w)).Some? <==> w in {"todo", "in_progress", "in_review", "done"}
  {
  }

  /** The wire values of TaskPriority are exactly these four strings. */
  lemma PriorityValues(w: string)
    ensures ParsePriority(Str(w)).Some? <==> w in {"low", "medium", "high", "urgent"}
  {
  }

  /** Column defaults: `status` TODO, `priority` MEDIUM; `title` is `String(200)`. */
  const DefaultStatus := Todo
  const DefaultPriority := Medium
  const TitleWidth := 200

  datatype Task = Task(
    id: string,
    title: string,
    description: string,
    status: TaskStatus,
    priority: TaskPriority,
    projectId: string,
    assigneeId: Option<string>,
    creatorId: string,
    dueDate: Option<DateTime>,
    createdAt: Option<DateTime>,
    updatedAt: Option<DateTime>)

  /** PostgreSQL refuses a title longer than the column. */
  predicate FitsColumns(t: Task) {
    |t.title| <= TitleWidth
  }

  /** `Task.to_dict()` */
  function ToDict(t: Task): (d: Body)
    ensures d.Keys == {"id", "title", "description", "status", "priority", "project_id",
                       "assignee_id", "creator_id", "due_date", "created_at", "updated_at"}
  {
    map[
      "id" := Str(t.id),
      "title" := Str(t.title),
      "description" := Str(t.description),
      "status" := Str(StatusValue(t.status)),
      "priority" := Str(PriorityValue(t.priority)),
      "project_id" := Str(t.projectId),
      "assignee_id" := (if t.assigneeId.Some? then Str(t.assigneeId.value) else Null),
      "creator_id" := Str(t.creatorId),
      "due_date" := IsoOrNull(t.dueDate),
      "created_at" := IsoOrNull(t.createdAt),
      "updated_at" := IsoOrNull(t.updatedAt)]
  }

  /**
   * The status and priority a client reads back parse to the same members,
   * ids come out as strings, and an unassigned task shows a null assignee.
   */
  lemma ToDictRoundTrip(t: Task)
    ensures ParseStatus(ToDict(t)["status"]) == Some(t.status)
    ensures ParsePriority(ToDict(t)["priority"]) == Some(t.priority)
    ensures ToDict(t)["assignee_id"] == Null <==> t.assigneeId.None?
    ensures ToDict(t)["id"].Str? && ToDict(t)["project_id"].Str? && ToDict(t)["creator_id"].Str?
    ensures ToDict(t)["due_date"] == Null <==> t.dueDate.None?
  {
  }
}
