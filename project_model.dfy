/** The `projects` table and its status enumeration (apps/models/project.py). */
module ProjectModel {
  import opened Common

  datatype ProjectStatus = Planning | InProgress | OnHold | Completed | Cancelled

  /** `ProjectStatus.X.value` */
  function StatusValue(s: ProjectStatus): string {
    match s
    case Planning => "planning"
    case InProgress => "in_progress"
    case OnHold => "on_hold"
    case Completed => "completed"
    case Cancelled => "cancelled"
  }

  /** `ProjectStatus(v)`: the member whose value is `v`; None stands for the ValueError. */
  function ParseStatus(v: Value): (r: Option<ProjectStatus>)
    ensures r.Some? ==> v == Str(StatusValue(r.value))
    ensures forall s :: v == Str(StatusValue(s)) ==> r == Some(s)
  {
    if v == Str("planning") then Some(Planning)
    else if v == Str("in_progress") then Some(InProgress)
    else if v == Str("on_hold") then Some(OnHold)
    else if v == Str("completed") then Some(Completed)
    else if v == Str("cancelled") then Some(Cancelled)
    else None
  }

  /** The wire values of ProjectStatus are exactly these five strings. */
  lemma StatusValues(w: string)
    ensures ParseStatus(Str(w)).Some? <==> w in {"planning", "in_progress", "on_hold", "completed", "cancelled"}
  {
  }

  /** Column default `status` PLANNING; `name` is `String(200)`. */
  const DefaultStatus := Planning
  const NameWidth := 200

  datatype Project = Project(
    id: string,
    name: string,
    description: string,
    status: ProjectStatus,
    ownerId: string,
    startDate: Option<DateTime>,
    endDate: Option<DateTime>,
    createdAt: Option<DateTime>,
    updatedAt: Option<DateTime>)

  /** PostgreSQL refuses a name longer than the column. */
  predicate FitsColumns(p: Project) {
    |p.name| <= NameWidth
  }

  /** `Project.to_dict()` */
  function ToDict(p: Project): (d: Body)
    ensures d.Keys == {"id", "name", "description", "status", "owner_id",
                       "start_date", "end_date", "created_at", "updated_at"}
  {
    map[
      "id" := Str(p.id),
      "name" := Str(p.name),
      "description" := Str(p.description),
      "status" := Str(StatusValue(p.status)),
      "owner_id" := Str(p.ownerId),
      "start_date" := IsoOrNull(p.startDate),
      "end_date" := IsoOrNull(p.endDate),
      "created_at" := IsoOrNull(p.createdAt),
      "updated_at" := IsoOrNull(p.updatedAt)]
  }

  /** The status a client reads back parses to the same member; dates are ISO text or null. */
  lemma ToDictRoundTrip(p: Project)
    ensures ParseStatus(ToDict(p)["status"]) == Some(p.status)
    ensures ToDict(p)["id"].Str? && ToDict(p)["owner_id"].Str?
    ensures ToDict(p)["start_date"] == Null <==> p.startDate.None?
    ensures ToDict(p)["end_date"] == Null <==> p.endDate.None?
  {
  }
}
