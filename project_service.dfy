/**
 * Project persistence (apps/services/project_service.py), in the same
 * shape as the task service: each writing method is specified by the
 * function of the same name with `Spec` appended.
 */
module ProjectService {
  import opened Common
  import P = ProjectModel
  import T = TaskModel
  import C = CommentModel
  import opened Store

  const Created := "Tạo dự án thành công"
  const CreateFailedPrefix := "Lỗi khi tạo dự án: "
  const NotFound := "Dự án không tồn tại"
  const Updated := "Cập nhật dự án thành công"
  const UpdateFailedPrefix := "Lỗi khi cập nhật: "
  const Deleted := "Xóa dự án thành công"
  const DeleteFailedPrefix := "Lỗi khi xóa: "

  datatype ProjectReply = ProjectReply(success: bool, message: string, project: Option<P.Project>)

  // ------------------------------------------------------------ lookups and queries

  /** `get_project_by_id(db, project_id)`: the position of the row with that id. */
  function Locate(projects: seq<P.Project>, id: string): (r: Option<nat>)
    ensures r.Some? ==> r.value < |projects| && projects[r.value].id == id
    ensures r.None? <==> !HasProject(projects, id)
  {
    var r := First(projects, (p: P.Project) => p.id == id);
    assert r.None? ==> forall p :: p in projects ==> p.id != id by {
      if r.None? {
        forall p | p in projects ensures p.id != id {
          var j :| 0 <= j < |projects| && projects[j] == p;
        }
      }
    }
    r
  }

  /** `get_projects_by_owner(db, owner_id, skip, limit)` */
  function ByOwner(projects: seq<P.Project>, ownerId: string, skip: int, limit: int): (r: Py<seq<P.Project>>)
    ensures r.Ret? <==> skip >= 0 && limit >= 0
    ensures r.Ret? ==> |r.value| <= limit && forall x :: x in r.value ==> x in projects && x.ownerId == ownerId
  {
    var mine := (p: P.Project) => p.ownerId == ownerId;
    FilteredWindow(projects, mine, skip, limit);
    Window(Filter(projects, mine), skip, limit)
  }

  /** `get_all_projects(db, skip, limit)` */
  function AllProjects(projects: seq<P.Project>, skip: int, limit: int): (r: Py<seq<P.Project>>)
    ensures r.Ret? <==> skip >= 0 && limit >= 0
    ensures r.Ret? ==> |r.value| <= limit && forall k :: 0 <= k < |r.value| ==> skip + k < |projects| && r.value[k] == projects[skip + k]
    ensures skip == 0 && limit >= |projects| ==> r == Ret(projects)
  {
    assert skip == 0 && limit >= |projects| ==> Window(projects, 0, limit).value == projects;
    Window(projects, skip, limit)
  }

  // ------------------------------------------------------------ create

  /** The row `create_project` adds: status PLANNING. */
  function NewProject(id: string, name: string, description: string, ownerId: string,
                      start: Cell<DateTime>, end: Cell<DateTime>, stamp: DateTime): P.Project {
    P.Project(id, name, description, P.DefaultStatus, ownerId, CellValue(start), CellValue(end), Some(stamp), Some(stamp))
  }

  /** The effect of `create_project`; a date the database refuses fails the commit. */
  function CreateProjectSpec(t: Tables, name: string, description: string, ownerId: string,
                             start: Cell<DateTime>, end: Cell<DateTime>,
                             newId: string, stamp: DateTime, fault: bool, errText: string): (ProjectReply, Tables) {
    var row := NewProject(newId, name, description, ownerId, start, end, stamp);
    var next := t.(projects := t.projects + [row]);
    if !fault && !start.Bad? && !end.Bad? && Committable(next) then (ProjectReply(true, Created, Some(row)), next)
    else (ProjectReply(false, CreateFailedPrefix + errText, None), t)
  }

  /** `create_project(db, name, description, owner_id, start_date, end_date)` */
  method CreateProject(db: Database, name: string, description: string, ownerId: string,
                       start: Cell<DateTime>, end: Cell<DateTime>,
                       newId: string, stamp: DateTime, fault: bool, errText: string) returns (r: ProjectReply)
    requires db.Valid()
    modifies db
    ensures db.Valid()
    ensures (r, db.Snapshot()) == CreateProjectSpec(old(db.Snapshot()), name, description, ownerId, start, end,
                                                    newId, stamp, fault, errText)
  {
    var row := NewProject(newId, name, description, ownerId, start, end, stamp);
    var ok := db.Commit(db.Snapshot().(projects := db.projects + [row]), fault || start.Bad? || end.Bad?);
    if ok {
      r := ProjectReply(true, Created, Some(row));
    } else {
      r := ProjectReply(false, CreateFailedPrefix + errText, None);
    }
  }

  // ------------------------------------------------------------ update

  /** One `key=value` argument of `update_project`; none of them can be None. */
  datatype ProjectField =
    | Name(name: string)
    | Description(description: string)
    | Status(status: P.ProjectStatus)

  function Apply(p: P.Project, f: ProjectField): P.Project {
    match f
    case Name(x) => p.(name := x)
    case Description(x) => p.(description := x)
    case Status(x) => p.(status := x)
  }

  function ApplyAll(p: P.Project, fs: seq<ProjectField>): P.Project
    decreases |fs|
  {
    if fs == [] then p else Apply(ApplyAll(p, fs[..|fs| - 1]), fs[|fs| - 1])
  }

  /** The row after the updates; `updated_at` is reset only when a column changed. */
  function Merged(p: P.Project, fs: seq<ProjectField>, stamp: DateTime): P.Project {
    var a := ApplyAll(p, fs);
    if a == p then p else a.(updatedAt := Some(stamp))
  }

  /** The effect of `update_project(db, project_id, **kwargs)`. */
  function UpdateProjectSpec(t: Tables, projectId: string, fs: seq<ProjectField>, stamp: DateTime,
                             fault: bool, errText: string): (ProjectReply, Tables) {
    match Locate(t.projects, projectId)
    case None => (ProjectReply(false, NotFound, None), t)
    case Some(i) =>
      var row := Merged(t.projects[i], fs, stamp);
      var next := t.(projects := t.projects[i := row]);
      if !fault && Committable(next) then (ProjectReply(true, Updated, Some(row)), next)
      else (ProjectReply(false, UpdateFailedPrefix + errText, None), t)
  }

  /** `update_project(db, project_id, **kwargs)` */
  method UpdateProject(db: Database, projectId: string, fs: seq<ProjectField>, stamp: DateTime, fault: bool, errText: string)
    returns (r: ProjectReply)
    requires db.Valid()
    modifies db
    ensures db.Valid()
    ensures (r, db.Snapshot()) == UpdateProjectSpec(old(db.Snapshot()), projectId, fs, stamp, fault, errText)
  {
    var found := Locate(db.projects, projectId);
    if found.None? {
      return ProjectReply(false, NotFound, None);
    }
    var i := found.value;
    var project := db.projects[i];
    for k := 0 to |fs|
      invariant project == ApplyAll(db.projects[i], fs[..k])
    {
      assert fs[..k + 1][..k] == fs[..k];
      match fs[k] {
        case Name(x) => project := project.(name := x);
        case Description(x) => project := project.(description := x);
        case Status(x) => project := project.(status := x);
      }
    }
    assert fs[..|fs|] == fs;
    if project != db.projects[i] {
      project := project.(updatedAt := Some(stamp));
    }
    var ok := db.Commit(db.Snapshot().(projects := db.projects[i := project]), fault);
    if ok {
      r := ProjectReply(true, Updated, Some(project));
    } else {
      r := ProjectReply(false, UpdateFailedPrefix + errText, None);
    }
  }

  /** `change_project_status(db, project_id, status)`: `update_project` with `status` alone. */
  method ChangeProjectStatus(db: Database, projectId: string, status: P.ProjectStatus, stamp: DateTime, fault: bool, errText: string)
    returns (r: ProjectReply)
    requires db.Valid()
    modifies db
    ensures db.Valid()
    ensures (r, db.Snapshot()) == UpdateProjectSpec(old(db.Snapshot()), projectId, [Status(status)], stamp, fault, errText)
  {
    r := UpdateProject(db, projectId, [Status(status)], stamp, fault, errText);
  }

  // ------------------------------------------------------------ delete

  /** A comment on one of the project's tasks. */
  predicate UnderProject(tasks: seq<T.Task>, id: string, c: C.Comment) {
    exists x :: x in tasks && x.projectId == id && x.id == c.taskId
  }

  /** `db.delete(project)`: the row goes, with its tasks and their comments (both relationships cascade). */
  function WithoutProject(t: Tables, id: string): Tables {
    t.(projects := Filter(t.projects, (p: P.Project) => p.id != id),
       tasks := Filter(t.tasks, (x: T.Task) => x.projectId != id),
       comments := Filter(t.comments, (c: C.Comment) => !UnderProject(t.tasks, id, c)))
  }

  /** The effect of `delete_project(db, project_id)`. */
  function DeleteProjectSpec(t: Tables, projectId: string, fault: bool, errText: string): (ProjectReply, Tables) {
    if Locate(t.projects, projectId).None? then (ProjectReply(false, NotFound, None), t)
    else
      var next := WithoutProject(t, projectId);
      if !fault && Committable(next) then (ProjectReply(true, Deleted, None), next)
      else (ProjectReply(false, DeleteFailedPrefix + errText, None), t)
  }

  /** `delete_project(db, project_id)` */
  method DeleteProject(db: Database, projectId: string, fault: bool, errText: string) returns (r: ProjectReply)
    requires db.Valid()
    modifies db
    ensures db.Valid()
    ensures (r, db.Snapshot()) == DeleteProjectSpec(old(db.Snapshot()), projectId, fault, errText)
  {
    var found := Locate(db.projects, projectId);
    if found.None? {
      return ProjectReply(false, NotFound, None);
    }
    var ok := db.Commit(WithoutProject(db.Snapshot(), projectId), fault);
    if ok {
      r := ProjectReply(true, Deleted, None);
    } else {
      r := ProjectReply(false, DeleteFailedPrefix + errText, None);
    }
  }

  /** `project_to_dict(project)` */
  function ProjectToDict(p: P.Project): (d: Body)
    ensures d.Keys == {"id", "name", "description", "status", "owner_id",
                       "start_date", "end_date", "created_at", "updated_at"}
    ensures d["id"] == Str(p.id) && d["owner_id"] == Str(p.ownerId) && d["name"] == Str(p.name)
  {
    P.ToDict(p)
  }

  // ------------------------------------------------------------ properties

  /** The value the last argument that sets a column gives it, or `dflt`. */
  function Last<X>(fs: seq<ProjectField>, pick: ProjectField -> Option<X>, dflt: X): X
    decreases |fs|
  {
    if fs == [] then dflt
    else match pick(fs[|fs| - 1])
      case Some(x) => x
      case None => Last(fs[..|fs| - 1], pick, dflt)
  }

  function NameOf(f: ProjectField): Option<string> { if f.Name? then Some(f.name) else None }
  function DescriptionOf(f: ProjectField): Option<string> { if f.Description? then Some(f.description) else None }
  function StatusOf(f: ProjectField): Option<P.ProjectStatus> { if f.Status? then Some(f.status) else None }

  /** The update loop writes each named column's last value and leaves every other column alone. */
  lemma {:induction false} ApplyAllIsLastWrite(p: P.Project, fs: seq<ProjectField>)
    ensures ApplyAll(p, fs) == p.(name := Last(fs, NameOf, p.name),
                                  description := Last(fs, DescriptionOf, p.description),
                                  status := Last(fs, StatusOf, p.status))
    decreases |fs|
  {
    if fs != [] {
      ApplyAllIsLastWrite(p, fs[..|fs| - 1]);
    }
  }

  /** An update never touches the id, the owner, the dates or `created_at`. */
  lemma MergedKeeps(p: P.Project, fs: seq<ProjectField>, stamp: DateTime)
    ensures var m := Merged(p, fs, stamp);
      && m.id == p.id && m.ownerId == p.ownerId && m.startDate == p.startDate
      && m.endDate == p.endDate && m.createdAt == p.createdAt
      && (m.updatedAt == p.updatedAt || m.updatedAt == Some(stamp))
  {
    ApplyAllIsLastWrite(p, fs);
  }

  /** `change_project_status` sets the status and nothing else (besides `updated_at`). */
  lemma StatusOnly(p: P.Project, s: P.ProjectStatus)
    ensures ApplyAll(p, [Status(s)]) == p.(status := s)
  {
    assert [Status(s)][..0] == [];
  }

  /**
   * An update of an unknown id answers "Dự án không tồn tại"; any failure
   * leaves the tables as they were; a success changes that row only.
   */
  lemma UpdateOutcome(t: Tables, projectId: string, fs: seq<ProjectField>, stamp: DateTime, fault: bool, errText: string)
    ensures var (r, after) := UpdateProjectSpec(t, projectId, fs, stamp, fault, errText);
      && (!HasProject(t.projects, projectId) ==> r == ProjectReply(false, NotFound, None) && after == t)
      && (!r.success ==> after == t && r.project.None?)
      && (r.success ==>
            && after.users == t.users && after.tasks == t.tasks && after.comments == t.comments
            && |after.projects| == |t.projects|
            && (forall k :: 0 <= k < |t.projects| && t.projects[k].id != projectId ==> after.projects[k] == t.projects[k])
            && r.project.Some? && r.project.value.id == projectId
            && Locate(t.projects, projectId).Some? && r.project.value == Merged(t.projects[Locate(t.projects, projectId).value], fs, stamp)
            && (forall x :: x in after.projects && x.id == projectId ==> x == r.project.value))
  {
    var (r, after) := UpdateProjectSpec(t, projectId, fs, stamp, fault, errText);
    if r.success {
      var i := Locate(t.projects, projectId).value;
      MergedKeeps(t.projects[i], fs, stamp);
      forall x | x in after.projects && x.id == projectId ensures x == r.project.value {
        var k :| 0 <= k < |after.projects| && after.projects[k] == x;
        assert UniqueBy(after.projects, (x: P.Project) => x.id);
        assert after.projects[i].id == projectId;
      }
    }
  }

  /** Deleting a project with its tasks and their comments keeps the schema: the delete fails only when the flush does. */
  lemma DeleteKeepsSchema(t: Tables, id: string)
    requires Committable(t)
    ensures Committable(WithoutProject(t, id))
  {
    var n := WithoutProject(t, id);
    FilterUnique(t.projects, (p: P.Project) => p.id != id, (p: P.Project) => p.id);
    FilterUnique(t.tasks, (x: T.Task) => x.projectId != id, (x: T.Task) => x.id);
    FilterUnique(t.comments, (c: C.Comment) => !UnderProject(t.tasks, id, c), (c: C.Comment) => c.id);
    forall x | x in n.tasks ensures TaskRowOk(n.users, n.projects, x) {
      assert x in t.tasks && x.projectId != id;
      var p :| p in t.projects && p.id == x.projectId;
      assert p in n.projects;
    }
    forall c | c in n.comments ensures CommentRowOk(n.users, n.tasks, c) {
      assert c in t.comments && !UnderProject(t.tasks, id, c);
      var x :| x in t.tasks && x.id == c.taskId;
      assert x in n.tasks;
    }
  }

  /**
   * A successful delete removes the project, exactly its tasks, and exactly
   * the comments on those tasks; everything else stays.
   */
  lemma DeleteOutcome(t: Tables, projectId: string, fault: bool, errText: string)
    requires Committable(t)
    ensures var (r, after) := DeleteProjectSpec(t, projectId, fault, errText);
      && (!HasProject(t.projects, projectId) ==> r == ProjectReply(false, NotFound, None) && after == t)
      && (HasProject(t.projects, projectId) ==> (r.success <==> !fault))
      && (!r.success ==> after == t)
      && (r.success ==>
            && after.users == t.users
            && (forall p :: p in after.projects <==> p in t.projects && p.id != projectId)
            && (forall x :: x in after.tasks <==> x in t.tasks && x.projectId != projectId)
            && (forall c :: c in after.comments <==> c in t.comments && !UnderProject(t.tasks, projectId, c)))
  {
    DeleteKeepsSchema(t, projectId);
  }

  /**
   * A created project has status PLANNING and the given owner and the table
   * grows by exactly that row; a project whose owner does not exist, or whose
   * name exceeds the column, is never stored.
   */
  lemma CreateOutcome(t: Tables, name: string, description: string, ownerId: string,
                      start: Cell<DateTime>, end: Cell<DateTime>,
                      newId: string, stamp: DateTime, fault: bool, errText: string)
    ensures var (r, after) := CreateProjectSpec(t, name, description, ownerId, start, end, newId, stamp, fault, errText);
      && (r.success ==>
            && r.project.Some? && after == t.(projects := t.projects + [r.project.value])
            && |after.projects| == |t.projects| + 1
            && r.project.value.status == P.Planning && r.project.value.ownerId == ownerId
            && r.project.value.name == name)
      && (!r.success ==> after == t && r == ProjectReply(false, CreateFailedPrefix + errText, None))
      && (!HasUser(t.users, ownerId) || |name| > P.NameWidth ==> !r.success)
  {
    var row := NewProject(newId, name, description, ownerId, start, end, stamp);
    var next := t.(projects := t.projects + [row]);
    assert row in next.projects;
  }

  /**
   * The owner query returns stored projects of that owner only, at most
   * `limit`; the unfiltered listing is the table's own window.
   */
  lemma QueriesMatch(projects: seq<P.Project>, ownerId: string, skip: int, limit: int)
    ensures ByOwner(projects, ownerId, skip, limit).Ret? <==> skip >= 0 && limit >= 0
    ensures ByOwner(projects, ownerId, skip, limit).Ret? ==>
      |ByOwner(projects, ownerId, skip, limit).value| <= limit
      && forall p :: p in ByOwner(projects, ownerId, skip, limit).value ==> p in projects && p.ownerId == ownerId
    ensures skip == 0 && limit >= |projects| ==>
      ByOwner(projects, ownerId, skip, limit) == Ret(Filter(projects, (p: P.Project) => p.ownerId == ownerId))
    ensures AllProjects(projects, skip, limit).Ret? ==>
      && |AllProjects(projects, skip, limit).value| == Min(limit, Max(0, |projects| - skip))
      && forall k :: 0 <= k < |AllProjects(projects, skip, limit).value| ==>
           AllProjects(projects, skip, limit).value[k] == projects[skip + k]
  {
    FilteredWindow(projects, (p: P.Project) => p.ownerId == ownerId, skip, limit);
  }

  /** The last name written is the old one or one of the arguments. */
  lemma {:induction false} LastNameFrom(fs: seq<ProjectField>, dflt: string)
    ensures Last(fs, NameOf, dflt) == dflt || exists k :: 0 <= k < |fs| && fs[k] == Name(Last(fs, NameOf, dflt))
    decreases |fs|
  {
    if fs != [] && NameOf(fs[|fs| - 1]).None? {
      var init := fs[..|fs| - 1];
      LastNameFrom(init, dflt);
      if Last(init, NameOf, dflt) != dflt {
        var k :| 0 <= k < |init| && init[k] == Name(Last(init, NameOf, dflt));
        assert fs[k] == init[k];
      }
    }
  }

  /**
   * Conversely, an update of a stored project succeeds whenever the flush
   * works and every name given fits the column.
   */
  lemma UpdateSucceeds(t: Tables, projectId: string, fs: seq<ProjectField>, stamp: DateTime, errText: string)
    requires Committable(t) && HasProject(t.projects, projectId)
    requires forall k :: 0 <= k < |fs| && fs[k].Name? ==> |fs[k].name| <= P.NameWidth
    ensures UpdateProjectSpec(t, projectId, fs, stamp, false, errText).0.success
  {
    var i := Locate(t.projects, projectId).value;
    var old_ := t.projects[i];
    var row := Merged(old_, fs, stamp);
    MergedKeeps(old_, fs, stamp);
    ApplyAllIsLastWrite(old_, fs);
    LastNameFrom(fs, old_.name);
    assert old_ in t.projects;
    assert ProjectRowOk(t.users, row);
    ReplaceUnique(t.projects, i, row, (x: P.Project) => x.id);
    var ps := t.projects[i := row];
    forall x | x in ps ensures ProjectRowOk(t.users, x) {
      var k :| 0 <= k < |ps| && ps[k] == x;
      if k != i { assert t.projects[k] in t.projects; }
    }
    forall x | x in t.tasks ensures TaskRowOk(t.users, ps, x) {
      var y :| y in t.projects && y.id == x.projectId;
      var k :| 0 <= k < |t.projects| && t.projects[k] == y;
      assert ps[k].id == y.id;
      assert ps[k] in ps;
    }
  }
}
