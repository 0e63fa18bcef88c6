/**
 * The project endpoints (apps/controllers/project_controller.py), in the
 * form of the task endpoints: writing handlers are methods on the database
 * specified by their `Handled` functions, read-only handlers are functions
 * of the tables. The validators are parameterised by the status names they
 * accept: `PV.StatusNames` as written, `PV.StatusValues` as intended.
 */
module ProjectController {
  import opened Common
  import opened Http
  import opened Store
  import P = ProjectModel
  import PV = ProjectValidation
  import PS = ProjectService
  import A = AuthService

  const StartInvalid := "Format ngày bắt đầu không hợp lệ"
  const EndInvalid := "Format ngày kết thúc không hợp lệ"
  const ProjectMissing := "Dự án không tồn tại"
  const StatusInvalid := "Trạng thái không hợp lệ"
  const NotYoursToEdit := "Bạn không có quyền sửa dự án này"
  const NotYoursToDelete := "Bạn không có quyền xóa dự án này"

  // ------------------------------------------------------------ create

  datatype CreateArgs = CreateArgs(name: string, description: string, start: Cell<DateTime>, end: Cell<DateTime>)

  /**
   * The lines of `create_project()` before its `try`: validation, the
   * stripped name and description, then the start and the end date, each
   * parsed when truthy. Exceptions here escape the view.
   */
  function PrepareCreate(data: Option<Body>, statusNames: seq<string>, parseDate: string -> Option<DateTime>): (p: Prepared<CreateArgs>)
    ensures p.Call? ==> data.Some? && PV.CreationWith(data, statusNames) == Ret(Verdict(true, PV.Valid))
    ensures p.Call? ==>
      var d := data.value;
      && d["name"].Str? && p.args.name == Strip(d["name"].s)
      && GetOr(d, "description", Str("")).Str? && p.args.description == Strip(GetOr(d, "description", Str("")).s)
      && IsoDate(Get(d, "start_date"), parseDate) == Some(p.args.start)
      && IsoDate(Get(d, "end_date"), parseDate) == Some(p.args.end)
    ensures data.Some? && PV.CreationWith(data, statusNames) == Ret(Verdict(true, PV.Valid))
            && StripField(data, "name").Ret? && StripValue(GetOr(data.value, "description", Str(""))).Ret? ==>
              && (IsoDate(Get(data.value, "start_date"), parseDate).None? ==> p == Answer(Fail(400, StartInvalid)))
              && (IsoDate(Get(data.value, "start_date"), parseDate).Some? && IsoDate(Get(data.value, "end_date"), parseDate).None?
                  ==> p == Answer(Fail(400, EndInvalid)))
  {
    match data
    case None => Answer(Unhandled(AttributeError))
    case Some(d) =>
      match Screen(PV.CreationWith(data, statusNames))
      case Some(r) => Answer(r)
      case None =>
        match StripField(data, "name")
        case Raise(e) => Answer(Unhandled(e))
        case Ret(name) =>
          match StripValue(GetOr(d, "description", Str("")))
          case Raise(e) => Answer(Unhandled(e))
          case Ret(description) =>
            match IsoDate(Get(d, "start_date"), parseDate)
            case None => Answer(Fail(400, StartInvalid))
            case Some(start) =>
              match IsoDate(Get(d, "end_date"), parseDate)
              case None => Answer(Fail(400, EndInvalid))
              case Some(end) => Call(CreateArgs(name, description, start, end))
  }

  /** `create_project(current_user)` on the tables `t`; the owner is the caller. */
  function CreateProjectHandled(t: Tables, current: A.Claims, data: Option<Body>, statusNames: seq<string>,
                                parseDate: string -> Option<DateTime>, newId: string, stamp: DateTime,
                                fault: bool, errText: string): (Response, Tables) {
    match PrepareCreate(data, statusNames, parseDate)
    case Answer(r) => (r, t)
    case Call(a) =>
      var (reply, after) := PS.CreateProjectSpec(t, a.name, a.description, current.userId, a.start, a.end,
                                                 newId, stamp, fault, errText);
      if !reply.success then (Fail(400, reply.message), after)
      else (Done(201, reply.message, Obj(PS.ProjectToDict(reply.project.value))), after)
  }

  /** `ProjectController.create_project(current_user)` */
  method CreateProject(db: Database, current: A.Claims, data: Option<Body>, statusNames: seq<string>,
                       parseDate: string -> Option<DateTime>, newId: string, stamp: DateTime,
                       fault: bool, errText: string) returns (resp: Response)
    requires db.Valid()
    modifies db
    ensures db.Valid()
    ensures (resp, db.Snapshot()) == CreateProjectHandled(old(db.Snapshot()), current, data, statusNames, parseDate, newId, stamp, fault, errText)
  {
    var p := PrepareCreate(data, statusNames, parseDate);
    if p.Answer? {
      return p.response;
    }
    var a := p.args;
    var r := PS.CreateProject(db, a.name, a.description, current.userId, a.start, a.end, newId, stamp, fault, errText);
    if !r.success {
      return Fail(400, r.message);
    }
    resp := Done(201, r.message, Obj(PS.ProjectToDict(r.project.value)));
  }

  // ------------------------------------------------------------ read

  /** `[project_to_dict(p) for p in projects]` */
  function Dicts(projects: seq<P.Project>): (ds: seq<Value>)
    ensures |ds| == |projects| && forall k :: 0 <= k < |projects| ==> ds[k] == Obj(P.ToDict(projects[k]))
  {
    seq(|projects|, k requires 0 <= k < |projects| => Obj(P.ToDict(projects[k])))
  }

  /** `get_project(current_user, project_id)`: any signed-in user may read any project. */
  function GetProject(projects: seq<P.Project>, projectId: string): (r: Response)
    ensures Status(r) == 200 <==> HasProject(projects, projectId)
    ensures !HasProject(projects, projectId) ==> r == Fail(404, ProjectMissing)
    ensures Status(r) == 200 ==>
      exists k :: 0 <= k < |projects| && projects[k].id == projectId && r == Data(200, Obj(P.ToDict(projects[k])))
  {
    match PS.Locate(projects, projectId)
    case None => Fail(404, ProjectMissing)
    case Some(i) => Data(200, Obj(PS.ProjectToDict(projects[i])))
  }

  /** `get_my_projects(current_user)`: the caller's own projects; `parseInt` is `int()` on a query argument. */
  function MyProjects(projects: seq<P.Project>, current: A.Claims, args: map<string, string>, parseInt: string -> Option<int>): (r: Response)
    ensures Status(r) == 200 <==> Succeeded(r)
    ensures Succeeded(r) <==>
      && IntArg(args, "skip", 0, parseInt).Ret? && IntArg(args, "skip", 0, parseInt).value >= 0
      && IntArg(args, "limit", 100, parseInt).Ret? && IntArg(args, "limit", 100, parseInt).value >= 0
  {
    match IntArg(args, "skip", 0, parseInt)
    case Raise(e) => ServerError(e)
    case Ret(skip) =>
      match IntArg(args, "limit", 100, parseInt)
      case Raise(e) => ServerError(e)
      case Ret(limit) => Caught(PS.ByOwner(projects, current.userId, skip, limit), (ps: seq<P.Project>) => Listed(Dicts(ps)))
  }

  // ------------------------------------------------------------ update

  /** `data[key].strip()` if `key in data`, inside the `try`. */
  function StripIfPresent(d: Body, key: string): Py<Option<string>> {
    if key !in d then Ret(None)
    else match StripValue(d[key])
      case Raise(e) => Raise(e)
      case Ret(s) => Ret(Some(s))
  }

  /** The `update_data` arguments `update_project()` builds, in the order name, description, status. */
  function UpdateFields(d: Body): Prepared<seq<PS.ProjectField>> {
    match StripIfPresent(d, "name")
    case Raise(e) => Answer(ServerError(e))
    case Ret(name) =>
      match StripIfPresent(d, "description")
      case Raise(e) => Answer(ServerError(e))
      case Ret(description) =>
        if "status" in d && P.ParseStatus(d["status"]).None? then Answer(Fail(400, StatusInvalid))
        else Call(Fields(name, description, if "status" in d then P.ParseStatus(d["status"]) else None))
  }

  /** The arguments for the columns that are given, in the order name, description, status. */
  function Fields(name: Option<string>, description: Option<string>, status: Option<P.ProjectStatus>): seq<PS.ProjectField> {
    var fs0: seq<PS.ProjectField> := [];
    var fs1 := if name.Some? then fs0 + [PS.Name(name.value)] else fs0;
    var fs2 := if description.Some? then fs1 + [PS.Description(description.value)] else fs1;
    if status.Some? then fs2 + [PS.Status(status.value)] else fs2
  }

  /** `update_project(current_user, project_id)` on the tables `t`: validation, 404, owner check, then the update. */
  function UpdateProjectHandled(t: Tables, current: A.Claims, projectId: string, data: Option<Body>, statusNames: seq<string>,
                                stamp: DateTime, fault: bool, errText: string): (Response, Tables) {
    match data
    case None => (Unhandled(AttributeError), t)
    case Some(d) =>
      match Screen(PV.UpdateWith(data, statusNames))
      case Some(r) => (r, t)
      case None =>
        match PS.Locate(t.projects, projectId)
        case None => (Fail(404, ProjectMissing), t)
        case Some(i) =>
          if t.projects[i].ownerId != current.userId then (Fail(403, NotYoursToEdit), t)
          else match UpdateFields(d)
            case Answer(r) => (r, t)
            case Call(fs) =>
              var (reply, after) := PS.UpdateProjectSpec(t, projectId, fs, stamp, fault, errText);
              if !reply.success then (Fail(400, reply.message), after)
              else (Done(200, reply.message, Obj(PS.ProjectToDict(reply.project.value))), after)
  }

  /** `ProjectController.update_project(current_user, project_id)`: `update_data` is built one key at a time. */
  method UpdateProject(db: Database, current: A.Claims, projectId: string, data: Option<Body>, statusNames: seq<string>,
                       stamp: DateTime, fault: bool, errText: string) returns (resp: Response)
    requires db.Valid()
    modifies db
    ensures db.Valid()
    ensures (resp, db.Snapshot()) == UpdateProjectHandled(old(db.Snapshot()), current, projectId, data, statusNames, stamp, fault, errText)
  {
    if data.None? {
      return Unhandled(AttributeError);
    }
    var d := data.value;
    var screen := Screen(PV.UpdateWith(data, statusNames));
    if screen.Some? {
      return screen.value;
    }
    var found := PS.Locate(db.projects, projectId);
    if found.None? {
      return Fail(404, ProjectMissing);
    }
    if db.projects[found.value].ownerId != current.userId {
      return Fail(403, NotYoursToEdit);
    }
    var name := StripIfPresent(d, "name");
    if name.Raise? {
      return ServerError(name.exc);
    }
    var description := StripIfPresent(d, "description");
    if description.Raise? {
      return ServerError(description.exc);
    }
    var updates: seq<PS.ProjectField> := [];
    if name.value.Some? {
      updates := updates + [PS.Name(name.value.value)];
    }
    if description.value.Some? {
      updates := updates + [PS.Description(description.value.value)];
    }
    if "status" in d {
      var s := P.ParseStatus(d["status"]);
      if s.None? {
        return Fail(400, StatusInvalid);
      }
      updates := updates + [PS.Status(s.value)];
    }
    assert UpdateFields(d) == Call(updates);
    var r := PS.UpdateProject(db, projectId, updates, stamp, fault, errText);
    if !r.success {
      return Fail(400, r.message);
    }
    resp := Done(200, r.message, Obj(PS.ProjectToDict(r.project.value)));
  }

  // ------------------------------------------------------------ delete

  /** `delete_project(current_user, project_id)` on the tables `t`. */
  function DeleteProjectHandled(t: Tables, current: A.Claims, projectId: string, fault: bool, errText: string): (Response, Tables) {
    match PS.Locate(t.projects, projectId)
    case None => (Fail(404, ProjectMissing), t)
    case Some(i) =>
      if t.projects[i].ownerId != current.userId then (Fail(403, NotYoursToDelete), t)
      else
        var (reply, after) := PS.DeleteProjectSpec(t, projectId, fault, errText);
        if !reply.success then (Fail(400, reply.message), after) else (DoneNoData(200, reply.message), after)
  }

  /** `ProjectController.delete_project(current_user, project_id)` */
  method DeleteProject(db: Database, current: A.Claims, projectId: string, fault: bool, errText: string) returns (resp: Response)
    requires db.Valid()
    modifies db
    ensures db.Valid()
    ensures (resp, db.Snapshot()) == DeleteProjectHandled(old(db.Snapshot()), current, projectId, fault, errText)
  {
    var found := PS.Locate(db.projects, projectId);
    if found.None? {
      return Fail(404, ProjectMissing);
    }
    if db.projects[found.value].ownerId != current.userId {
      return Fail(403, NotYoursToDelete);
    }
    var r := PS.DeleteProject(db, projectId, fault, errText);
    if !r.success {
      return Fail(400, r.message);
    }
    resp := DoneNoData(200, r.message);
  }

  // ------------------------------------------------------------ properties

  /** The stored project the request names is owned by this user. */
  predicate OwnedBy(t: Tables, projectId: string, userId: string) {
    exists x :: x in t.projects && x.id == projectId && x.ownerId == userId
  }

  /** Where the project is stored, when the caller owns it. */
  lemma OwnerAt(t: Tables, projectId: string, userId: string) returns (i: nat)
    requires Committable(t) && OwnedBy(t, projectId, userId)
    ensures PS.Locate(t.projects, projectId) == Some(i) && i < |t.projects| && t.projects[i].ownerId == userId
  {
    var x :| x in t.projects && x.id == projectId && x.ownerId == userId;
    i := PS.Locate(t.projects, projectId).value;
    var k :| 0 <= k < |t.projects| && t.projects[k] == x;
    assert t.projects[k].id == t.projects[i].id;
  }

  /**
   * Only the project's owner can change the tables through
   * `update_project()` or `delete_project()`, and a request that changes
   * them reports success.
   */
  lemma OnlyOwnerWrites(t: Tables, current: A.Claims, projectId: string, data: Option<Body>, statusNames: seq<string>,
                        stamp: DateTime, fault: bool, errText: string)
    ensures var (resp, after) := UpdateProjectHandled(t, current, projectId, data, statusNames, stamp, fault, errText);
      after != t ==> OwnedBy(t, projectId, current.userId) && Succeeded(resp)
    ensures var (resp, after) := DeleteProjectHandled(t, current, projectId, fault, errText);
      after != t ==> OwnedBy(t, projectId, current.userId) && Succeeded(resp)
  {
    if HasProject(t.projects, projectId) {
      var i := PS.Locate(t.projects, projectId).value;
      assert t.projects[i] in t.projects;
    }
  }

  /**
   * The owner's delete of a stored project succeeds unless the flush fails,
   * and removes the project, its tasks and the comments on them.
   */
  lemma OwnerDeleteCascades(t: Tables, current: A.Claims, projectId: string, errText: string)
    requires Committable(t) && OwnedBy(t, projectId, current.userId)
    ensures var (resp, after) := DeleteProjectHandled(t, current, projectId, false, errText);
      && resp == DoneNoData(200, PS.Deleted)
      && after == PS.WithoutProject(t, projectId)
      && (forall x :: x in after.tasks ==> x.projectId != projectId)
      && (forall c :: c in after.comments ==> !PS.UnderProject(t.tasks, projectId, c))
  {
    var i := OwnerAt(t, projectId, current.userId);
    assert t.projects[i] in t.projects;
    PS.DeleteOutcome(t, projectId, false, errText);
  }

  /** Applying one more argument applies it to the result of the others. */
  lemma ApplySnoc(p: P.Project, fs: seq<PS.ProjectField>, f: PS.ProjectField)
    ensures PS.ApplyAll(p, fs + [f]) == PS.Apply(PS.ApplyAll(p, fs), f)
  {
    assert (fs + [f])[..|fs|] == fs;
  }

  /** Applying the arguments sets exactly the given columns. */
  lemma FieldsEffect(p: P.Project, name: Option<string>, description: Option<string>, status: Option<P.ProjectStatus>)
    ensures PS.ApplyAll(p, Fields(name, description, status)) == p.(
      name := if name.Some? then name.value else p.name,
      description := if description.Some? then description.value else p.description,
      status := if status.Some? then status.value else p.status)
  {
    var fs0: seq<PS.ProjectField> := [];
    var fs1 := if name.Some? then fs0 + [PS.Name(name.value)] else fs0;
    var fs2 := if description.Some? then fs1 + [PS.Description(description.value)] else fs1;
    if name.Some? { ApplySnoc(p, fs0, PS.Name(name.value)); }
    if description.Some? { ApplySnoc(p, fs1, PS.Description(description.value)); }
    if status.Some? { ApplySnoc(p, fs2, PS.Status(status.value)); }
  }

  /** The row an update writes: each column named in the body takes the stripped text or the parsed status. */
  lemma UpdateFieldsEffect(p: P.Project, d: Body)
    requires UpdateFields(d).Call?
    ensures PS.ApplyAll(p, UpdateFields(d).args) == p.(
      name := if "name" in d then Strip(d["name"].s) else p.name,
      description := if "description" in d then Strip(d["description"].s) else p.description,
      status := if "status" in d then P.ParseStatus(d["status"]).value else p.status)
  {
    FieldsEffect(p, if "name" in d then Some(Strip(d["name"].s)) else None,
                 if "description" in d then Some(Strip(d["description"].s)) else None,
                 if "status" in d then P.ParseStatus(d["status"]) else None);
  }

  /** As written, no update with a `status` key stores anything, whoever asks and whatever the value. */
  lemma AsWrittenStatusRejected(t: Tables, current: A.Claims, projectId: string, d: Body,
                                stamp: DateTime, fault: bool, errText: string)
    requires "status" in d
    ensures var (resp, after) := UpdateProjectHandled(t, current, projectId, Some(d), PV.StatusNames, stamp, fault, errText);
      !Succeeded(resp) && after == t
  {
    if PV.UpdateWith(Some(d), PV.StatusNames) == Ret(Verdict(true, PV.Valid)) {
      PV.AcceptedStatusNeverParses(Some(d));
    }
  }

  /** A body naming only an enumeration status passes the intended validator and becomes one argument. */
  lemma StatusBody(s: P.ProjectStatus)
    ensures var d := map["status" := Str(P.StatusValue(s))];
      && PV.UpdateWith(Some(d), PV.StatusValues) == Ret(Verdict(true, PV.Valid))
      && UpdateFields(d) == Call([PS.Status(s)])
  {
    var d := map["status" := Str(P.StatusValue(s))];
    PV.UpdateAccepted(Some(d), PV.StatusValues);
    assert P.StatusValue(s) in PV.StatusValues;
    assert "name" !in d && "description" !in d;
    assert StripIfPresent(d, "name") == Ret(None);
    assert StripIfPresent(d, "description") == Ret(None);
    assert P.ParseStatus(d["status"]) == Some(s);
    var e: seq<PS.ProjectField> := [];
    assert e + [PS.Status(s)] == [PS.Status(s)];
    assert Fields(None, None, Some(s)) == [PS.Status(s)];
  }

  /** A successful status update stores a row with that id and that status. */
  lemma StatusStored(t: Tables, projectId: string, s: P.ProjectStatus, stamp: DateTime, errText: string)
    ensures var (reply, after) := PS.UpdateProjectSpec(t, projectId, [PS.Status(s)], stamp, false, errText);
      reply.success ==> reply.project.Some? && reply.project.value in after.projects
                        && reply.project.value.id == projectId && reply.project.value.status == s
  {
    if HasProject(t.projects, projectId) {
      var i := PS.Locate(t.projects, projectId).value;
      PS.StatusOnly(t.projects[i], s);
      var row := PS.Merged(t.projects[i], [PS.Status(s)], stamp);
      assert row.status == s && row.id == projectId;
      assert t.projects[i := row][i] == row;
    }
  }

  /**
   * With the intended names, the owner can set the project's status: the
   * request succeeds with 200 and the stored row has the new status. As
   * written, the same request is refused and nothing changes.
   */
  lemma IntendedStatusUpdate(t: Tables, current: A.Claims, projectId: string, s: P.ProjectStatus, stamp: DateTime, errText: string)
    requires Committable(t) && OwnedBy(t, projectId, current.userId)
    ensures var d := map["status" := Str(P.StatusValue(s))];
      var (resp, after) := UpdateProjectHandled(t, current, projectId, Some(d), PV.StatusValues, stamp, false, errText);
      && Status(resp) == 200 && Succeeded(resp)
      && exists x :: x in after.projects && x.id == projectId && x.status == s
    ensures var d := map["status" := Str(P.StatusValue(s))];
      var (resp, after) := UpdateProjectHandled(t, current, projectId, Some(d), PV.StatusNames, stamp, false, errText);
      !Succeeded(resp) && after == t
  {
    var d := map["status" := Str(P.StatusValue(s))];
    StatusBody(s);
    assert Screen(PV.UpdateWith(Some(d), PV.StatusValues)).None?;
    var i := OwnerAt(t, projectId, current.userId);
    var fs := [PS.Status(s)];
    PS.UpdateSucceeds(t, projectId, fs, stamp, errText);
    var (reply, after) := PS.UpdateProjectSpec(t, projectId, fs, stamp, false, errText);
    assert reply.success && reply.project.Some?;
    assert UpdateProjectHandled(t, current, projectId, Some(d), PV.StatusValues, stamp, false, errText)
        == (Done(200, reply.message, Obj(PS.ProjectToDict(reply.project.value))), after);
    StatusStored(t, projectId, s, stamp, errText);
    AsWrittenStatusRejected(t, current, projectId, d, stamp, false, errText);
  }

  /**
   * Once the request is read, a project is stored exactly when the service
   * succeeds: its owner is the caller, its status PLANNING, and the answer
   * is 201 with the new row; otherwise the tables are unchanged.
   */
  lemma CreateAnswers(t: Tables, current: A.Claims, data: Option<Body>, statusNames: seq<string>,
                      parseDate: string -> Option<DateTime>, newId: string, stamp: DateTime, fault: bool, errText: string)
    requires PrepareCreate(data, statusNames, parseDate).Call?
    ensures var a := PrepareCreate(data, statusNames, parseDate).args;
      var (resp, after) := CreateProjectHandled(t, current, data, statusNames, parseDate, newId, stamp, fault, errText);
      && (after != t <==> Succeeded(resp))
      && (!HasUser(t.users, current.userId) ==> Status(resp) == 400 && after == t)
      && (Succeeded(resp) ==>
            var row := PS.NewProject(newId, a.name, a.description, current.userId, a.start, a.end, stamp);
            && row.status == P.Planning
            && after == t.(projects := t.projects + [row])
            && resp == Done(201, PS.Created, Obj(P.ToDict(row))))
  {
    var a := PrepareCreate(data, statusNames, parseDate).args;
    PS.CreateOutcome(t, a.name, a.description, current.userId, a.start, a.end, newId, stamp, fault, errText);
  }

  /**
   * The caller's listing carries only their own projects, with its count; a
   * `skip` that is not a number is a 500.
   */
  lemma MyProjectsListing(projects: seq<P.Project>, current: A.Claims, args: map<string, string>, parseInt: string -> Option<int>)
    ensures var resp := MyProjects(projects, current, args, parseInt);
      && (Succeeded(resp) ==>
            && resp.body["count"] == Int(|resp.body["data"].items|)
            && forall v :: v in resp.body["data"].items ==>
                 exists p :: p in projects && p.ownerId == current.userId && v == Obj(P.ToDict(p)))
      && ("skip" in args && parseInt(args["skip"]).None? ==> resp == ServerError(ValueError))
  {
    var resp := MyProjects(projects, current, args, parseInt);
    if Succeeded(resp) {
      var skip := IntArg(args, "skip", 0, parseInt).value;
      var limit := IntArg(args, "limit", 100, parseInt).value;
      var ps := PS.ByOwner(projects, current.userId, skip, limit).value;
      assert resp == Listed(Dicts(ps));
      forall v | v in resp.body["data"].items
        ensures exists p :: p in projects && p.ownerId == current.userId && v == Obj(P.ToDict(p))
      {
        var k :| 0 <= k < |ps| && Dicts(ps)[k] == v;
        assert ps[k] in ps;
      }
    }
  }
}
