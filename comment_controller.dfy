/**
 * The comment endpoints (apps/controllers/comment_controller.py). As for
 * tasks and projects, each handler that writes is a method on the database
 * proved equal to its `Handled` function, and the read-only handlers are
 * functions of the tables. `isUuid` stands for whether `uuid.UUID(...)`
 * accepts a text, `parseInt` for `int()` on a query argument.
 */
module CommentController {
  import opened Common
  import opened Http
  import opened Store
  import U = UserModel
  import C = CommentModel
  import CV = CommentValidation
  import CS = CommentService
  import TS = TaskService
  import A = AuthService

  const TaskMissing := "Task không tồn tại"
  const CommentMissing := "Comment không tồn tại"
  const NotYoursToEdit := "Bạn không có quyền sửa comment này"
  const NotYoursToDelete := "Bạn không có quyền xóa comment này"

  /** The validator's answer, before anything else: an exception escapes the view, a refusal is sent back. */
  function Checked(v: Py<Option<Response>>): Option<Response> {
    match v
    case Raise(e) => Some(Unhandled(e))
    case Ret(r) => r
  }

  /** `comment_to_dict(c, include_author=True)` for each comment of a page. */
  function CommentDicts(comments: seq<C.Comment>, users: seq<U.User>): (ds: seq<Value>)
    ensures |ds| == |comments|
    ensures forall k :: 0 <= k < |comments| ==> ds[k] == Obj(CS.CommentToDict(comments[k], true, users))
  {
    seq(|comments|, k requires 0 <= k < |comments| => Obj(CS.CommentToDict(comments[k], true, users)))
  }

  /** `{'comments': [...], 'pagination': pagination}` */
  function Paged(comments: seq<C.Comment>, users: seq<U.User>, pagination: Body): Value {
    Obj(map["comments" := Arr(CommentDicts(comments, users)), "pagination" := Obj(pagination)])
  }

  /** Python's `a // b`: the floor of the quotient; a zero divisor raises. */
  function FloorDiv(a: int, b: int): (r: Py<int>)
    ensures r.Raise? <==> b == 0
    ensures r.Raise? ==> r.exc == ZeroDivisionError
    ensures b > 0 && r.Ret? ==> b * r.value <= a < b * r.value + b
    ensures b < 0 && r.Ret? ==> b * r.value + b < a <= b * r.value
  {
    if b == 0 then Raise(ZeroDivisionError)
    else if b > 0 then
      var q := a / b;
      assert a == b * q + a % b;
      Ret(q)
    else
      var q := (-a) / (-b);
      assert -a == (-b) * q + (-a) % (-b);
      Ret(q)
  }

  /** The `page` and `limit` query arguments (`type=int`, defaults 1 and 20) and the `skip` they give. */
  function PageOf(args: map<string, string>, parseInt: string -> Option<int>): int {
    TypedIntArg(args, "page", 1, parseInt)
  }

  function LimitOf(args: map<string, string>, parseInt: string -> Option<int>): int {
    TypedIntArg(args, "limit", 20, parseInt)
  }

  function SkipOf(args: map<string, string>, parseInt: string -> Option<int>): int {
    (PageOf(args, parseInt) - 1) * LimitOf(args, parseInt)
  }

  // ------------------------------------------------------------ create

  /**
   * `create_comment(current_user)` on the tables `t`. The content is
   * stripped, the task id is used as sent (the validator stripped only its
   * own copy); a task id that finds no task is a 404.
   */
  function CreateCommentHandled(t: Tables, current: A.Claims, data: Option<Body>, newId: string,
                                stamp: DateTime, fault: bool, errText: string): (Response, Tables) {
    match Checked(CV.ValidateCreateComment(data))
    case Some(r) => (r, t)
    case None =>
      match StripField(data, "content")
      case Raise(e) => (Unhandled(e), t)
      case Ret(content) =>
        match RawField(data, "task_id")
        case Raise(e) => (Unhandled(e), t)
        case Ret(taskId) =>
          if !taskId.Str? || TS.Locate(t.tasks, taskId.s).None? then (Fail(404, TaskMissing), t)
          else
            var (reply, after) := CS.CreateCommentSpec(t, content, taskId.s, current.userId, newId, stamp, fault, errText);
            if !reply.success then (Fail(400, reply.message), after)
            else (Done(201, reply.message, Obj(CS.CommentToDict(reply.comment.value, true, after.users))), after)
  }

  /** `CommentController.create_comment(current_user)` */
  method CreateComment(db: Database, current: A.Claims, data: Option<Body>, newId: string,
                       stamp: DateTime, fault: bool, errText: string) returns (resp: Response)
    requires db.Valid()
    modifies db
    ensures db.Valid()
    ensures (resp, db.Snapshot()) == CreateCommentHandled(old(db.Snapshot()), current, data, newId, stamp, fault, errText)
  {
    var refusal := Checked(CV.ValidateCreateComment(data));
    if refusal.Some? {
      return refusal.value;
    }
    var content := StripField(data, "content");
    if content.Raise? {
      return Unhandled(content.exc);
    }
    var taskId := RawField(data, "task_id");
    if taskId.Raise? {
      return Unhandled(taskId.exc);
    }
    if !taskId.value.Str? || TS.Locate(db.tasks, taskId.value.s).None? {
      return Fail(404, TaskMissing);
    }
    var r := CS.CreateComment(db, content.value, taskId.value.s, current.userId, newId, stamp, fault, errText);
    if !r.success {
      return Fail(400, r.message);
    }
    resp := Done(201, r.message, Obj(CS.CommentToDict(r.comment.value, true, db.users)));
  }

  // ------------------------------------------------------------ read

  /** `get_comment(current_user, comment_id)` */
  function GetComment(t: Tables, commentId: string, isUuid: string -> bool): (r: Response)
    ensures Status(r) == 200 <==> commentId != [] && isUuid(commentId) && CS.HasComment(t.comments, commentId)
    ensures !(commentId != [] && isUuid(commentId)) ==> Status(r) == 400
    ensures Status(r) == 200 ==>
      exists k :: 0 <= k < |t.comments| && t.comments[k].id == commentId && r == Data(200, Obj(CS.CommentToDict(t.comments[k], true, t.users)))
  {
    match CV.ValidateCommentId(commentId, isUuid)
    case Some(r) => r
    case None =>
      match CS.Locate(t.comments, commentId)
      case None => Fail(404, CommentMissing)
      case Some(i) => Data(200, Obj(CS.CommentToDict(t.comments[i], true, t.users)))
  }

  /**
   * `get_comments_by_task(current_user, task_id)`: a page of the task's
   * comments with the total and the page count `(total + limit - 1) //
   * limit`. `countFault` is a failure of the count query, which counts 0.
   */
  function CommentsByTask(t: Tables, taskId: string, args: map<string, string>,
                          parseInt: string -> Option<int>, countFault: bool): (r: Response)
    ensures !HasTask(t.tasks, taskId) ==> r == Fail(404, TaskMissing)
    ensures Status(r) == 200 ==> HasTask(t.tasks, taskId) && Succeeded(r)
    ensures r.Json? ==> r.status == 200 || r.status == 404
  {
    if TS.Locate(t.tasks, taskId).None? then Fail(404, TaskMissing)
    else
      var page := PageOf(args, parseInt);
      var limit := LimitOf(args, parseInt);
      match CS.ByTask(t.comments, taskId, SkipOf(args, parseInt), limit)
      case Raise(e) => ServerError(e)
      case Ret(cs) =>
        var total := CS.CountCommentsByTask(t.comments, taskId, countFault);
        match FloorDiv(total + limit - 1, limit)
        case Raise(e) => ServerError(e)
        case Ret(pages) =>
          Data(200, Paged(cs, t.users, map["page" := Int(page), "limit" := Int(limit), "total" := Int(total), "pages" := Int(pages)]))
  }

  /** `get_my_comments(current_user)`: a page of the caller's comments, without a total. */
  function MyComments(t: Tables, current: A.Claims, args: map<string, string>, parseInt: string -> Option<int>): (r: Response)
    ensures r == ServerError(DatabaseError) || (r.Json? && r.status == 200 && Succeeded(r))
  {
    var page := PageOf(args, parseInt);
    var limit := LimitOf(args, parseInt);
    Caught(CS.ByAuthor(t.comments, current.userId, SkipOf(args, parseInt), limit),
           (cs: seq<C.Comment>) => Data(200, Paged(cs, t.users, map["page" := Int(page), "limit" := Int(limit)])))
  }

  // ------------------------------------------------------------ update

  /** `update_comment(current_user, comment_id)` on the tables `t`. */
  function UpdateCommentHandled(t: Tables, current: A.Claims, commentId: string, data: Option<Body>,
                                isUuid: string -> bool, stamp: DateTime, fault: bool, errText: string): (Response, Tables) {
    match CV.ValidateCommentId(commentId, isUuid)
    case Some(r) => (r, t)
    case None =>
      match Checked(CV.ValidateUpdateComment(data))
      case Some(r) => (r, t)
      case None =>
        match StripField(data, "content")
        case Raise(e) => (Unhandled(e), t)
        case Ret(content) => UpdateLocated(t, current, commentId, content, stamp, fault, errText)
  }

  /** The rest of `update_comment` once the stripped content is known: look the comment up, check the author, update. */
  function UpdateLocated(t: Tables, current: A.Claims, commentId: string, content: string,
                         stamp: DateTime, fault: bool, errText: string): (Response, Tables) {
    match CS.Locate(t.comments, commentId)
    case None => (Fail(404, CommentMissing), t)
    case Some(i) =>
      if !CS.IsCommentAuthor(t.comments[i], current.userId) then (Fail(403, NotYoursToEdit), t)
      else
        var (reply, after) := CS.UpdateCommentSpec(t, commentId, content, stamp, fault, errText);
        if !reply.success then (Fail(400, reply.message), after)
        else (Done(200, reply.message, Obj(CS.CommentToDict(reply.comment.value, true, after.users))), after)
  }

  /** `CommentController.update_comment(current_user, comment_id)` */
  method UpdateComment(db: Database, current: A.Claims, commentId: string, data: Option<Body>,
                       isUuid: string -> bool, stamp: DateTime, fault: bool, errText: string) returns (resp: Response)
    requires db.Valid()
    modifies db
    ensures db.Valid()
    ensures (resp, db.Snapshot()) == UpdateCommentHandled(old(db.Snapshot()), current, commentId, data, isUuid, stamp, fault, errText)
  {
    var badId := CV.ValidateCommentId(commentId, isUuid);
    if badId.Some? {
      return badId.value;
    }
    var refusal := Checked(CV.ValidateUpdateComment(data));
    if refusal.Some? {
      return refusal.value;
    }
    var content := StripField(data, "content");
    if content.Raise? {
      return Unhandled(content.exc);
    }
    var found := CS.Locate(db.comments, commentId);
    if found.None? {
      return Fail(404, CommentMissing);
    }
    if !CS.IsCommentAuthor(db.comments[found.value], current.userId) {
      return Fail(403, NotYoursToEdit);
    }
    var r := CS.UpdateComment(db, commentId, content.value, stamp, fault, errText);
    if !r.success {
      return Fail(400, r.message);
    }
    resp := Done(200, r.message, Obj(CS.CommentToDict(r.comment.value, true, db.users)));
  }

  // ------------------------------------------------------------ delete

  /** `delete_comment(current_user, comment_id)` on the tables `t`. */
  function DeleteCommentHandled(t: Tables, current: A.Claims, commentId: string, isUuid: string -> bool,
                                fault: bool, errText: string): (Response, Tables) {
    match CV.ValidateCommentId(commentId, isUuid)
    case Some(r) => (r, t)
    case None =>
      match CS.Locate(t.comments, commentId)
      case None => (Fail(404, CommentMissing), t)
      case Some(i) =>
        if !CS.IsCommentAuthor(t.comments[i], current.userId) then (Fail(403, NotYoursToDelete), t)
        else
          var (reply, after) := CS.DeleteCommentSpec(t, commentId, fault, errText);
          if !reply.success then (Fail(400, reply.message), after) else (DoneNoData(200, reply.message), after)
  }

  /** `CommentController.delete_comment(current_user, comment_id)` */
  method DeleteComment(db: Database, current: A.Claims, commentId: string, isUuid: string -> bool,
                       fault: bool, errText: string) returns (resp: Response)
    requires db.Valid()
    modifies db
    ensures db.Valid()
    ensures (resp, db.Snapshot()) == DeleteCommentHandled(old(db.Snapshot()), current, commentId, isUuid, fault, errText)
  {
    var badId := CV.ValidateCommentId(commentId, isUuid);
    if badId.Some? {
      return badId.value;
    }
    var found := CS.Locate(db.comments, commentId);
    if found.None? {
      return Fail(404, CommentMissing);
    }
    if !CS.IsCommentAuthor(db.comments[found.value], current.userId) {
      return Fail(403, NotYoursToDelete);
    }
    var r := CS.DeleteComment(db, commentId, fault, errText);
    if !r.success {
      return Fail(400, r.message);
    }
    resp := DoneNoData(200, r.message);
  }

  // ------------------------------------------------------------ properties

  /** The stored comment the request names, and whether the caller wrote it. */
  predicate WrittenBy(t: Tables, commentId: string, userId: string) {
    exists c :: c in t.comments && c.id == commentId && c.authorId == userId
  }

  /**
   * Only the comment's author can change the tables through
   * `update_comment()` or `delete_comment()`, and a request that changes
   * them reports success.
   */
  lemma OnlyAuthorWrites(t: Tables, current: A.Claims, commentId: string, data: Option<Body>,
                         isUuid: string -> bool, stamp: DateTime, fault: bool, errText: string)
    ensures var (resp, after) := UpdateCommentHandled(t, current, commentId, data, isUuid, stamp, fault, errText);
      after != t ==> WrittenBy(t, commentId, current.userId) && Succeeded(resp)
    ensures var (resp, after) := DeleteCommentHandled(t, current, commentId, isUuid, fault, errText);
      after != t ==> WrittenBy(t, commentId, current.userId) && Succeeded(resp)
  {
    if CS.HasComment(t.comments, commentId) {
      var i := CS.Locate(t.comments, commentId).value;
      assert t.comments[i] in t.comments;
    }
  }

  /**
   * A malformed comment id is answered first, by every handler that takes
   * one, whatever the body says; the tables stay as they were.
   */
  lemma BadIdFirst(t: Tables, current: A.Claims, commentId: string, data: Option<Body>,
                   isUuid: string -> bool, stamp: DateTime, fault: bool, errText: string)
    requires commentId == [] || !isUuid(commentId)
    ensures var r := CV.ValidateCommentId(commentId, isUuid).value;
      && Status(r) == 400
      && GetComment(t, commentId, isUuid) == r
      && UpdateCommentHandled(t, current, commentId, data, isUuid, stamp, fault, errText) == (r, t)
      && DeleteCommentHandled(t, current, commentId, isUuid, fault, errText) == (r, t)
  {
  }

  /**
   * On a valid id, a body the update validator refuses is answered next,
   * before the comment is looked up.
   */
  lemma BadBodySecond(t: Tables, current: A.Claims, commentId: string, data: Option<Body>,
                      isUuid: string -> bool, stamp: DateTime, fault: bool, errText: string, r: Response)
    requires commentId != [] && isUuid(commentId)
    requires CV.ValidateUpdateComment(data) == Ret(Some(r))
    ensures Status(r) == 400
    ensures UpdateCommentHandled(t, current, commentId, data, isUuid, stamp, fault, errText) == (r, t)
  {
  }

  /**
   * On a valid id, `delete_comment()` answers 404 for a missing comment and
   * 403 for someone else's, neither touching the tables.
   */
  lemma DeleteRefusals(t: Tables, current: A.Claims, commentId: string, isUuid: string -> bool,
                       fault: bool, errText: string)
    requires commentId != [] && isUuid(commentId)
    ensures !CS.HasComment(t.comments, commentId) ==>
      DeleteCommentHandled(t, current, commentId, isUuid, fault, errText) == (Fail(404, CommentMissing), t)
    ensures CS.HasComment(t.comments, commentId) && !WrittenBy(t, commentId, current.userId) ==>
      DeleteCommentHandled(t, current, commentId, isUuid, fault, errText) == (Fail(403, NotYoursToDelete), t)
  {
    if CS.HasComment(t.comments, commentId) {
      var i := CS.Locate(t.comments, commentId).value;
      assert t.comments[i] in t.comments;
    }
  }

  /**
   * On a valid id and body, a missing comment is a 404 and a comment of
   * someone else a 403, neither touching the tables; the author's update,
   * when the commit goes through, is a 200 whose row now holds the stripped
   * content.
   */
  lemma UpdateAnswers(t: Tables, current: A.Claims, commentId: string, d: Body,
                      isUuid: string -> bool, stamp: DateTime, fault: bool, errText: string)
    requires commentId != [] && isUuid(commentId)
    requires CV.ValidateUpdateComment(Some(d)) == Ret(None)
    ensures var (resp, after) := UpdateCommentHandled(t, current, commentId, Some(d), isUuid, stamp, fault, errText);
      && (!CS.HasComment(t.comments, commentId) ==> (resp, after) == (Fail(404, CommentMissing), t))
      && (CS.HasComment(t.comments, commentId) && !WrittenBy(t, commentId, current.userId) ==>
            (resp, after) == (Fail(403, NotYoursToEdit), t))
      && (Committable(t) && WrittenBy(t, commentId, current.userId) && !fault ==>
            && Status(resp) == 200 && Succeeded(resp)
            && exists c :: c in after.comments && c.id == commentId && c.content == Strip(d["content"].s))
  {
    CV.UpdateAccepted(Some(d));
    var content := Strip(d["content"].s);
    assert UpdateCommentHandled(t, current, commentId, Some(d), isUuid, stamp, fault, errText)
        == UpdateLocated(t, current, commentId, content, stamp, fault, errText);
    LocatedRefusals(t, current, commentId, content, stamp, fault, errText);
    if Committable(t) && WrittenBy(t, commentId, current.userId) && !fault {
      AuthorUpdates(t, current, commentId, content, stamp, errText);
    }
  }

  /** Once the content is known, a missing comment is a 404 and someone else's a 403, neither touching the tables. */
  lemma LocatedRefusals(t: Tables, current: A.Claims, commentId: string, content: string,
                        stamp: DateTime, fault: bool, errText: string)
    ensures var (resp, after) := UpdateLocated(t, current, commentId, content, stamp, fault, errText);
      && (!CS.HasComment(t.comments, commentId) ==> (resp, after) == (Fail(404, CommentMissing), t))
      && (CS.HasComment(t.comments, commentId) && !WrittenBy(t, commentId, current.userId) ==>
            (resp, after) == (Fail(403, NotYoursToEdit), t))
  {
    if CS.HasComment(t.comments, commentId) {
      var i := CS.Locate(t.comments, commentId).value;
      assert t.comments[i] in t.comments;
    }
  }

  /** The author's update, when the commit goes through, answers 200 and the row holds the new content. */
  lemma AuthorUpdates(t: Tables, current: A.Claims, commentId: string, content: string,
                      stamp: DateTime, errText: string)
    requires Committable(t) && WrittenBy(t, commentId, current.userId)
    ensures var (resp, after) := UpdateLocated(t, current, commentId, content, stamp, false, errText);
      && Status(resp) == 200 && Succeeded(resp)
      && exists c :: c in after.comments && c.id == commentId && c.content == content
  {
    var x :| x in t.comments && x.id == commentId && x.authorId == current.userId;
    var i := CS.Locate(t.comments, commentId).value;
    UniqueAuthor(t, commentId, i, x);
    CS.UpdateOutcome(t, commentId, content, stamp, false, errText);
    var after := CS.UpdateCommentSpec(t, commentId, content, stamp, false, errText).1;
    assert after.comments[i] in after.comments;
  }

  /** In a committed state, the located comment is the one any row with that id names. */
  lemma UniqueAuthor(t: Tables, commentId: string, i: nat, x: C.Comment)
    requires Committable(t) && i < |t.comments| && t.comments[i].id == commentId
    requires x in t.comments && x.id == commentId
    ensures x == t.comments[i]
  {
    var k :| 0 <= k < |t.comments| && t.comments[k] == x;
    assert UniqueBy(t.comments, (c: C.Comment) => c.id);
  }

  /** The author's delete, when the commit goes through, removes exactly that comment. */
  lemma AuthorDeletes(t: Tables, current: A.Claims, commentId: string, isUuid: string -> bool, errText: string)
    requires commentId != [] && isUuid(commentId)
    requires Committable(t) && WrittenBy(t, commentId, current.userId)
    ensures var (resp, after) := DeleteCommentHandled(t, current, commentId, isUuid, false, errText);
      && resp == DoneNoData(200, CS.Deleted)
      && after.users == t.users && after.projects == t.projects && after.tasks == t.tasks
      && (forall c :: c in after.comments <==> c in t.comments && c.id != commentId)
  {
    var x :| x in t.comments && x.id == commentId && x.authorId == current.userId;
    var i := CS.Locate(t.comments, commentId).value;
    UniqueAuthor(t, commentId, i, x);
    CS.DeleteOutcome(t, commentId, false, errText);
  }

  /**
   * A 201 from `create_comment()` means the task exists and the tables grew
   * by one comment on it, by the caller, holding the stripped content; any
   * other answer leaves the tables as they were.
   */
  lemma CreateAnswers(t: Tables, current: A.Claims, data: Option<Body>, newId: string,
                      stamp: DateTime, fault: bool, errText: string)
    ensures var (resp, after) := CreateCommentHandled(t, current, data, newId, stamp, fault, errText);
      && (Status(resp) == 201 ==>
            && data.Some? && data.value["content"].Str? && data.value["task_id"].Str?
            && HasTask(t.tasks, data.value["task_id"].s)
            && exists c :: after == t.(comments := t.comments + [c])
                 && c.content == Strip(data.value["content"].s)
                 && c.taskId == data.value["task_id"].s
                 && c.authorId == current.userId
                 && resp == Done(201, CS.Created, Obj(CS.CommentToDict(c, true, t.users)))
                 && "author" in CS.CommentToDict(c, true, t.users))
      && (Status(resp) != 201 ==> after == t)
  {
    var (resp, after) := CreateCommentHandled(t, current, data, newId, stamp, fault, errText);
    if Checked(CV.ValidateCreateComment(data)).None? {
      CV.CreateAccepted(data);
      var d := data.value;
      if d["task_id"].Str? && TS.Locate(t.tasks, d["task_id"].s).Some? {
        CS.CreateOutcome(t, Strip(d["content"].s), d["task_id"].s, current.userId, newId, stamp, fault, errText);
      }
    }
  }

  /** A page count with a positive limit is the least number of pages of `limit` that hold `total` items. */
  lemma PagesCeiling(total: nat, limit: int)
    requires limit > 0
    ensures FloorDiv(total + limit - 1, limit).Ret?
    ensures var pages := FloorDiv(total + limit - 1, limit).value;
      && pages >= 0
      && (pages - 1) * limit < total <= pages * limit
      && (pages == 0 <==> total == 0)
  {
    var pages := FloorDiv(total + limit - 1, limit).value;
    assert (pages - 1) * limit == limit * pages - limit;
    assert (pages + 1) * limit == limit * pages + limit;
  }

  /**
   * `get_comments_by_task()` answers 200 exactly when the task exists, the
   * page is at least 1 and the limit at least 1. A limit of 0 reaches the
   * page count and divides by zero; a negative limit, or a page below 1
   * with a positive limit, makes a negative OFFSET or LIMIT the database
   * refuses.
   */
  lemma ByTaskAnswers(t: Tables, taskId: string, args: map<string, string>,
                      parseInt: string -> Option<int>, countFault: bool)
    ensures var r := CommentsByTask(t, taskId, args, parseInt, countFault);
      var page := PageOf(args, parseInt);
      var limit := LimitOf(args, parseInt);
      && (Status(r) == 200 <==> HasTask(t.tasks, taskId) && page >= 1 && limit >= 1)
      && (!HasTask(t.tasks, taskId) ==> r == Fail(404, TaskMissing))
      && (HasTask(t.tasks, taskId) && limit == 0 ==> r == ServerError(ZeroDivisionError))
      && (HasTask(t.tasks, taskId) && (limit < 0 || (limit > 0 && page < 1)) ==> r == ServerError(DatabaseError))
  {
    var page := PageOf(args, parseInt);
    var limit := LimitOf(args, parseInt);
    if limit > 0 {
      assert SkipOf(args, parseInt) >= 0 <==> page >= 1 by {
        if page >= 1 { assert (page - 1) * limit >= 0; }
        else { assert (page - 1) * limit < 0; }
      }
      PagesCeiling(CS.CountCommentsByTask(t.comments, taskId, countFault), limit);
    } else if limit == 0 {
      assert SkipOf(args, parseInt) == 0;
    }
  }

  /** The body of a 200 from `get_comments_by_task()`, with the page, the count and the page count it was built from. */
  lemma ByTaskBody(t: Tables, taskId: string, args: map<string, string>, parseInt: string -> Option<int>)
    requires Status(CommentsByTask(t, taskId, args, parseInt, false)) == 200
    ensures CS.ByTask(t.comments, taskId, SkipOf(args, parseInt), LimitOf(args, parseInt)).Ret?
    ensures LimitOf(args, parseInt) > 0 && SkipOf(args, parseInt) >= 0
    ensures FloorDiv(CS.CountCommentsByTask(t.comments, taskId, false) + LimitOf(args, parseInt) - 1, LimitOf(args, parseInt)).Ret?
    ensures CommentsByTask(t, taskId, args, parseInt, false) ==
      Data(200, Paged(CS.ByTask(t.comments, taskId, SkipOf(args, parseInt), LimitOf(args, parseInt)).value, t.users,
                      map["page" := Int(PageOf(args, parseInt)), "limit" := Int(LimitOf(args, parseInt)),
                          "total" := Int(CS.CountCommentsByTask(t.comments, taskId, false)),
                          "pages" := Int(FloorDiv(CS.CountCommentsByTask(t.comments, taskId, false) + LimitOf(args, parseInt) - 1, LimitOf(args, parseInt)).value)]))
  {
  }

  /** An offset of whole pages past the last page is at or beyond the end. */
  lemma PastLastOffset(page: int, limit: int, pages: int, total: nat)
    requires limit > 0 && page > pages && total <= pages * limit
    ensures (page - 1) * limit >= total
  {
    assert (page - 1) * limit - pages * limit == (page - 1 - pages) * limit;
  }

  /** An offset at or past the task's comment count gives an empty page. */
  lemma ByTaskPastEnd(comments: seq<C.Comment>, taskId: string, skip: int, limit: int)
    requires limit >= 0 && skip >= CS.CountCommentsByTask(comments, taskId, false)
    ensures CS.ByTask(comments, taskId, skip, limit) == Ret([])
  {
    var f := Filter(comments, (c: C.Comment) => c.taskId == taskId);
    CS.SortDescSorted(f);
    assert |multiset(CS.SortDesc(f))| == |multiset(f)|;
  }

  /**
   * A 200 page of `get_comments_by_task()` with a working count lists only
   * that task's comments, newest first, at most `limit` of them; its total
   * is the task's comment count, its page count the ceiling of total over
   * limit, and a page past the last is empty.
   */
  lemma ByTaskListing(t: Tables, taskId: string, args: map<string, string>, parseInt: string -> Option<int>)
    returns (cs: seq<C.Comment>, total: nat, pages: int)
    requires Status(CommentsByTask(t, taskId, args, parseInt, false)) == 200
    ensures var page := PageOf(args, parseInt);
      var limit := LimitOf(args, parseInt);
      && CommentsByTask(t, taskId, args, parseInt, false) ==
           Data(200, Paged(cs, t.users, map["page" := Int(page), "limit" := Int(limit), "total" := Int(total), "pages" := Int(pages)]))
      && CS.SortedDesc(cs) && |cs| <= limit
      && (forall c :: c in cs ==> c in t.comments && c.taskId == taskId)
      && total == CS.Matching(t.comments, taskId)
      && (pages - 1) * limit < total <= pages * limit
      && (page > pages ==> cs == [])
  {
    ByTaskBody(t, taskId, args, parseInt);
    var page := PageOf(args, parseInt);
    var limit := LimitOf(args, parseInt);
    var skip := SkipOf(args, parseInt);
    cs := CS.ByTask(t.comments, taskId, skip, limit).value;
    total := CS.CountCommentsByTask(t.comments, taskId, false);
    pages := FloorDiv(total + limit - 1, limit).value;
    PageFacts(t.comments, taskId, page, limit);
  }

  /** What `ByTaskListing` says of the page, the total and the page count, on the comments alone. */
  lemma PageFacts(comments: seq<C.Comment>, taskId: string, page: int, limit: int)
    requires limit > 0 && (page - 1) * limit >= 0
    ensures CS.ByTask(comments, taskId, (page - 1) * limit, limit).Ret?
    ensures var cs := CS.ByTask(comments, taskId, (page - 1) * limit, limit).value;
      var total := CS.CountCommentsByTask(comments, taskId, false);
      var pages := FloorDiv(total + limit - 1, limit).value;
      && CS.SortedDesc(cs) && |cs| <= limit
      && (forall c :: c in cs ==> c in comments && c.taskId == taskId)
      && total == CS.Matching(comments, taskId)
      && (pages - 1) * limit < total <= pages * limit
      && (page > pages ==> cs == [])
  {
    var skip := (page - 1) * limit;
    var total := CS.CountCommentsByTask(comments, taskId, false);
    PagesCeiling(total, limit);
    var pages := FloorDiv(total + limit - 1, limit).value;
    CS.ByTaskPage(comments, taskId, skip, limit);
    CS.CountIsMatching(comments, taskId);
    if page > pages {
      PastLastOffset(page, limit, pages, total);
      ByTaskPastEnd(comments, taskId, skip, limit);
    }
  }

  /**
   * `get_my_comments()` answers 200 exactly when the OFFSET and LIMIT are
   * not negative: a limit of 0 (any page), or a positive limit on a page
   * of at least 1. Its page lists the caller's comments only, newest first.
   */
  lemma MyCommentsListing(t: Tables, current: A.Claims, args: map<string, string>, parseInt: string -> Option<int>)
    returns (cs: seq<C.Comment>)
    ensures var page := PageOf(args, parseInt);
      var limit := LimitOf(args, parseInt);
      var r := MyComments(t, current, args, parseInt);
      && (Status(r) == 200 <==> limit == 0 || (limit > 0 && page >= 1))
      && (Status(r) != 200 ==> r == ServerError(DatabaseError))
      && (Status(r) == 200 ==>
            && r == Data(200, Paged(cs, t.users, map["page" := Int(page), "limit" := Int(limit)]))
            && CS.SortedDesc(cs) && |cs| <= limit
            && (forall c :: c in cs ==> c in t.comments && c.authorId == current.userId))
  {
    var page := PageOf(args, parseInt);
    var limit := LimitOf(args, parseInt);
    var skip := SkipOf(args, parseInt);
    if limit > 0 {
      if page >= 1 { assert (page - 1) * limit >= 0; }
      else { assert (page - 1) * limit < 0; }
    } else if limit == 0 {
      assert skip == 0;
    }
    var q := CS.ByAuthor(t.comments, current.userId, skip, limit);
    if q.Ret? {
      cs := q.value;
      CS.ByAuthorPage(t.comments, current.userId, skip, limit);
    } else {
      cs := [];
    }
  }
}
