/**
 * Comment persistence (apps/services/comment_service.py): create, update
 * and delete as methods on the database, and the ordered paging queries,
 * the count, the authorship test and the serialisation as functions.
 */
module CommentService {
  import opened Common
  import U = UserModel
  import T = TaskModel
  import C = CommentModel
  import opened Store

  const Created := "Tạo comment thành công"
  const CreateFailedPrefix := "Lỗi khi tạo comment: "
  const NotFound := "Comment không tồn tại"
  const Updated := "Cập nhật comment thành công"
  const UpdateFailedPrefix := "Lỗi khi cập nhật comment: "
  const Deleted := "Xóa comment thành công"
  const DeleteFailedPrefix := "Lỗi khi xóa comment: "

  datatype CommentReply = CommentReply(success: bool, message: string, comment: Option<C.Comment>)

  predicate HasComment(comments: seq<C.Comment>, id: string) {
    exists c :: c in comments && c.id == id
  }

  /** `get_comment_by_id(db, comment_id)`: the position of the row with that id. */
  function Locate(comments: seq<C.Comment>, id: string): (r: Option<nat>)
    ensures r.Some? ==> r.value < |comments| && comments[r.value].id == id
    ensures r.None? <==> !HasComment(comments, id)
  {
    var r := First(comments, (c: C.Comment) => c.id == id);
    assert r.None? ==> forall c :: c in comments ==> c.id != id by {
      if r.None? {
        forall c | c in comments ensures c.id != id {
          var j :| 0 <= j < |comments| && comments[j] == c;
        }
      }
    }
    r
  }

  // ------------------------------------------------------------ ordering

  /**
   * `a` may come before `b` under `ORDER BY created_at DESC`: PostgreSQL
   * puts NULLs first in a descending order, then later instants first.
   */
  predicate Before(a: C.Comment, b: C.Comment) {
    a.createdAt.None? || (b.createdAt.Some? && a.createdAt.value.micros >= b.createdAt.value.micros)
  }

  predicate SortedDesc(s: seq<C.Comment>) {
    forall i, j :: 0 <= i < j < |s| ==> Before(s[i], s[j])
  }

  /** Put `x` in place in a sorted sequence. */
  function Insert(x: C.Comment, s: seq<C.Comment>): seq<C.Comment> {
    if s == [] || Before(x, s[0]) then [x] + s else [s[0]] + Insert(x, s[1..])
  }

  /** The rows in `created_at DESC` order; rows that tie keep no particular order in SQL, here their table order. */
  function SortDesc(s: seq<C.Comment>): seq<C.Comment> {
    if s == [] then [] else Insert(s[0], SortDesc(s[1..]))
  }

  // ------------------------------------------------------------ queries

  /** `get_comments_by_task(db, task_id, skip, limit)` */
  function ByTask(comments: seq<C.Comment>, taskId: string, skip: int, limit: int): (r: Py<seq<C.Comment>>)
    ensures r.Ret? <==> skip >= 0 && limit >= 0
    ensures r.Ret? ==> SortedDesc(r.value) && |r.value| <= limit
  {
    var s := SortDesc(Filter(comments, (c: C.Comment) => c.taskId == taskId));
    SortDescSorted(Filter(comments, (c: C.Comment) => c.taskId == taskId));
    assert Window(s, skip, limit).Ret? ==> SortedDesc(Window(s, skip, limit).value) by {
      if skip >= 0 && limit >= 0 { WindowSorted(s, skip, limit); }
    }
    Window(s, skip, limit)
  }

  /** `get_comments_by_author(db, author_id, skip, limit)` */
  function ByAuthor(comments: seq<C.Comment>, authorId: string, skip: int, limit: int): (r: Py<seq<C.Comment>>)
    ensures r.Ret? <==> skip >= 0 && limit >= 0
    ensures r.Ret? ==> SortedDesc(r.value) && |r.value| <= limit
  {
    var s := SortDesc(Filter(comments, (c: C.Comment) => c.authorId == authorId));
    SortDescSorted(Filter(comments, (c: C.Comment) => c.authorId == authorId));
    assert Window(s, skip, limit).Ret? ==> SortedDesc(Window(s, skip, limit).value) by {
      if skip >= 0 && limit >= 0 { WindowSorted(s, skip, limit); }
    }
    Window(s, skip, limit)
  }

  /** How many rows of `comments` belong to the task. */
  function Matching(comments: seq<C.Comment>, taskId: string): nat {
    if comments == [] then 0
    else (if comments[|comments| - 1].taskId == taskId then 1 else 0) + Matching(comments[..|comments| - 1], taskId)
  }

  /** `count_comments_by_task(db, task_id)`; a query that fails (`fault`) counts 0. */
  function CountCommentsByTask(comments: seq<C.Comment>, taskId: string, fault: bool): (n: nat)
    ensures n <= |comments|
    ensures fault ==> n == 0
  {
    if fault then 0 else |Filter(comments, (c: C.Comment) => c.taskId == taskId)|
  }

  /** `is_comment_author(comment, user_id)`: the two ids compared as text. */
  function IsCommentAuthor(c: C.Comment, userId: string): (b: bool)
    ensures b <==> C.ToDict(c)["author_id"] == Str(userId)
  {
    c.authorId == userId
  }

  /** The user a comment's `author` relationship loads, if that account exists. */
  function AuthorOf(users: seq<U.User>, c: C.Comment): (r: Option<U.User>)
    ensures r.Some? <==> HasUser(users, c.authorId)
    ensures r.Some? ==> r.value in users && r.value.id == c.authorId
  {
    match First(users, (u: U.User) => u.id == c.authorId)
    case None =>
      assert forall u :: u in users ==> u.id != c.authorId by {
        forall u | u in users ensures u.id != c.authorId {
          var j :| 0 <= j < |users| && users[j] == u;
        }
      }
      None
    case Some(i) => Some(users[i])
  }

  /** `comment_to_dict(comment, include_author)` */
  function CommentToDict(c: C.Comment, includeAuthor: bool, users: seq<U.User>): (d: Body)
    ensures "author" in d <==> includeAuthor && HasUser(users, c.authorId)
    ensures d.Keys - {"author"} == C.ToDict(c).Keys
    ensures forall k :: k in C.ToDict(c) ==> d[k] == C.ToDict(c)[k]
    ensures "author" in d ==>
      (exists u :: u in users && u.id == c.authorId &&
         d["author"] == Obj(map["id" := Str(u.id), "username" := Str(u.username), "full_name" := Str(u.fullName)]))
  {
    var data := C.ToDict(c);
    var author := AuthorOf(users, c);
    if includeAuthor && author.Some? then
      var u := author.value;
      data["author" := Obj(map["id" := Str(u.id), "username" := Str(u.username), "full_name" := Str(u.fullName)])]
    else data
  }

  // ------------------------------------------------------------ create, update, delete

  /** The row `create_comment` adds, with the `utcnow()` timestamps. */
  function NewComment(id: string, content: string, taskId: string, authorId: string, stamp: DateTime): C.Comment {
    C.Comment(id, content, taskId, authorId, Some(stamp), Some(stamp))
  }

  /** The effect of `create_comment(db, content, task_id, author_id)`. */
  function CreateCommentSpec(t: Tables, content: string, taskId: string, authorId: string,
                             newId: string, stamp: DateTime, fault: bool, errText: string): (CommentReply, Tables) {
    var row := NewComment(newId, content, taskId, authorId, stamp);
    var next := t.(comments := t.comments + [row]);
    if !fault && Committable(next) then (CommentReply(true, Created, Some(row)), next)
    else (CommentReply(false, CreateFailedPrefix + errText, None), t)
  }

  method CreateComment(db: Database, content: string, taskId: string, authorId: string,
                       newId: string, stamp: DateTime, fault: bool, errText: string) returns (r: CommentReply)
    requires db.Valid()
    modifies db
    ensures db.Valid()
    ensures (r, db.Snapshot()) == CreateCommentSpec(old(db.Snapshot()), content, taskId, authorId, newId, stamp, fault, errText)
  {
    var row := NewComment(newId, content, taskId, authorId, stamp);
    var ok := db.Commit(db.Snapshot().(comments := db.comments + [row]), fault);
    if ok {
      r := CommentReply(true, Created, Some(row));
    } else {
      r := CommentReply(false, CreateFailedPrefix + errText, None);
    }
  }

  /** The effect of `update_comment(db, comment_id, content)`: the content and `updated_at` are assigned. */
  function UpdateCommentSpec(t: Tables, commentId: string, content: string, stamp: DateTime,
                             fault: bool, errText: string): (CommentReply, Tables) {
    match Locate(t.comments, commentId)
    case None => (CommentReply(false, NotFound, None), t)
    case Some(i) =>
      var row := t.comments[i].(content := content, updatedAt := Some(stamp));
      var next := t.(comments := t.comments[i := row]);
      if !fault && Committable(next) then (CommentReply(true, Updated, Some(row)), next)
      else (CommentReply(false, UpdateFailedPrefix + errText, None), t)
  }

  method UpdateComment(db: Database, commentId: string, content: string, stamp: DateTime,
                       fault: bool, errText: string) returns (r: CommentReply)
    requires db.Valid()
    modifies db
    ensures db.Valid()
    ensures (r, db.Snapshot()) == UpdateCommentSpec(old(db.Snapshot()), commentId, content, stamp, fault, errText)
  {
    var found := Locate(db.comments, commentId);
    if found.None? {
      return CommentReply(false, NotFound, None);
    }
    var i := found.value;
    var comment := db.comments[i];
    comment := comment.(content := content);
    comment := comment.(updatedAt := Some(stamp));
    var ok := db.Commit(db.Snapshot().(comments := db.comments[i := comment]), fault);
    if ok {
      r := CommentReply(true, Updated, Some(comment));
    } else {
      r := CommentReply(false, UpdateFailedPrefix + errText, None);
    }
  }

  /** The effect of `delete_comment(db, comment_id)`. */
  function DeleteCommentSpec(t: Tables, commentId: string, fault: bool, errText: string): (CommentReply, Tables) {
    if Locate(t.comments, commentId).None? then (CommentReply(false, NotFound, None), t)
    else
      var next := t.(comments := Filter(t.comments, (c: C.Comment) => c.id != commentId));
      if !fault && Committable(next) then (CommentReply(true, Deleted, None), next)
      else (CommentReply(false, DeleteFailedPrefix + errText, None), t)
  }

  method DeleteComment(db: Database, commentId: string, fault: bool, errText: string) returns (r: CommentReply)
    requires db.Valid()
    modifies db
    ensures db.Valid()
    ensures (r, db.Snapshot()) == DeleteCommentSpec(old(db.Snapshot()), commentId, fault, errText)
  {
    var found := Locate(db.comments, commentId);
    if found.None? {
      return CommentReply(false, NotFound, None);
    }
    var ok := db.Commit(db.Snapshot().(comments := Filter(db.comments, (c: C.Comment) => c.id != commentId)), fault);
    if ok {
      r := CommentReply(true, Deleted, None);
    } else {
      r := CommentReply(false, DeleteFailedPrefix + errText, None);
    }
  }

  // ------------------------------------------------------------ properties

  lemma BeforeTotal(a: C.Comment, b: C.Comment)
    ensures Before(a, b) || Before(b, a)
  {
  }

  lemma BeforeTransitive(a: C.Comment, b: C.Comment, c: C.Comment)
    requires Before(a, b) && Before(b, c)
    ensures Before(a, c)
  {
  }

  /** Insertion keeps a sequence sorted and adds exactly one copy of `x`. */
  lemma {:induction false} InsertSorted(x: C.Comment, s: seq<C.Comment>)
    requires SortedDesc(s)
    ensures SortedDesc(Insert(x, s))
    ensures multiset(Insert(x, s)) == multiset(s) + multiset{x}
    decreases |s|
  {
    InsertCount(x, s);
    if s == [] || Before(x, s[0]) {
      forall y | y in s ensures Before(x, y) {
        var k :| 0 <= k < |s| && s[k] == y;
        if k > 0 { BeforeTransitive(x, s[0], s[k]); }
      }
      SortedCons(x, s);
    } else {
      var tail := s[1..];
      SortedTail(s);
      InsertSorted(x, tail);
      var it := Insert(x, tail);
      BeforeTotal(x, s[0]);
      forall y | y in it ensures Before(s[0], y) {
        assert y in multiset(it);
        if y != x {
          assert y in multiset(tail);
          var k :| 0 <= k < |tail| && tail[k] == y;
          assert s[k + 1] == y;
        }
      }
      SortedCons(s[0], it);
    }
  }

  /** Insertion adds exactly one copy of `x`. */
  lemma {:induction false} InsertCount(x: C.Comment, s: seq<C.Comment>)
    ensures multiset(Insert(x, s)) == multiset(s) + multiset{x}
    decreases |s|
  {
    if s != [] && !Before(x, s[0]) {
      InsertCount(x, s[1..]);
      assert s == [s[0]] + s[1..];
    }
  }

  /** The rows after the first of a sorted sequence are sorted. */
  lemma SortedTail(s: seq<C.Comment>)
    requires SortedDesc(s) && s != []
    ensures SortedDesc(s[1..])
  {
    var tail := s[1..];
    forall i, j | 0 <= i < j < |tail| ensures Before(tail[i], tail[j]) {
      assert tail[i] == s[i + 1] && tail[j] == s[j + 1];
    }
  }

  /** A row that sorts before every row of a sorted sequence can head it. */
  lemma SortedCons(h: C.Comment, s: seq<C.Comment>)
    requires SortedDesc(s)
    requires forall y :: y in s ==> Before(h, y)
    ensures SortedDesc([h] + s)
  {
    var r := [h] + s;
    forall i, j | 0 <= i < j < |r| ensures Before(r[i], r[j]) {
      if i == 0 {
        assert r[j] == s[j - 1] && r[j] in s;
      } else {
        assert r[i] == s[i - 1] && r[j] == s[j - 1];
      }
    }
  }

  /** The query order is `created_at` descending, NULLs first, and a permutation of the filtered rows. */
  lemma {:induction false} SortDescSorted(s: seq<C.Comment>)
    ensures SortedDesc(SortDesc(s))
    ensures multiset(SortDesc(s)) == multiset(s)
  {
    if s != [] {
      SortDescSorted(s[1..]);
      InsertSorted(s[0], SortDesc(s[1..]));
      assert s == [s[0]] + s[1..];
    }
  }

  /** Any window of a sorted sequence is sorted. */
  lemma WindowSorted(s: seq<C.Comment>, skip: int, limit: int)
    requires SortedDesc(s) && Window(s, skip, limit).Ret?
    ensures SortedDesc(Window(s, skip, limit).value)
  {
    var w := Window(s, skip, limit).value;
    forall i, j | 0 <= i < j < |w| ensures Before(w[i], w[j]) {
      assert w[i] == s[skip + i] && w[j] == s[skip + j];
    }
  }

  /**
   * A by-task page holds only that task's comments, newest first, at most
   * `limit` of them and never more than the task's comment count; the
   * first page with a large enough limit holds every one of them.
   */
  lemma ByTaskPage(comments: seq<C.Comment>, taskId: string, skip: int, limit: int)
    requires ByTask(comments, taskId, skip, limit).Ret?
    ensures var page := ByTask(comments, taskId, skip, limit).value;
      && SortedDesc(page)
      && (forall c :: c in page ==> c in comments && c.taskId == taskId)
      && |page| <= limit
      && |page| <= CountCommentsByTask(comments, taskId, false)
      && (skip == 0 && limit >= CountCommentsByTask(comments, taskId, false) ==>
            multiset(page) == multiset(Filter(comments, (c: C.Comment) => c.taskId == taskId)))
  {
    var f := Filter(comments, (c: C.Comment) => c.taskId == taskId);
    SortDescSorted(f);
    var s := SortDesc(f);
    assert |s| == |f| by { assert |multiset(s)| == |multiset(f)|; }
    WindowSorted(s, skip, limit);
    WindowWithin(s, skip, limit);
    forall c | c in Window(s, skip, limit).value ensures c in comments && c.taskId == taskId {
      assert c in multiset(s);
    }
    if skip == 0 && limit >= |f| {
      assert Window(s, skip, limit).value == s;
    }
  }

  /** A by-author page holds only that author's comments, newest first. */
  lemma ByAuthorPage(comments: seq<C.Comment>, authorId: string, skip: int, limit: int)
    requires ByAuthor(comments, authorId, skip, limit).Ret?
    ensures var page := ByAuthor(comments, authorId, skip, limit).value;
      && SortedDesc(page) && |page| <= limit
      && (forall c :: c in page ==> c in comments && c.authorId == authorId)
  {
    var f := Filter(comments, (c: C.Comment) => c.authorId == authorId);
    SortDescSorted(f);
    var s := SortDesc(f);
    WindowSorted(s, skip, limit);
    WindowWithin(s, skip, limit);
    forall c | c in Window(s, skip, limit).value ensures c in comments && c.authorId == authorId {
      assert c in multiset(s);
    }
  }

  /** The count is the number of the task's rows in the table. */
  lemma {:induction false} CountIsMatching(comments: seq<C.Comment>, taskId: string)
    ensures CountCommentsByTask(comments, taskId, false) == Matching(comments, taskId)
    decreases |comments|
  {
    if comments != [] {
      var init := comments[..|comments| - 1];
      var last := comments[|comments| - 1];
      CountIsMatching(init, taskId);
      FilterAppend(init, last, (c: C.Comment) => c.taskId == taskId);
      assert comments == init + [last];
    }
  }

  lemma {:induction false} FilterAppend<R>(rows: seq<R>, x: R, p: R -> bool)
    ensures Filter(rows + [x], p) == Filter(rows, p) + (if p(x) then [x] else [])
    decreases |rows|
  {
    if rows == [] {
      assert [x][1..] == [];
    } else {
      assert (rows + [x])[1..] == rows[1..] + [x];
      FilterAppend(rows[1..], x, p);
    }
  }

  /** The server-side authorship test agrees with the `author_id` the client reads. */
  lemma AuthorMatchesDict(c: C.Comment, userId: string)
    ensures IsCommentAuthor(c, userId) <==> C.ToDict(c)["author_id"] == Str(userId)
  {
  }

  /**
   * An update of an unknown id answers "Comment không tồn tại"; a success
   * changes only that comment's content and `updated_at`; any failure leaves
   * the tables as they were.
   */
  lemma UpdateOutcome(t: Tables, commentId: string, content: string, stamp: DateTime, fault: bool, errText: string)
    requires Committable(t)
    ensures var (r, after) := UpdateCommentSpec(t, commentId, content, stamp, fault, errText);
      && (!HasComment(t.comments, commentId) ==> r == CommentReply(false, NotFound, None) && after == t)
      && (HasComment(t.comments, commentId) ==> (r.success <==> !fault))
      && (!r.success ==> after == t)
      && (r.success ==>
            && after.users == t.users && after.projects == t.projects && after.tasks == t.tasks
            && |after.comments| == |t.comments|
            && exists i :: 0 <= i < |t.comments| && t.comments[i].id == commentId
                 && after.comments == t.comments[i := t.comments[i].(content := content, updatedAt := Some(stamp))])
  {
    var (r, after) := UpdateCommentSpec(t, commentId, content, stamp, fault, errText);
    if HasComment(t.comments, commentId) {
      var i := Locate(t.comments, commentId).value;
      var row := t.comments[i].(content := content, updatedAt := Some(stamp));
      var cs := t.comments[i := row];
      ReplaceUnique(t.comments, i, row, (c: C.Comment) => c.id);
      forall c | c in cs ensures CommentRowOk(t.users, t.tasks, c) {
        var k :| 0 <= k < |cs| && cs[k] == c;
        assert t.comments[k] in t.comments;
      }
    }
  }

  /** Deleting a comment keeps the schema, and removes exactly that comment. */
  lemma DeleteOutcome(t: Tables, commentId: string, fault: bool, errText: string)
    requires Committable(t)
    ensures var (r, after) := DeleteCommentSpec(t, commentId, fault, errText);
      && (!HasComment(t.comments, commentId) ==> r == CommentReply(false, NotFound, None) && after == t)
      && (HasComment(t.comments, commentId) ==> (r.success <==> !fault))
      && (!r.success ==> after == t)
      && (r.success ==>
            && after.users == t.users && after.projects == t.projects && after.tasks == t.tasks
            && (forall c :: c in after.comments <==> c in t.comments && c.id != commentId))
  {
    FilterUnique(t.comments, (c: C.Comment) => c.id != commentId, (c: C.Comment) => c.id);
  }

  /**
   * A created comment holds the given content, task and author and the
   * table grows by that row; a comment on a missing task or by a missing
   * user is never stored.
   */
  lemma CreateOutcome(t: Tables, content: string, taskId: string, authorId: string,
                      newId: string, stamp: DateTime, fault: bool, errText: string)
    ensures var (r, after) := CreateCommentSpec(t, content, taskId, authorId, newId, stamp, fault, errText);
      && (r.success ==>
            && r.comment.Some? && after == t.(comments := t.comments + [r.comment.value])
            && r.comment.value.content == content && r.comment.value.taskId == taskId
            && r.comment.value.authorId == authorId)
      && (!r.success ==> after == t && r == CommentReply(false, CreateFailedPrefix + errText, None))
      && (!HasTask(t.tasks, taskId) || !HasUser(t.users, authorId) ==> !r.success)
  {
    var row := NewComment(newId, content, taskId, authorId, stamp);
    assert row in (t.comments + [row]);
  }
}
