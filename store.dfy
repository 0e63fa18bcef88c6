/**
 * The relational store behind the ORM. Each table is a sequence of rows in
 * physical order; a query without ORDER BY returns rows in that order. The
 * schema's constraints (primary keys, unique columns, foreign keys, varchar
 * widths) are the predicate `Consistent`, which a commit checks and which
 * every committed state satisfies.
 */
module Store {
  import opened Common
  import U = UserModel
  import P = ProjectModel
  import T = TaskModel
  import C = CommentModel

  // ---------------------------------------------------------------- row helpers

  /** `.filter(cond)` keeps the rows satisfying `p`, in order. */
  function Filter<R>(rows: seq<R>, p: R -> bool): (r: seq<R>)
    ensures |r| <= |rows|
    ensures forall x :: x in r ==> x in rows && p(x)
    ensures forall x :: x in rows && p(x) ==> x in r
  {
    if rows == [] then []
    else (if p(rows[0]) then [rows[0]] else []) + Filter(rows[1..], p)
  }

  /**
   * `.offset(skip).limit(limit).all()`. PostgreSQL rejects a negative OFFSET
   * or LIMIT; otherwise the result is the `limit` rows after the first `skip`.
   */
  function Window<R>(rows: seq<R>, skip: int, limit: int): (r: Py<seq<R>>)
    ensures r.Ret? <==> skip >= 0 && limit >= 0
    ensures r.Raise? ==> r.exc == DatabaseError
    ensures r.Ret? ==> |r.value| == Min(limit, Max(0, |rows| - skip)) <= limit
    ensures r.Ret? ==> forall k :: 0 <= k < |r.value| ==> r.value[k] == rows[skip + k]
  {
    if skip < 0 || limit < 0 then Raise(DatabaseError)
    else if skip >= |rows| then Ret([])
    else Ret(rows[skip..][..Min(limit, |rows| - skip)])
  }

  /** Every row of a window is a row of the table. */
  lemma WindowWithin<R>(rows: seq<R>, skip: int, limit: int)
    requires Window(rows, skip, limit).Ret?
    ensures forall x :: x in Window(rows, skip, limit).value ==> x in rows
  {
    var w := Window(rows, skip, limit).value;
    forall x | x in w ensures x in rows {
      var k :| 0 <= k < |w| && w[k] == x;
      assert rows[skip + k] == x;
    }
  }

  /**
   * A window of the rows satisfying `p`: it exists exactly when the offset
   * and the limit are not negative, holds at most `limit` rows, each a row
   * of the table satisfying `p`, and from offset 0 with a limit no smaller
   * than the table it is every such row, in table order.
   */
  lemma FilteredWindow<R>(rows: seq<R>, p: R -> bool, skip: int, limit: int)
    ensures Window(Filter(rows, p), skip, limit).Ret? <==> skip >= 0 && limit >= 0
    ensures Window(Filter(rows, p), skip, limit).Ret? ==>
      && |Window(Filter(rows, p), skip, limit).value| <= limit
      && forall x :: x in Window(Filter(rows, p), skip, limit).value ==> x in rows && p(x)
    ensures skip == 0 && limit >= |rows| ==> Window(Filter(rows, p), skip, limit) == Ret(Filter(rows, p))
  {
    var f := Filter(rows, p);
    if skip >= 0 && limit >= 0 {
      WindowWithin(f, skip, limit);
    }
    if skip == 0 && limit >= |rows| {
      assert Window(f, 0, limit).value == f;
    }
  }

  /** No two rows share a key. */
  predicate UniqueBy<R>(rows: seq<R>, key: R -> string) {
    forall i, j :: 0 <= i < j < |rows| ==> key(rows[i]) != key(rows[j])
  }

  /** Appending a row whose key is new keeps keys unique. */
  lemma AppendUnique<R>(rows: seq<R>, x: R, key: R -> string)
    requires UniqueBy(rows, key)
    requires forall y :: y in rows ==> key(y) != key(x)
    ensures UniqueBy(rows + [x], key)
  {
    var rs := rows + [x];
    forall i, j | 0 <= i < j < |rs| ensures key(rs[i]) != key(rs[j]) {
      if j == |rows| { assert rs[i] in rows; }
    }
  }

  /** Replacing a row by one with the same key keeps keys unique. */
  lemma ReplaceUnique<R>(rows: seq<R>, i: nat, x: R, key: R -> string)
    requires i < |rows| && UniqueBy(rows, key) && key(x) == key(rows[i])
    ensures UniqueBy(rows[i := x], key)
  {
  }

  /** Keeping a subsequence of the rows keeps keys unique. */
  lemma {:induction false} FilterUnique<R>(rows: seq<R>, p: R -> bool, key: R -> string)
    requires UniqueBy(rows, key)
    ensures UniqueBy(Filter(rows, p), key)
  {
    if rows != [] {
      var tail := rows[1..];
      assert UniqueBy(tail, key) by {
        forall i, j | 0 <= i < j < |tail| ensures key(tail[i]) != key(tail[j]) {
          assert tail[i] == rows[i + 1] && tail[j] == rows[j + 1];
        }
      }
      FilterUnique(tail, p, key);
      var ft := Filter(tail, p);
      if p(rows[0]) {
        forall y | y in ft ensures key(y) != key(rows[0]) {
          var k :| 0 <= k < |tail| && tail[k] == y;
          assert rows[k + 1] == y;
        }
        var r := [rows[0]] + ft;
        forall i, j | 0 <= i < j < |r| ensures key(r[i]) != key(r[j]) {
          if i == 0 { assert r[j] in ft; } else { assert r[i] == ft[i - 1] && r[j] == ft[j - 1]; }
        }
      } else {
        assert Filter(rows, p) == ft;
      }
    }
  }

  // ---------------------------------------------------------------- the schema

  predicate HasUser(users: seq<U.User>, id: string) {
    exists u :: u in users && u.id == id
  }

  predicate HasProject(projects: seq<P.Project>, id: string) {
    exists p :: p in projects && p.id == id
  }

  predicate HasTask(tasks: seq<T.Task>, id: string) {
    exists t :: t in tasks && t.id == id
  }

  /** Primary key, the two unique columns, and the varchar widths of `users`. */
  predicate UsersOk(users: seq<U.User>) {
    && UniqueBy(users, (u: U.User) => u.id)
    && UniqueBy(users, (u: U.User) => u.username)
    && UniqueBy(users, (u: U.User) => u.email)
    && forall u :: u in users ==> U.FitsColumns(u)
  }

  /** A project row is storable: its owner exists and its name fits. */
  predicate ProjectRowOk(users: seq<U.User>, p: P.Project) {
    HasUser(users, p.ownerId) && P.FitsColumns(p)
  }

  predicate ProjectsOk(users: seq<U.User>, projects: seq<P.Project>) {
    && UniqueBy(projects, (p: P.Project) => p.id)
    && forall p :: p in projects ==> ProjectRowOk(users, p)
  }

  /** A task row is storable: its project, creator and assignee exist and its title fits. */
  predicate TaskRowOk(users: seq<U.User>, projects: seq<P.Project>, t: T.Task) {
    && HasProject(projects, t.projectId)
    && HasUser(users, t.creatorId)
    && (t.assigneeId.Some? ==> HasUser(users, t.assigneeId.value))
    && T.FitsColumns(t)
  }

  predicate TasksOk(users: seq<U.User>, projects: seq<P.Project>, tasks: seq<T.Task>) {
    && UniqueBy(tasks, (t: T.Task) => t.id)
    && forall t :: t in tasks ==> TaskRowOk(users, projects, t)
  }

  /** A comment row is storable: its task and its author exist. */
  predicate CommentRowOk(users: seq<U.User>, tasks: seq<T.Task>, c: C.Comment) {
    HasTask(tasks, c.taskId) && HasUser(users, c.authorId)
  }

  predicate CommentsOk(users: seq<U.User>, tasks: seq<T.Task>, comments: seq<C.Comment>) {
    && UniqueBy(comments, (c: C.Comment) => c.id)
    && forall c :: c in comments ==> CommentRowOk(users, tasks, c)
  }

  predicate Consistent(users: seq<U.User>, projects: seq<P.Project>, tasks: seq<T.Task>, comments: seq<C.Comment>) {
    UsersOk(users) && ProjectsOk(users, projects) && TasksOk(users, projects, tasks) && CommentsOk(users, tasks, comments)
  }

  /** The four tables at one instant. */
  datatype Tables = Tables(users: seq<U.User>, projects: seq<P.Project>, tasks: seq<T.Task>, comments: seq<C.Comment>)

  predicate Committable(t: Tables) {
    Consistent(t.users, t.projects, t.tasks, t.comments)
  }

  /**
   * The tables after committing a unit of work that would leave `next`: the
   * commit succeeds unless the flush fails (`fault`) or a constraint is
   * violated, and a failed commit is rolled back to `before`.
   */
  function CommitOutcome(before: Tables, next: Tables, fault: bool): Tables {
    if !fault && Committable(next) then next else before
  }

  /** A value bound to a column: none, a value, or one the driver or the server refuses (a number for a UUID, `''` for a timestamp). */
  datatype Cell<T> = Empty | Given(value: T) | Bad

  /** A JSON value bound to a UUID column: null is NULL, a string binds, anything else is refused. */
  function IdCell(v: Value): (c: Cell<string>)
    ensures c.Empty? <==> v == Null
    ensures c.Given? <==> v.Str?
    ensures c.Given? ==> c.value == v.s
  {
    match v
    case Null => Empty
    case Str(s) => Given(s)
    case _ => Bad
  }

  /**
   * A date field after `if v: v = datetime.fromisoformat(v)`; None is the
   * 400 the handler answers. `parseDate` is `fromisoformat` on a string; any other
   * truthy value raises inside it. A falsy value is passed on as it is, and
   * only null binds to the column.
   */
  function IsoDate(v: Value, parseDate: string -> Option<DateTime>): (r: Option<Cell<DateTime>>)
    ensures v == Null ==> r == Some(Empty)
    ensures !Truthy(v) && v != Null ==> r == Some(Bad)
    ensures Truthy(v) ==> (r.Some? <==> v.Str? && parseDate(v.s).Some?)
    ensures r.Some? && r.value.Given? ==> v.Str? && parseDate(v.s) == Some(r.value.value)
  {
    if !Truthy(v) then Some(if v == Null then Empty else Bad)
    else if v.Str? && parseDate(v.s).Some? then Some(Given(parseDate(v.s).value))
    else None
  }

  /** The column value of a cell that binds. */
  function CellValue<T>(c: Cell<T>): Option<T> {
    if c.Given? then Some(c.value) else None
  }

  /** The database a request's ORM session talks to. */
  class Database {
    var users: seq<U.User>
    var projects: seq<P.Project>
    var tasks: seq<T.Task>
    var comments: seq<C.Comment>

    /** Every committed state satisfies the schema. */
    ghost predicate Valid()
      reads this
    {
      Consistent(users, projects, tasks, comments)
    }

    function Snapshot(): Tables
      reads this
    {
      Tables(users, projects, tasks, comments)
    }

    constructor ()
      ensures Valid()
      ensures users == [] && projects == [] && tasks == [] && comments == []
    {
      users, projects, tasks, comments := [], [], [], [];
    }

    /** No table differs from the state the current method started in. */
    twostate predicate Untouched()
      reads this
    {
      users == old(users) && projects == old(projects) && tasks == old(tasks) && comments == old(comments)
    }

    /**
     * `db.commit()` of a unit of work whose tables would become `next`; a
     * failed commit is rolled back and leaves every table as it was.
     */
    method Commit(next: Tables, fault: bool) returns (ok: bool)
      requires Valid()
      modifies this
      ensures ok <==> !fault && Committable(next)
      ensures Snapshot() == CommitOutcome(old(Snapshot()), next, fault)
      ensures ok ==> users == next.users && projects == next.projects && tasks == next.tasks && comments == next.comments
      ensures !ok ==> Untouched()
      ensures Valid()
    {
      ok := !fault && Committable(next);
      if ok {
        users, projects, tasks, comments := next.users, next.projects, next.tasks, next.comments;
      }
    }
  }
}
