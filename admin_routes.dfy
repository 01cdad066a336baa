/** The admin routes: the paginated user list, the task overview grouped from a join with an
  * email search, and the force delete that writes an audit entry in the same commit. */
module AdminRoutes {
  import opened Outcomes
  import opened Models
  import Storage
  import Deps
  import Security
  import Text
  import TodoRoutes

  const AUDIT_PREFIX := "Deleted task "

  function Min(a: int, b: int): int { if a <= b then a else b }
  function Max(a: int, b: int): int { if a <= b then b else a }

  // ---------------------------------------------------------------- get_all_users

  /** `.offset(offset).limit(limit)`, with the database engine taken to be SQLite (the service's
    * engine is configured outside the modelled code): a negative offset counts as 0 and a negative
    * limit means no limit. */
  function Window<T>(rows: seq<T>, offset: int, limit: int): (r: seq<T>)
    ensures var start := Max(offset, 0);
      && |r| == (if limit < 0 then Max(0, |rows| - start) else Min(limit, Max(0, |rows| - start)))
      && forall k :: 0 <= k < |r| ==> r[k] == rows[start + k]
  {
    var start := Min(Max(offset, 0), |rows|);
    var end := if limit < 0 || start + limit > |rows| then |rows| else start + limit;
    rows[start..end]
  }

  /** The rows of page `page` (counted from 1) with `limit` rows per page. */
  function Page<T>(rows: seq<T>, page: int, limit: int): seq<T>
  {
    Window(rows, (page - 1) * limit, limit)
  }

  /** The query defaults of `GET /admin/users`. */
  const DEFAULT_PAGE := 1
  const DEFAULT_LIMIT := 10

  /** With SQLite taken as the engine: its INTEGER is 64 bits wide, and the Python driver refuses to
    * bind an int outside it with an `OverflowError` that nothing catches. */
  predicate FitsInt64(n: int) { -0x8000_0000_0000_0000 <= n <= 0x7fff_ffff_ffff_ffff }

  /** `GET /admin/users?page=&limit=`: 403 for anyone but an admin; a 500 when the offset or the
    * limit does not fit SQLite's INTEGER (SQLite taken as the engine); otherwise the users from position `(page - 1) * limit`
    * on, at most `limit` of them (all of them for a negative limit). */
  function GetAllUsers(users: seq<User>, payload: Security.Payload, page: Option<int>, limit: Option<int>): (r: Result<seq<User>>)
    ensures payload.role != ADMIN_ROLE ==> r == Err(Deps.ADMIN_REQUIRED)
    ensures var p, n := (if page.Some? then page.value else 1), (if limit.Some? then limit.value else 10);
      payload.role == ADMIN_ROLE && !(FitsInt64((p - 1) * n) && FitsInt64(n)) ==> r == Err(INTERNAL_SERVER_ERROR)
    ensures var p, n := (if page.Some? then page.value else 1), (if limit.Some? then limit.value else 10);
      payload.role == ADMIN_ROLE && FitsInt64((p - 1) * n) && FitsInt64(n) ==>
        var start := Max((p - 1) * n, 0);
        && r.Ok?
        && |r.value| == (if n < 0 then Max(0, |users| - start) else Min(n, Max(0, |users| - start)))
        && forall k :: 0 <= k < |r.value| ==> start + k < |users| && r.value[k] == users[start + k]
  {
    var _ :- Deps.RequireAdmin(payload);
    var p := if page.Some? then page.value else DEFAULT_PAGE;
    var n := if limit.Some? then limit.value else DEFAULT_LIMIT;
    if !FitsInt64((p - 1) * n) || !FitsInt64(n) then Err(INTERNAL_SERVER_ERROR)
    else Ok(Page(users, p, n))
  }

  /** With no query parameters an admin gets the first ten users of the table. */
  lemma DefaultUsersPage(users: seq<User>, payload: Security.Payload)
    requires payload.role == ADMIN_ROLE
    ensures GetAllUsers(users, payload, None, None) == Ok(users[..Min(DEFAULT_LIMIT, |users|)])
  {
    var r := GetAllUsers(users, payload, None, None);
    assert |r.value| == Min(DEFAULT_LIMIT, |users|);
    assert r.value == users[..Min(DEFAULT_LIMIT, |users|)];
  }

  /** For an admin and a bindable offset and limit, the route answers with `Page`, so the lemmas
    * about pages below are about what the route returns. */
  lemma UsersRouteIsPage(users: seq<User>, payload: Security.Payload, page: int, limit: int)
    requires payload.role == ADMIN_ROLE && FitsInt64((page - 1) * limit) && FitsInt64(limit)
    ensures GetAllUsers(users, payload, Some(page), Some(limit)) == Ok(Page(users, page, limit))
  {
    var r := GetAllUsers(users, payload, Some(page), Some(limit));
    var q := Page(users, page, limit);
    assert |r.value| == |q|;
    assert forall k :: 0 <= k < |q| ==> r.value[k] == q[k];
  }

  /** Pages 1 to `n` one after another. */
  function Pages<T>(rows: seq<T>, limit: int, n: nat): seq<T>
  {
    if n == 0 then [] else Pages(rows, limit, n - 1) + Page(rows, n, limit)
  }

  /** With a positive limit, page `n` is the slice between the ends of pages `n - 1` and `n`. */
  lemma PageIsSlice<T>(rows: seq<T>, n: nat, limit: int)
    requires n >= 1 && limit >= 1
    ensures (n - 1) * limit <= n * limit
    ensures Page(rows, n, limit) == rows[Min((n - 1) * limit, |rows|)..Min(n * limit, |rows|)]
    ensures rows[..Min((n - 1) * limit, |rows|)] + Page(rows, n, limit) == rows[..Min(n * limit, |rows|)]
  {
    var m: nat := n - 1;
    var o := m * limit;
    assert o >= 0;
    assert n * limit == o + limit;
    var a := Min(o, |rows|);
    var b := Min(o + limit, |rows|);
    assert rows[..a] + rows[a..b] == rows[..b];
  }

  /** With a positive limit, the first `n` pages are the first `n * limit` rows, in table order. */
  lemma {:induction false} PagesArePrefix<T>(rows: seq<T>, limit: int, n: nat)
    requires limit >= 1
    ensures Pages(rows, limit, n) == rows[..Min(n * limit, |rows|)]
  {
    if n > 0 {
      PagesArePrefix(rows, limit, n - 1);
      PageIsSlice(rows, n, limit);
    }
  }

  /** Paging through the table with a positive limit shows every user exactly once, in order. */
  lemma EveryUserOnOnePage<T>(rows: seq<T>, limit: int, n: nat)
    requires limit >= 1 && n * limit >= |rows|
    ensures Pages(rows, limit, n) == rows
  {
    PagesArePrefix(rows, limit, n);
  }

  /** Out-of-range pages: a page number below 1 shows the first page, and a negative limit shows
    * the whole table from any page number of at least 1. */
  lemma PageEdgeCases<T>(rows: seq<T>, page: int, limit: int)
    ensures limit >= 0 && page <= 1 ==> Page(rows, page, limit) == Page(rows, 1, limit)
    ensures limit < 0 && page >= 1 ==> Page(rows, page, limit) == rows
  {
    if limit >= 0 && page <= 1 {
      assert (page - 1) * limit <= 0;
    }
    if limit < 0 && page >= 1 {
      assert (page - 1) * limit <= 0;
    }
  }

  // ---------------------------------------------------------------- get_all_tasks: the join

  /** One row of `Todo ⋈ Owner ⟕ TodoShare ⟕ SharedUser`. */
  datatype Row = Row(todo: Todo, owner: User, share: Option<Share>, sharedUser: Option<User>)

  /** The shares of one todo, in table order. */
  function SharesOfTodo(shares: seq<Share>, todoId: nat): (r: seq<Share>)
    ensures forall s :: s in r <==> s in shares && s.todoId == todoId
  {
    if |shares| == 0 then []
    else
      var s := shares[|shares| - 1];
      assert shares == shares[..|shares| - 1] + [s];
      SharesOfTodo(shares[..|shares| - 1], todoId) + (if s.todoId == todoId then [s] else [])
  }

  /** The rows one todo contributes: one per share, or a single row without share when it has none. */
  function TodoRows(users: seq<User>, shares: seq<Share>, t: Todo, owner: User): seq<Row>
  {
    var mine := SharesOfTodo(shares, t.id);
    if |mine| == 0 then [Row(t, owner, None, None)]
    else seq(|mine|, k requires 0 <= k < |mine| => Row(t, owner, Some(mine[k]), Storage.UserById(users, mine[k].userId)))
  }

  /** The join with `is_deleted == False`, in one fixed order (todo, then share). The database may
    * return the rows in any order; the grouping below is proved for every order. */
  function JoinedRows(users: seq<User>, todos: seq<Todo>, shares: seq<Share>): seq<Row>
  {
    if |todos| == 0 then []
    else
      var t := todos[|todos| - 1];
      var owner := Storage.UserById(users, t.userId);
      JoinedRows(users, todos[..|todos| - 1], shares)
        + (if !t.isDeleted && owner.Some? then TodoRows(users, shares, t, owner.value) else [])
  }

  /** What makes a row part of the join: a live todo, its owner by the inner join, and either one
    * of the todo's shares with that share's user (if any), or no share when the todo has none. */
  predicate InJoin(users: seq<User>, todos: seq<Todo>, shares: seq<Share>, r: Row)
  {
    && r.todo in todos && !r.todo.isDeleted
    && Storage.UserById(users, r.todo.userId) == Some(r.owner)
    && match r.share
       case None => r.sharedUser.None? && forall s :: s in shares ==> s.todoId != r.todo.id
       case Some(s) => s in shares && s.todoId == r.todo.id && r.sharedUser == Storage.UserById(users, s.userId)
  }

  lemma TodoRowsExactly(users: seq<User>, shares: seq<Share>, t: Todo, owner: User, r: Row)
    ensures r in TodoRows(users, shares, t, owner) <==>
      && r.todo == t && r.owner == owner
      && match r.share
         case None => r.sharedUser.None? && forall s :: s in shares ==> s.todoId != t.id
         case Some(s) => s in shares && s.todoId == t.id && r.sharedUser == Storage.UserById(users, s.userId)
  {
    var mine := SharesOfTodo(shares, t.id);
    if |mine| == 0 {
      assert forall s :: s in shares && s.todoId == t.id ==> s in mine;
    } else {
      assert mine[0] in shares;
      if r.todo == t && r.owner == owner && r.share.Some? && r.share.value in shares && r.share.value.todoId == t.id
         && r.sharedUser == Storage.UserById(users, r.share.value.userId) {
        var k :| 0 <= k < |mine| && mine[k] == r.share.value;
        assert TodoRows(users, shares, t, owner)[k] == r;
      }
    }
  }

  /** The fixed-order join holds exactly the rows of the join. */
  lemma {:induction false} JoinedRowsExactly(users: seq<User>, todos: seq<Todo>, shares: seq<Share>, r: Row)
    ensures r in JoinedRows(users, todos, shares) <==> InJoin(users, todos, shares, r)
  {
    if |todos| > 0 {
      var init := todos[..|todos| - 1];
      var t := todos[|todos| - 1];
      assert todos == init + [t];
      JoinedRowsExactly(users, init, shares, r);
      var owner := Storage.UserById(users, t.userId);
      if owner.Some? {
        TodoRowsExactly(users, shares, t, owner.value, r);
      }
      if r.todo in todos && r.todo != t {
        assert r.todo in init;
      }
    }
  }

  // ---------------------------------------------------------------- get_all_tasks: grouping

  /** A member of `shared_with`. */
  datatype Grant = Grant(userEmail: string, permission: string)

  /** One element of the `GET /admin/tasks` response. */
  datatype AdminTask = AdminTask(id: nat, title: string, priority: string, completed: bool, ownerEmail: string, sharedWith: seq<Grant>)

  /** The todo id of every row, in row order. */
  function Ids(rows: seq<Row>): (r: seq<nat>)
    ensures |r| == |rows| && forall i :: 0 <= i < |rows| ==> r[i] == rows[i].todo.id
  {
    seq(|rows|, i requires 0 <= i < |rows| => rows[i].todo.id)
  }

  /** The distinct elements of `s` in the order they are first seen. */
  function Dedup(s: seq<nat>): (r: seq<nat>)
    ensures forall x :: x in r <==> x in s
    ensures forall i, j :: 0 <= i < j < |r| ==> r[i] != r[j]
  {
    if |s| == 0 then []
    else
      var x := s[|s| - 1];
      assert s == s[..|s| - 1] + [x];
      var d := Dedup(s[..|s| - 1]);
      if x in d then d else d + [x]
  }

  /** The position of the first occurrence of `x` in `s`. */
  function FirstSeen(s: seq<nat>, x: nat): (k: nat)
    requires x in s
    ensures k < |s| && s[k] == x && forall j :: 0 <= j < k ==> s[j] != x
  {
    if s[0] == x then 0 else 1 + FirstSeen(s[1..], x)
  }

  /** `Dedup` keeps the ids in the order of their first occurrence. */
  lemma {:induction false} DedupFirstSeenOrder(s: seq<nat>, i: nat, j: nat)
    requires i < j < |Dedup(s)|
    ensures FirstSeen(s, Dedup(s)[i]) < FirstSeen(s, Dedup(s)[j])
  {
    var init := s[..|s| - 1];
    var x := s[|s| - 1];
    assert s == init + [x];
    var d := Dedup(init);
    assert d[i] in init;
    FirstSeenPrefix(init, x, d[i]);
    if j < |d| {
      DedupFirstSeenOrder(init, i, j);
      FirstSeenPrefix(init, x, d[j]);
    } else {
      assert Dedup(s)[j] == x && x !in init;
      assert forall m :: 0 <= m < |init| ==> s[m] == init[m] && init[m] != x;
    }
  }

  /** Appending after the first occurrence does not move it. */
  lemma FirstSeenPrefix(s: seq<nat>, x: nat, y: nat)
    requires y in s
    ensures FirstSeen(s + [x], y) == FirstSeen(s, y)
  {
    var k := FirstSeen(s, y);
    var k' := FirstSeen(s + [x], y);
    assert (s + [x])[k] == y;
    assert k' <= k;
    assert s[k'] == (s + [x])[k'];
  }

  /** Selects the rows of one todo. */
  function HasId(id: nat): Row -> bool
  {
    (r: Row) => r.todo.id == id
  }

  /** The first row of a todo, whose columns the task record is built from. */
  function FirstRowOf(rows: seq<Row>, id: nat): (r: Option<Row>)
    ensures r.Some? ==> r.value in rows && r.value.todo.id == id
    ensures r.None? <==> id !in Ids(rows)
  {
    var r := First(rows, HasId(id));
    assert r.Some? ==> HasId(id)(r.value);
    assert r.None? ==> forall i :: 0 <= i < |rows| ==> !HasId(id)(rows[i]);
    r
  }

  /** The `shared_with` entries of a todo: one per row of it with both a share and a matched user. */
  function GrantsOf(rows: seq<Row>, id: nat): seq<Grant>
  {
    if |rows| == 0 then []
    else
      var r := rows[|rows| - 1];
      GrantsOf(rows[..|rows| - 1], id) + GrantOf(r, id)
  }

  /** The grant one row contributes to a todo. */
  function GrantOf(r: Row, id: nat): seq<Grant>
  {
    if r.todo.id == id && r.share.Some? && r.sharedUser.Some? then [Grant(r.sharedUser.value.email, r.share.value.permission)] else []
  }

  /** The record a task gets from its first row, with the grants collected so far. */
  function Record(r: Row, grants: seq<Grant>): AdminTask
  {
    AdminTask(r.todo.id, r.todo.title, r.todo.priority, r.todo.completed, r.owner.email, grants)
  }

  /** One record per distinct todo id, in first-seen order: the columns of its first row and the
    * grants of all its rows. */
  function Grouped(rows: seq<Row>): (r: seq<AdminTask>)
    ensures |r| == |Dedup(Ids(rows))|
    ensures forall k :: 0 <= k < |r| ==> r[k].id == Dedup(Ids(rows))[k]
  {
    var order := Dedup(Ids(rows));
    seq(|order|, k requires 0 <= k < |order| =>
      assert order[k] in Ids(rows);
      Record(FirstRowOf(rows, order[k]).value, GrantsOf(rows, order[k])))
  }

  /** The state of the grouping loop after a prefix of the rows: the ids seen, in first-seen
    * order, and for each a complete record of that prefix. */
  ghost predicate Grouping(prefix: seq<Row>, order: seq<nat>, byId: map<nat, AdminTask>)
  {
    && order == Dedup(Ids(prefix))
    && (forall id :: id in byId <==> id in Ids(prefix))
    && (forall id :: id in byId ==> FirstRowOf(prefix, id).Some? && byId[id] == Record(FirstRowOf(prefix, id).value, GrantsOf(prefix, id)))
  }

  lemma IdsAppend(rows: seq<Row>, row: Row)
    ensures Ids(rows + [row]) == Ids(rows) + [row.todo.id]
  {
  }

  lemma DedupAppend(s: seq<nat>, x: nat)
    ensures Dedup(s + [x]) == if x in s then Dedup(s) else Dedup(s) + [x]
  {
    assert (s + [x])[..|s|] == s;
  }

  lemma GrantsAppend(rows: seq<Row>, row: Row, id: nat)
    ensures GrantsOf(rows + [row], id) == GrantsOf(rows, id) + GrantOf(row, id)
  {
    assert (rows + [row])[..|rows|] == rows;
  }

  lemma FirstRowAppend(rows: seq<Row>, row: Row, id: nat)
    ensures FirstRowOf(rows + [row], id) ==
      if FirstRowOf(rows, id).Some? then FirstRowOf(rows, id) else if row.todo.id == id then Some(row) else None
  {
    FirstAppend(rows, row, HasId(id));
  }

  /** A todo without rows has no grants. */
  lemma {:induction false} GrantsOfAbsent(rows: seq<Row>, id: nat)
    requires id !in Ids(rows)
    ensures GrantsOf(rows, id) == []
  {
    if |rows| > 0 {
      var init := rows[..|rows| - 1];
      assert Ids(rows) == Ids(init) + [rows[|rows| - 1].todo.id];
      GrantsOfAbsent(init, id);
    }
  }

  /** The dictionary after one row: a new record for an unseen todo, then its grant appended. */
  ghost function Added(byId: map<nat, AdminTask>, row: Row): map<nat, AdminTask>
  {
    var id := row.todo.id;
    var entry := if id in byId then byId[id] else Record(row, []);
    byId[id := entry.(sharedWith := entry.sharedWith + GrantOf(row, id))]
  }

  /** One turn of the loop body keeps the grouping state. */
  lemma GroupingStep(prefix: seq<Row>, row: Row, order: seq<nat>, byId: map<nat, AdminTask>)
    requires Grouping(prefix, order, byId)
    ensures Grouping(prefix + [row], if row.todo.id in byId then order else order + [row.todo.id], Added(byId, row))
  {
    var id := row.todo.id;
    var next := prefix + [row];
    assert (if id in byId then order else order + [id]) == Dedup(Ids(next)) by {
      IdsAppend(prefix, row);
      DedupAppend(Ids(prefix), id);
    }
    assert forall id' :: id' in Added(byId, row) <==> id' in Ids(next) by {
      IdsAppend(prefix, row);
    }
    forall id' | id' in Added(byId, row)
      ensures FirstRowOf(next, id').Some? && Added(byId, row)[id'] == Record(FirstRowOf(next, id').value, GrantsOf(next, id'))
    {
      RecordStep(prefix, row, order, byId, id');
    }
  }

  lemma RecordStep(prefix: seq<Row>, row: Row, order: seq<nat>, byId: map<nat, AdminTask>, id': nat)
    requires Grouping(prefix, order, byId)
    requires id' in Added(byId, row)
    ensures FirstRowOf(prefix + [row], id').Some?
    ensures Added(byId, row)[id'] == Record(FirstRowOf(prefix + [row], id').value, GrantsOf(prefix + [row], id'))
  {
    var id := row.todo.id;
    FirstRowAppend(prefix, row, id');
    GrantsAppend(prefix, row, id');
    if id' != id {
      assert Added(byId, row)[id'] == byId[id'];
    } else if id !in byId {
      GrantsOfAbsent(prefix, id);
    } else {
      assert FirstRowOf(prefix + [row], id) == FirstRowOf(prefix, id);
    }
  }

  /** `tasks.values()`: the records in insertion order. */
  function Values(order: seq<nat>, byId: map<nat, AdminTask>): seq<AdminTask>
    requires forall id :: id in order ==> id in byId
  {
    seq(|order|, k requires 0 <= k < |order| => byId[order[k]])
  }

  /** The dictionary the loop has built after a prefix of the rows. */
  ghost function Expected(prefix: seq<Row>): map<nat, AdminTask>
  {
    if |prefix| == 0 then map[] else Added(Expected(prefix[..|prefix| - 1]), prefix[|prefix| - 1])
  }

  /** The dictionary built from a prefix is the grouping of that prefix. */
  lemma {:induction false} ExpectedGrouping(prefix: seq<Row>)
    ensures Grouping(prefix, Dedup(Ids(prefix)), Expected(prefix))
  {
    if |prefix| > 0 {
      var init := prefix[..|prefix| - 1];
      var row := prefix[|prefix| - 1];
      assert prefix == init + [row];
      ExpectedGrouping(init);
      GroupingStep(init, row, Dedup(Ids(init)), Expected(init));
    }
  }

  lemma ExpectedNext(rows: seq<Row>, i: nat)
    requires i < |rows|
    ensures Expected(rows[..i + 1]) == Added(Expected(rows[..i]), rows[i])
    ensures Dedup(Ids(rows[..i + 1])) ==
      if rows[i].todo.id in Expected(rows[..i]) then Dedup(Ids(rows[..i])) else Dedup(Ids(rows[..i])) + [rows[i].todo.id]
  {
    assert rows[..i + 1] == rows[..i] + [rows[i]];
    assert rows[..i + 1][..i] == rows[..i];
    IdsAppend(rows[..i], rows[i]);
    DedupAppend(Ids(rows[..i]), rows[i].todo.id);
    ExpectedGrouping(rows[..i]);
  }

  /** Writing the updated record back is the step `Added` describes. */
  lemma AddedEntry(byId: map<nat, AdminTask>, row: Row, entry: AdminTask)
    requires var base := if row.todo.id in byId then byId[row.todo.id] else Record(row, []);
      entry == base.(sharedWith := base.sharedWith + GrantOf(row, row.todo.id))
    ensures byId[row.todo.id := entry] == Added(byId, row)
  {
  }

  /** The grouping loop of `get_all_tasks`: a dictionary from todo id to its record, kept in
    * insertion order, filled row by row. */
  method GroupRows(rows: seq<Row>) returns (tasks: seq<AdminTask>)
    ensures tasks == Grouped(rows)
  {
    var order: seq<nat> := [];
    var byId: map<nat, AdminTask> := map[];
    var i := 0;
    while i < |rows|
      invariant 0 <= i <= |rows|
      invariant order == Dedup(Ids(rows[..i]))
      invariant byId == Expected(rows[..i])
    {
      var row := rows[i];
      var id := row.todo.id;
      ExpectedNext(rows, i);
      var entry: AdminTask;
      if id !in byId {
        entry := Record(row, []);
        order := order + [id];
      } else {
        entry := byId[id];
      }
      ghost var base := entry;
      if row.share.Some? && row.sharedUser.Some? {
        entry := entry.(sharedWith := entry.sharedWith + [Grant(row.sharedUser.value.email, row.share.value.permission)]);
      } else {
        assert entry.sharedWith + GrantOf(row, id) == entry.sharedWith;
      }
      assert entry == base.(sharedWith := base.sharedWith + GrantOf(row, id));
      AddedEntry(byId, row, entry);
      byId := byId[id := entry];
      i := i + 1;
    }
    assert rows[..i] == rows;
    ExpectedGrouping(rows);
    GroupingValues(rows, order, byId);
    tasks := Values(order, byId);
  }

  /** At the end of the rows, the dictionary's values in insertion order are the grouping. */
  lemma GroupingValues(rows: seq<Row>, order: seq<nat>, byId: map<nat, AdminTask>)
    requires Grouping(rows, order, byId)
    ensures forall id :: id in order ==> id in byId
    ensures Values(order, byId) == Grouped(rows)
  {
  }

  /** An entry of `shared_with` comes from a row of that todo with a share and its user. */
  lemma {:induction false} GrantsOfExactly(rows: seq<Row>, id: nat, g: Grant)
    ensures g in GrantsOf(rows, id) <==>
      exists r :: r in rows && r.todo.id == id && r.share.Some? && r.sharedUser.Some?
                  && g == Grant(r.sharedUser.value.email, r.share.value.permission)
  {
    if |rows| > 0 {
      var init := rows[..|rows| - 1];
      assert rows == init + [rows[|rows| - 1]];
      GrantsOfExactly(init, id, g);
      if exists r :: r in rows && r.todo.id == id && r.share.Some? && r.sharedUser.Some?
                     && g == Grant(r.sharedUser.value.email, r.share.value.permission) {
        var r :| r in rows && r.todo.id == id && r.share.Some? && r.sharedUser.Some?
                 && g == Grant(r.sharedUser.value.email, r.share.value.permission);
        if r != rows[|rows| - 1] {
          assert r in init;
        }
      }
    }
  }

  // ---------------------------------------------------------------- get_all_tasks: search

  /** The owner's email followed by every grantee's email. */
  function Emails(t: AdminTask): (r: seq<string>)
    ensures forall e :: e in r <==> e == t.ownerEmail || exists g :: g in t.sharedWith && g.userEmail == e
  {
    var grantees := seq(|t.sharedWith|, k requires 0 <= k < |t.sharedWith| => t.sharedWith[k].userEmail);
    assert forall g :: g in t.sharedWith ==> g.userEmail in grantees by {
      forall g | g in t.sharedWith ensures g.userEmail in grantees {
        var k :| 0 <= k < |t.sharedWith| && t.sharedWith[k] == g;
        assert grantees[k] == g.userEmail;
      }
    }
    [t.ownerEmail] + grantees
  }

  /** `if search:` keeps every task for a missing or empty search; otherwise the lower-cased search
    * must equal one lower-cased email of the task, as a whole string. */
  predicate Keep(t: AdminTask, search: Option<string>)
  {
    search.None? || search.value == "" || exists e :: e in Emails(t) && Text.Lower(e) == Text.Lower(search.value)
  }

  /** The tasks that pass the search, in order. */
  function Kept(tasks: seq<AdminTask>, search: Option<string>): seq<AdminTask>
  {
    if |tasks| == 0 then []
    else
      var t := tasks[|tasks| - 1];
      Kept(tasks[..|tasks| - 1], search) + (if Keep(t, search) then [t] else [])
  }

  /** The filtering loop of `get_all_tasks`. */
  method FilterTasks(tasks: seq<AdminTask>, search: Option<string>) returns (result: seq<AdminTask>)
    ensures result == Kept(tasks, search)
  {
    result := [];
    var i := 0;
    while i < |tasks|
      invariant 0 <= i <= |tasks|
      invariant result == Kept(tasks[..i], search)
    {
      var t := tasks[i];
      assert tasks[..i + 1][..i] == tasks[..i];
      i := i + 1;
      if search.Some? && search.value != "" {
        var emails := Emails(t);
        var found := false;
        var j := 0;
        while j < |emails|
          invariant 0 <= j <= |emails|
          invariant found <==> exists k :: 0 <= k < j && Text.Lower(emails[k]) == Text.Lower(search.value)
        {
          if Text.Lower(emails[j]) == Text.Lower(search.value) {
            found := true;
          }
          j := j + 1;
        }
        if !found {
          continue;
        }
      }
      result := result + [t];
    }
    assert tasks[..i] == tasks;
  }

  /** The search keeps exactly the tasks that match, in their order, and keeps all of them
    * when there is no search text. */
  lemma {:induction false} KeptExactly(tasks: seq<AdminTask>, search: Option<string>, t: AdminTask)
    ensures t in Kept(tasks, search) <==> t in tasks && Keep(t, search)
    ensures search.None? || search == Some("") ==> Kept(tasks, search) == tasks
  {
    if |tasks| > 0 {
      var init := tasks[..|tasks| - 1];
      assert tasks == init + [tasks[|tasks| - 1]];
      KeptExactly(init, search, t);
    }
  }

  /** The search is an exact, case-insensitive match and not a substring match. */
  lemma SearchIsExact()
    ensures var t := AdminTask(1, "t", "Low", false, "Alice@example.com", []);
      && !Keep(t, Some("alice"))
      && Keep(t, Some("ALICE@EXAMPLE.COM"))
  {
    var t := AdminTask(1, "t", "Low", false, "Alice@example.com", []);
    assert Emails(t) == ["Alice@example.com"];
    assert |Text.Lower("alice")| != |Text.Lower("Alice@example.com")|;
    assert Text.Lower("ALICE@EXAMPLE.COM") == Text.Lower("Alice@example.com");
  }

  // ---------------------------------------------------------------- get_all_tasks: the route

  /** `GET /admin/tasks`. */
  method GetAllTasks(store: Storage.Store, payload: Security.Payload, search: Option<string>)
    returns (r: Result<seq<AdminTask>>)
    ensures r.Err? <==> payload.role != ADMIN_ROLE
    ensures r.Err? ==> r.error == Deps.ADMIN_REQUIRED
    ensures r.Ok? ==> r.value == Kept(Grouped(JoinedRows(store.users, store.todos, store.shares)), search)
  {
    var _ :- Deps.RequireAdmin(payload);
    var rows := JoinedRows(store.users, store.todos, store.shares);
    var tasks := GroupRows(rows);
    var result := FilterTasks(tasks, search);
    r := Ok(result);
  }

  /** A row of the join, read back against the tables: the live todo at its id's position, its
    * owner, and the share and share user it was joined with. */
  lemma JoinedRowAt(db: Storage.Db, r: Row)
    requires Storage.TodosIndexed(db.todos) && r in JoinedRows(db.users, db.todos, db.shares)
    ensures 1 <= r.todo.id <= |db.todos| && r.todo == db.todos[r.todo.id - 1] && !r.todo.isDeleted
    ensures Storage.UserById(db.users, r.todo.userId) == Some(r.owner)
    ensures r.share.Some? ==> r.share.value in db.shares && r.share.value.todoId == r.todo.id
                              && r.sharedUser == Storage.UserById(db.users, r.share.value.userId)
  {
    JoinedRowsExactly(db.users, db.todos, db.shares, r);
    var i :| 0 <= i < |db.todos| && db.todos[i] == r.todo;
  }

  /** Before the search, each record of the overview carries the columns of the live todo with
    * its id and the email of that todo's owner. */
  lemma AdminOverviewRecord(db: Storage.Db, k: nat)
    requires Storage.WellFormed(db)
    requires k < |Grouped(JoinedRows(db.users, db.todos, db.shares))|
    ensures var task := Grouped(JoinedRows(db.users, db.todos, db.shares))[k];
      && 1 <= task.id <= |db.todos|
      && var t := db.todos[task.id - 1];
      && !t.isDeleted
      && Storage.UserById(db.users, t.userId).Some?
      && task == AdminTask(t.id, t.title, t.priority, t.completed, Storage.UserById(db.users, t.userId).value.email, task.sharedWith)
  {
    var rows := JoinedRows(db.users, db.todos, db.shares);
    var id := Dedup(Ids(rows))[k];
    assert id in Ids(rows);
    JoinedRowAt(db, FirstRowOf(rows, id).value);
  }

  /** The grant a share gives in the overview, when its user exists. */
  predicate GrantedBy(users: seq<User>, s: Share, g: Grant)
  {
    Storage.UserById(users, s.userId).Some? && g == Grant(Storage.UserById(users, s.userId).value.email, s.permission)
  }

  /** Before the search, a record's `shared_with` holds exactly the grants of the todo's shares
    * whose user exists, each with that user's email and the share's permission. */
  lemma AdminOverviewGrants(db: Storage.Db, id: nat, g: Grant)
    requires Storage.TodosIndexed(db.todos)
    requires 1 <= id <= |db.todos| && !db.todos[id - 1].isDeleted && Storage.UserById(db.users, db.todos[id - 1].userId).Some?
    ensures g in GrantsOf(JoinedRows(db.users, db.todos, db.shares), id) <==>
      exists s :: s in db.shares && s.todoId == id && GrantedBy(db.users, s, g)
  {
    if g in GrantsOf(JoinedRows(db.users, db.todos, db.shares), id) {
      GrantHasShare(db, id, g);
    }
    forall s | s in db.shares && s.todoId == id && GrantedBy(db.users, s, g)
      ensures g in GrantsOf(JoinedRows(db.users, db.todos, db.shares), id)
    {
      ShareHasGrant(db, id, s, g);
    }
  }

  lemma GrantHasShare(db: Storage.Db, id: nat, g: Grant)
    requires Storage.TodosIndexed(db.todos)
    requires g in GrantsOf(JoinedRows(db.users, db.todos, db.shares), id)
    ensures exists s :: s in db.shares && s.todoId == id && GrantedBy(db.users, s, g)
  {
    var rows := JoinedRows(db.users, db.todos, db.shares);
    GrantsOfExactly(rows, id, g);
    var r :| r in rows && r.todo.id == id && r.share.Some? && r.sharedUser.Some?
             && g == Grant(r.sharedUser.value.email, r.share.value.permission);
    JoinedRowAt(db, r);
    assert GrantedBy(db.users, r.share.value, g);
  }

  lemma ShareHasGrant(db: Storage.Db, id: nat, s: Share, g: Grant)
    requires Storage.TodosIndexed(db.todos)
    requires 1 <= id <= |db.todos| && !db.todos[id - 1].isDeleted && Storage.UserById(db.users, db.todos[id - 1].userId).Some?
    requires s in db.shares && s.todoId == id && GrantedBy(db.users, s, g)
    ensures g in GrantsOf(JoinedRows(db.users, db.todos, db.shares), id)
  {
    var t := db.todos[id - 1];
    var r := Row(t, Storage.UserById(db.users, t.userId).value, Some(s), Storage.UserById(db.users, s.userId));
    JoinedRowsExactly(db.users, db.todos, db.shares, r);
    GrantsOfExactly(JoinedRows(db.users, db.todos, db.shares), id, g);
  }

  /** Every live todo that has an owner is in the overview; a deleted one never is. */
  lemma AdminOverviewComplete(db: Storage.Db, id: nat)
    requires Storage.TodosIndexed(db.todos)
    ensures id in Dedup(Ids(JoinedRows(db.users, db.todos, db.shares))) <==>
      1 <= id <= |db.todos| && !db.todos[id - 1].isDeleted && Storage.UserById(db.users, db.todos[id - 1].userId).Some?
  {
    var rows := JoinedRows(db.users, db.todos, db.shares);
    var ids := Ids(rows);
    assert id in Dedup(ids) <==> id in ids;
    if id in ids {
      JoinedIdIsLive(db, id);
    }
    if 1 <= id <= |db.todos| && !db.todos[id - 1].isDeleted && Storage.UserById(db.users, db.todos[id - 1].userId).Some? {
      LiveTodoJoined(db, id);
    }
  }

  /** A row behind an id of `Ids(rows)`. */
  lemma RowWithId(rows: seq<Row>, id: nat) returns (r: Row)
    requires id in Ids(rows)
    ensures r in rows && r.todo.id == id
  {
    var i :| 0 <= i < |rows| && Ids(rows)[i] == id;
    r := rows[i];
  }

  /** Restates the facts `JoinedRowAt` gives about a row in terms of the row's id. */
  lemma RowLive(users: seq<User>, todos: seq<Todo>, id: nat, r: Row)
    requires r.todo.id == id && 1 <= r.todo.id <= |todos| && r.todo == todos[r.todo.id - 1] && !r.todo.isDeleted
    requires Storage.UserById(users, r.todo.userId) == Some(r.owner)
    ensures 1 <= id <= |todos| && !todos[id - 1].isDeleted && Storage.UserById(users, todos[id - 1].userId).Some?
  {
  }

  /** Only live todos with an owner appear in the join. */
  lemma JoinedIdIsLive(db: Storage.Db, id: nat)
    requires Storage.TodosIndexed(db.todos) && id in Ids(JoinedRows(db.users, db.todos, db.shares))
    ensures 1 <= id <= |db.todos| && !db.todos[id - 1].isDeleted && Storage.UserById(db.users, db.todos[id - 1].userId).Some?
  {
    var r := RowWithId(JoinedRows(db.users, db.todos, db.shares), id);
    JoinedRowAt(db, r);
    RowLive(db.users, db.todos, id, r);
  }

  /** A live todo with an owner contributes a row to the join. */
  lemma LiveTodoJoined(db: Storage.Db, id: nat)
    requires 1 <= id <= |db.todos| && db.todos[id - 1].id == id && !db.todos[id - 1].isDeleted
    requires Storage.UserById(db.users, db.todos[id - 1].userId).Some?
    ensures id in Ids(JoinedRows(db.users, db.todos, db.shares))
  {
    var rows := JoinedRows(db.users, db.todos, db.shares);
    var t := db.todos[id - 1];
    var owner := Storage.UserById(db.users, t.userId).value;
    var r: Row;
    if forall s :: s in db.shares ==> s.todoId != t.id {
      r := Row(t, owner, None, None);
    } else {
      var s :| s in db.shares && s.todoId == t.id;
      r := Row(t, owner, Some(s), Storage.UserById(db.users, s.userId));
    }
    JoinedRowsExactly(db.users, db.todos, db.shares, r);
    var i :| 0 <= i < |rows| && rows[i] == r;
    assert Ids(rows)[i] == id;
  }

  // ---------------------------------------------------------------- delete_task (admin)

  /** The admin `delete_task` on a database value. The admin's row is read only when the audit
    * entry is built; if it is missing, that raises before the commit and nothing is stored. */
  function AdminDeleteStep(db: Storage.Db, payload: Security.Payload, taskId: nat): Storage.Step<string>
  {
    match Deps.RequireAdmin(payload)
    case Err(e) => Storage.Step(Err(e), db)
    case Ok(_) =>
      match Storage.LiveTodoIndex(db.todos, taskId)
      case None => Storage.Step(Err(Deps.TASK_NOT_FOUND), db)
      case Some(k) =>
        match Deps.CallerId(payload)
        case Err(e) => Storage.Step(Err(e), db)
        case Ok(adminId) =>
          match Storage.UserById(db.users, adminId)
          case None => Storage.Step(Err(INTERNAL_SERVER_ERROR), db)
          case Some(admin) =>
            var task := db.todos[k];
            Storage.Step(Ok(TodoRoutes.DELETED),
                         db.(todos := db.todos[k := task.(isDeleted := true)],
                             auditLogs := db.auditLogs + [AuditLog(AUDIT_PREFIX + Text.NatToDecimal(task.id), admin.email)]))
  }

  /** `DELETE /admin/tasks/{task_id}`. */
  method AdminDeleteTask(store: Storage.Store, payload: Security.Payload, taskId: nat) returns (r: Result<string>)
    modifies store
    ensures Storage.Step(r, store.Snapshot()) == AdminDeleteStep(old(store.Snapshot()), payload, taskId)
    ensures old(store.Valid()) ==> store.Valid()
  {
    if store.Valid() {
      AdminDeleteKeepsWellFormed(store.Snapshot(), payload, taskId);
    }
    var _ :- Deps.RequireAdmin(payload);
    var found := Storage.LiveTodoIndex(store.todos, taskId);
    if found.None? {
      return Err(Deps.TASK_NOT_FOUND);
    }
    var k := found.value;
    var adminId :- Deps.CallerId(payload);
    var admin := Storage.UserById(store.users, adminId);
    if admin.None? {
      return Err(INTERNAL_SERVER_ERROR);
    }
    var task := store.todos[k];
    store.todos := store.todos[k := task.(isDeleted := true)];
    store.auditLogs := store.auditLogs + [AuditLog(AUDIT_PREFIX + Text.NatToDecimal(task.id), admin.value.email)];
    r := Ok(TodoRoutes.DELETED);
  }

  /** For an admin: 404 and no audit entry for a missing or deleted task, whoever owns it; a 500
    * with nothing stored when the admin's own row is missing; otherwise the flag is set and one
    * audit entry naming the task and the admin's email is appended, and nothing else changes. */
  lemma AdminDeleteOutcomes(db: Storage.Db, payload: Security.Payload, taskId: nat, adminId: nat)
    requires Storage.UsersIndexed(db.users) && Storage.TodosIndexed(db.todos)
    requires payload.role == ADMIN_ROLE && Deps.CallerId(payload) == Ok(adminId)
    ensures var step := AdminDeleteStep(db, payload, taskId);
      if !(1 <= taskId <= |db.todos|) || db.todos[taskId - 1].isDeleted then
        step == Storage.Step(Err(Deps.TASK_NOT_FOUND), db)
      else if !(1 <= adminId <= |db.users|) then
        step == Storage.Step(Err(INTERNAL_SERVER_ERROR), db)
      else
        step == Storage.Step(Ok(TodoRoutes.DELETED),
                             db.(todos := db.todos[taskId - 1 := db.todos[taskId - 1].(isDeleted := true)],
                                 auditLogs := db.auditLogs + [AuditLog(AUDIT_PREFIX + Text.NatToDecimal(taskId), db.users[adminId - 1].email)]))
  {
    Storage.LiveTodoIndexAt(db.todos, taskId);
    Storage.UserByIdAt(db.users, adminId);
  }

  /** The audit entry of a force delete reads back as the id of the deleted task. */
  lemma AuditEntryNamesTask(db: Storage.Db, payload: Security.Payload, taskId: nat)
    requires AdminDeleteStep(db, payload, taskId).result.Ok?
    ensures var logs := AdminDeleteStep(db, payload, taskId).db.auditLogs;
      && |logs| == |db.auditLogs| + 1
      && logs[..|db.auditLogs|] == db.auditLogs
      && var action := logs[|db.auditLogs|].action;
      && |action| > |AUDIT_PREFIX| && action[..|AUDIT_PREFIX|] == AUDIT_PREFIX
      && Text.DecimalToNat(action[|AUDIT_PREFIX|..]) == Some(taskId)
  {
    var logs := AdminDeleteStep(db, payload, taskId).db.auditLogs;
    var action := logs[|db.auditLogs|].action;
    assert action == AUDIT_PREFIX + Text.NatToDecimal(taskId);
    assert action[|AUDIT_PREFIX|..] == Text.NatToDecimal(taskId);
    Text.DecimalRoundTrip(taskId);
  }

  /** Force deletes keep every invariant. */
  lemma AdminDeleteKeepsWellFormed(db: Storage.Db, payload: Security.Payload, taskId: nat)
    requires Storage.WellFormed(db)
    ensures Storage.WellFormed(AdminDeleteStep(db, payload, taskId).db)
  {
    var step := AdminDeleteStep(db, payload, taskId);
    if step.result.Ok? {
      AdminDeleteOutcomes(db, payload, taskId, Deps.CallerId(payload).value);
    }
  }

  /** The task a force delete succeeds on leaves the overview. */
  lemma AdminDeleteHidesTask(db: Storage.Db, payload: Security.Payload, taskId: nat)
    requires Storage.UsersIndexed(db.users) && Storage.TodosIndexed(db.todos)
    requires AdminDeleteStep(db, payload, taskId).result.Ok?
    ensures var db' := AdminDeleteStep(db, payload, taskId).db;
      taskId !in Dedup(Ids(JoinedRows(db'.users, db'.todos, db'.shares)))
  {
    var step := AdminDeleteStep(db, payload, taskId);
    AdminDeleteOutcomes(db, payload, taskId, Deps.CallerId(payload).value);
    assert Storage.TodosIndexed(step.db.todos);
    AdminOverviewComplete(step.db, taskId);
  }
}
