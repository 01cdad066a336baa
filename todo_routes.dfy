/** The task routes as operations on the store: list, create, update, soft-delete, share.
  * Each mutating route is a module-level method that takes the store and updates its fields in
  * place, with the effect the `...Step` function gives for the database before it; the lemmas about the step functions carry the properties. */
module TodoRoutes {
  import opened Outcomes
  import opened Models
  import Schemas
  import Storage
  import Deps
  import Security

  const EDIT_NOT_ALLOWED := Error(403, "Edit not allowed")
  const ONLY_OWNER_CAN_DELETE := Error(403, "Only owner can delete")
  const INVALID_PERMISSION := Error(400, "Invalid permission")
  const ONLY_OWNER_CAN_SHARE := Error(403, "Only owner can share")
  const USER_NOT_FOUND := Error(404, "User not found")
  const ALREADY_SHARED := Error(400, "Already shared")
  const DELETED := "deleted"

  /** One element of the `GET /tasks` response. */
  datatype TaskEntry = TaskEntry(id: nat, title: string, priority: string, completed: bool, permission: string)

  function Entry(t: Todo, permission: string): TaskEntry
  {
    TaskEntry(t.id, t.title, t.priority, t.completed, permission)
  }

  /** The first loop of `get_tasks`: the user's live todos tagged "owner", in table order. */
  function OwnedEntries(todos: seq<Todo>, userId: nat): seq<TaskEntry>
  {
    if |todos| == 0 then []
    else
      var t := todos[|todos| - 1];
      OwnedEntries(todos[..|todos| - 1], userId) + (if t.userId == userId && !t.isDeleted then [Entry(t, OWNER)] else [])
  }

  /** The second loop: the user's shares joined with their live todos, tagged with the share's
    * permission, in share-table order. */
  function SharedEntries(todos: seq<Todo>, shares: seq<Share>, userId: nat): seq<TaskEntry>
  {
    if |shares| == 0 then []
    else
      var s := shares[|shares| - 1];
      var row := if s.userId == userId then Storage.LiveTodo(todos, s.todoId) else None;
      SharedEntries(todos, shares[..|shares| - 1], userId) + (if row.Some? then [Entry(row.value, s.permission)] else [])
  }

  /** `GET /tasks`: owned live tasks followed by shared live tasks. */
  method GetTasks(store: Storage.Store, payload: Security.Payload) returns (r: Result<seq<TaskEntry>>)
    ensures Deps.CallerId(payload).Err? ==> r == Err(INTERNAL_SERVER_ERROR)
    ensures Deps.CallerId(payload).Ok? ==>
      var userId := Deps.CallerId(payload).value;
      r == Ok(OwnedEntries(store.todos, userId) + SharedEntries(store.todos, store.shares, userId))
  {
    var userId :- Deps.CallerId(payload);
    var response: seq<TaskEntry> := [];
    var i := 0;
    while i < |store.todos|
      invariant 0 <= i <= |store.todos|
      invariant response == OwnedEntries(store.todos[..i], userId)
    {
      var t := store.todos[i];
      if t.userId == userId && !t.isDeleted {
        response := response + [Entry(t, OWNER)];
      }
      assert store.todos[..i + 1][..i] == store.todos[..i];
      i := i + 1;
    }
    assert store.todos[..i] == store.todos;
    ghost var owned := response;
    var j := 0;
    while j < |store.shares|
      invariant 0 <= j <= |store.shares|
      invariant response == owned + SharedEntries(store.todos, store.shares[..j], userId)
    {
      var s := store.shares[j];
      if s.userId == userId {
        var row := Storage.LiveTodo(store.todos, s.todoId);
        if row.Some? {
          response := response + [Entry(row.value, s.permission)];
        }
      }
      assert store.shares[..j + 1][..j] == store.shares[..j];
      j := j + 1;
    }
    assert store.shares[..j] == store.shares;
    r := Ok(response);
  }

  /** The owned part lists exactly the user's live todos. */
  lemma {:induction false} OwnedEntriesExactly(todos: seq<Todo>, userId: nat, e: TaskEntry)
    ensures e in OwnedEntries(todos, userId) <==>
            exists t :: t in todos && t.userId == userId && !t.isDeleted && e == Entry(t, OWNER)
  {
    if |todos| > 0 {
      var init := todos[..|todos| - 1];
      OwnedEntriesExactly(init, userId, e);
      assert todos == init + [todos[|todos| - 1]];
      if exists t :: t in todos && t.userId == userId && !t.isDeleted && e == Entry(t, OWNER) {
        var t :| t in todos && t.userId == userId && !t.isDeleted && e == Entry(t, OWNER);
        if t != todos[|todos| - 1] {
          assert t in init;
        }
      }
    }
  }

  /** Every shared entry comes from a share of the user and a live todo with the share's id. */
  lemma {:induction false} SharedEntriesSound(todos: seq<Todo>, shares: seq<Share>, userId: nat, e: TaskEntry)
    requires e in SharedEntries(todos, shares, userId)
    ensures exists s, t :: s in shares && t in todos && s.userId == userId && s.todoId == t.id && !t.isDeleted
                           && e == Entry(t, s.permission)
  {
    var init := shares[..|shares| - 1];
    var s := shares[|shares| - 1];
    if e in SharedEntries(todos, init, userId) {
      SharedEntriesSound(todos, init, userId, e);
      var s', t' :| s' in init && t' in todos && s'.userId == userId && s'.todoId == t'.id && !t'.isDeleted
                    && e == Entry(t', s'.permission);
      assert s' in shares;
    } else {
      var t := Storage.LiveTodo(todos, s.todoId).value;
      assert s in shares && t in todos;
    }
  }

  /** Every share of the user on a live todo is listed with the share's permission. */
  lemma {:induction false} SharedEntriesComplete(todos: seq<Todo>, shares: seq<Share>, userId: nat, s: Share)
    requires Storage.TodosIndexed(todos)
    requires s in shares && s.userId == userId && 1 <= s.todoId <= |todos| && !todos[s.todoId - 1].isDeleted
    ensures Entry(todos[s.todoId - 1], s.permission) in SharedEntries(todos, shares, userId)
  {
    var init := shares[..|shares| - 1];
    assert shares == init + [shares[|shares| - 1]];
    if s == shares[|shares| - 1] {
      Storage.LiveTodoAt(todos, s.todoId);
    } else {
      assert s in init;
      SharedEntriesComplete(todos, init, userId, s);
    }
  }

  /** Nothing listed is deleted: every entry names a live todo the user owns or holds a share on. */
  lemma ListedTasksAreLive(todos: seq<Todo>, shares: seq<Share>, userId: nat, e: TaskEntry)
    requires e in OwnedEntries(todos, userId) + SharedEntries(todos, shares, userId)
    ensures exists t :: t in todos && !t.isDeleted && t.id == e.id
  {
    if e in OwnedEntries(todos, userId) {
      OwnedEntriesExactly(todos, userId, e);
    } else {
      SharedEntriesSound(todos, shares, userId, e);
    }
  }

  /** A share a user holds on their own task lists that task twice: once as owner, once with the share's permission. */
  lemma SelfShareListedTwice(todos: seq<Todo>, shares: seq<Share>, s: Share)
    requires Storage.TodosIndexed(todos)
    requires s in shares && 1 <= s.todoId <= |todos| && todos[s.todoId - 1].userId == s.userId && !todos[s.todoId - 1].isDeleted
    ensures Entry(todos[s.todoId - 1], OWNER) in OwnedEntries(todos, s.userId)
    ensures Entry(todos[s.todoId - 1], s.permission) in SharedEntries(todos, shares, s.userId)
  {
    OwnedEntriesExactly(todos, s.userId, Entry(todos[s.todoId - 1], OWNER));
    SharedEntriesComplete(todos, shares, s.userId, s);
  }

  /** `create_task` on a database value. */
  function CreateStep(db: Storage.Db, payload: Security.Payload, data: Schemas.TodoCreate): Storage.Step<Schemas.TodoResponse>
  {
    match Deps.CallerId(payload)
    case Err(e) => Storage.Step(Err(e), db)
    case Ok(userId) =>
      var todo := NewTodo(|db.todos| + 1, data.title, Schemas.PriorityName(data.priority), userId);
      Storage.Step(Ok(Schemas.ToResponse(todo)), db.(todos := db.todos + [todo]))
  }

  /** `POST /tasks`. */
  method CreateTask(store: Storage.Store, payload: Security.Payload, data: Schemas.TodoCreate)
    returns (r: Result<Schemas.TodoResponse>)
    modifies store
    ensures Storage.Step(r, store.Snapshot()) == CreateStep(old(store.Snapshot()), payload, data)
    ensures old(store.Valid()) ==> store.Valid()
  {
    if store.Valid() {
      CreateKeepsWellFormed(store.Snapshot(), payload, data);
    }
    var userId :- Deps.CallerId(payload);
    var todo := NewTodo(|store.todos| + 1, data.title, Schemas.PriorityName(data.priority), userId);
    store.todos := store.todos + [todo];
    r := Ok(Schemas.ToResponse(todo));
  }

  /** A create adds exactly one todo, owned by the caller, not completed and not deleted, and
    * changes nothing else; the caller then resolves as its owner and sees it in the owned list. */
  lemma CreateAddsOwnedTask(db: Storage.Db, payload: Security.Payload, data: Schemas.TodoCreate, userId: nat)
    requires Storage.WellFormed(db) && Deps.CallerId(payload) == Ok(userId)
    ensures var step := CreateStep(db, payload, data);
      var t := Todo(|db.todos| + 1, data.title, Schemas.PriorityName(data.priority), false, userId, false);
      && step.result == Ok(Schemas.ToResponse(t))
      && step.db == db.(todos := db.todos + [t])
      && Deps.GetTaskPermission(step.db.todos, step.db.shares, t.id, userId) == Ok(OWNER)
      && Entry(t, OWNER) in OwnedEntries(step.db.todos, userId)
  {
    var t := Todo(|db.todos| + 1, data.title, Schemas.PriorityName(data.priority), false, userId, false);
    var todos := db.todos + [t];
    assert todos[|db.todos|] == t;
    assert Storage.TodosIndexed(todos);
    Deps.OwnerPermission(todos, db.shares, t.id);
    OwnedEntriesExactly(todos, userId, Entry(t, OWNER));
  }

  /** Creates keep every invariant of the database. */
  lemma CreateKeepsWellFormed(db: Storage.Db, payload: Security.Payload, data: Schemas.TodoCreate)
    requires Storage.WellFormed(db)
    ensures Storage.WellFormed(CreateStep(db, payload, data).db)
  {
    Schemas.PriorityRoundTrip(data.priority);
  }

  /** `update_task` on a database value: 404 for a missing or deleted task, 403 for a caller
    * who is neither owner nor holder of an editor share, otherwise title, priority and
    * completed are overwritten in the loaded row. */
  function UpdateStep(db: Storage.Db, payload: Security.Payload, taskId: nat, data: Schemas.TodoUpdate): Storage.Step<Schemas.TodoResponse>
  {
    match Deps.CallerId(payload)
    case Err(e) => Storage.Step(Err(e), db)
    case Ok(userId) =>
      match Storage.LiveTodoIndex(db.todos, taskId)
      case None => Storage.Step(Err(Deps.TASK_NOT_FOUND), db)
      case Some(k) =>
        var todo := db.todos[k];
        if todo.userId != userId && Storage.EditorShareFor(db.shares, taskId, userId).None? then
          Storage.Step(Err(EDIT_NOT_ALLOWED), db)
        else
          var updated := todo.(title := data.title, priority := Schemas.PriorityName(data.priority), completed := data.completed);
          Storage.Step(Ok(Schemas.ToResponse(updated)), db.(todos := db.todos[k := updated]))
  }

  /** `PUT /tasks/{task_id}`. */
  method UpdateTask(store: Storage.Store, payload: Security.Payload, taskId: nat, data: Schemas.TodoUpdate)
    returns (r: Result<Schemas.TodoResponse>)
    modifies store
    ensures Storage.Step(r, store.Snapshot()) == UpdateStep(old(store.Snapshot()), payload, taskId, data)
    ensures old(store.Valid()) ==> store.Valid()
  {
    if store.Valid() {
      UpdateKeepsWellFormed(store.Snapshot(), payload, taskId, data);
    }
    var userId :- Deps.CallerId(payload);
    var found := Storage.LiveTodoIndex(store.todos, taskId);
    if found.None? {
      return Err(Deps.TASK_NOT_FOUND);
    }
    var k := found.value;
    var todo := store.todos[k];
    if todo.userId != userId {
      var share := Storage.EditorShareFor(store.shares, taskId, userId);
      if share.None? {
        return Err(EDIT_NOT_ALLOWED);
      }
    }
    var updated := todo.(title := data.title, priority := Schemas.PriorityName(data.priority), completed := data.completed);
    store.todos := store.todos[k := updated];
    r := Ok(Schemas.ToResponse(updated));
  }

  /** The outcomes of an update, in order: 404 for an absent or deleted task; 403, with no change,
    * for a non-owner whose share for the pair is missing or is not "editor"; otherwise exactly
    * title, priority and completed of that one row change. */
  lemma UpdateOutcomes(db: Storage.Db, payload: Security.Payload, taskId: nat, data: Schemas.TodoUpdate, userId: nat)
    requires Storage.WellFormed(db) && Deps.CallerId(payload) == Ok(userId)
    ensures var step := UpdateStep(db, payload, taskId, data);
      if !(1 <= taskId <= |db.todos|) || db.todos[taskId - 1].isDeleted then
        step == Storage.Step(Err(Deps.TASK_NOT_FOUND), db)
      else
        var todo := db.todos[taskId - 1];
        var share := Storage.ShareFor(db.shares, taskId, userId);
        if todo.userId != userId && (share.None? || share.value.permission != EDITOR) then
          step == Storage.Step(Err(EDIT_NOT_ALLOWED), db)
        else
          var updated := Todo(todo.id, data.title, Schemas.PriorityName(data.priority), data.completed, todo.userId, todo.isDeleted);
          step == Storage.Step(Ok(Schemas.ToResponse(updated)), db.(todos := db.todos[taskId - 1 := updated]))
  {
    Storage.LiveTodoIndexAt(db.todos, taskId);
    Storage.EditorShareForPair(db.shares, taskId, userId);
  }

  /** A viewer share never allows an edit. */
  lemma ViewerCannotEdit(db: Storage.Db, payload: Security.Payload, data: Schemas.TodoUpdate, s: Share)
    requires Storage.WellFormed(db) && Deps.CallerId(payload) == Ok(s.userId)
    requires s in db.shares && s.permission == VIEWER && db.todos[s.todoId - 1].userId != s.userId
    ensures UpdateStep(db, payload, s.todoId, data).db == db
    ensures UpdateStep(db, payload, s.todoId, data).result.Err?
  {
    UpdateOutcomes(db, payload, s.todoId, data, s.userId);
    Storage.ShareForFinds(db.shares, s);
  }

  /** Updates keep every invariant of the database. */
  lemma UpdateKeepsWellFormed(db: Storage.Db, payload: Security.Payload, taskId: nat, data: Schemas.TodoUpdate)
    requires Storage.WellFormed(db)
    ensures Storage.WellFormed(UpdateStep(db, payload, taskId, data).db)
  {
    if Deps.CallerId(payload).Ok? {
      UpdateOutcomes(db, payload, taskId, data, Deps.CallerId(payload).value);
      Schemas.PriorityRoundTrip(data.priority);
    }
  }

  /** `delete_task` on a database value: one query for a live todo with the id owned by the
    * caller; anything else, a missing id included, is 403. */
  function DeleteStep(db: Storage.Db, payload: Security.Payload, taskId: nat): Storage.Step<string>
  {
    match Deps.CallerId(payload)
    case Err(e) => Storage.Step(Err(e), db)
    case Ok(userId) =>
      match Storage.OwnedTodoIndex(db.todos, taskId, userId)
      case None => Storage.Step(Err(ONLY_OWNER_CAN_DELETE), db)
      case Some(k) => Storage.Step(Ok(DELETED), db.(todos := db.todos[k := db.todos[k].(isDeleted := true)]))
  }

  /** `DELETE /tasks/{task_id}`. */
  method DeleteTask(store: Storage.Store, payload: Security.Payload, taskId: nat) returns (r: Result<string>)
    modifies store
    ensures Storage.Step(r, store.Snapshot()) == DeleteStep(old(store.Snapshot()), payload, taskId)
    ensures old(store.Valid()) ==> store.Valid()
  {
    if store.Valid() {
      DeleteKeepsWellFormed(store.Snapshot(), payload, taskId);
    }
    var userId :- Deps.CallerId(payload);
    var found := Storage.OwnedTodoIndex(store.todos, taskId, userId);
    if found.None? {
      return Err(ONLY_OWNER_CAN_DELETE);
    }
    var k := found.value;
    store.todos := store.todos[k := store.todos[k].(isDeleted := true)];
    r := Ok(DELETED);
  }

  /** A delete succeeds exactly for the owner of a live task and then sets only its flag; a
    * missing task, someone else's task, or a second delete is 403 with no change. */
  lemma DeleteOutcomes(db: Storage.Db, payload: Security.Payload, taskId: nat, userId: nat)
    requires Storage.WellFormed(db) && Deps.CallerId(payload) == Ok(userId)
    ensures var step := DeleteStep(db, payload, taskId);
      if 1 <= taskId <= |db.todos| && db.todos[taskId - 1].userId == userId && !db.todos[taskId - 1].isDeleted then
        step == Storage.Step(Ok(DELETED), db.(todos := db.todos[taskId - 1 := db.todos[taskId - 1].(isDeleted := true)]))
      else
        step == Storage.Step(Err(ONLY_OWNER_CAN_DELETE), db)
  {
    Storage.OwnedTodoIndexAt(db.todos, taskId, userId);
  }

  /** Deleting twice: the second delete is refused and changes nothing. */
  lemma DeleteTwice(db: Storage.Db, payload: Security.Payload, taskId: nat, userId: nat)
    requires Storage.WellFormed(db) && Deps.CallerId(payload) == Ok(userId)
    requires DeleteStep(db, payload, taskId).result.Ok?
    ensures var db' := DeleteStep(db, payload, taskId).db;
      DeleteStep(db', payload, taskId) == Storage.Step(Err(ONLY_OWNER_CAN_DELETE), db')
  {
    DeleteOutcomes(db, payload, taskId, userId);
    var db' := DeleteStep(db, payload, taskId).db;
    DeleteKeepsWellFormed(db, payload, taskId);
    DeleteOutcomes(db', payload, taskId, userId);
  }

  /** Deletes keep every invariant of the database. */
  lemma DeleteKeepsWellFormed(db: Storage.Db, payload: Security.Payload, taskId: nat)
    requires Storage.WellFormed(db)
    ensures Storage.WellFormed(DeleteStep(db, payload, taskId).db)
  {
    if Deps.CallerId(payload).Ok? {
      DeleteOutcomes(db, payload, taskId, Deps.CallerId(payload).value);
    }
  }

  /** `{"status": "shared", "email": ..., "permission": ...}`. */
  datatype ShareReceipt = ShareReceipt(email: string, permission: string)

  /** `share_task` on a database value, its checks in the order the route makes them. */
  function ShareStep(db: Storage.Db, payload: Security.Payload, taskId: nat, email: string, permission: string): Storage.Step<ShareReceipt>
  {
    match Deps.CallerId(payload)
    case Err(e) => Storage.Step(Err(e), db)
    case Ok(userId) =>
      if !IsGrantPermission(permission) then Storage.Step(Err(INVALID_PERMISSION), db)
      else
        match Storage.LiveTodo(db.todos, taskId)
        case None => Storage.Step(Err(Deps.TASK_NOT_FOUND), db)
        case Some(todo) =>
          if todo.userId != userId then Storage.Step(Err(ONLY_OWNER_CAN_SHARE), db)
          else
            match Storage.UserByEmail(db.users, email)
            case None => Storage.Step(Err(USER_NOT_FOUND), db)
            case Some(user) =>
              if Storage.ShareFor(db.shares, taskId, user.id).Some? then Storage.Step(Err(ALREADY_SHARED), db)
              else
                Storage.Step(Ok(ShareReceipt(user.email, permission)),
                             db.(shares := db.shares + [Share(taskId, user.id, permission)]))
  }

  /** `POST /tasks/{task_id}/share`. */
  method ShareTask(store: Storage.Store, payload: Security.Payload, taskId: nat, email: string, permission: string)
    returns (r: Result<ShareReceipt>)
    modifies store
    ensures Storage.Step(r, store.Snapshot()) == ShareStep(old(store.Snapshot()), payload, taskId, email, permission)
    ensures old(store.Valid()) ==> store.Valid()
  {
    if store.Valid() {
      ShareKeepsWellFormed(store.Snapshot(), payload, taskId, email, permission);
    }
    var userId :- Deps.CallerId(payload);
    if !IsGrantPermission(permission) {
      return Err(INVALID_PERMISSION);
    }
    var todo := Storage.LiveTodo(store.todos, taskId);
    if todo.None? {
      return Err(Deps.TASK_NOT_FOUND);
    }
    if todo.value.userId != userId {
      return Err(ONLY_OWNER_CAN_SHARE);
    }
    var user := Storage.UserByEmail(store.users, email);
    if user.None? {
      return Err(USER_NOT_FOUND);
    }
    var existing := Storage.ShareFor(store.shares, taskId, user.value.id);
    if existing.Some? {
      return Err(ALREADY_SHARED);
    }
    store.shares := store.shares + [Share(taskId, user.value.id, permission)];
    r := Ok(ShareReceipt(user.value.email, permission));
  }

  /** The checks of a share, in order: permission (before any lookup), then a live task, then
    * ownership, then the grantee's email, then an existing share; every refusal leaves the
    * database unchanged. */
  lemma ShareOutcomes(db: Storage.Db, payload: Security.Payload, taskId: nat, email: string, permission: string, userId: nat)
    requires Storage.WellFormed(db) && Deps.CallerId(payload) == Ok(userId)
    ensures var step := ShareStep(db, payload, taskId, email, permission);
      && (step.result.Err? ==> step.db == db)
      && if !IsGrantPermission(permission) then step.result == Err(INVALID_PERMISSION)
         else if !(1 <= taskId <= |db.todos|) || db.todos[taskId - 1].isDeleted then step.result == Err(Deps.TASK_NOT_FOUND)
         else if db.todos[taskId - 1].userId != userId then step.result == Err(ONLY_OWNER_CAN_SHARE)
         else if forall u :: u in db.users ==> u.email != email then step.result == Err(USER_NOT_FOUND)
         else true
  {
    Storage.LiveTodoAt(db.todos, taskId);
  }

  /** Sharing with a grantee who already holds a share on the task is 400 and keeps the existing
    * share as it was; otherwise exactly one share is appended and the grantee then resolves to
    * the granted permission (unless the grantee is the owner, who stays "owner"). */
  lemma ShareWithGrantee(db: Storage.Db, payload: Security.Payload, taskId: nat, permission: string, owner: nat, grantee: User)
    requires Storage.WellFormed(db) && Deps.CallerId(payload) == Ok(owner) && grantee in db.users
    requires IsGrantPermission(permission) && 1 <= taskId <= |db.todos| && !db.todos[taskId - 1].isDeleted
    requires db.todos[taskId - 1].userId == owner
    ensures var step := ShareStep(db, payload, taskId, grantee.email, permission);
      match Storage.ShareFor(db.shares, taskId, grantee.id)
      case Some(_) => step == Storage.Step(Err(ALREADY_SHARED), db)
      case None =>
        && step.result == Ok(ShareReceipt(grantee.email, permission))
        && step.db == db.(shares := db.shares + [Share(taskId, grantee.id, permission)])
        && Deps.GetTaskPermission(step.db.todos, step.db.shares, taskId, grantee.id)
           == Ok(if grantee.id == owner then OWNER else permission)
  {
    Storage.LiveTodoAt(db.todos, taskId);
    Storage.UserByEmailFinds(db.users, grantee);
    if Storage.ShareFor(db.shares, taskId, grantee.id).None? {
      ShareKeepsWellFormed(db, payload, taskId, grantee.email, permission);
      var step := ShareStep(db, payload, taskId, grantee.email, permission);
      var s := Share(taskId, grantee.id, permission);
      assert s in step.db.shares;
      if grantee.id == owner {
        Deps.OwnerPermission(step.db.todos, step.db.shares, taskId);
      } else {
        Deps.GranteePermission(step.db.todos, step.db.shares, s);
      }
    }
  }

  /** Shares keep every invariant, above all at most one share per (todo, user) pair. */
  lemma ShareKeepsWellFormed(db: Storage.Db, payload: Security.Payload, taskId: nat, email: string, permission: string)
    requires Storage.WellFormed(db)
    ensures Storage.WellFormed(ShareStep(db, payload, taskId, email, permission).db)
  {
    var step := ShareStep(db, payload, taskId, email, permission);
    if step.result.Ok? {
      Storage.LiveTodoAt(db.todos, taskId);
      var user := Storage.UserByEmail(db.users, email).value;
      var k :| 0 <= k < |db.users| && db.users[k] == user;
      assert user.id == k + 1;
      AppendShareKeepsWellFormed(db, Share(taskId, user.id, permission));
    }
  }

  /** A share for a pair that has none, naming rows that exist, keeps the invariants. */
  lemma AppendShareKeepsWellFormed(db: Storage.Db, s: Share)
    requires Storage.WellFormed(db)
    requires Storage.ShareFor(db.shares, s.todoId, s.userId).None?
    requires IsGrantPermission(s.permission) && 1 <= s.todoId <= |db.todos| && 1 <= s.userId <= |db.users|
    ensures Storage.WellFormed(db.(shares := db.shares + [s]))
  {
    var shares := db.shares + [s];
    forall i, j | 0 <= i < j < |shares| ensures !SamePair(shares[i], shares[j]) {
      if j == |db.shares| {
        assert !(db.shares[i].todoId == s.todoId && db.shares[i].userId == s.userId);
      }
    }
  }
}
