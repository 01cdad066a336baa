/** The database as the core sees it: four tables, the queries the routes run on them,
  * and the invariants the tables keep. Row ids are assigned in insertion order starting
  * at 1, and no row is ever removed, so the row with id `k` sits at position `k - 1`. */
module Storage {
  import opened Outcomes
  import opened Models
  import Schemas

  /** A value of the whole database. */
  datatype Db = Db(users: seq<User>, todos: seq<Todo>, shares: seq<Share>, auditLogs: seq<AuditLog>)

  /** The outcome of a request that may change the database: the response and the database after it. */
  datatype Step<T> = Step(result: Result<T>, db: Db)

  predicate UsersIndexed(users: seq<User>) { forall i :: 0 <= i < |users| ==> users[i].id == i + 1 }

  /** No two users share an email. */
  predicate UniqueEmails(users: seq<User>)
  {
    forall i, j :: 0 <= i < j < |users| ==> users[i].email != users[j].email
  }

  predicate TodosIndexed(todos: seq<Todo>) { forall i :: 0 <= i < |todos| ==> todos[i].id == i + 1 }

  /** Every stored priority is one of the three literal names. */
  predicate PrioritiesValid(todos: seq<Todo>)
  {
    forall i :: 0 <= i < |todos| ==> Schemas.IsPriorityName(todos[i].priority)
  }

  /** Every share names an existing todo and user and carries viewer or editor. */
  predicate SharesReferToRows(shares: seq<Share>, todos: seq<Todo>, users: seq<User>)
  {
    forall i :: 0 <= i < |shares| ==>
      IsGrantPermission(shares[i].permission) && 1 <= shares[i].todoId <= |todos| && 1 <= shares[i].userId <= |users|
  }

  /** The invariants every operation of the core preserves. */
  predicate WellFormed(db: Db)
  {
    && UsersIndexed(db.users)
    && UniqueEmails(db.users)
    && TodosIndexed(db.todos)
    && PrioritiesValid(db.todos)
    && UniquePairs(db.shares)
    && SharesReferToRows(db.shares, db.todos, db.users)
  }

  const EMPTY := Db([], [], [], [])

  lemma EmptyWellFormed()
    ensures WellFormed(EMPTY)
  {
  }

  // The queries, each `.filter(...).first()`.

  function UserByEmail(users: seq<User>, email: string): Option<User>
  {
    First(users, (u: User) => u.email == email)
  }

  function UserById(users: seq<User>, id: nat): Option<User>
  {
    First(users, (u: User) => u.id == id)
  }

  /** `Todo.id == id`, deleted or not. */
  function TodoById(todos: seq<Todo>, id: nat): Option<Todo>
  {
    First(todos, (t: Todo) => t.id == id)
  }

  /** `Todo.id == id, Todo.is_deleted == False`. */
  function LiveTodo(todos: seq<Todo>, id: nat): Option<Todo>
  {
    First(todos, (t: Todo) => t.id == id && !t.isDeleted)
  }

  /** `TodoShare.todo_id == todoId, TodoShare.user_id == userId`. */
  function ShareFor(shares: seq<Share>, todoId: nat, userId: nat): Option<Share>
  {
    First(shares, (s: Share) => s.todoId == todoId && s.userId == userId)
  }

  /** `TodoShare.todo_id == todoId, TodoShare.user_id == userId, TodoShare.permission == "editor"`. */
  function EditorShareFor(shares: seq<Share>, todoId: nat, userId: nat): Option<Share>
  {
    First(shares, (s: Share) => s.todoId == todoId && s.userId == userId && s.permission == EDITOR)
  }

  /** The position of the row `LiveTodo` loads, which an update then changes in place. */
  function LiveTodoIndex(todos: seq<Todo>, id: nat): Option<nat>
  {
    FirstIndex(todos, (t: Todo) => t.id == id && !t.isDeleted)
  }

  /** The position of `Todo.id == id, Todo.user_id == userId, Todo.is_deleted == False`. */
  function OwnedTodoIndex(todos: seq<Todo>, id: nat, userId: nat): Option<nat>
  {
    FirstIndex(todos, (t: Todo) => t.id == id && t.userId == userId && !t.isDeleted)
  }

  /** A user can be found by id at position `id - 1`, and only there. */
  lemma UserByIdAt(users: seq<User>, id: nat)
    requires UsersIndexed(users)
    ensures UserById(users, id) == if 1 <= id <= |users| then Some(users[id - 1]) else None
  {
    if 1 <= id <= |users| {
      assert users[id - 1].id == id;
    }
  }

  lemma TodoByIdAt(todos: seq<Todo>, id: nat)
    requires TodosIndexed(todos)
    ensures TodoById(todos, id) == if 1 <= id <= |todos| then Some(todos[id - 1]) else None
  {
    if 1 <= id <= |todos| {
      assert todos[id - 1].id == id;
    }
  }

  /** The live todo with an id is the row at position `id - 1` unless that row is deleted. */
  lemma LiveTodoAt(todos: seq<Todo>, id: nat)
    requires TodosIndexed(todos)
    ensures LiveTodo(todos, id) == if 1 <= id <= |todos| && !todos[id - 1].isDeleted then Some(todos[id - 1]) else None
  {
    if 1 <= id <= |todos| {
      assert todos[id - 1].id == id;
    }
  }

  lemma LiveTodoIndexAt(todos: seq<Todo>, id: nat)
    requires TodosIndexed(todos)
    ensures LiveTodoIndex(todos, id) == if 1 <= id <= |todos| && !todos[id - 1].isDeleted then Some(id - 1) else None
  {
    if 1 <= id <= |todos| {
      assert todos[id - 1].id == id;
    }
  }

  lemma OwnedTodoIndexAt(todos: seq<Todo>, id: nat, userId: nat)
    requires TodosIndexed(todos)
    ensures OwnedTodoIndex(todos, id, userId)
            == if 1 <= id <= |todos| && todos[id - 1].userId == userId && !todos[id - 1].isDeleted then Some(id - 1) else None
  {
    if 1 <= id <= |todos| {
      assert todos[id - 1].id == id;
    }
  }

  /** With unique pairs, an editor share exists for a pair exactly when the pair's share says editor. */
  lemma EditorShareForPair(shares: seq<Share>, todoId: nat, userId: nat)
    requires UniquePairs(shares)
    ensures EditorShareFor(shares, todoId, userId).Some?
            <==> ShareFor(shares, todoId, userId).Some? && ShareFor(shares, todoId, userId).value.permission == EDITOR
  {
    var e := EditorShareFor(shares, todoId, userId);
    var s := ShareFor(shares, todoId, userId);
    if e.Some? {
      ShareForFinds(shares, e.value);
    }
    if s.Some? && s.value.permission == EDITOR {
      assert s.value in shares;
    }
  }

  /** With unique emails, the lookup by email finds the one user who has it. */
  lemma UserByEmailFinds(users: seq<User>, u: User)
    requires UniqueEmails(users) && u in users
    ensures UserByEmail(users, u.email) == Some(u)
  {
  }

  /** With unique pairs, the share lookup finds the one share of the pair. */
  lemma ShareForFinds(shares: seq<Share>, s: Share)
    requires UniquePairs(shares) && s in shares
    ensures ShareFor(shares, s.todoId, s.userId) == Some(s)
  {
  }

  /** The database session: tables the routes query and update in place. */
  class Store {
    var users: seq<User>
    var todos: seq<Todo>
    var shares: seq<Share>
    var auditLogs: seq<AuditLog>

    function Snapshot(): Db
      reads this
    {
      Db(users, todos, shares, auditLogs)
    }

    ghost predicate Valid()
      reads this
    {
      WellFormed(Snapshot())
    }

    constructor ()
      ensures Snapshot() == EMPTY && Valid()
    {
      users, todos, shares, auditLogs := [], [], [], [];
    }
  }
}
