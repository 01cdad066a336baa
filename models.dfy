/** The persisted records: users, todos, shares and audit-log entries. */
module Models {

  /** A row of `users`. Only the columns the core reads are modelled; `password` holds the bcrypt digest. */
  datatype User = User(id: nat, name: string, email: string, password: string, role: string)

  /** The role a newly registered user receives (the column default of `users.role`). */
  const DEFAULT_ROLE := "user"
  const ADMIN_ROLE := "admin"

  /** A row of `todos`: one owner reference, `priority` stored as a free string, and a
    * soft-delete flag (deletion sets the flag; the row stays). */
  datatype Todo = Todo(id: nat, title: string, priority: string, completed: bool, userId: nat, isDeleted: bool)

  /** A todo row as inserted with the column defaults for `completed` and `is_deleted`. */
  function NewTodo(id: nat, title: string, priority: string, userId: nat): (t: Todo)
    ensures t.id == id && t.title == title && t.priority == priority && t.userId == userId
    ensures !t.completed && !t.isDeleted
  {
    Todo(id, title, priority, false, userId, false)
  }

  /** A row of `todo_shares`: the grant of `permission` on a todo to a user. */
  datatype Share = Share(todoId: nat, userId: nat, permission: string)

  const OWNER := "owner"
  const VIEWER := "viewer"
  const EDITOR := "editor"

  /** The permissions a share is meant to carry. */
  predicate IsGrantPermission(p: string) { p == VIEWER || p == EDITOR }

  /** Two shares for the same `(todo_id, user_id)` pair. */
  predicate SamePair(a: Share, b: Share) { a.todoId == b.todoId && a.userId == b.userId }

  /** The unique constraint on `(todo_id, user_id)`. */
  predicate UniquePairs(shares: seq<Share>)
  {
    forall i, j :: 0 <= i < j < |shares| ==> !SamePair(shares[i], shares[j])
  }

  /** A row of `audit_logs`. */
  datatype AuditLog = AuditLog(action: string, adminEmail: string)
}
