/** The request gates: bearer extraction, access-token check, admin check, and the
  * task-permission resolver. Each is a check that returns a value or an HTTP error. */
module Deps {
  import opened Outcomes
  import opened Models
  import Security
  import Storage
  import Text

  /** The `Authorization` header, split at its first space into scheme and credentials
    * (section 2.1 of RFC 6750); credentials that are no JWS are `Malformed`. */
  datatype Authorization = Authorization(scheme: string, credentials: Security.Token)

  const NOT_AUTHENTICATED := Error(403, "Not authenticated")
  const INVALID_CREDENTIALS := Error(403, "Invalid authentication credentials")
  const INVALID_OR_EXPIRED := Error(401, "Invalid or expired token")
  const INVALID_ACCESS_TOKEN := Error(401, "Invalid access token")
  const ADMIN_REQUIRED := Error(403, "Admin access required")
  const TASK_NOT_FOUND := Error(404, "Task not found")
  const NO_ACCESS := Error(403, "No access to this task")

  /** The `HTTPBearer` dependency: the credentials of a `Bearer` header, the scheme compared
    * case-insensitively; a missing header, an empty scheme or empty credentials are refused first. */
  function BearerCredentials(header: Option<Authorization>): (r: Result<Security.Token>)
    ensures r.Ok? <==> header.Some? && Text.Lower(header.value.scheme) == "bearer"
                        && header.value.credentials != Security.Malformed("")
    ensures r.Ok? ==> r.value == header.value.credentials
    ensures r.Err? ==> r.error.status == 403
  {
    match header
    case None => Err(NOT_AUTHENTICATED)
    case Some(Authorization(scheme, credentials)) =>
      if scheme == "" || credentials == Security.Malformed("") then Err(NOT_AUTHENTICATED)
      else if Text.Lower(scheme) != "bearer" then Err(INVALID_CREDENTIALS)
      else Ok(credentials)
  }

  /** `get_current_user`: the decoded payload of a valid access token, unchanged;
    * 401 for a token that does not decode or whose type is not "access". */
  function GetCurrentUser(credentials: Security.Token, key: string, now: int): (r: Result<Security.Payload>)
    ensures r.Ok? <==> Security.DecodeToken(credentials, key, now).Some?
                        && Security.DecodeToken(credentials, key, now).value.kind == Security.ACCESS
    ensures r.Ok? ==> Security.DecodeToken(credentials, key, now) == Some(r.value)
    ensures Security.DecodeToken(credentials, key, now).None? ==> r == Err(INVALID_OR_EXPIRED)
    ensures Security.DecodeToken(credentials, key, now).Some? && !r.Ok? ==> r == Err(INVALID_ACCESS_TOKEN)
  {
    var payload := Security.DecodeToken(credentials, key, now);
    if payload.None? then Err(INVALID_OR_EXPIRED)
    else if payload.value.kind != Security.ACCESS then Err(INVALID_ACCESS_TOKEN)
    else Ok(payload.value)
  }

  /** The whole gate in front of every authenticated route: header, then token. */
  function Authenticate(header: Option<Authorization>, key: string, now: int): (r: Result<Security.Payload>)
    ensures BearerCredentials(header).Err? ==> r == Err(BearerCredentials(header).error)
    ensures BearerCredentials(header).Ok? ==> r == GetCurrentUser(BearerCredentials(header).value, key, now)
  {
    var token :- BearerCredentials(header);
    GetCurrentUser(token, key, now)
  }

  /** `require_admin`: 403 unless the role claim is "admin"; otherwise the payload passes unchanged. */
  function RequireAdmin(payload: Security.Payload): (r: Result<Security.Payload>)
    ensures r.Err? <==> payload.role != ADMIN_ROLE
    ensures r.Err? ==> r.error == ADMIN_REQUIRED
    ensures r.Ok? ==> r.value == payload
  {
    if payload.role != ADMIN_ROLE then Err(ADMIN_REQUIRED) else Ok(payload)
  }

  /** `int(payload["sub"])`; a subject that is not a decimal number raises, which is a 500. */
  function CallerId(payload: Security.Payload): (r: Result<nat>)
    ensures r.Ok? <==> Text.DecimalToNat(payload.sub).Some?
    ensures r.Ok? ==> Text.DecimalToNat(payload.sub) == Some(r.value)
    ensures r.Err? ==> r.error == INTERNAL_SERVER_ERROR
  {
    match Text.DecimalToNat(payload.sub)
    case None => Err(INTERNAL_SERVER_ERROR)
    case Some(n) => Ok(n)
  }

  /** A fresh access token passes the gate until it expires and yields its own claims,
    * whose subject reads back as the user id it was issued for. */
  lemma AccessTokenAccepted(cfg: Security.Config, userId: nat, role: string, now: int, at: int)
    ensures var t := Security.CreateAccessToken(cfg, userId, role, now);
      && (at <= t.claims.exp ==> GetCurrentUser(t, cfg.secretKey, at) == Ok(t.claims))
      && (at > t.claims.exp ==> GetCurrentUser(t, cfg.secretKey, at) == Err(INVALID_OR_EXPIRED))
      && CallerId(t.claims) == Ok(userId)
  {
  }

  /** A refresh token never passes the access gate, though it decodes. */
  lemma RefreshTokenRejected(cfg: Security.Config, userId: nat, role: string, now: int, at: int)
    ensures var t := Security.CreateRefreshToken(cfg, userId, role, now);
      && GetCurrentUser(t, cfg.secretKey, at).Err?
      && GetCurrentUser(t, cfg.secretKey, at).error.status == 401
      && (at <= t.claims.exp ==> Security.DecodeToken(t, cfg.secretKey, at).Some?)
  {
  }

  /** `get_task_permission` as written: the task is looked up by id only, deleted or not;
    * the owner gets "owner", anyone else the permission of their share, or 403. */
  function GetTaskPermission(todos: seq<Todo>, shares: seq<Share>, taskId: nat, userId: nat): (r: Result<string>)
    ensures r == Err(TASK_NOT_FOUND) <==> Storage.TodoById(todos, taskId).None?
    ensures r.Err? ==> r.error == TASK_NOT_FOUND || r.error == NO_ACCESS
    ensures r.Ok? ==> r.value == OWNER
                      || exists s :: s in shares && s.todoId == taskId && s.userId == userId && s.permission == r.value
  {
    match Storage.TodoById(todos, taskId)
    case None => Err(TASK_NOT_FOUND)
    case Some(task) =>
      if task.userId == userId then Ok(OWNER)
      else
        match Storage.ShareFor(shares, taskId, userId)
        case None => Err(NO_ACCESS)
        case Some(share) => Ok(share.permission)
  }

  /** 404 exactly when no row has the id. */
  lemma PermissionNotFound(todos: seq<Todo>, shares: seq<Share>, taskId: nat, userId: nat)
    requires Storage.TodosIndexed(todos)
    ensures GetTaskPermission(todos, shares, taskId, userId) == Err(TASK_NOT_FOUND) <==> !(1 <= taskId <= |todos|)
  {
    Storage.TodoByIdAt(todos, taskId);
  }

  /** The owner gets "owner" whatever shares exist, a share naming the owner included. */
  lemma OwnerPermission(todos: seq<Todo>, shares: seq<Share>, taskId: nat)
    requires Storage.TodosIndexed(todos) && 1 <= taskId <= |todos|
    ensures GetTaskPermission(todos, shares, taskId, todos[taskId - 1].userId) == Ok(OWNER)
  {
    Storage.TodoByIdAt(todos, taskId);
  }

  /** Anyone else gets exactly the permission stored in their share. */
  lemma GranteePermission(todos: seq<Todo>, shares: seq<Share>, s: Share)
    requires Storage.TodosIndexed(todos) && UniquePairs(shares)
    requires s in shares && 1 <= s.todoId <= |todos| && todos[s.todoId - 1].userId != s.userId
    ensures GetTaskPermission(todos, shares, s.todoId, s.userId) == Ok(s.permission)
  {
    Storage.TodoByIdAt(todos, s.todoId);
    Storage.ShareForFinds(shares, s);
  }

  /** Anyone else without a share gets 403. */
  lemma NoSharePermission(todos: seq<Todo>, shares: seq<Share>, taskId: nat, userId: nat)
    requires Storage.TodosIndexed(todos) && 1 <= taskId <= |todos| && todos[taskId - 1].userId != userId
    requires forall s :: s in shares ==> !(s.todoId == taskId && s.userId == userId)
    ensures GetTaskPermission(todos, shares, taskId, userId) == Err(NO_ACCESS)
  {
    Storage.TodoByIdAt(todos, taskId);
  }

  /** A soft-deleted task still resolves: its owner gets "owner". */
  lemma DeletedTaskStillResolves()
    ensures GetTaskPermission([Todo(1, "t", "Low", false, 7, true)], [], 1, 7) == Ok(OWNER)
  {
    assert Storage.TodoById([Todo(1, "t", "Low", false, 7, true)], 1).Some?;
  }

  /** The resolver with the soft-delete filter every route applies: a deleted task is 404. */
  function GetLiveTaskPermission(todos: seq<Todo>, shares: seq<Share>, taskId: nat, userId: nat): (r: Result<string>)
    ensures r == Err(TASK_NOT_FOUND) <==> Storage.LiveTodo(todos, taskId).None?
    ensures r.Err? ==> r.error == TASK_NOT_FOUND || r.error == NO_ACCESS
    ensures r.Ok? ==> r.value == OWNER
                      || exists s :: s in shares && s.todoId == taskId && s.userId == userId && s.permission == r.value
  {
    match Storage.LiveTodo(todos, taskId)
    case None => Err(TASK_NOT_FOUND)
    case Some(task) =>
      if task.userId == userId then Ok(OWNER)
      else
        match Storage.ShareFor(shares, taskId, userId)
        case None => Err(NO_ACCESS)
        case Some(share) => Ok(share.permission)
  }

  /** Deleted tasks give 404 to everyone, the owner included; on live tasks it agrees with the resolver as written. */
  lemma LivePermissionHidesDeleted(todos: seq<Todo>, shares: seq<Share>, taskId: nat, userId: nat)
    requires Storage.TodosIndexed(todos)
    ensures 1 <= taskId <= |todos| && todos[taskId - 1].isDeleted ==>
            GetLiveTaskPermission(todos, shares, taskId, userId) == Err(TASK_NOT_FOUND)
    ensures 1 <= taskId <= |todos| && !todos[taskId - 1].isDeleted ==>
            GetLiveTaskPermission(todos, shares, taskId, userId) == GetTaskPermission(todos, shares, taskId, userId)
  {
    Storage.TodoByIdAt(todos, taskId);
    Storage.LiveTodoAt(todos, taskId);
  }
}
