/**
 * The `POST /api/get-role` handler: reject a missing launch payload, read the user id
 * out of its `user` field, then find or create the user record keyed by that id and
 * answer with the record's id, platform id and role.  The signature check that would
 * call `InitData.VerifyInitData` is disabled in the handler, so nothing here calls it.
 */
module RoleEndpoint {
  import opened Wrappers
  import opened InitData

  const ADMIN_ROLE: string := "admin"
  const USER_ROLE: string := "user"
  const USER_KEY: string := "user"

  /** A stored user, keyed by its platform id: the generated id and the role. */
  datatype Row = Row(id: nat, role: string)

  /** A user record as the store hands it back. */
  datatype User = User(id: nat, telegramId: string, role: string)

  /** The handler's answer; the error cases carry the fixed messages of `ErrorMessage`. */
  datatype Response =
    | Ok(id: nat, telegramId: string, role: string)
    | BadRequest
    | CreateFailed
    | ServerError

  /** The outcome of one store operation: a value, or an exception thrown by the database. */
  datatype Db<T> = Done(value: T) | Threw

  /**
   * What the handler receives from outside: the configured administrator id (absent
   * when the variable is unset), the query-string decoder, and the extraction of
   * `JSON.parse(user).id.toString()`, which yields nothing when parsing throws or
   * there is no id.
   */
  datatype Env = Env(
    adminId: Option<string>,
    parseQuery: string -> seq<Pair>,
    userIdOf: string -> Option<string>)

  /** Whether the lookup and the insert of this request throw. */
  datatype Faults = Faults(lookupThrows: bool, createThrows: bool)

  /** One handled request: the response and the store afterwards. */
  datatype Resolution = Resolution(response: Response, users: map<string, Row>, nextId: nat)

  function StatusCode(r: Response): (code: int)
    ensures code == 200 <==> r.Ok?
    ensures code == 400 <==> r.BadRequest?
    ensures code == 500 <==> r.CreateFailed? || r.ServerError?
  {
    match r
    case Ok(_, _, _) => 200
    case BadRequest => 400
    case CreateFailed => 500
    case ServerError => 500
  }

  /** The `error` string of a failed response. */
  function ErrorMessage(r: Response): (m: Option<string>)
    ensures m.None? <==> r.Ok?
    ensures r.BadRequest? ==> m == Some("No initData provided")
    ensures r.CreateFailed? ==> m == Some("Failed to create user")
    ensures r.ServerError? ==> m == Some("Server error")
  {
    match r
    case Ok(_, _, _) => None
    case BadRequest => Some("No initData provided")
    case CreateFailed => Some("Failed to create user")
    case ServerError => Some("Server error")
  }

  /** The role a new user receives: administrator exactly for the configured id. */
  function RoleFor(userId: string, adminId: Option<string>): (role: string)
    ensures role == ADMIN_ROLE <==> adminId == Some(userId)
    ensures role == ADMIN_ROLE || role == USER_ROLE
  {
    if adminId == Some(userId) then ADMIN_ROLE else USER_ROLE
  }

  /**
   * The user id of a launch payload.  A missing or empty `user` field falls back to
   * the JSON text `{}`, an object without `id`, whose `id.toString()` throws.
   */
  function UserId(initData: string, env: Env): (r: Option<string>)
    ensures FirstValue(env.parseQuery(initData), USER_KEY) == None ==> r == None
    ensures FirstValue(env.parseQuery(initData), USER_KEY) == Some("") ==> r == None
    ensures forall json :: FirstValue(env.parseQuery(initData), USER_KEY) == Some(json) && json != "" ==> r == env.userIdOf(json)
  {
    match FirstValue(env.parseQuery(initData), USER_KEY)
    case None => None
    case Some(json) => if json == "" then None else env.userIdOf(json)
  }

  /** `initData` is truthy: present and not the empty string. */
  predicate Present(initData: Option<string>)
  {
    initData.Some? && initData.value != ""
  }

  /** Generated ids are below the counter and distinct. */
  ghost predicate ValidTable(users: map<string, Row>, nextId: nat)
  {
    && (forall t :: t in users ==> users[t].id < nextId)
    && (forall t, t' :: t in users && t' in users && t != t' ==> users[t].id != users[t'].id)
  }

  /** The handler as a function of the store before the request. */
  function Resolve(users: map<string, Row>, nextId: nat, initData: Option<string>, env: Env, faults: Faults): (res: Resolution)
    // a missing or empty payload is rejected, and only such a payload is
    ensures res.response.BadRequest? <==> !Present(initData)
    // no failure touches the store
    ensures !res.response.Ok? ==> res.users == users && res.nextId == nextId
    ensures Present(initData) && UserId(initData.value, env).None? ==> res.response == ServerError
    ensures Present(initData) && UserId(initData.value, env).Some? && faults.lookupThrows ==> res.response == ServerError
    // a known user is returned as stored, and the store is left alone
    ensures Present(initData) && UserId(initData.value, env).Some? && !faults.lookupThrows && UserId(initData.value, env).value in users ==>
      var u := UserId(initData.value, env).value;
      res == Resolution(Ok(users[u].id, u, users[u].role), users, nextId)
    // an unknown user is created with the role decided by the administrator id, unless the insert throws
    ensures Present(initData) && UserId(initData.value, env).Some? && !faults.lookupThrows && UserId(initData.value, env).value !in users ==>
      var u := UserId(initData.value, env).value;
      if faults.createThrows then res.response == CreateFailed
      else
        && res.response.Ok?
        && res.response == Ok(nextId, u, res.response.role)
        && (res.response.role == ADMIN_ROLE <==> env.adminId == Some(u))
        && (res.response.role == ADMIN_ROLE || res.response.role == USER_ROLE)
        && res.users == users[u := Row(nextId, res.response.role)]
        && res.nextId == nextId + 1
    // the answer is the stored record of the payload's user; no other record changes
    ensures res.response.Ok? ==>
      && Present(initData) && UserId(initData.value, env) == Some(res.response.telegramId)
      && res.response.telegramId in res.users
      && res.users[res.response.telegramId] == Row(res.response.id, res.response.role)
    ensures forall t :: t in users ==> t in res.users && res.users[t] == users[t]
    ensures res.users.Keys <= users.Keys + (if res.response.Ok? then {res.response.telegramId} else {})
    ensures ValidTable(users, nextId) ==> ValidTable(res.users, res.nextId)
  {
    if !Present(initData) then Resolution(BadRequest, users, nextId)
    else match UserId(initData.value, env)
      case None => Resolution(ServerError, users, nextId)
      case Some(u) =>
        if faults.lookupThrows then Resolution(ServerError, users, nextId)
        else if u in users then Resolution(Ok(users[u].id, u, users[u].role), users, nextId)
        else if faults.createThrows then Resolution(CreateFailed, users, nextId)
        else
          var role := RoleFor(u, env.adminId);
          Resolution(Ok(nextId, u, role), users[u := Row(nextId, role)], nextId + 1)
  }

  /** A later request carrying the same user id as a successful one (its other fields may differ) gives the same answer and leaves the store alone. */
  lemma ResolveIdempotent(users: map<string, Row>, nextId: nat, first: Option<string>, second: Option<string>, env: Env, f1: Faults, f2: Faults)
    requires Resolve(users, nextId, first, env, f1).response.Ok?
    requires Present(second) && UserId(second.value, env) == UserId(first.value, env)
    requires !f2.lookupThrows
    ensures var r1 := Resolve(users, nextId, first, env, f1);
            Resolve(r1.users, r1.nextId, second, env, f2) == r1
  {
  }

  /** The user table behind the handler: records keyed by platform id and the next id to hand out. */
  class UserStore {
    var users: map<string, Row>
    var nextId: nat

    ghost predicate Valid()
      reads this
    {
      ValidTable(users, nextId)
    }

    constructor ()
      ensures Valid()
      ensures users == map[] && nextId == 0
    {
      users := map[];
      nextId := 0;
    }

    /** `findUnique` by platform id. */
    method FindUnique(telegramId: string, throws: bool) returns (r: Db<Option<User>>)
      ensures throws ==> r == Threw
      ensures !throws && telegramId in users ==> r == Done(Some(User(users[telegramId].id, telegramId, users[telegramId].role)))
      ensures !throws && telegramId !in users ==> r == Done(None)
    {
      if throws {
        return Threw;
      }
      if telegramId in users {
        var row := users[telegramId];
        r := Done(Some(User(row.id, telegramId, row.role)));
      } else {
        r := Done(None);
      }
    }

    /** `create`: inserts a record under a fresh id; the unique index on the platform id rejects a duplicate. */
    method Create(telegramId: string, role: string, throws: bool) returns (r: Db<User>)
      requires Valid()
      modifies this
      ensures Valid()
      ensures throws || telegramId in old(users) ==>
        r == Threw && users == old(users) && nextId == old(nextId)
      ensures !throws && telegramId !in old(users) ==>
        && r == Done(User(old(nextId), telegramId, role))
        && users == old(users)[telegramId := Row(old(nextId), role)]
        && nextId == old(nextId) + 1
    {
      if throws || telegramId in users {
        return Threw;
      }
      r := Done(User(nextId, telegramId, role));
      users := users[telegramId := Row(nextId, role)];
      nextId := nextId + 1;
    }
  }

  /** The request handler, run against the store. */
  method GetRole(store: UserStore, initData: Option<string>, env: Env, faults: Faults) returns (response: Response)
    requires store.Valid()
    modifies store
    ensures store.Valid()
    ensures Resolution(response, store.users, store.nextId) == Resolve(old(store.users), old(store.nextId), initData, env, faults)
  {
    if !Present(initData) {
      return BadRequest;
    }
    var userId := UserId(initData.value, env);
    if userId.None? {
      return ServerError;
    }
    var u := userId.value;
    var found := store.FindUnique(u, faults.lookupThrows);
    if found.Threw? {
      return ServerError;
    }
    var userInDb := found.value;
    if userInDb.None? {
      var role := RoleFor(u, env.adminId);
      var created := store.Create(u, role, faults.createThrows);
      if created.Threw? {
        return CreateFailed;
      }
      userInDb := Some(created.value);
    }
    var user := userInDb.value;
    response := Ok(user.id, user.telegramId, user.role);
  }
}
