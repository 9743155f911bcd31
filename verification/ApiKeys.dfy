/**
  Roles, users and API keys: what a session or a key may do, who may mint a key,
  and the edits that happen under live keys. Permission lists are only ever
  searched, so that they are sets here.
 */
module ApiKeys {
  import opened Wrappers

  const WILDCARD := "*"

  datatype Role = Role(name: string, isSystem: bool, permissions: set<string>)

  datatype Status = Active | Suspended | Banned

  datatype User = User(status: Status, role: Option<int>)

  /** A key; `parent` is the key its creator was authenticated by, if any, and `grantor` what the creator could do. */
  datatype Key = Key(user: int, scopes: set<string>, expiresAt: Option<int>, parent: Option<int>, grantor: set<string>)

  /** An authenticated user, as the guard hands it to the handlers. */
  datatype Actor = Actor(user: int, permissions: set<string>, via: Option<int>)

  datatype Refusal = BadRequest | Forbidden | NotFound | Unauthorized | RolledBack

  /** `issued` remembers every key; `requests` are authenticated and not yet carried out. */
  datatype State = State(
    catalog: set<string>,
    roles: map<int, Role>,
    users: map<int, User>,
    keys: map<int, Key>,
    issued: map<int, Key>,
    requests: map<int, Actor>,
    now: int,
    nextId: int)

  function Empty(catalog: set<string>): State { State(catalog, map[], map[], map[], map[], map[], 0, 0) }

  // ---------------------------------------------------------------------
  // Authentication and admission
  // ---------------------------------------------------------------------

  /** permissionsForRole */
  function RolePermissions(role: Option<Role>): set<string> {
    if role.None? then {}
    else if role.value.isSystem && role.value.name == "admin" then {WILDCARD}
    else role.value.permissions
  }

  function RoleOf(s: State, user: User): Option<Role> {
    if user.role.Some? && user.role.value in s.roles then Some(s.roles[user.role.value]) else None
  }

  function UserPermissions(s: State, user: int): set<string> {
    if user in s.users then RolePermissions(RoleOf(s, s.users[user])) else {}
  }

  /** JwtStrategy.validate */
  function SessionActor(s: State, user: int): Result<Actor, Refusal> {
    if user !in s.users || s.users[user].status == Banned then Err(Unauthorized)
    else if s.users[user].status == Suspended then Err(Unauthorized)
    else Ok(Actor(user, UserPermissions(s, user), None))
  }

  /** What a key's scopes amount to, given its user's permissions. */
  function Effective(scopes: set<string>, userPermissions: set<string>): set<string> {
    if WILDCARD in userPermissions then scopes else set p | p in scopes && p in userPermissions
  }

  predicate Expired(s: State, key: Key) { key.expiresAt.Some? && key.expiresAt.value < s.now }

  /** validateAndGetUser */
  function KeyActor(s: State, key: int): Result<Actor, Refusal> {
    if key !in s.keys || Expired(s, s.keys[key]) then Err(Unauthorized)
    else
      var k := s.keys[key];
      if k.user !in s.users || s.users[k.user].status != Active then Err(Unauthorized)
      else Ok(Actor(k.user, Effective(k.scopes, UserPermissions(s, k.user)), Some(key)))
  }

  /** PermissionsGuard.canActivate */
  predicate Admits(actor: Result<Actor, Refusal>, required: seq<string>) {
    && actor.Ok?
    && (required == [] || WILDCARD in actor.value.permissions
        || forall p :: p in required ==> p in actor.value.permissions)
  }

  /** The check in create: at least one scope, and none the actor lacks. */
  function MintRefusal(actor: Actor, scopes: set<string>): Option<Refusal> {
    if scopes == {} then Some(BadRequest)
    else if WILDCARD !in actor.permissions && !(scopes <= actor.permissions) then Some(Forbidden)
    else None
  }

  // ---------------------------------------------------------------------
  // Steps
  // ---------------------------------------------------------------------

  datatype Step =
    | CreateRole(name: string, isSystem: bool)
    | SetPermissions(role: int, permissions: set<string>)
    | DeleteRole(role: int)
    | CreateUser(startRole: Option<int>)
    | SetRole(user: int, role: int)
    | SetStatus(user: int, status: Status)
    | DeleteUser(user: int)
    | SessionRequest(user: int)
    | KeyRequest(key: int)
    | Mint(request: int, scopes: set<string>, expiresAt: Option<int>)
    | Revoke(request: int, key: int)
    | Wait(elapsed: nat)

  /** setPermissions: only permissions of the catalogue are kept. */
  function AfterSetPermissions(s: State, role: int, permissions: set<string>): State {
    if role !in s.roles then s
    else s.(roles := s.roles[role := s.roles[role].(permissions := permissions * s.catalog)])
  }

  /** System roles stay; the users of a deleted one have none. */
  function AfterDeleteRole(s: State, role: int): State {
    if role !in s.roles || s.roles[role].isSystem then s
    else
      s.(roles := s.roles - {role},
         users := map u | u in s.users ::
           if s.users[u].role == Some(role) then s.users[u].(role := None) else s.users[u])
  }

  function AfterCreateUser(s: State, role: Option<int>): State {
    if role.Some? && role.value !in s.roles then s
    else s.(users := s.users[s.nextId := User(Active, role)], nextId := s.nextId + 1)
  }

  function AfterSetRole(s: State, user: int, role: int): State {
    if user !in s.users || role !in s.roles then s
    else s.(users := s.users[user := s.users[user].(role := Some(role))])
  }

  function AfterSetStatus(s: State, user: int, status: Status): State {
    if user !in s.users then s else s.(users := s.users[user := s.users[user].(status := status)])
  }

  function AfterDeleteUser(s: State, user: int): State {
    s.(users := s.users - {user}, keys := map k | k in s.keys && s.keys[k].user != user :: s.keys[k])
  }

  function AfterRequest(s: State, actor: Result<Actor, Refusal>): State {
    if actor.Err? then s else s.(requests := s.requests[s.nextId := actor.value], nextId := s.nextId + 1)
  }

  function AfterMint(s: State, request: int, scopes: set<string>, expiresAt: Option<int>): State {
    if request !in s.requests then s
    else
      var actor := s.requests[request];
      var done := s.(requests := s.requests - {request});
      if MintRefusal(actor, scopes).Some? || actor.user !in s.users then done
      else
        var key := Key(actor.user, scopes, expiresAt, actor.via, actor.permissions);
        done.(keys := s.keys[s.nextId := key], issued := s.issued[s.nextId := key], nextId := s.nextId + 1)
  }

  function RevokeRefusal(s: State, actor: Actor, key: int): Option<Refusal> {
    if key !in s.keys then Some(NotFound)
    else if s.keys[key].user != actor.user && WILDCARD !in actor.permissions then Some(Forbidden)
    else None
  }

  function AfterRevoke(s: State, request: int, key: int): State {
    if request !in s.requests then s
    else
      var done := s.(requests := s.requests - {request});
      if RevokeRefusal(s, s.requests[request], key).Some? then done else done.(keys := s.keys - {key})
  }

  function Next(s: State, step: Step): State {
    match step
    case CreateRole(name, isSystem) =>
      s.(roles := s.roles[s.nextId := Role(name, isSystem, {})], nextId := s.nextId + 1)
    case SetPermissions(role, permissions) => AfterSetPermissions(s, role, permissions)
    case DeleteRole(role) => AfterDeleteRole(s, role)
    case CreateUser(startRole) => AfterCreateUser(s, startRole)
    case SetRole(user, role) => AfterSetRole(s, user, role)
    case SetStatus(user, status) => AfterSetStatus(s, user, status)
    case DeleteUser(user) => AfterDeleteUser(s, user)
    case SessionRequest(user) => AfterRequest(s, SessionActor(s, user))
    case KeyRequest(key) => AfterRequest(s, KeyActor(s, key))
    case Mint(request, scopes, expiresAt) => AfterMint(s, request, scopes, expiresAt)
    case Revoke(request, key) => AfterRevoke(s, request, key)
    case Wait(elapsed) => s.(now := s.now + elapsed)
  }

  function Run(s: State, steps: seq<Step>): State
    decreases steps
  {
    if steps == [] then s else Run(Next(s, steps[0]), steps[1..])
  }

  // ---------------------------------------------------------------------
  // The invariant
  // ---------------------------------------------------------------------

  /** A key minted through a key belongs to the same user, and its creator had at most the parent's scopes. */
  predicate KeyOk(issued: map<int, Key>, k: int)
    requires k in issued
  {
    && (WILDCARD !in issued[k].grantor ==> issued[k].scopes <= issued[k].grantor)
    && (issued[k].parent.Some? ==>
          var p := issued[k].parent.value;
          p in issued && 0 <= p < k && issued[p].user == issued[k].user && issued[k].grantor <= issued[p].scopes)
  }

  predicate RequestOk(issued: map<int, Key>, actor: Actor) {
    actor.via.Some? ==>
      var p := actor.via.value;
      p in issued && issued[p].user == actor.user && actor.permissions <= issued[p].scopes
  }

  ghost predicate KeysOk(issued: map<int, Key>, nextId: int) {
    forall k :: k in issued ==> 0 <= k < nextId && KeyOk(issued, k)
  }

  ghost predicate Inv(s: State) {
    && 0 <= s.nextId && KeysOk(s.issued, s.nextId)
    && (forall k :: k in s.keys ==> k in s.issued && s.keys[k] == s.issued[k])
    && (forall r :: r in s.requests ==> r < s.nextId && RequestOk(s.issued, s.requests[r]))
    && (forall r :: r in s.roles ==> r < s.nextId && s.roles[r].permissions <= s.catalog)
    && (forall u :: u in s.users ==> u < s.nextId)
  }

  lemma EffectiveWithin(scopes: set<string>, userPermissions: set<string>)
    ensures Effective(scopes, userPermissions) <= scopes
  {}

  lemma EditKeeps(s: State, step: Step)
    requires Inv(s) && !step.KeyRequest? && !step.SessionRequest? && !step.Mint? && !step.Revoke?
    ensures Inv(Next(s, step))
  {}

  lemma RequestKeeps(s: State, step: Step)
    requires Inv(s) && (step.KeyRequest? || step.SessionRequest? || step.Revoke?)
    ensures Inv(Next(s, step))
  {
    if step.KeyRequest? && step.key in s.keys {
      EffectiveWithin(s.keys[step.key].scopes, UserPermissions(s, s.keys[step.key].user));
    }
  }

  lemma MintKeeps(s: State, request: int, scopes: set<string>, expiresAt: Option<int>)
    requires Inv(s)
    ensures Inv(AfterMint(s, request, scopes, expiresAt))
  {
    var s' := AfterMint(s, request, scopes, expiresAt);
    forall k | k in s.issued ensures KeyOk(s'.issued, k) { assert KeyOk(s.issued, k); }
  }

  lemma StepKeeps(s: State, step: Step)
    requires Inv(s)
    ensures Inv(Next(s, step))
  {
    match step
    case KeyRequest(_) => RequestKeeps(s, step);
    case SessionRequest(_) => RequestKeeps(s, step);
    case Revoke(_, _) => RequestKeeps(s, step);
    case Mint(request, scopes, expiresAt) => MintKeeps(s, request, scopes, expiresAt);
    case _ => EditKeeps(s, step);
  }

  lemma {:induction false} RunKeeps(s: State, steps: seq<Step>)
    requires Inv(s)
    ensures Inv(Run(s, steps))
    decreases steps
  {
    if steps != [] {
      StepKeeps(s, steps[0]);
      RunKeeps(Next(s, steps[0]), steps[1..]);
    }
  }

  // ---------------------------------------------------------------------
  // Authentication and admission, column by column
  // ---------------------------------------------------------------------

  /** A user's permissions: the wildcard for the system role admin alone, otherwise the role's own, or none. */
  lemma PermissionsSpelled(s: State, user: int, p: string)
    requires user in s.users
    ensures p in UserPermissions(s, user) <==>
            && s.users[user].role.Some? && s.users[user].role.value in s.roles
            && var role := s.roles[s.users[user].role.value];
               if role.isSystem && role.name == "admin" then p == "*" else p in role.permissions
  {}

  /** A session is good for a user who is neither banned nor suspended. */
  lemma SessionSpelled(s: State, user: int)
    ensures SessionActor(s, user).Ok? <==> user in s.users && s.users[user].status == Active
    ensures SessionActor(s, user).Ok? ==> SessionActor(s, user).value == Actor(user, UserPermissions(s, user), None)
  {}

  /** A key is good while it is stored and not past its date, for an owner who is active. */
  lemma KeySpelled(s: State, key: int)
    ensures KeyActor(s, key).Ok? <==>
            && key in s.keys && (s.keys[key].expiresAt.None? || s.now <= s.keys[key].expiresAt.value)
            && s.keys[key].user in s.users && s.users[s.keys[key].user].status == Active
    ensures KeyActor(s, key).Ok? ==>
            var actor, k := KeyActor(s, key).value, s.keys[key];
            && actor.user == k.user && actor.via == Some(key)
            && forall p :: p in actor.permissions <==>
                 p in k.scopes && ("*" in UserPermissions(s, k.user) || p in UserPermissions(s, k.user))
  {}

  /** The guard lets an authenticated user with the wildcard do everything, and others what they have all of. */
  lemma GuardSpelled(actor: Result<Actor, Refusal>, required: seq<string>)
    ensures Admits(actor, required) <==>
            actor.Ok? && ("*" in actor.value.permissions
                          || forall i :: 0 <= i < |required| ==> required[i] in actor.value.permissions)
  {
    if actor.Ok? && forall i :: 0 <= i < |required| ==> required[i] in actor.value.permissions {
      forall p | p in required ensures p in actor.value.permissions {
        var i :| 0 <= i < |required| && required[i] == p;
      }
    }
    if actor.Ok? && forall p :: p in required ==> p in actor.value.permissions {
      forall i | 0 <= i < |required| ensures required[i] in actor.value.permissions { assert required[i] in required; }
    }
  }
}
