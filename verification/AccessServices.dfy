/**
  ApiKeysService and RolesService in the form of the source: one object over
  the roles, users and API keys tables.
 */
module AccessServices {
  import opened Wrappers
  import opened Sets
  import opened ApiKeys

  class Access {
    const catalog: set<string>
    var roles: map<int, Role>
    var users: map<int, User>
    var keys: map<int, Key>
    var issued: map<int, Key>
    var requests: map<int, Actor>
    var now: int
    var nextId: int

    function Db(): State
      reads this
    {
      State(catalog, roles, users, keys, issued, requests, now, nextId)
    }

    constructor (catalog: set<string>)
      ensures Db() == Empty(catalog)
    {
      this.catalog := catalog;
      roles, users, keys, issued, requests, now, nextId := map[], map[], map[], map[], map[], 0, 0;
    }

    /** JwtAuthGuard: the request carries a key, or else a session's token. */
    method Authenticate(key: Option<int>, user: int) returns (r: Result<int, Refusal>)
      modifies this`requests, this`nextId
      ensures Db() == Next(old(Db()), if key.Some? then KeyRequest(key.value) else SessionRequest(user))
      ensures key.None? ==> (r.Ok? <==> user in users && users[user].status == Active)
      ensures key.Some? ==>
                (r.Ok? <==>
                 && key.value in keys
                 && (keys[key.value].expiresAt.None? || now <= keys[key.value].expiresAt.value)
                 && keys[key.value].user in users && users[keys[key.value].user].status == Active)
      ensures r.Ok? ==> r.value == old(nextId) && r.value in requests && requests[r.value].via == key
      ensures r.Ok? && key.None? ==>
                requests == old(requests)[r.value := Actor(user, UserPermissions(Db(), user), None)]
      ensures r.Ok? && key.Some? ==>
                var k := keys[key.value];
                && requests[r.value].user == k.user
                && forall p :: p in requests[r.value].permissions <==>
                     p in k.scopes && ("*" in UserPermissions(Db(), k.user) || p in UserPermissions(Db(), k.user))
      ensures r.Err? ==> r.error == Unauthorized && Db() == old(Db())
    {
      if key.Some? { KeySpelled(Db(), key.value); } else { SessionSpelled(Db(), user); }
      var actor := if key.Some? then KeyActor(Db(), key.value) else SessionActor(Db(), user);
      if actor.Err? { return Err(actor.error); }
      r := Ok(nextId);
      requests := requests[nextId := actor.value];
      nextId := nextId + 1;
    }

    /** ApiKeysService.create */
    method Create(request: int, scopes: set<string>, expiresAt: Option<int>) returns (r: Result<int, Refusal>)
      requires request in requests
      modifies this`requests, this`keys, this`issued, this`nextId
      ensures Db() == AfterMint(old(Db()), request, scopes, expiresAt)
      ensures r.Ok? <==>
                var actor := old(requests)[request];
                && scopes != {} && actor.user in users
                && ("*" in actor.permissions || forall p :: p in scopes ==> p in actor.permissions)
      ensures r.Ok? ==>
                var actor := old(requests)[request];
                && r.value == old(nextId)
                && keys == old(keys)[r.value := Key(actor.user, scopes, expiresAt, actor.via, actor.permissions)]
      ensures r == Err(BadRequest) <==> scopes == {}
      ensures r == Err(Forbidden) <==>
                "*" !in old(requests)[request].permissions
                && exists p :: p in scopes && p !in old(requests)[request].permissions
      ensures r.Err? ==> keys == old(keys)
      ensures requests == old(requests) - {request}
    {
      var actor := requests[request];
      requests := requests - {request};
      if scopes == {} { return Err(BadRequest); }
      if WILDCARD !in actor.permissions {
        var invalid := set p | p in scopes && p !in actor.permissions;
        if invalid != {} {
          ghost var p := Member(invalid);
          assert p in scopes && p !in actor.permissions;
          return Err(Forbidden);
        }
        assert scopes <= actor.permissions by {
          forall p | p in scopes ensures p in actor.permissions { assert p !in invalid; }
        }
      }
      if actor.user !in users { return Err(RolledBack); }
      var key := Key(actor.user, scopes, expiresAt, actor.via, actor.permissions);
      keys := keys[nextId := key];
      issued := issued[nextId := key];
      r := Ok(nextId);
      nextId := nextId + 1;
    }

    /** ApiKeysService.revoke: one's own keys, or any with the wildcard. */
    method RevokeKey(request: int, key: int) returns (refused: Option<Refusal>)
      requires request in requests
      modifies this`requests, this`keys
      ensures Db() == AfterRevoke(old(Db()), request, key)
      ensures refused.None? <==>
                key in old(keys) && (old(keys)[key].user == old(requests)[request].user
                                     || "*" in old(requests)[request].permissions)
      ensures refused.None? ==> keys == old(keys) - {key}
      ensures refused == Some(NotFound) <==> key !in old(keys)
      ensures refused.Some? ==> keys == old(keys)
    {
      var actor := requests[request];
      requests := requests - {request};
      if key !in keys { return Some(NotFound); }
      if keys[key].user != actor.user && WILDCARD !in actor.permissions { return Some(Forbidden); }
      keys := keys - {key};
      refused := None;
    }

    /** RolesService.setPermissions: the rows are deleted and created again in one transaction. */
    method SetRolePermissions(role: int, permissionKeys: set<string>)
      modifies this`roles
      ensures Db() == AfterSetPermissions(old(Db()), role, permissionKeys)
      ensures roles.Keys == old(roles).Keys
      ensures role in roles ==>
                && roles[role] == old(roles)[role].(permissions := roles[role].permissions)
                && forall p :: p in roles[role].permissions <==> p in permissionKeys && p in catalog
      ensures forall other :: other in roles && other != role ==> roles[other] == old(roles)[other]
    {
      var permissions := set p | p in permissionKeys && p in catalog;
      assert permissions == permissionKeys * catalog;
      if role !in roles { return; }
      roles := roles[role := roles[role].(permissions := {})];
      roles := roles[role := roles[role].(permissions := roles[role].permissions + permissions)];
      assert {} + permissions == permissions;
      assert roles == old(roles)[role := old(roles[role]).(permissions := permissionKeys * catalog)];
    }

    /** ON DELETE SET NULL, user by user. */
    method ClearRole(role: int)
      modifies this`users
      ensures users.Keys == old(users).Keys
      ensures forall u :: u in users ==>
                users[u] == if old(users)[u].role == Some(role) then old(users)[u].(role := None) else old(users)[u]
    {
      var left := users.Keys;
      while left != {}
        invariant left <= users.Keys == old(users).Keys
        invariant forall u :: u in left ==> users[u] == old(users)[u]
        invariant forall u :: u in users && u !in left ==>
                    users[u] == if old(users)[u].role == Some(role) then old(users)[u].(role := None) else old(users)[u]
        decreases |left|
      {
        ghost var some: int := Member(left);
        assert some in left;
        var u :| u in left;
        if users[u].role == Some(role) {
          users := users[u := users[u].(role := None)];
        }
        left := left - {u};
      }
      assert forall u :: u !in left;
    }

    /** RolesService.delete; the foreign key of users sets their role to null. */
    method DeleteRole(role: int) returns (refused: Option<Refusal>)
      modifies this`roles, this`users
      ensures Db() == AfterDeleteRole(old(Db()), role)
      ensures refused.None? <==> role in old(roles) && !old(roles)[role].isSystem
      ensures refused.None? ==> roles == old(roles) - {role}
      ensures refused.Some? ==> Db() == old(Db())
      ensures users.Keys == old(users).Keys
      ensures refused.None? ==> forall u :: u in users ==>
                var was := old(users)[u];
                users[u] == User(was.status, if was.role == Some(role) then None else was.role)
    {
      if role !in roles { return Some(NotFound); }
      if roles[role].isSystem { return Some(BadRequest); }
      ClearRole(role);
      roles := roles - {role};
      ghost var cleared := AfterDeleteRole(old(Db()), role).users;
      assert users.Keys == cleared.Keys && forall u :: u in users ==> users[u] == cleared[u];
      SameTable(users, cleared);
      refused := None;
    }

    /** UsersService.create; the foreign key refuses a role that is not there. */
    method CreateUser(role: Option<int>) returns (r: Result<int, Refusal>)
      modifies this`users, this`nextId
      ensures Db() == AfterCreateUser(old(Db()), role)
      ensures r == if role.None? || role.value in roles then Ok(old(nextId)) else Err(RolledBack)
      ensures users == if r.Ok? then old(users)[r.value := User(Active, role)] else old(users)
    {
      if role.Some? && role.value !in roles { return Err(RolledBack); }
      r := Ok(nextId);
      users := users[nextId := User(Active, role)];
      nextId := nextId + 1;
    }

    /** UsersService.update, of the role. */
    method UpdateRole(user: int, role: int) returns (updated: bool)
      modifies this`users
      ensures Db() == AfterSetRole(old(Db()), user, role)
      ensures updated <==> user in old(users) && role in roles
      ensures users == if updated then old(users)[user := User(old(users)[user].status, Some(role))] else old(users)
    {
      updated := user in users && role in roles;
      if updated {
        users := users[user := users[user].(role := Some(role))];
      }
    }

    /** suspend, ban and reactivate, of the status. */
    method UpdateStatus(user: int, status: Status) returns (updated: bool)
      modifies this`users
      ensures Db() == AfterSetStatus(old(Db()), user, status)
      ensures updated <==> user in old(users)
      ensures users == if updated then old(users)[user := User(status, old(users)[user].role)] else old(users)
    {
      updated := user in users;
      if updated {
        users := users[user := users[user].(status := status)];
      }
    }

    /** UsersService.delete; the user's keys go along. */
    method DeleteUser(user: int)
      modifies this`users, this`keys
      ensures Db() == AfterDeleteUser(old(Db()), user)
      ensures users == old(users) - {user}
      ensures forall k :: k in keys <==> k in old(keys) && old(keys)[k].user != user
      ensures forall k :: k in keys ==> keys[k] == old(keys)[k]
    {
      users := users - {user};
      keys := map k | k in keys && keys[k].user != user :: keys[k];
    }
  }
}
