/**
  AuthService's token methods in the form of the source: an object over the
  token table, each method a piece of a request between two awaits.
 */
module AuthService {
  import opened Wrappers
  import opened Sets
  import opened RefreshTokens
  import opened RefreshTheorems

  datatype Refusal = Unauthorized | RowGone | UserGone

  class AuthService {
    var users: set<int>
    var issued: map<int, Issued>
    var rows: map<int, bool>
    var requests: map<int, Request>
    var lookups: map<int, int>
    var failed: set<int>
    var now: int
    var nextId: int

    function Db(): State
      reads this
    {
      State(users, issued, rows, requests, lookups, failed, now, nextId)
    }

    constructor ()
      ensures Db() == EMPTY
    {
      users, issued, rows, requests, lookups, failed, now, nextId := {}, map[], map[], map[], map[], {}, 0, 0;
    }

    /** login and register, once the credentials are checked. */
    method BeginSignIn(user: int) returns (request: Option<int>)
      modifies this`requests, this`nextId
      ensures Db() == AfterCheckCredentials(old(Db()), user)
      ensures request == if user in users then Some(old(nextId)) else None
      ensures requests == if user in users then old(requests)[old(nextId) := SigningIn(user)] else old(requests)
    {
      if user !in users { return None; }
      request := Some(nextId);
      requests := requests[nextId := SigningIn(user)];
      nextId := nextId + 1;
    }

    /** refresh up to the first await: the row is read and checked. */
    method LookUp(token: int) returns (r: Result<int, Refusal>)
      modifies this`requests, this`lookups, this`nextId
      ensures Db() == AfterLookup(old(Db()), token)
      ensures r.Ok? <==> token in rows && !rows[token] && token in issued && now <= issued[token].expiresAt
      ensures r == if r.Ok? then Ok(old(nextId)) else Err(Unauthorized)
      ensures requests == if r.Ok? then old(requests)[r.value := Rotating(issued[token].user, token)] else old(requests)
    {
      if token !in rows || rows[token] || token !in issued || issued[token].expiresAt < now {
        return Err(Unauthorized);
      }
      r := Ok(nextId);
      requests := requests[nextId := Rotating(issued[token].user, token)];
      lookups := lookups[nextId := token];
      nextId := nextId + 1;
    }

    /** refresh between its awaits: the old token's row is revoked, whatever it says by now. */
    method RevokeOld(request: int) returns (refused: Option<Refusal>)
      requires request in requests && requests[request].Rotating?
      modifies this`requests, this`rows
      ensures Db() == AfterRevokeOld(old(Db()), request)
      ensures refused == if old(requests[request].token) in old(rows) then None else Some(RowGone)
      ensures rows == if refused.None? then old(rows)[old(requests[request].token) := true] else old(rows)
      ensures var q := old(requests[request]);
              requests == if refused.Some? then old(requests) - {request}
                          else old(requests)[request := Rotated(q.user, q.token)]
    {
      var r := requests[request];
      if r.token !in rows {
        requests := requests - {request};
        return Some(RowGone);
      }
      rows := rows[r.token := true];
      requests := requests[request := Rotated(r.user, r.token)];
      refused := None;
    }

    method IssueTokenPair(request: int, expiresAt: int) returns (r: Result<int, Refusal>)
      requires request in requests && !requests[request].Rotating?
      modifies this`requests, this`issued, this`rows, this`nextId
      ensures Db() == AfterIssue(old(Db()), request, expiresAt)
      ensures r == if old(requests[request].user) in users then Ok(old(nextId)) else Err(UserGone)
      ensures requests == old(requests) - {request}
      ensures rows == if r.Ok? then old(rows)[r.value := false] else old(rows)
      ensures var q := old(requests[request]);
              issued == if r.Err? then old(issued)
                        else old(issued)[r.value := Issued(q.user, if q.Rotated? then Some(q.token) else None, request,
                                                           expiresAt)]
    {
      var q := requests[request];
      requests := requests - {request};
      if q.user !in users { return Err(UserGone); }
      var parent := if q.Rotated? then Some(q.token) else None;
      issued := issued[nextId := Issued(q.user, parent, request, expiresAt)];
      rows := rows[nextId := false];
      r := Ok(nextId);
      nextId := nextId + 1;
    }

    /** refresh with nothing in between. */
    method Refresh(token: int, expiresAt: int) returns (r: Result<int, Refusal>)
      requires RefreshTokens.Inv(Db())
      modifies this
      ensures Db() == Refreshed(old(Db()), token, expiresAt)
      ensures r.Ok? <==> token in old(rows) && !old(rows)[token] && old(now) <= old(issued)[token].expiresAt
      ensures r.Ok? ==> rows == old(rows)[token := true][r.value := false]
      ensures r.Ok? ==> r.value == old(nextId) + 1 && issued[r.value].parent == Some(token)
    {
      var looked := LookUp(token);
      if looked.Err? { return Err(looked.error); }
      var request := looked.value;
      var refused := RevokeOld(request);
      assert refused.None?;
      r := IssueTokenPair(request, expiresAt);
    }

    /** logout: no error when there is no such token. The token is spent, every other one as good as before. */
    method Logout(token: int)
      modifies this`rows
      ensures Db() == AfterLogout(old(Db()), token)
      ensures !Accepts(Db(), token)
      ensures forall t :: t != token ==> (Accepts(Db(), t) <==> Accepts(old(Db()), t))
      ensures rows == if token in old(rows) then old(rows)[token := true] else old(rows)
    {
      if token in rows { rows := rows[token := true]; }
    }

    /** The bulk update at the end of changeOwnPassword, resetPassword, suspend and ban. */
    method RevokeAll(user: int)
      modifies this`rows
      ensures Db() == AfterRevokeAll(old(Db()), user)
      ensures rows.Keys == old(rows).Keys
      ensures forall t :: t in rows ==> rows[t] == (old(rows)[t] || (t in issued && issued[t].user == user))
      ensures Unrevoked(Db(), user) == {}
      ensures forall u :: u != user ==> Unrevoked(Db(), u) == Unrevoked(old(Db()), u)
      ensures forall t :: Accepts(Db(), t) <==> Accepts(old(Db()), t) && issued[t].user != user
    {
      var left := rows.Keys;
      while left != {}
        invariant left <= rows.Keys == old(rows).Keys
        invariant forall t :: t in rows ==> rows[t] == (old(rows)[t] || (t !in left && OwnedBy(issued, t, user)))
        decreases |left|
      {
        ghost var some: int := Member(left);
        assert some in left;
        var t :| t in left;
        if t in issued && issued[t].user == user {
          rows := rows[t := true];
        }
        left := left - {t};
      }
      ghost var revoked := AfterRevokeAll(old(Db()), user).rows;
      assert forall t :: t in old(rows) ==> t in revoked && revoked[t] == (old(rows)[t] || OwnedBy(issued, t, user));
      assert rows.Keys == revoked.Keys && forall t :: t in rows ==> rows[t] == revoked[t];
      SameTable(rows, revoked);
    }
  }
}
