/**
  auth.service.ts and users.service.ts: refresh tokens and their rotation. A
  refresh looks a token up, revokes it and issues another, with awaits between;
  a sign-in checks credentials and then issues. Identifiers are handed out in
  order, so that a smaller one is an earlier event.
 */
module RefreshTokens {
  import opened Wrappers

  /** A token as issued: its owner, the token it replaced, the request that issued it, and when it expires. */
  datatype Issued = Issued(user: int, parent: Option<int>, request: int, expiresAt: int)

  /** A request between two awaits. */
  datatype Request =
    | SigningIn(user: int)
    | Rotating(user: int, token: int)
    | Rotated(user: int, token: int)

  /** `issued` and `lookups` remember every token and every accepted lookup; `rows` are the tokens in the database. */
  datatype State = State(
    users: set<int>,
    issued: map<int, Issued>,
    rows: map<int, bool>,
    requests: map<int, Request>,
    lookups: map<int, int>,
    failed: set<int>,
    now: int,
    nextId: int)

  const EMPTY := State({}, map[], map[], map[], map[], {}, 0, 0)

  datatype Step =
    | CreateUser
    | DeleteUser(user: int)
    | CheckCredentials(user: int)
    | Lookup(token: int)
    | RevokeOld(request: int)
    | Issue(request: int, expiresAt: int)
    | Fail(request: int)
    | Logout(token: int)
    | RevokeAll(user: int)
    | Wait(elapsed: nat)

  /** The lookup in refresh accepts the token: stored, not revoked, not expired. */
  predicate Accepts(s: State, token: int) {
    token in s.rows && !s.rows[token] && token in s.issued && s.now <= s.issued[token].expiresAt
  }

  predicate OwnedBy(issued: map<int, Issued>, token: int, user: int) {
    token in issued && issued[token].user == user
  }

  /** Deleting a user takes the token rows along. */
  function AfterDeleteUser(s: State, user: int): State {
    s.(users := s.users - {user},
       rows := map t | t in s.rows && !OwnedBy(s.issued, t, user) :: s.rows[t])
  }

  function AfterCheckCredentials(s: State, user: int): State {
    if user !in s.users then s
    else s.(requests := s.requests[s.nextId := SigningIn(user)], nextId := s.nextId + 1)
  }

  function AfterLookup(s: State, token: int): State {
    if !Accepts(s, token) then s
    else
      s.(requests := s.requests[s.nextId := Rotating(s.issued[token].user, token)],
         lookups := s.lookups[s.nextId := token],
         nextId := s.nextId + 1)
  }

  /** The update of the looked-up row; it throws when the row is gone. */
  function AfterRevokeOld(s: State, request: int): State {
    if request !in s.requests || !s.requests[request].Rotating? then s
    else
      var r := s.requests[request];
      if r.token !in s.rows then s.(requests := s.requests - {request})
      else
        s.(rows := s.rows[r.token := true], requests := s.requests[request := Rotated(r.user, r.token)])
  }

  /** issueTokenPair: the insert is refused when the user is gone. */
  function AfterIssue(s: State, request: int, expiresAt: int): State {
    if request !in s.requests || s.requests[request].Rotating? then s
    else
      var r := s.requests[request];
      var done := s.(requests := s.requests - {request});
      if r.user !in s.users then done
      else
        var parent := if r.Rotated? then Some(r.token) else None;
        done.(issued := s.issued[s.nextId := Issued(r.user, parent, request, expiresAt)],
              rows := s.rows[s.nextId := false],
              nextId := s.nextId + 1)
  }

  /** A database error between two awaits. */
  function AfterFail(s: State, request: int): State {
    if request !in s.requests then s
    else s.(requests := s.requests - {request}, failed := s.failed + {request})
  }

  function AfterLogout(s: State, token: int): State {
    if token in s.rows then s.(rows := s.rows[token := true]) else s
  }

  /** changeOwnPassword, resetPassword, suspend and ban all end in this update. */
  function AfterRevokeAll(s: State, user: int): State {
    s.(rows := map t | t in s.rows :: s.rows[t] || OwnedBy(s.issued, t, user))
  }

  function Next(s: State, step: Step): State {
    match step
    case CreateUser => s.(users := s.users + {s.nextId}, nextId := s.nextId + 1)
    case DeleteUser(user) => AfterDeleteUser(s, user)
    case CheckCredentials(user) => AfterCheckCredentials(s, user)
    case Lookup(token) => AfterLookup(s, token)
    case RevokeOld(request) => AfterRevokeOld(s, request)
    case Issue(request, expiresAt) => AfterIssue(s, request, expiresAt)
    case Fail(request) => AfterFail(s, request)
    case Logout(token) => AfterLogout(s, token)
    case RevokeAll(user) => AfterRevokeAll(s, user)
    case Wait(elapsed) => s.(now := s.now + elapsed)
  }

  function Run(s: State, steps: seq<Step>): State
    decreases steps
  {
    if steps == [] then s else Run(Next(s, steps[0]), steps[1..])
  }

  // ---------------------------------------------------------------------
  // Lineage
  // ---------------------------------------------------------------------

  /** The sign-in token a token descends from. */
  function Root(issued: map<int, Issued>, token: int): int
    decreases token
  {
    if token in issued && issued[token].parent.Some? && 0 <= issued[token].parent.value < token
    then Root(issued, issued[token].parent.value)
    else token
  }

  /** `x` is `token` or a token it descends from. */
  predicate InChain(issued: map<int, Issued>, token: int, x: int)
    decreases token
  {
    || x == token
    || (token in issued && issued[token].parent.Some? && 0 <= issued[token].parent.value < token
        && InChain(issued, issued[token].parent.value, x))
  }

  // ---------------------------------------------------------------------
  // The invariant
  // ---------------------------------------------------------------------

  /** A token's request came before it, and the token it replaced before that request, with the same owner. */
  predicate IssuedOk(issued: map<int, Issued>, t: int, nextId: int)
    requires t in issued
  {
    && 0 <= issued[t].request < t < nextId
    && (issued[t].parent.Some? ==>
          0 <= issued[t].parent.value < issued[t].request && OwnedBy(issued, issued[t].parent.value, issued[t].user))
  }

  predicate RequestOk(issued: map<int, Issued>, lookups: map<int, int>, r: int, request: Request, nextId: int) {
    && 0 <= r < nextId
    && (!request.SigningIn? ==>
          && 0 <= request.token < r && OwnedBy(issued, request.token, request.user)
          && r in lookups && lookups[r] == request.token)
  }

  ghost predicate TokensOk(issued: map<int, Issued>, nextId: int) {
    forall t :: t in issued ==> IssuedOk(issued, t, nextId)
  }

  ghost predicate RequestsOk(s: State) {
    forall r :: r in s.requests ==> RequestOk(s.issued, s.lookups, r, s.requests[r], s.nextId)
  }

  /** The rows are the tokens whose owners still exist. */
  ghost predicate RowsOk(s: State) {
    forall t {:trigger t in s.rows} {:trigger t in s.issued} ::
      t in s.rows <==> t in s.issued && s.issued[t].user in s.users
  }

  /** A lookup that is neither still to revoke its token nor failed has revoked it. */
  ghost predicate LookupsOk(s: State) {
    forall r :: r in s.lookups ==>
      && r < s.nextId && s.lookups[r] in s.issued
      && (r in s.failed || (r in s.requests && s.requests[r].Rotating?)
          || (s.lookups[r] in s.rows ==> s.rows[s.lookups[r]]))
  }

  ghost predicate Inv(s: State) {
    && 0 <= s.nextId && (forall u :: u in s.users ==> u < s.nextId)
    && TokensOk(s.issued, s.nextId) && RequestsOk(s) && RowsOk(s) && LookupsOk(s)
    && forall t :: t in s.issued ==> s.issued[t].user < s.nextId
  }

  lemma UserStepKeeps(s: State, step: Step)
    requires Inv(s) && (step.CreateUser? || step.DeleteUser? || step.Wait? || step.Logout? || step.RevokeAll?)
    ensures Inv(Next(s, step))
  {}

  lemma RequestStepKeeps(s: State, step: Step)
    requires Inv(s) && (step.CheckCredentials? || step.Lookup? || step.RevokeOld? || step.Fail?)
    ensures Inv(Next(s, step))
  {}

  lemma IssueKeeps(s: State, request: int, expiresAt: int)
    requires Inv(s)
    ensures Inv(AfterIssue(s, request, expiresAt))
  {}

  lemma StepKeeps(s: State, step: Step)
    requires Inv(s)
    ensures Inv(Next(s, step))
  {
    match step
    case Issue(request, expiresAt) => IssueKeeps(s, request, expiresAt);
    case CheckCredentials(_) => RequestStepKeeps(s, step);
    case Lookup(_) => RequestStepKeeps(s, step);
    case RevokeOld(_) => RequestStepKeeps(s, step);
    case Fail(_) => RequestStepKeeps(s, step);
    case _ => UserStepKeeps(s, step);
  }

  lemma {:induction false} RunKeeps(s: State, steps: seq<Step>)
    requires Inv(s)
    ensures Inv(Run(s, steps))
    decreases steps
  {
    if steps != [] {
      StepKeeps(s, steps[0]);
      RunKeeps(Next(s, steps[0]), steps[1..]);
    }
  }
}
