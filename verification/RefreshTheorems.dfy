/**
  What revoking all of a user's tokens cuts off, which requests get across, and
  what rotation does to the number of sessions.
 */
module RefreshTheorems {
  import opened Wrappers
  import opened Sets
  import opened RefreshTokens

  // ---------------------------------------------------------------------
  // After a revoke-all
  // ---------------------------------------------------------------------

  /**
    After `user`'s tokens were revoked at event `n` while the requests `across`
    were under way: earlier tokens are revoked, and a token issued or a request
    begun since is either due to such a request or rests on a later token.
   */
  ghost predicate Cut(s: State, user: int, n: int, across: set<int>) {
    && (forall t :: t in s.rows && t < n && OwnedBy(s.issued, t, user) ==> s.rows[t])
    && (forall r :: r in s.requests && s.requests[r].user == user ==>
          r in across || (n <= r && RestsOnLater(s.requests[r], n)))
    && (forall t :: t in s.issued && s.issued[t].user == user && n <= t && s.issued[t].request !in across ==>
          n <= s.issued[t].request && (s.issued[t].parent.Some? ==> n <= s.issued[t].parent.value))
    && (forall r :: r in across ==> r < n)
    && n <= s.nextId
  }

  predicate RestsOnLater(r: Request, n: int) { !r.SigningIn? ==> n <= r.token }

  /** The user's requests under way. */
  function UnderWay(s: State, user: int): set<int> { set r | r in s.requests && s.requests[r].user == user }

  lemma CutBegins(s: State, user: int)
    requires Inv(s)
    ensures Cut(AfterRevokeAll(s, user), user, s.nextId, UnderWay(s, user))
  {}

  lemma CutStep(s: State, step: Step, user: int, n: int, across: set<int>)
    requires Inv(s) && Cut(s, user, n, across)
    ensures Cut(Next(s, step), user, n, across)
  {}

  lemma {:induction false} CutRun(s: State, steps: seq<Step>, user: int, n: int, across: set<int>)
    requires Inv(s) && Cut(s, user, n, across)
    ensures Cut(Run(s, steps), user, n, across) && Inv(Run(s, steps))
    decreases steps
  {
    if steps != [] {
      StepKeeps(s, steps[0]);
      CutStep(s, steps[0], user, n, across);
      CutRun(Next(s, steps[0]), steps[1..], user, n, across);
    }
  }

  /** The state after `after`, `user`'s tokens having been revoked in `s`. */
  function Later(s: State, user: int, after: seq<Step>): State { Run(AfterRevokeAll(s, user), after) }

  lemma LaterIsCut(s: State, user: int, after: seq<Step>)
    requires Inv(s)
    ensures Inv(Later(s, user, after)) && Cut(Later(s, user, after), user, s.nextId, UnderWay(s, user))
  {
    StepKeeps(s, RevokeAll(user));
    CutBegins(s, user);
    CutRun(AfterRevokeAll(s, user), after, user, s.nextId, UnderWay(s, user));
  }

  /** In any interleaving, what a lookup accepts after the revoke-all was issued after it. */
  lemma OnlyLaterTokensAccepted(s: State, user: int, after: seq<Step>, t: int)
    requires Inv(s) && Accepts(Later(s, user, after), t) && OwnedBy(Later(s, user, after).issued, t, user)
    ensures t !in s.issued && s.nextId <= t
  {
    LaterIsCut(s, user, after);
  }

  // ---------------------------------------------------------------------
  // Lineage across a revoke-all
  // ---------------------------------------------------------------------

  /** The sign-in at the root of the token's chain checked its credentials at event `n` or later. */
  ghost predicate FreshRoot(issued: map<int, Issued>, t: int, n: int) {
    Root(issued, t) in issued && issued[Root(issued, t)].parent.None? && n <= issued[Root(issued, t)].request
  }

  /** Some token of the chain was issued by a request in `across`. */
  ghost predicate Straddles(issued: map<int, Issued>, t: int, across: set<int>) {
    exists x :: InChain(issued, t, x) && x in issued && issued[x].request in across
  }

  lemma StraddlesUp(issued: map<int, Issued>, t: int, across: set<int>)
    requires t in issued && issued[t].parent.Some? && 0 <= issued[t].parent.value < t
    ensures Straddles(issued, t, across)
            <==> issued[t].request in across || Straddles(issued, issued[t].parent.value, across)
  {
    var p := issued[t].parent.value;
    if Straddles(issued, t, across) {
      var x :| InChain(issued, t, x) && x in issued && issued[x].request in across;
      if x != t { assert InChain(issued, p, x); }
    }
    if issued[t].request in across { assert InChain(issued, t, t); }
    if Straddles(issued, p, across) {
      var x :| InChain(issued, p, x) && x in issued && issued[x].request in across;
      assert InChain(issued, t, x);
    }
  }

  lemma StraddlesAtRoot(issued: map<int, Issued>, t: int, across: set<int>)
    requires t in issued && issued[t].parent.None?
    ensures Straddles(issued, t, across) <==> issued[t].request in across
  {
    if issued[t].request in across { assert InChain(issued, t, t); }
  }

  /** Everything down a chain comes after its root's sign-in. */
  lemma {:induction false} RootComesFirst(issued: map<int, Issued>, t: int, nextId: int)
    requires TokensOk(issued, nextId) && t in issued
    ensures Root(issued, t) in issued && issued[Root(issued, t)].parent.None?
    ensures issued[Root(issued, t)].request <= issued[t].request
    decreases t
  {
    assert IssuedOk(issued, t, nextId);
    if issued[t].parent.Some? {
      var p := issued[t].parent.value;
      assert IssuedOk(issued, p, nextId);
      RootComesFirst(issued, p, nextId);
    }
  }

  lemma {:induction false} LineageOfCut(s: State, user: int, n: int, across: set<int>, t: int)
    requires Inv(s) && Cut(s, user, n, across) && n <= t && OwnedBy(s.issued, t, user)
    ensures FreshRoot(s.issued, t, n) <==> !Straddles(s.issued, t, across)
    decreases t
  {
    assert IssuedOk(s.issued, t, s.nextId);
    RootComesFirst(s.issued, t, s.nextId);
    if s.issued[t].parent.None? {
      StraddlesAtRoot(s.issued, t, across);
    } else {
      var p := s.issued[t].parent.value;
      StraddlesUp(s.issued, t, across);
      RootComesFirst(s.issued, p, s.nextId);
      if s.issued[t].request !in across {
        LineageOfCut(s, user, n, across, p);
      }
    }
  }

  /**
    In any interleaving: a token accepted after the revoke-all descends from a
    sign-in begun after it, exactly when no token of its chain was issued by a
    request of the user's that was under way at the revoke-all.
   */
  lemma RefreshLineage(s: State, user: int, after: seq<Step>, t: int)
    requires Inv(s) && Accepts(Later(s, user, after), t) && OwnedBy(Later(s, user, after).issued, t, user)
    ensures var s' := Later(s, user, after);
            FreshRoot(s'.issued, t, s.nextId) <==> !Straddles(s'.issued, t, UnderWay(s, user))
  {
    LaterIsCut(s, user, after);
    LineageOfCut(Later(s, user, after), user, s.nextId, UnderWay(s, user), t);
  }

  lemma EmptyInv()
    ensures Inv(EMPTY)
  {}

  lemma OneStep(s: State, a: Step)
    ensures Run(s, [a]) == Next(s, a)
  {
    assert [a][1..] == [];
  }

  lemma TwoSteps(s: State, a: Step, b: Step)
    ensures Run(s, [a, b]) == Next(Next(s, a), b)
  {
    assert [a, b][1..] == [b];
    OneStep(Next(s, a), b);
  }

  /** A request that is under way at the revoke-all can still issue a token that is accepted. */
  lemma AcrossGetsThrough(s: State, user: int, r: int)
    requires Inv(s) && user in s.users && r in UnderWay(s, user)
    ensures exists after :: var s' := Later(s, user, after);
              Accepts(s', s.nextId) && OwnedBy(s'.issued, s.nextId, user) && s'.issued[s.nextId].request == r
  {
    var s0 := AfterRevokeAll(s, user);
    assert RequestOk(s.issued, s.lookups, r, s.requests[r], s.nextId);
    if s.requests[r].Rotating? {
      assert s.requests[r].token in s.rows;
      TwoSteps(s0, RevokeOld(r), Issue(r, s.now));
      assert Accepts(Later(s, user, [RevokeOld(r), Issue(r, s.now)]), s.nextId);
    } else {
      OneStep(s0, Issue(r, s.now));
      assert Accepts(Later(s, user, [Issue(r, s.now)]), s.nextId);
    }
  }

  /** Whatever is accepted for the user from here on descends from a later sign-in. */
  ghost predicate RevokeAllCutsOff(s: State, user: int) {
    forall after, t :: Accepts(Later(s, user, after), t) && OwnedBy(Later(s, user, after).issued, t, user)
                       ==> FreshRoot(Later(s, user, after).issued, t, s.nextId)
  }

  /** The exact condition: a revoke-all cuts every old session off iff none of the user's requests is under way. */
  lemma RevokeAllIsFinal(before: seq<Step>, user: int)
    requires user in Run(EMPTY, before).users
    ensures RevokeAllCutsOff(Run(EMPTY, before), user) <==> UnderWay(Run(EMPTY, before), user) == {}
  {
    var s := Run(EMPTY, before);
    EmptyInv();
    RunKeeps(EMPTY, before);
    if UnderWay(s, user) == {} {
      forall after, t | Accepts(Later(s, user, after), t) && OwnedBy(Later(s, user, after).issued, t, user)
        ensures FreshRoot(Later(s, user, after).issued, t, s.nextId)
      {
        LaterIsCut(s, user, after);
        RefreshLineage(s, user, after, t);
      }
    } else {
      var r := Member(UnderWay(s, user));
      AcrossGetsThrough(s, user, r);
      var after :| var s' := Later(s, user, after);
        Accepts(s', s.nextId) && OwnedBy(s'.issued, s.nextId, user) && s'.issued[s.nextId].request == r;
      RefreshLineage(s, user, after, s.nextId);
      assert InChain(Later(s, user, after).issued, s.nextId, s.nextId);
    }
  }

  // ---------------------------------------------------------------------
  // One rotation per token
  // ---------------------------------------------------------------------

  /** A token is accepted again only while every earlier lookup of it has yet to revoke it, or has failed to. */
  lemma AcceptedAgain(steps: seq<Step>, t: int, r: int)
    ensures var s := Run(EMPTY, steps);
            Accepts(s, t) && r in s.lookups && s.lookups[r] == t ==>
              r in s.failed || (r in s.requests && s.requests[r].Rotating?)
  {
    EmptyInv();
    RunKeeps(EMPTY, steps);
  }

  // ---------------------------------------------------------------------
  // The number of sessions
  // ---------------------------------------------------------------------

  function Unrevoked(s: State, user: int): set<int> {
    set t | t in s.rows && !s.rows[t] && OwnedBy(s.issued, t, user)
  }

  /** Rotations that have revoked a token and not issued its successor. */
  function Owed(s: State, user: int): set<int> {
    set r | r in s.requests && s.requests[r].Rotated? && s.requests[r].user == user
  }

  function Sessions(s: State, user: int): int { |Unrevoked(s, user)| + |Owed(s, user)| }

  /** The step revokes a token that is revoked already. */
  predicate RevokesAgain(s: State, step: Step, user: int) {
    && step.RevokeOld? && step.request in s.requests && s.requests[step.request].Rotating?
    && var r := s.requests[step.request];
       r.user == user && r.token in s.rows && s.rows[r.token]
  }

  lemma LookupBalance(s: State, t: int, user: int)
    requires Inv(s)
    ensures Unrevoked(AfterLookup(s, t), user) == Unrevoked(s, user) && Owed(AfterLookup(s, t), user) == Owed(s, user)
  {}

  /** Revoking takes one token out of the unrevoked ones, if it was one of them. */
  lemma RevokeUnrevoked(s: State, request: int, user: int)
    requires Inv(s) && request in s.requests && s.requests[request].Rotating?
    ensures Unrevoked(AfterRevokeOld(s, request), user) == Unrevoked(s, user) - {s.requests[request].token}
  {}

  /** ... and owes a successor to the token's owner, unless the row is gone. */
  lemma RevokeOwed(s: State, request: int, user: int)
    requires Inv(s) && request in s.requests && s.requests[request].Rotating?
    ensures var r := s.requests[request];
            Owed(AfterRevokeOld(s, request), user)
            == Owed(s, user) + if r.token in s.rows && r.user == user then {request} else {}
  {}

  lemma RevokeBalance(s: State, request: int, user: int)
    requires Inv(s)
    ensures Sessions(AfterRevokeOld(s, request), user)
            == Sessions(s, user) + if RevokesAgain(s, RevokeOld(request), user) then 1 else 0
  {
    if request in s.requests && s.requests[request].Rotating? {
      var r := s.requests[request];
      assert RequestOk(s.issued, s.lookups, request, r, s.nextId);
      RevokeUnrevoked(s, request, user);
      RevokeOwed(s, request, user);
      assert request !in Owed(s, user);
      assert r.token in Unrevoked(s, user) <==> r.token in s.rows && !s.rows[r.token] && r.user == user;
    }
  }

  lemma IssueUnrevoked(s: State, request: int, expiresAt: int, user: int)
    requires Inv(s) && user in s.users && request in s.requests && s.requests[request].Rotated?
    ensures Unrevoked(AfterIssue(s, request, expiresAt), user)
            == Unrevoked(s, user) + if s.requests[request].user == user then {s.nextId} else {}
  {
    var s' := AfterIssue(s, request, expiresAt);
    assert s.nextId !in s.issued && s.nextId !in s.rows;
    forall t ensures t in Unrevoked(s', user)
                     <==> t in Unrevoked(s, user) || (s.requests[request].user == user && t == s.nextId)
    {
      if t != s.nextId {
        assert t in s'.rows <==> t in s.rows;
        assert t in s'.issued <==> t in s.issued;
      }
    }
  }

  lemma IssueOwed(s: State, request: int, expiresAt: int, user: int)
    requires request in s.requests && s.requests[request].Rotated?
    ensures Owed(AfterIssue(s, request, expiresAt), user) == Owed(s, user) - {request}
  {}

  lemma IssueBalance(s: State, request: int, expiresAt: int, user: int)
    requires Inv(s) && user in s.users && request in s.requests && s.requests[request].Rotated?
    ensures Sessions(AfterIssue(s, request, expiresAt), user) == Sessions(s, user)
  {
    IssueUnrevoked(s, request, expiresAt, user);
    IssueOwed(s, request, expiresAt, user);
    assert s.nextId !in Unrevoked(s, user);
    assert request in Owed(s, user) <==> s.requests[request].user == user;
  }

  /**
    In any interleaving, the steps of refreshes neither add nor remove sessions,
    except that revoking a token a second time adds one.
   */
  lemma RotationBalance(s: State, step: Step, user: int)
    requires Inv(s) && user in s.users
    requires step.Lookup? || step.RevokeOld?
             || (step.Issue? && step.request in s.requests && s.requests[step.request].Rotated?)
    ensures Sessions(Next(s, step), user) == Sessions(s, user) + if RevokesAgain(s, step, user) then 1 else 0
  {
    match step
    case Lookup(t) => LookupBalance(s, t, user);
    case RevokeOld(request) => RevokeBalance(s, request, user);
    case Issue(request, expiresAt) => IssueBalance(s, request, expiresAt, user);
    case _ =>
  }

  /** A refresh with nothing in between. */
  function Refreshed(s: State, t: int, expiresAt: int): State {
    var looked := AfterLookup(s, t);
    if looked == s then s else AfterIssue(AfterRevokeOld(looked, s.nextId), s.nextId, expiresAt)
  }

  /** It replaces the token by one successor of the same owner: the number of unrevoked tokens stays the same. */
  lemma RefreshKeepsCount(s: State, t: int, expiresAt: int, user: int)
    requires Inv(s) && Accepts(s, t)
    ensures var s', owner := Refreshed(s, t, expiresAt), s.issued[t].user;
            && !Accepts(s', t) && Accepts(s', s.nextId + 1) == (s.now <= expiresAt)
            && s'.issued == s.issued[s.nextId + 1 := Issued(owner, Some(t), s.nextId, expiresAt)]
            && |Unrevoked(s', user)| == |Unrevoked(s, user)|
            && (user != owner ==> Unrevoked(s', user) == Unrevoked(s, user))
            && s'.requests == s.requests
  {
    var s', owner := Refreshed(s, t, expiresAt), s.issued[t].user;
    assert s.nextId !in s.requests && s.nextId + 1 !in s.rows;
    assert s'.requests == s.requests;
    assert s'.rows == s.rows[t := true][s.nextId + 1 := false];
    OneReplaced(s, s', t, s.nextId + 1, user);
  }

  /** One unrevoked row revoked, one of the same owner added. */
  lemma OneReplaced(s: State, s': State, t: int, child: int, user: int)
    requires Accepts(s, t) && child !in s.rows && t != child
    requires s'.rows == s.rows[t := true][child := false]
    requires child in s'.issued && s'.issued[child].user == s.issued[t].user
    requires forall x :: x != child ==>
                           (x in s'.issued <==> x in s.issued) && (x in s.issued ==> s'.issued[x] == s.issued[x])
    ensures |Unrevoked(s', user)| == |Unrevoked(s, user)|
    ensures user != s.issued[t].user ==> Unrevoked(s', user) == Unrevoked(s, user)
  {
    if user == s.issued[t].user {
      assert Unrevoked(s', user) == Unrevoked(s, user) - {t} + {child};
    } else {
      assert Unrevoked(s', user) == Unrevoked(s, user);
    }
  }

  /** Revoked or removed, a token is never accepted again. */
  lemma {:induction false} SpentStaysSpent(s: State, steps: seq<Step>, t: int)
    requires Inv(s) && t in s.issued && (t in s.rows ==> s.rows[t])
    ensures !Accepts(Run(s, steps), t)
    decreases steps
  {
    if steps != [] {
      StepKeeps(s, steps[0]);
      SpentStep(s, steps[0], t);
      SpentStaysSpent(Next(s, steps[0]), steps[1..], t);
    }
  }

  lemma SpentStep(s: State, step: Step, t: int)
    requires Inv(s) && t in s.issued && (t in s.rows ==> s.rows[t])
    ensures var s' := Next(s, step); t in s'.issued && (t in s'.rows ==> s'.rows[t])
  {}

  /** A request that failed neither revokes nor issues any more; rows and other requests are as they were. */
  lemma FailedIsOver(s: State, request: int, expiresAt: int)
    requires request in s.requests
    ensures var s' := Next(s, Fail(request));
            && request !in s'.requests && s'.rows == s.rows && s'.issued == s.issued
            && Next(s', RevokeOld(request)) == s' && Next(s', Issue(request, expiresAt)) == s'
            && forall r :: r != request ==> (r in s'.requests <==> r in s.requests)
                                            && (r in s.requests ==> s'.requests[r] == s.requests[r])
  {
    var s' := Next(s, Fail(request));
    forall r | r != request ensures r in s'.requests <==> r in s.requests {}
  }

  /** An expired token is never looked up with success again, whatever is done. */
  lemma {:induction false} ExpiredForGood(s: State, steps: seq<Step>, t: int)
    requires Inv(s) && t in s.issued && s.issued[t].expiresAt < s.now
    ensures var s' := Run(s, steps);
            && t in s'.issued && s'.issued[t] == s.issued[t] && s.now <= s'.now
            && forall r :: r in s'.lookups && s'.lookups[r] == t ==> r in s.lookups && s.lookups[r] == t
    decreases steps
  {
    if steps != [] {
      StepKeeps(s, steps[0]);
      ExpiredStep(s, steps[0], t);
      ExpiredForGood(Next(s, steps[0]), steps[1..], t);
    }
  }

  lemma ExpiredStep(s: State, step: Step, t: int)
    requires Inv(s) && t in s.issued && s.issued[t].expiresAt < s.now
    ensures var s' := Next(s, step);
            && t in s'.issued && s'.issued[t] == s.issued[t] && s.now <= s'.now
            && forall r :: r in s'.lookups && s'.lookups[r] == t ==> r in s.lookups && s.lookups[r] == t
  {}

  /** An undisturbed refresh spends the token for good: it is accepted at most once, whatever follows. */
  lemma RefreshSpendsToken(s: State, t: int, expiresAt: int, steps: seq<Step>)
    requires Inv(s) && Accepts(s, t)
    ensures !Accepts(Run(Refreshed(s, t, expiresAt), steps), t)
  {
    var s1 := Next(s, Lookup(t));
    var s2 := Next(s1, RevokeOld(s.nextId));
    StepKeeps(s, Lookup(t));
    StepKeeps(s1, RevokeOld(s.nextId));
    StepKeeps(s2, Issue(s.nextId, expiresAt));
    SpentStaysSpent(Next(s2, Issue(s.nextId, expiresAt)), steps, t);
  }

  predicate RefreshesOnly(steps: seq<Step>) {
    forall k :: 0 <= k < |steps| ==> steps[k].Lookup? || steps[k].RevokeOld? || steps[k].Issue?
  }

  lemma BothRevoke(s: State, t: int)
    requires Inv(s) && Accepts(s, t)
    ensures var a, b, user := s.nextId, s.nextId + 1, s.issued[t].user;
            var s4 := Next(Next(Next(Next(s, Lookup(t)), Lookup(t)), RevokeOld(a)), RevokeOld(b));
            && Inv(s4) && user in s4.users
            && s4.requests == s.requests[a := Rotated(user, t)][b := Rotated(user, t)]
            && Sessions(s4, user) == Sessions(s, user) + 1
  {
    var a, b, user := s.nextId, s.nextId + 1, s.issued[t].user;
    var s1 := Next(s, Lookup(t));
    var s2 := Next(s1, Lookup(t));
    var s3 := Next(s2, RevokeOld(a));
    StepKeeps(s, Lookup(t));
    StepKeeps(s1, Lookup(t));
    StepKeeps(s2, RevokeOld(a));
    StepKeeps(s3, RevokeOld(b));
    LookupBalance(s, t, user);
    LookupBalance(s1, t, user);
    RevokeBalance(s2, a, user);
    RevokeBalance(s3, b, user);
  }

  lemma IssueOne(s: State, request: int, expiresAt: int, user: int)
    requires Inv(s) && user in s.users && request in s.requests && s.requests[request].Rotated?
    ensures var s' := Next(s, Issue(request, expiresAt));
            && Inv(s') && s'.users == s.users && s'.requests == s.requests - {request}
            && Sessions(s', user) == Sessions(s, user)
  {
    StepKeeps(s, Issue(request, expiresAt));
    IssueBalance(s, request, expiresAt, user);
  }

  lemma SameOwed(s: State, s': State, user: int)
    requires s'.requests == s.requests && Sessions(s', user) == Sessions(s, user) + 1
    ensures |Unrevoked(s', user)| == |Unrevoked(s, user)| + 1
  {
    assert Owed(s', user) == Owed(s, user);
  }

  lemma BothIssue(s: State, s4: State, a: int, b: int, expiresAt: int, user: int, t: int)
    requires Inv(s4) && user in s4.users && a !in s.requests && b !in s.requests && a != b
    requires s4.requests == s.requests[a := Rotated(user, t)][b := Rotated(user, t)]
    requires Sessions(s4, user) == Sessions(s, user) + 1
    ensures |Unrevoked(Next(Next(s4, Issue(a, expiresAt)), Issue(b, expiresAt)), user)| == |Unrevoked(s, user)| + 1
  {
    IssueOne(s4, a, expiresAt, user);
    IssueOne(Next(s4, Issue(a, expiresAt)), b, expiresAt, user);
    SameOwed(s, Next(Next(s4, Issue(a, expiresAt)), Issue(b, expiresAt)), user);
  }

  lemma OverlapCounts(s: State, t: int, expiresAt: int)
    requires Inv(s) && Accepts(s, t)
    ensures var a, b, user := s.nextId, s.nextId + 1, s.issued[t].user;
            var s4 := Next(Next(Next(Next(s, Lookup(t)), Lookup(t)), RevokeOld(a)), RevokeOld(b));
            |Unrevoked(Next(Next(s4, Issue(a, expiresAt)), Issue(b, expiresAt)), user)| == |Unrevoked(s, user)| + 1
  {
    var a, b, user := s.nextId, s.nextId + 1, s.issued[t].user;
    BothRevoke(s, t);
    BothIssue(s, Next(Next(Next(Next(s, Lookup(t)), Lookup(t)), RevokeOld(a)), RevokeOld(b)), a, b, expiresAt, user, t);
  }

  lemma SixSteps(s: State, a: Step, b: Step, c: Step, d: Step, e: Step, f: Step)
    ensures Run(s, [a, b, c, d, e, f]) == Next(Next(Next(Next(Next(Next(s, a), b), c), d), e), f)
  {
    var s4 := Next(Next(Next(Next(s, a), b), c), d);
    assert [a, b, c, d, e, f][1..] == [b, c, d, e, f] && [b, c, d, e, f][1..] == [c, d, e, f];
    assert [c, d, e, f][1..] == [d, e, f] && [d, e, f][1..] == [e, f];
    assert Run(s, [a, b, c, d, e, f]) == Run(Next(Next(s, a), b), [c, d, e, f]) == Run(s4, [e, f]);
    TwoSteps(s4, e, f);
  }

  /** Two lookups of a token before either revokes it turn one session into two. */
  lemma OverlappingRefreshes(s: State, t: int, expiresAt: int)
    requires Inv(s) && Accepts(s, t)
    ensures exists steps :: RefreshesOnly(steps)
              && |Unrevoked(Run(s, steps), s.issued[t].user)| == |Unrevoked(s, s.issued[t].user)| + 1
  {
    var a, b := s.nextId, s.nextId + 1;
    OverlapCounts(s, t, expiresAt);
    SixSteps(s, Lookup(t), Lookup(t), RevokeOld(a), RevokeOld(b), Issue(a, expiresAt), Issue(b, expiresAt));
    var steps := [Lookup(t), Lookup(t), RevokeOld(a), RevokeOld(b), Issue(a, expiresAt), Issue(b, expiresAt)];
    assert RefreshesOnly(steps);
  }

  // ---------------------------------------------------------------------
  // From the empty tables
  // ---------------------------------------------------------------------

  /** A sign-in under way at the revoke-all still issues an accepted token, which no later sign-in begot. */
  lemma SignInAcross(expiresAt: int)
    requires expiresAt >= 0
    ensures var s := Run(EMPTY, [CreateUser, CheckCredentials(0)]);
            var s' := Later(s, 0, [Issue(1, expiresAt)]);
            && 0 in s.users && UnderWay(s, 0) == {1}
            && Accepts(s', 2) && OwnedBy(s'.issued, 2, 0) && !FreshRoot(s'.issued, 2, s.nextId)
  {
    TwoSteps(EMPTY, CreateUser, CheckCredentials(0));
    var s := Run(EMPTY, [CreateUser, CheckCredentials(0)]);
    assert s == EMPTY.(users := {0}, requests := map[1 := SigningIn(0)], nextId := 2);
    OneStep(AfterRevokeAll(s, 0), Issue(1, expiresAt));
    var s' := Later(s, 0, [Issue(1, expiresAt)]);
    assert s'.issued == map[2 := Issued(0, None, 1, expiresAt)];
    assert Root(s'.issued, 2) == 2;
  }

  /** A first session, refreshed twice at once: one unrevoked token becomes two. */
  lemma SessionDoubles(expiresAt: int)
    requires expiresAt >= 0
    ensures var s := Run(EMPTY, [CreateUser, CheckCredentials(0)] + [Issue(1, expiresAt)]);
            && Accepts(s, 2) && Unrevoked(s, 0) == {2}
            && exists steps :: RefreshesOnly(steps) && |Unrevoked(Run(s, steps), 0)| == 2
  {
    var begun := [CreateUser, CheckCredentials(0)];
    RunInParts(EMPTY, begun, [Issue(1, expiresAt)]);
    TwoSteps(EMPTY, CreateUser, CheckCredentials(0));
    OneStep(Run(EMPTY, begun), Issue(1, expiresAt));
    var s := Run(EMPTY, begun + [Issue(1, expiresAt)]);
    assert s.issued == map[2 := Issued(0, None, 1, expiresAt)] && s.rows == map[2 := false] && s.now == 0;
    EmptyInv();
    RunKeeps(EMPTY, begun + [Issue(1, expiresAt)]);
    OverlappingRefreshes(s, 2, expiresAt);
    assert Unrevoked(s, 0) == {2};
  }

  lemma {:induction false} RunInParts(s: State, a: seq<Step>, b: seq<Step>)
    ensures Run(s, a + b) == Run(Run(s, a), b)
    decreases a
  {
    if a == [] {
      assert a + b == b;
    } else {
      assert (a + b)[1..] == a[1..] + b;
      RunInParts(Next(s, a[0]), a[1..], b);
    }
  }
}
