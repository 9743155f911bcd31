/**
  What a key can do against what its owner and its parent key can do, in every
  reachable state.
 */
module ApiKeyTheorems {
  import opened Wrappers
  import opened ApiKeys

  // ---------------------------------------------------------------------
  // A key against its owner
  // ---------------------------------------------------------------------

  /**
    What the guard admits through a key, it admits through the owner's own
    session; and through the key it is that, cut down to the key's scopes.
   */
  lemma KeyAdmission(s: State, key: int, required: seq<string>)
    requires key in s.keys
    ensures var k := s.keys[key];
            Admits(KeyActor(s, key), required) <==>
            && (k.expiresAt.None? || s.now <= k.expiresAt.value) && Admits(SessionActor(s, k.user), required)
            && (required == [] || (forall p :: p in required ==> p in k.scopes)
                || (WILDCARD in k.scopes && WILDCARD in UserPermissions(s, k.user)))
  {
    var k := s.keys[key];
    var granted := Effective(k.scopes, UserPermissions(s, k.user));
    if WILDCARD !in UserPermissions(s, k.user) {
      assert forall p :: p in granted <==> p in k.scopes && p in UserPermissions(s, k.user);
    }
  }

  // ---------------------------------------------------------------------
  // A key against the keys it was minted through
  // ---------------------------------------------------------------------

  /** `k` was minted, through any number of keys, starting from `a`, none of which could do everything at the time. */
  predicate TameChain(issued: map<int, Key>, k: int, a: int)
    decreases k
  {
    || k == a
    || (k in issued && issued[k].parent.Some? && 0 <= issued[k].parent.value < k
        && WILDCARD !in issued[k].grantor && TameChain(issued, issued[k].parent.value, a))
  }

  lemma {:induction false} ChainNarrows(issued: map<int, Key>, k: int, a: int, nextId: int)
    requires KeysOk(issued, nextId) && k in issued && a in issued && TameChain(issued, k, a)
    ensures issued[k].scopes <= issued[a].scopes && issued[k].user == issued[a].user
    decreases k
  {
    if k != a {
      assert KeyOk(issued, k);
      ChainNarrows(issued, issued[k].parent.value, a, nextId);
    }
  }

  lemma {:induction false} ChainStays(issued: map<int, Key>, k: int, a: int, nextId: int, key: Key)
    requires KeysOk(issued, nextId) && k < nextId && TameChain(issued, k, a)
    ensures TameChain(issued[nextId := key], k, a)
    decreases k
  {
    if k != a {
      ChainStays(issued, issued[k].parent.value, a, nextId, key);
    }
  }

  /** Every key starts a chain, and a key minted through the last key of one, without the wildcard, is its next. */
  lemma MintingExtendsChain(s: State, request: int, scopes: set<string>, expiresAt: Option<int>, a: int)
    requires Inv(s) && request in s.requests && s.requests[request].via.Some?
    requires "*" !in s.requests[request].permissions && TameChain(s.issued, s.requests[request].via.value, a)
    requires s.requests[request].user in s.users && scopes != {} && scopes <= s.requests[request].permissions
    ensures var s' := Next(s, Mint(request, scopes, expiresAt));
            s.nextId in s'.keys && TameChain(s'.issued, s.nextId, a) && TameChain(s'.issued, s.nextId, s.nextId)
  {
    var actor := s.requests[request];
    assert RequestOk(s.issued, actor);
    ChainStays(s.issued, actor.via.value, a, s.nextId,
               Key(actor.user, scopes, expiresAt, actor.via, actor.permissions));
  }

  lemma NarrowerKey(s: State, k: int, a: int, required: seq<string>)
    requires k in s.keys && a in s.keys && s.keys[k].user == s.keys[a].user && s.keys[k].scopes <= s.keys[a].scopes
    requires !Expired(s, s.keys[a])
    ensures Admits(KeyActor(s, k), required) ==> Admits(KeyActor(s, a), required)
  {}

  /**
    In every reachable state: a key minted through a chain of keys without the
    wildcard is never admitted where the first of them, kept and unexpired, is not.
   */
  lemma ChainNeverExceeds(catalog: set<string>, steps: seq<Step>, k: int, a: int, required: seq<string>)
    ensures var s := Run(Empty(catalog), steps);
            k in s.keys && a in s.keys && !Expired(s, s.keys[a]) && TameChain(s.issued, k, a) ==>
              (Admits(KeyActor(s, k), required) ==> Admits(KeyActor(s, a), required))
  {
    var s := Run(Empty(catalog), steps);
    RunKeeps(Empty(catalog), steps);
    if k in s.keys && a in s.keys && !Expired(s, s.keys[a]) && TameChain(s.issued, k, a) {
      ChainNarrows(s.issued, k, a, s.nextId);
      NarrowerKey(s, k, a, required);
    }
  }

  // ---------------------------------------------------------------------
  // The exact condition for one minting
  // ---------------------------------------------------------------------

  /** The state after key `p` authenticated a request and minted a key with these scopes, and then `after`. */
  function Minted(s: State, p: int, scopes: set<string>, expiresAt: Option<int>, after: seq<Step>): State {
    Run(AfterMint(AfterRequest(s, KeyActor(s, p)), s.nextId, scopes, expiresAt), after)
  }

  /** No key that can be minted through `p` now ever does what `p`, kept and unexpired, does not. */
  ghost predicate MintingIsSafe(s: State, p: int)
    requires KeyActor(s, p).Ok?
  {
    forall scopes, expiresAt, after, required ::
      MintRefusal(KeyActor(s, p).value, scopes).None? ==> ChildStaysBelow(s, p, scopes, expiresAt, after, required)
  }

  predicate ChildStaysBelow(s: State, p: int, scopes: set<string>, expiresAt: Option<int>, after: seq<Step>,
                            required: seq<string>) {
    StaysBelow(Minted(s, p, scopes, expiresAt, after), s.nextId + 1, p, required)
  }

  predicate StaysBelow(s: State, child: int, p: int, required: seq<string>) {
    child in s.keys && p in s.keys && !Expired(s, s.keys[p]) ==>
      (Admits(KeyActor(s, child), required) ==> Admits(KeyActor(s, p), required))
  }

  /** The key can do everything now, though its own scopes lack some permission. */
  ghost predicate Risky(s: State, p: int)
    requires KeyActor(s, p).Ok?
  {
    WILDCARD in KeyActor(s, p).value.permissions && exists x :: x in s.catalog && x !in s.keys[p].scopes
  }

  ghost predicate KeyKept(s: State, k: int, key: Key, catalog: set<string>) {
    k in s.issued && s.issued[k] == key && s.catalog == catalog
  }

  lemma KeptInStep(s: State, step: Step, k: int)
    requires Inv(s) && k in s.issued
    ensures KeyKept(Next(s, step), k, s.issued[k], s.catalog)
  {}

  lemma {:induction false} KeptInRun(s: State, steps: seq<Step>, k: int)
    requires Inv(s) && k in s.issued
    ensures KeyKept(Run(s, steps), k, s.issued[k], s.catalog) && Inv(Run(s, steps))
    decreases steps
  {
    if steps != [] {
      StepKeeps(s, steps[0]);
      KeptInStep(s, steps[0], k);
      KeptInRun(Next(s, steps[0]), steps[1..], k);
    }
  }

  /** Users hold the wildcard or permissions of the catalogue. */
  lemma PermissionsInCatalog(s: State, user: int)
    requires Inv(s)
    ensures WILDCARD in UserPermissions(s, user) || UserPermissions(s, user) <= s.catalog
  {
    if user in s.users && s.users[user].role.Some? {
      var r: int := s.users[user].role.value;
      if r in s.roles { assert s.roles[r].permissions <= s.catalog; }
    }
  }

  lemma EitherStaysBelow(s: State, child: int, p: int, required: seq<string>)
    requires Inv(s) && child in s.keys && p in s.keys && s.keys[child].user == s.keys[p].user
    requires s.keys[child].scopes <= s.keys[p].scopes
             || (WILDCARD in s.keys[p].scopes && s.catalog <= s.keys[p].scopes)
    ensures StaysBelow(s, child, p, required)
  {
    PermissionsInCatalog(s, s.keys[p].user);
  }

  /** The key a request through `p` mints. */
  lemma MintedChild(s: State, p: int, scopes: set<string>, expiresAt: Option<int>)
    requires Inv(s) && KeyActor(s, p).Ok? && MintRefusal(KeyActor(s, p).value, scopes).None?
    ensures var s1, actor := Minted(s, p, scopes, expiresAt, []), KeyActor(s, p).value;
            && Inv(s1) && s1.roles == s.roles && s1.users == s.users && s1.now == s.now && s1.catalog == s.catalog
            && s1.issued == s.issued[s.nextId + 1 := Key(actor.user, scopes, expiresAt, Some(p), actor.permissions)]
            && s1.keys == s.keys[s.nextId + 1 := s1.issued[s.nextId + 1]]
  {
    StepKeeps(s, KeyRequest(p));
    StepKeeps(Next(s, KeyRequest(p)), Mint(s.nextId, scopes, expiresAt));
  }

  lemma SafeMinting(s: State, p: int, scopes: set<string>, expiresAt: Option<int>, after: seq<Step>,
                    required: seq<string>)
    requires Inv(s) && KeyActor(s, p).Ok? && !Risky(s, p)
    requires MintRefusal(KeyActor(s, p).value, scopes).None?
    ensures StaysBelow(Minted(s, p, scopes, expiresAt, after), s.nextId + 1, p, required)
  {
    var s1, s', child := Minted(s, p, scopes, expiresAt, []), Minted(s, p, scopes, expiresAt, after), s.nextId + 1;
    MintedChild(s, p, scopes, expiresAt);
    assert s' == Run(s1, after);
    assert p in s.issued && p < s.nextId;
    KeptInRun(s1, after, p);
    KeptInRun(s1, after, child);
    EffectiveWithin(s.keys[p].scopes, UserPermissions(s, s.keys[p].user));
    if child in s'.keys && p in s'.keys {
      EitherStaysBelow(s', child, p, required);
    }
  }

  // ---------------------------------------------------------------------
  // A risky key outdone by its child
  // ---------------------------------------------------------------------

  /** The owner is given a new role with one permission. */
  function Demotion(s: State, user: int, x: string): seq<Step> {
    [CreateRole("", false), SetPermissions(s.nextId, {x}), SetRole(user, s.nextId)]
  }

  lemma ThreeSteps(s: State, a: Step, b: Step, c: Step)
    ensures Run(s, [a, b, c]) == Next(Next(Next(s, a), b), c)
  {
    assert [a, b, c][1..] == [b, c] && [b, c][1..] == [c] && [c][1..] == [];
    assert Run(s, [a, b, c]) == Run(Next(Next(s, a), b), [c]);
    assert Run(Next(Next(s, a), b), [c]) == Run(Next(Next(Next(s, a), b), c), []);
  }

  lemma Demoted(s: State, user: int, x: string)
    requires user in s.users && x in s.catalog
    ensures var s' := Run(s, Demotion(s, user, x));
            && user in s'.users && s'.users[user].status == s.users[user].status && UserPermissions(s', user) == {x}
            && s'.keys == s.keys && s'.now == s.now
  {
    ThreeSteps(s, CreateRole("", false), SetPermissions(s.nextId, {x}), SetRole(user, s.nextId));
  }

  lemma RiskyMinting(s: State, p: int, x: string)
    requires Inv(s) && KeyActor(s, p).Ok? && WILDCARD in KeyActor(s, p).value.permissions
    requires x in s.catalog && x !in s.keys[p].scopes
    ensures exists after :: !ChildStaysBelow(s, p, {x}, None, after, [x])
  {
    var s1 := Minted(s, p, {x}, None, []);
    var user := s.keys[p].user;
    MintedChild(s, p, {x}, None);
    var after := Demotion(s1, user, x);
    Demoted(s1, user, x);
    var s' := Run(s1, after);
    assert s' == Minted(s, p, {x}, None, after);
    assert s'.keys[s.nextId + 1].scopes == {x};
    assert x in KeyActor(s', s.nextId + 1).value.permissions;
    assert WILDCARD in s.keys[p].scopes by { EffectiveWithin(s.keys[p].scopes, UserPermissions(s, user)); }
    assert KeyActor(s', p).Ok? ==> KeyActor(s', p).value.permissions == {};
    assert !ChildStaysBelow(s, p, {x}, None, after, [x]);
  }

  /**
    The exact condition: minting through a key never yields more than the key,
    then or later, iff the key cannot do everything at that time, or its scopes
    name the whole catalogue.
   */
  lemma MintingSafety(catalog: set<string>, steps: seq<Step>, p: int)
    requires KeyActor(Run(Empty(catalog), steps), p).Ok?
    ensures MintingIsSafe(Run(Empty(catalog), steps), p) <==> !Risky(Run(Empty(catalog), steps), p)
  {
    var s := Run(Empty(catalog), steps);
    RunKeeps(Empty(catalog), steps);
    if Risky(s, p) {
      var x :| x in s.catalog && x !in s.keys[p].scopes;
      RiskyMinting(s, p, x);
      var after :| !ChildStaysBelow(s, p, {x}, None, after, [x]);
      assert MintRefusal(KeyActor(s, p).value, {x}).None?;
    } else {
      forall scopes, expiresAt, after, required | MintRefusal(KeyActor(s, p).value, scopes).None?
        ensures ChildStaysBelow(s, p, scopes, expiresAt, after, required)
      {
        SafeMinting(s, p, scopes, expiresAt, after, required);
      }
    }
  }

  /** An administrator who mints a key with the wildcard scope. */
  const ADMIN_KEY := [CreateRole("admin", true), CreateUser(Some(0)), SessionRequest(1), Mint(2, {WILDCARD}, None)]

  /** In any catalogue with another permission, that key is risky, and so not safe to mint through. */
  lemma AdminKeyIsRisky(catalog: set<string>, x: string)
    requires x in catalog && x != WILDCARD
    ensures var s := Run(Empty(catalog), ADMIN_KEY);
            KeyActor(s, 3).Ok? && Risky(s, 3) && !MintingIsSafe(s, 3)
  {
    var s1 := Next(Empty(catalog), ADMIN_KEY[0]);
    var s2 := Next(s1, ADMIN_KEY[1]);
    assert UserPermissions(s2, 1) == {WILDCARD};
    var s3 := Next(s2, ADMIN_KEY[2]);
    assert s3.requests == map[2 := Actor(1, {WILDCARD}, None)];
    var s4 := Next(s3, ADMIN_KEY[3]);
    assert s4.keys == map[3 := Key(1, {WILDCARD}, None, None, {WILDCARD})];
    FourSteps(Empty(catalog), ADMIN_KEY[0], ADMIN_KEY[1], ADMIN_KEY[2], ADMIN_KEY[3]);
    assert ADMIN_KEY == [ADMIN_KEY[0], ADMIN_KEY[1], ADMIN_KEY[2], ADMIN_KEY[3]];
    MintingSafety(catalog, ADMIN_KEY, 3);
  }

  lemma FourSteps(s: State, a: Step, b: Step, c: Step, d: Step)
    ensures Run(s, [a, b, c, d]) == Next(Next(Next(Next(s, a), b), c), d)
  {
    assert [a, b, c, d][1..] == [b, c, d];
    ThreeSteps(Next(s, a), b, c, d);
  }

  // ---------------------------------------------------------------------
  // Past its date
  // ---------------------------------------------------------------------

  /** A key that was issued with a date, which is past. */
  ghost predicate PastDate(s: State, key: int) {
    key in s.issued && s.issued[key].expiresAt.Some? && s.issued[key].expiresAt.value < s.now
  }

  lemma PastStays(s: State, step: Step, key: int)
    requires Inv(s) && PastDate(s, key)
    ensures PastDate(Next(s, step), key)
  {
    KeptInStep(s, step, key);
  }

  /** Once a key is past its date, nothing that follows ever admits through it again, not even what requires nothing. */
  lemma {:induction false} ExpiredForGood(s: State, steps: seq<Step>, key: int, required: seq<string>)
    requires Inv(s) && PastDate(s, key)
    ensures !Admits(KeyActor(Run(s, steps), key), required)
    decreases steps
  {
    if steps == [] {
      KeySpelled(s, key);
    } else {
      StepKeeps(s, steps[0]);
      PastStays(s, steps[0], key);
      ExpiredForGood(Next(s, steps[0]), steps[1..], key, required);
    }
  }

  /** A key stops at its date, when time has passed it. */
  lemma KeyRunsOut(s: State, key: int, elapsed: nat, required: seq<string>)
    requires key in s.keys && s.keys[key].expiresAt.Some? && s.keys[key].expiresAt.value < s.now + elapsed
    ensures !Admits(KeyActor(Next(s, Wait(elapsed)), key), required)
  {
    KeySpelled(Next(s, Wait(elapsed)), key);
  }

  // ---------------------------------------------------------------------
  // Users who are shut out
  // ---------------------------------------------------------------------

  /** The user is gone, or is there but not active; or has not been created. */
  ghost predicate ShutOut(s: State, user: int) {
    user < s.nextId && (user in s.users ==> s.users[user].status != Active)
  }

  lemma ShutOutStep(s: State, step: Step, user: int)
    requires ShutOut(s, user) && step != SetStatus(user, Active)
    ensures ShutOut(Next(s, step), user)
  {}

  /** Until reactivated, the user gets nothing done, by session or by any key that is or will be the user's. */
  lemma {:induction false} ShutOutStays(s: State, steps: seq<Step>, user: int, key: int, required: seq<string>)
    requires ShutOut(s, user) && forall k :: 0 <= k < |steps| ==> steps[k] != SetStatus(user, Active)
    ensures var s' := Run(s, steps);
            && !Admits(SessionActor(s', user), required)
            && (key in s'.keys && s'.keys[key].user == user ==> !Admits(KeyActor(s', key), required))
    decreases steps
  {
    if steps == [] {
      SessionSpelled(s, user);
      KeySpelled(s, key);
    } else {
      assert steps[0] != SetStatus(user, Active);
      ShutOutStep(s, steps[0], user);
      ShutOutStays(Next(s, steps[0]), steps[1..], user, key, required);
    }
  }

  /** Suspending, banning or deleting a user shuts every session and key of the user out, whatever follows. */
  lemma SuspendedIsShutOut(s: State, user: int, step: Step, after: seq<Step>, key: int, required: seq<string>)
    requires Inv(s) && user in s.users
    requires step == SetStatus(user, Suspended) || step == SetStatus(user, Banned) || step == DeleteUser(user)
    requires forall k :: 0 <= k < |after| ==> after[k] != SetStatus(user, Active)
    ensures var s' := Run(Next(s, step), after);
            && !Admits(SessionActor(s', user), required)
            && (key in s'.keys && s'.keys[key].user == user ==> !Admits(KeyActor(s', key), required))
  {
    assert ShutOut(Next(s, step), user);
    ShutOutStays(Next(s, step), after, user, key, required);
  }

  /** Reactivating lets the user's session do again what the role allows. */
  lemma ReactivatedIsBack(s: State, user: int, required: seq<string>)
    requires user in s.users
    ensures var s' := Next(s, SetStatus(user, Active));
            && UserPermissions(s', user) == UserPermissions(s, user)
            && SessionActor(s', user) == Ok(Actor(user, UserPermissions(s, user), None))
  {
    SessionSpelled(Next(s, SetStatus(user, Active)), user);
  }
}
