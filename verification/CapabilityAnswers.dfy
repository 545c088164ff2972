/** What the operations of the capability store answer, and what they leave behind, on the fields of the tokens; and
    what every accepted use of a token was allowed to do, over whole runs. */
module CapabilityAnswers {
  import opened Wrappers
  import opened CapabilityModel
  import opened CapabilityRuns

  // ----- minting

  predicate MayGrant(p: Perm) { p & 8 == 8 }

  /** Every bit of p is one of q. */
  predicate Within(p: Perm, q: Perm) { p & q == p }

  lemma WithinIs(p: Perm, q: Perm)
    ensures IsSubsetOf(p, q) <==> Within(p, q)
  {
    if IsSubsetOf(p, q) {
      AllWithin(p, q);
    }
    if Within(p, q) {
      NoneOutside(p, q);
    }
  }

  lemma AllWithin(p: Perm, q: Perm)
    requires p & !q == 0
    ensures p & q == p
  {
  }

  lemma NoneOutside(p: Perm, q: Perm)
    requires p & q == p
    ensures p & !q == 0
  {
  }

  ghost predicate Fields(st: StoredToken, id: Id, resource: nat, permissions: Perm, owner: nat, from: Id, lifetime: nat)
  {
    && st.token.version == 1 && st.token.id == id && st.token.resource == resource
    && st.token.permissions == permissions && st.token.owner == owner && st.token.delegatedFrom == from
    && st.token.nonce == 0 && st.token.expires == lifetime
  }

  /** A new token carries exactly what was asked for, is signed, and is the only change; a full store is left alone. */
  lemma CreateMints(s: Store, sign: Token -> Mac, resource: nat, permissions: Perm, owner: nat, expires: Option<nat>,
                    budget: Option<Budget>)
    ensures var (r, answer) := Create(s, sign, resource, permissions, owner, expires, budget);
      if |s.tokens| >= 12288 then answer == Err(StoreFull) && r == s
      else
        && answer == Ok(s.nextId) && s.nextId in r.tokens
        && var st := r.tokens[s.nextId];
          && r == s.(tokens := s.tokens[s.nextId := st], nextId := s.nextId + 1)
          && Fields(st, s.nextId, resource, permissions, owner, 0, if expires == None then 0 else expires.value)
          && st.hmac == sign(st.token) && st.budget == budget && st.createdAt == s.tick
          && st.firstChild == 0 && st.nextSibling == 0
  {
  }

  /** The answer of a delegation, error by error, in the order of the checks. */
  lemma DelegateAnswer(s: Store, sign: Token -> Mac, parentId: Id, newOwner: nat, permissions: Perm,
                       expires: Option<nat>, budget: Option<Budget>)
    ensures var (r, answer) := Delegate(s, sign, parentId, newOwner, permissions, expires, budget);
      && (answer.Err? ==> r == s)
      && if |s.tokens| >= 12288 then answer == Err(StoreFull)
         else if parentId !in s.tokens then answer == Err(NotFound)
         else if !MayGrant(s.tokens[parentId].token.permissions) then answer == Err(DelegationDenied)
         else if !Within(permissions, s.tokens[parentId].token.permissions) then answer == Err(PermissionEscalation)
         else answer == Ok(s.nextId)
  {
    if parentId in s.tokens {
      WithinIs(permissions, s.tokens[parentId].token.permissions);
    }
  }

  /** The lifetime asked for, cut to the parent's if that is shorter; the parent's own if none was asked for. */
  ghost predicate Lifetime(expires: Option<nat>, parents: nat, lifetime: nat)
  {
    && (expires == None ==> lifetime == parents)
    && (expires.Some? && (parents == 0 || expires.value <= parents) ==> lifetime == expires.value)
    && (expires.Some? && 0 < parents < expires.value ==> lifetime == parents)
  }

  /** A delegated token carries what was asked for and its parent's resource; it becomes its parent's first child, and
      nothing else changes. */
  lemma DelegateMints(s: Store, sign: Token -> Mac, parentId: Id, newOwner: nat, permissions: Perm,
                      expires: Option<nat>, budget: Option<Budget>)
    requires s.nextId !in s.tokens && Delegate(s, sign, parentId, newOwner, permissions, expires, budget).1.Ok?
    ensures parentId in s.tokens
    ensures var r := Delegate(s, sign, parentId, newOwner, permissions, expires, budget).0;
      var parent := s.tokens[parentId];
      && s.nextId in r.tokens
      && var st := r.tokens[s.nextId];
        && r == s.(tokens := s.tokens[s.nextId := st][parentId := parent.(firstChild := s.nextId)],
                   nextId := s.nextId + 1)
        && Fields(st, s.nextId, parent.token.resource, permissions, newOwner, parentId, st.token.expires)
        && Lifetime(expires, parent.token.expires, st.token.expires)
        && st.hmac == sign(st.token) && st.budget == budget && st.createdAt == s.tick
        && st.firstChild == 0 && st.nextSibling == parent.firstChild
  {
  }

  // ----- validating

  predicate Intact(st: StoredToken, sign: Token -> Mac) { sign(st.token) == st.hmac }

  predicate InTime(st: StoredToken, tick: nat)
  {
    st.token.expires == 0 || tick < st.createdAt + st.token.expires
  }

  predicate Permits(st: StoredToken, required: Perm) { st.token.permissions & required == required }

  function LastNonce(s: Store, id: Id): nat { if id in s.lastSeen then s.lastSeen[id] else 0 }

  /** No use is counted in an interval that starts later than now. */
  predicate StartsInPast(s: Store, id: Id) { id in s.usage ==> s.usage[id].1 <= s.tick }

  /** The uses counted in the interval that holds the present. */
  function Uses(s: Store, id: Id, b: Budget): nat
  {
    if id in s.usage && s.tick - s.usage[id].1 < b.intervalTicks then s.usage[id].0 else 0
  }

  /** When the interval that holds the present began. */
  function Since(s: Store, id: Id, b: Budget): nat
  {
    if id in s.usage && s.tick - s.usage[id].1 < b.intervalTicks then s.usage[id].1 else s.tick
  }

  predicate UseLeft(s: Store, id: Id, budget: Option<Budget>)
  {
    budget == None || Uses(s, id, budget.value) < budget.value.maxUses
  }

  lemma BudgetAnswer(s: Store, id: Id, b: Budget)
    requires StartsInPast(s, id)
    ensures Consume(Lookup(s.usage, id, (0, s.tick)), b, s.tick).1 <==> Uses(s, id, b) < b.maxUses
  {
  }

  lemma ExpiredIs(st: StoredToken, tick: nat)
    ensures IsExpired(st, tick) <==> !InTime(st, tick)
  {
  }

  lemma ContainsIs(st: StoredToken, required: Perm)
    ensures Contains(st.token.permissions, required) <==> Permits(st, required)
  {
  }

  /** The error of a token that cannot be used now, whatever the nonce and the budget. */
  ghost function Unusable(st: StoredToken, sign: Token -> Mac, tick: nat, required: Perm): Option<CapabilityError>
  {
    if !Intact(st, sign) then Some(InvalidHmac)
    else if !InTime(st, tick) then Some(Expired)
    else if !Permits(st, required) then Some(InsufficientPermission)
    else None
  }

  /** A use is accepted exactly when the token is live, intact, in time, permits what is required, the nonce is above
      the last one and the budget has a use left; each error has its own condition, in the order of the checks. */
  lemma ValidateIff(s: Store, sign: Token -> Mac, id: Id, required: Perm, nonce: nat)
    requires StartsInPast(s, id)
    ensures var answer := Validate(s, sign, id, required, nonce).1;
      if id !in s.tokens then answer == Err(NotFound)
      else if Unusable(s.tokens[id], sign, s.tick, required).Some? then
        answer == Err(Unusable(s.tokens[id], sign, s.tick, required).value)
      else if nonce <= LastNonce(s, id) then answer == Err(NonceReplay)
      else if !UseLeft(s, id, s.tokens[id].budget) then answer == Err(BudgetExhausted)
      else answer == Ok(())
  {
    if id in s.tokens {
      var st := s.tokens[id];
      ExpiredIs(st, s.tick);
      ContainsIs(st, required);
      if sign(st.token) == st.hmac && st.budget.Some? {
        BudgetAnswer(s, id, st.budget.value);
      }
    }
  }

  /** What a validation leaves behind. No token changes. A nonce that passes the checks before it is remembered, even
      if the budget then refuses the use; an accepted use under a budget is counted. Other tokens' records do not
      change. */
  lemma ValidateLeaves(s: Store, sign: Token -> Mac, id: Id, required: Perm, nonce: nat)
    requires StartsInPast(s, id)
    ensures var (r, answer) := Validate(s, sign, id, required, nonce);
      && r == s.(usage := r.usage, lastSeen := r.lastSeen)
      && (answer.Ok? || answer.error == BudgetExhausted ==> r.lastSeen == s.lastSeen[id := nonce])
      && (answer == Err(NonceReplay) ==> r.lastSeen == s.lastSeen[id := LastNonce(s, id)] && r.usage == s.usage)
      && (answer.Err? && answer.error != BudgetExhausted && answer.error != NonceReplay ==> r == s)
      && (answer.Ok? && s.tokens[id].budget == None ==> r.usage == s.usage)
      && (answer.Ok? && s.tokens[id].budget.Some? ==>
            && id in r.usage && r.usage == s.usage[id := r.usage[id]]
            && r.usage[id] == (Uses(s, id, s.tokens[id].budget.value) + 1, Since(s, id, s.tokens[id].budget.value)))
      && (answer == Err(BudgetExhausted) ==>
            && id in r.usage && r.usage == s.usage[id := r.usage[id]]
            && r.usage[id] == (Uses(s, id, s.tokens[id].budget.value), Since(s, id, s.tokens[id].budget.value)))
  {
  }

  // ----- revoking

  lemma RevokeTokens(s: Store, t: Id)
    requires t in s.tokens && t > 0
    ensures var r := Revoke(s, t).0;
      && t !in r.tokens && r.tokens.Keys == s.tokens.Keys - Subtree(s.tokens, t)
      && forall u :: u in s.tokens ==> (u !in r.tokens <==> Descends(s.tokens, u, t))
  {
  }

  /** Revoking a live token removes exactly it and what was delegated from it, through any number of steps, and
      answers how many tokens went; an unknown one is an error and changes nothing. */
  lemma RevokeAnswer(s: Store, t: Id)
    requires t in s.tokens ==> t > 0
    ensures var (r, answer) := Revoke(s, t);
      if t !in s.tokens then answer == Err(NotFound) && r == s
      else
        && answer == Ok(|s.tokens| - |r.tokens|) && t !in r.tokens && r.tokens.Keys <= s.tokens.Keys
        && (forall u :: u in s.tokens ==> (u !in r.tokens <==> Descends(s.tokens, u, t)))
  {
    if t in s.tokens {
      var gone, r := Subtree(s.tokens, t), Revoke(s, t).0;
      RevokeTokens(s, t);
      CountGone(s.tokens.Keys, r.tokens.Keys, gone);
      assert |r.tokens| == |r.tokens.Keys| && |s.tokens| == |s.tokens.Keys|;
    }
  }

  lemma CountGone(all: set<Id>, left: set<Id>, gone: set<Id>)
    requires left == all - gone && gone <= all
    ensures |gone| == |all| - |left|
  {
    assert all == left + gone && left !! gone;
  }

  /** The survivors of a revocation keep their tracker records and their own fields, and nobody else has any. */
  lemma RevokeLeaves(s: Store, t: Id, u: Id)
    requires t in s.tokens && s.usage.Keys <= s.tokens.Keys && s.lastSeen.Keys <= s.tokens.Keys
    ensures var r := Revoke(s, t).0;
      && r == s.(tokens := r.tokens, usage := r.usage, lastSeen := r.lastSeen)
      && (u in r.usage <==> u in s.usage && u in r.tokens) && (u in r.usage ==> r.usage[u] == s.usage[u])
      && (u in r.lastSeen <==> u in s.lastSeen && u in r.tokens) && (u in r.lastSeen ==> r.lastSeen[u] == s.lastSeen[u])
      && (u in r.tokens ==>
            r.tokens[u] == s.tokens[u].(firstChild := r.tokens[u].firstChild, nextSibling := r.tokens[u].nextSibling))
  {
  }

  // ----- runs

  /** What a token was minted with: its permissions, its lifetime (0 for ever) and the tick from which that counts. */
  datatype Grant = Grant(permissions: Perm, lifetime: nat, since: nat)

  predicate Allows(g: Grant, u: Use)
  {
    g.permissions & u.required == u.required
  }

  predicate Before(g: Grant, u: Use) { g.lifetime == 0 || u.tick < g.since + g.lifetime }

  /** The lifetime of a delegated token: a shorter one than its parent's if it was asked for. */
  function Cut(expires: Option<nat>, parents: nat): nat
  {
    if expires == None then parents else if parents == 0 then expires.value else Least(expires.value, parents)
  }

  /** The grants after one more operation: what it asked for, if it minted a token. */
  ghost function Granted(h: History, sign: Token -> Mac, gs: map<Id, Grant>, op: Op): map<Id, Grant>
  {
    match op
    case DoCreate(resource, permissions, owner, expires, budget) =>
      var answer := Create(h.store, sign, resource, permissions, owner, expires, budget).1;
      if answer.Err? then gs
      else gs[answer.value := Grant(permissions, if expires == None then 0 else expires.value, h.store.tick)]
    case DoDelegate(parentId, newOwner, permissions, expires, budget) =>
      var answer := Delegate(h.store, sign, parentId, newOwner, permissions, expires, budget).1;
      if answer.Err? || parentId !in gs then gs
      else gs[answer.value := Grant(permissions, Cut(expires, gs[parentId].lifetime), h.store.tick)]
    case _ => gs
  }

  ghost function Grants(sign: Token -> Mac, ops: seq<Op>): map<Id, Grant>
  {
    if ops == [] then map[]
    else Granted(Run(sign, ops[..|ops| - 1]), sign, Grants(sign, ops[..|ops| - 1]), ops[|ops| - 1])
  }

  ghost predicate Records(st: StoredToken, g: Grant)
  {
    st.token.permissions == g.permissions && st.token.expires == g.lifetime && st.createdAt == g.since
  }

  /** Live tokens are as they were minted, and every accepted use was within what its token was minted with. */
  ghost predicate GrantsOk(h: History, gs: map<Id, Grant>)
  {
    && (forall id {:trigger gs[id]} :: id in gs ==> id < h.store.nextId)
    && (forall id {:trigger h.store.tokens[id]} :: id in h.store.tokens ==>
          id in gs && Records(h.store.tokens[id], gs[id]))
    && (forall i {:trigger h.uses[i]} :: 0 <= i < |h.uses| ==>
          h.uses[i].id in gs && Allows(gs[h.uses[i].id], h.uses[i]) && Before(gs[h.uses[i].id], h.uses[i]))
  }

  /** A step that adds one token. */
  lemma MintKeepsGrants(h: History, h': History, gs: map<Id, Grant>, id: Id, g: Grant)
    requires GrantsOk(h, gs) && id == h.store.nextId && h'.store.nextId == id + 1 && h'.uses == h.uses
    requires h'.store.tokens.Keys == h.store.tokens.Keys + {id} && Records(h'.store.tokens[id], g)
    requires forall u {:trigger h'.store.tokens[u]} :: u in h.store.tokens && u != id ==>
      h'.store.tokens[u].token == h.store.tokens[u].token && h'.store.tokens[u].createdAt == h.store.tokens[u].createdAt
    ensures GrantsOk(h', gs[id := g])
  {
    forall u | u in h'.store.tokens
      ensures u in gs[id := g] && Records(h'.store.tokens[u], gs[id := g][u])
    {
      if u != id {
        assert Records(h.store.tokens[u], gs[u]);
      }
    }
  }

  lemma CreateKeepsGrants(h: History, sign: Token -> Mac, gs: map<Id, Grant>, op: Op)
    requires GrantsOk(h, gs) && op.DoCreate?
    ensures GrantsOk(Step(h, sign, op), Granted(h, sign, gs, op))
  {
    CreateMints(h.store, sign, op.resource, op.permissions, op.owner, op.expires, op.budget);
    if |h.store.tokens| < 12288 {
      var lifetime := if op.expires == None then 0 else op.expires.value;
      MintKeepsGrants(h, Step(h, sign, op), gs, h.store.nextId, Grant(op.permissions, lifetime, h.store.tick));
    }
  }

  lemma DelegateKeepsGrants(h: History, sign: Token -> Mac, gs: map<Id, Grant>, op: Op)
    requires GrantsOk(h, gs) && op.DoDelegate? && h.store.nextId !in h.store.tokens
    ensures GrantsOk(Step(h, sign, op), Granted(h, sign, gs, op))
  {
    var s, p := h.store, op.parentId;
    DelegateAnswer(s, sign, p, op.newOwner, op.permissions, op.expires, op.budget);
    var (r, answer) := Delegate(s, sign, p, op.newOwner, op.permissions, op.expires, op.budget);
    if answer.Ok? {
      DelegateMints(s, sign, p, op.newOwner, op.permissions, op.expires, op.budget);
      assert Records(s.tokens[p], gs[p]);
      MintKeepsGrants(h, Step(h, sign, op), gs, s.nextId,
                      Grant(op.permissions, Cut(op.expires, gs[p].lifetime), s.tick));
    }
  }

  lemma UseIsAllowed(s: Store, sign: Token -> Mac, id: Id, required: Perm, nonce: nat, g: Grant)
    requires StartsInPast(s, id) && Validate(s, sign, id, required, nonce).1.Ok? && id in s.tokens
    requires Records(s.tokens[id], g)
    ensures var u := Use(id, s.tick, nonce, required); Allows(g, u) && Before(g, u)
  {
    ValidateIff(s, sign, id, required, nonce);
  }

  lemma ValidateKeepsGrants(h: History, sign: Token -> Mac, gs: map<Id, Grant>, id: Id, required: Perm, nonce: nat)
    requires GrantsOk(h, gs) && StartsInPast(h.store, id)
    ensures GrantsOk(Step(h, sign, DoValidate(id, required, nonce)), gs)
  {
    ValidateLeaves(h.store, sign, id, required, nonce);
    ValidateIff(h.store, sign, id, required, nonce);
    if Validate(h.store, sign, id, required, nonce).1.Ok? {
      UseIsAllowed(h.store, sign, id, required, nonce, gs[id]);
    }
  }

  lemma RevokeKeepsGrants(h: History, sign: Token -> Mac, gs: map<Id, Grant>, t: Id)
    requires GrantsOk(h, gs) && Inv(h.store, sign)
    ensures GrantsOk(Step(h, sign, DoRevoke(t)), gs)
  {
    var r := Revoke(h.store, t).0;
    LiveIsPositive(h.store, sign, t);
    RevokeAnswer(h.store, t);
    if t in h.store.tokens {
      forall u | u in r.tokens
        ensures u in gs && Records(r.tokens[u], gs[u])
      {
        RevokeLeaves(h.store, t, u);
        assert Records(h.store.tokens[u], gs[u]);
      }
      RevokeLeaves(h.store, t, t);
    }
  }

  lemma LiveIsPositive(s: Store, sign: Token -> Mac, t: Id)
    requires Inv(s, sign)
    ensures t in s.tokens ==> t > 0
    ensures s.nextId !in s.tokens && StartsInPast(s, t)
  {
    FreshIds(s.tokens, s.nextId, sign);
    if t in s.tokens {
      LiveId(s.tokens, s.nextId, sign, t);
    }
  }

  /** In every run: each accepted use was made before the deadline of its token, and required only permissions that the
      token was minted with. */
  lemma {:induction false} EveryUseAllowed(sign: Token -> Mac, ops: seq<Op>)
    ensures GrantsOk(Run(sign, ops), Grants(sign, ops))
    decreases |ops|
  {
    if ops != [] {
      var init, op := ops[..|ops| - 1], ops[|ops| - 1];
      var h, gs := Run(sign, init), Grants(sign, init);
      EveryUseAllowed(sign, init);
      ReachableStoreInv(sign, init);
      GrantsStep(h, sign, gs, op);
    }
  }

  lemma GrantsStep(h: History, sign: Token -> Mac, gs: map<Id, Grant>, op: Op)
    requires GrantsOk(h, gs) && Inv(h.store, sign)
    ensures GrantsOk(Step(h, sign, op), Granted(h, sign, gs, op))
  {
    match op
    case DoCreate(_, _, _, _, _) => CreateKeepsGrants(h, sign, gs, op);
    case DoDelegate(parentId, _, _, _, _) =>
      LiveIsPositive(h.store, sign, parentId);
      DelegateKeepsGrants(h, sign, gs, op);
    case DoValidate(id, required, nonce) =>
      LiveIsPositive(h.store, sign, id);
      ValidateKeepsGrants(h, sign, gs, id, required, nonce);
    case DoRevoke(id) => RevokeKeepsGrants(h, sign, gs, id);
    case DoTick(n) =>
  }
}
