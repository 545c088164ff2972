/** The capability store as a value: what every operation computes, and the forest of
    delegated tokens that every operation keeps. */
module CapabilityModel {
  import opened Wrappers
  import FixedMap

  type Perm = bv16
  const GRANT: Perm := 8
  const MAX_TOKENS: nat := 12288
  const TOKEN_VERSION: nat := 1

  type Id = int
  type Mac = seq<bv8>

  datatype Budget = Budget(maxUses: nat, intervalTicks: nat)

  datatype Token = Token(version: nat, permissions: Perm, owner: nat, id: Id, resource: nat,
                         delegatedFrom: Id, nonce: nat, expires: nat)

  datatype StoredToken = StoredToken(token: Token, hmac: Mac, budget: Option<Budget>, createdAt: nat,
                                     firstChild: Id, nextSibling: Id)

  datatype CapabilityError = NotFound | InvalidHmac | Expired | InsufficientPermission | BudgetExhausted
                           | NonceReplay | DelegationDenied | PermissionEscalation | StoreFull

  /** `usage` is the budget tracker (uses, interval start); `lastSeen` the nonce tracker. */
  datatype Store = Store(tokens: map<Id, StoredToken>, nextId: Id, usage: map<Id, (nat, nat)>,
                         lastSeen: map<Id, nat>, tick: nat)

  const EmptyStore: Store := Store(map[], 1, map[], map[], 0)

  predicate Contains(p: Perm, q: Perm) { p & q == q }

  predicate IsSubsetOf(p: Perm, q: Perm) { p & !q == 0 }

  function Max(a: nat, b: nat): nat { if a >= b then a else b }

  // ----- the operations; `sign` stands for the keyed hash over the token's active bytes

  function Create(s: Store, sign: Token -> Mac, resource: nat, permissions: Perm, owner: nat,
                  expires: Option<nat>, budget: Option<Budget>): (Store, Result<Id, CapabilityError>)
  {
    if |s.tokens| >= MAX_TOKENS then (s, Err(StoreFull)) else
    var token := Token(TOKEN_VERSION, permissions, owner, s.nextId, resource, 0, 0,
                       if expires.Some? then expires.value else 0);
    var stored := StoredToken(token, sign(token), budget, s.tick, 0, 0);
    (s.(tokens := s.tokens[s.nextId := stored], nextId := s.nextId + 1), Ok(s.nextId))
  }

  function ChildExpires(expires: Option<nat>, parentExpires: nat): nat
  {
    match expires
    case Some(e) => if parentExpires > 0 && e > parentExpires then parentExpires else e
    case None => parentExpires
  }

  function Delegate(s: Store, sign: Token -> Mac, parentId: Id, newOwner: nat, permissions: Perm,
                    expires: Option<nat>, budget: Option<Budget>): (Store, Result<Id, CapabilityError>)
  {
    if |s.tokens| >= MAX_TOKENS then (s, Err(StoreFull))
    else if parentId !in s.tokens then (s, Err(NotFound)) else
    var parent := s.tokens[parentId];
    if !Contains(parent.token.permissions, GRANT) then (s, Err(DelegationDenied))
    else if !IsSubsetOf(permissions, parent.token.permissions) then (s, Err(PermissionEscalation)) else
    var token := Token(TOKEN_VERSION, permissions, newOwner, s.nextId, parent.token.resource, parentId, 0,
                       ChildExpires(expires, parent.token.expires));
    var stored := StoredToken(token, sign(token), budget, s.tick, 0, parent.firstChild);
    (s.(tokens := s.tokens[s.nextId := stored][parentId := parent.(firstChild := s.nextId)],
        nextId := s.nextId + 1),
     Ok(s.nextId))
  }

  /** One use against a budget: the tracker's entry afterwards, and whether the use was allowed. */
  function Consume(entry: (nat, nat), b: Budget, tick: nat): ((nat, nat), bool)
  {
    var (uses, start) := if SatSub(tick, entry.1) >= b.intervalTicks then (0, tick) else entry;
    if uses < b.maxUses then ((uses + 1, start), true) else ((uses, start), false)
  }

  function Lookup<V>(m: map<Id, V>, id: Id, default: V): V
  {
    if id in m then m[id] else default
  }

  predicate IsExpired(st: StoredToken, tick: nat)
  {
    st.token.expires > 0 && tick >= st.createdAt + st.token.expires
  }

  function Validate(s: Store, sign: Token -> Mac, id: Id, required: Perm,
                    nonce: nat): (Store, Result<(), CapabilityError>)
  {
    if id !in s.tokens then (s, Err(NotFound)) else
    var st := s.tokens[id];
    if sign(st.token) != st.hmac then (s, Err(InvalidHmac))
    else if IsExpired(st, s.tick) then (s, Err(Expired))
    else if !Contains(st.token.permissions, required) then (s, Err(InsufficientPermission)) else
    var last := Lookup(s.lastSeen, id, 0);
    if nonce <= last then (s.(lastSeen := s.lastSeen[id := last]), Err(NonceReplay)) else
    var s' := s.(lastSeen := s.lastSeen[id := nonce]);
    if st.budget.None? then (s', Ok(())) else
    var (entry, allowed) := Consume(Lookup(s.usage, id, (0, s.tick)), st.budget.value, s.tick);
    (s'.(usage := s.usage[id := entry]), if allowed then Ok(()) else Err(BudgetExhausted))
  }

  // ----- delegation as a relation

  /** u is t, or was delegated from t through any number of steps. */
  ghost predicate Descends(tokens: map<Id, StoredToken>, u: Id, t: Id)
    decreases u
  {
    && u in tokens && u > 0
    && (u == t || (tokens[u].token.delegatedFrom < u && Descends(tokens, tokens[u].token.delegatedFrom, t)))
  }

  ghost function Subtree(tokens: map<Id, StoredToken>, t: Id): set<Id>
  {
    set u | u in tokens && Descends(tokens, u, t)
  }

  /** A token record in which every pointer to t skips to t's next sibling. */
  function SkipOver(st: StoredToken, t: Id, next: Id): StoredToken
  {
    st.(firstChild := if st.firstChild == t then next else st.firstChild,
        nextSibling := if st.nextSibling == t then next else st.nextSibling)
  }

  function Relink(tokens: map<Id, StoredToken>, t: Id): map<Id, StoredToken>
    requires t in tokens
  {
    map u | u in tokens :: SkipOver(tokens[u], t, tokens[t].nextSibling)
  }

  ghost function Revoke(s: Store, t: Id): (Store, Result<nat, CapabilityError>)
  {
    if t !in s.tokens then (s, Err(NotFound)) else
    var gone := Subtree(s.tokens, t);
    (s.(tokens := Relink(s.tokens, t) - gone, usage := s.usage - gone, lastSeen := s.lastSeen - gone), Ok(|gone|))
  }

  // ----- the invariant

  ghost predicate IsChild(tokens: map<Id, StoredToken>, c: Id, p: Id)
  {
    c in tokens && tokens[c].token.delegatedFrom == p
  }

  /** x is the youngest child of p older than `bound`; 0 if there is none. */
  ghost predicate Youngest(tokens: map<Id, StoredToken>, p: Id, bound: Id, x: Id)
  {
    && (x == 0 ==> forall c :: IsChild(tokens, c, p) ==> c >= bound)
    && (x != 0 ==> IsChild(tokens, x, p) && x < bound && forall c :: IsChild(tokens, c, p) && c < bound ==> c <= x)
  }

  /** The intrusive pointers are a function of the delegation relation: a token's first child is
      its youngest child, and a child's next sibling is the next older one. */
  ghost predicate Linked(tokens: map<Id, StoredToken>, nextId: Id)
  {
    && (forall p {:trigger tokens[p].firstChild} :: p in tokens ==> Youngest(tokens, p, nextId, tokens[p].firstChild))
    && (forall c {:trigger tokens[c].nextSibling} :: c in tokens ==>
          if tokens[c].token.delegatedFrom == 0 then tokens[c].nextSibling == 0
          else Youngest(tokens, tokens[c].token.delegatedFrom, c, tokens[c].nextSibling))
  }

  /** What delegation hands on: never more permissions, and the same resource. */
  predicate Attenuates(parent: Token, child: Token)
  {
    && Contains(parent.permissions, GRANT)
    && IsSubsetOf(child.permissions, parent.permissions)
    && child.resource == parent.resource
  }

  ghost predicate TokenOk(tokens: map<Id, StoredToken>, nextId: Id, sign: Token -> Mac, id: Id)
  {
    id in tokens &&
    var st := tokens[id];
    var from := st.token.delegatedFrom;
    && 0 < id < nextId && st.token.id == id
    && st.hmac == sign(st.token)
    && (from != 0 ==> from in tokens && from < id && Attenuates(tokens[from].token, st.token))
  }

  ghost predicate Forest(tokens: map<Id, StoredToken>, nextId: Id, sign: Token -> Mac)
  {
    && nextId > 0
    && (forall id {:trigger TokenOk(tokens, nextId, sign, id)} :: id in tokens ==> TokenOk(tokens, nextId, sign, id))
    && Linked(tokens, nextId)
  }

  ghost predicate TrackersOk(s: Store)
  {
    && s.lastSeen.Keys <= s.tokens.Keys
    && s.usage.Keys <= s.tokens.Keys
    && (forall id :: id in s.usage ==>
          && s.tokens[id].budget.Some?
          && s.usage[id].0 <= s.tokens[id].budget.value.maxUses && s.usage[id].1 <= s.tick)
  }

  ghost predicate Inv(s: Store, sign: Token -> Mac)
  {
    && |s.tokens| <= MAX_TOKENS
    && Forest(s.tokens, s.nextId, sign)
    && TrackersOk(s)
  }

  lemma EmptyStoreInv(sign: Token -> Mac)
    ensures Inv(EmptyStore, sign)
  {
  }

  /** `Youngest` looks only at which children lie below the bound. */
  lemma SameChildrenSameYoungest(a: map<Id, StoredToken>, b: map<Id, StoredToken>, p: Id, bound: Id, bound': Id, x: Id)
    requires Youngest(a, p, bound, x)
    requires forall c :: IsChild(b, c, p) && c < bound' ==> IsChild(a, c, p) && c < bound
    requires forall c :: IsChild(a, c, p) && c < bound ==> IsChild(b, c, p) && c < bound'
    ensures Youngest(b, p, bound', x)
  {
  }

  lemma ChildrenAreYounger(t: map<Id, StoredToken>, n: Id, sign: Token -> Mac, c: Id, p: Id)
    requires Forest(t, n, sign) && IsChild(t, c, p)
    ensures c < n && (p != 0 ==> p in t && 0 < p < c)
  {
    assert TokenOk(t, n, sign, c);
    assert p != 0 ==> TokenOk(t, n, sign, p);
  }

  lemma LiveId(t: map<Id, StoredToken>, n: Id, sign: Token -> Mac, id: Id)
    requires Forest(t, n, sign) && id in t
    ensures 0 < id < n
  {
    assert TokenOk(t, n, sign, id);
  }

  lemma FreshIds(t: map<Id, StoredToken>, n: Id, sign: Token -> Mac)
    requires Forest(t, n, sign)
    ensures n !in t && 0 !in t
  {
    if n in t {
      LiveId(t, n, sign, n);
    }
    if 0 in t {
      LiveId(t, n, sign, 0);
    }
  }

  lemma NewRootKeepsForest(t: map<Id, StoredToken>, n: Id, sign: Token -> Mac, st: StoredToken)
    requires Forest(t, n, sign)
    requires st.token.delegatedFrom == 0 && st.firstChild == 0 && st.nextSibling == 0
    requires st.token.id == n && st.hmac == sign(st.token)
    ensures Forest(t[n := st], n + 1, sign)
  {
    var t' := t[n := st];
    FreshIds(t, n, sign);
    forall c, q {:trigger IsChild(t', c, q)} ensures IsChild(t', c, q) <==> IsChild(t, c, q) || (c == n && q == 0) {
    }
    forall c, p | IsChild(t, c, p) ensures c < n && (p != 0 ==> p in t && 0 < p < n) {
      ChildrenAreYounger(t, n, sign, c, p);
    }
    forall p | p in t' ensures Youngest(t', p, n + 1, t'[p].firstChild) {
      if p != n {
        assert TokenOk(t, n, sign, p);
        SameChildrenSameYoungest(t, t', p, n, n + 1, t'[p].firstChild);
      }
    }
    forall c | c in t' && t'[c].token.delegatedFrom != 0
      ensures Youngest(t', t'[c].token.delegatedFrom, c, t'[c].nextSibling)
    {
      if c != n {
        LiveId(t, n, sign, c);
        assert t[c].nextSibling == t'[c].nextSibling;
      }
      SameChildrenSameYoungest(t, t', t'[c].token.delegatedFrom, c, c, t'[c].nextSibling);
    }
    forall id | id in t' ensures TokenOk(t', n + 1, sign, id) {
      assert id != n ==> TokenOk(t, n, sign, id);
    }
  }

  lemma CreateKeepsInv(s: Store, sign: Token -> Mac, resource: nat, permissions: Perm, owner: nat,
                       expires: Option<nat>, budget: Option<Budget>)
    requires Inv(s, sign)
    ensures Inv(Create(s, sign, resource, permissions, owner, expires, budget).0, sign)
  {
    if |s.tokens| < MAX_TOKENS {
      var s' := Create(s, sign, resource, permissions, owner, expires, budget).0;
      NewRootKeepsForest(s.tokens, s.nextId, sign, s'.tokens[s.nextId]);
      FreshIds(s.tokens, s.nextId, sign);
    }
  }

  lemma NewChildKeepsLinks(t: map<Id, StoredToken>, n: Id, sign: Token -> Mac, p: Id, st: StoredToken)
    requires Forest(t, n, sign) && p in t
    requires st.token.delegatedFrom == p && st.firstChild == 0 && st.nextSibling == t[p].firstChild
    ensures Linked(t[n := st][p := t[p].(firstChild := n)], n + 1)
  {
    assert TokenOk(t, n, sign, p);
    var t' := t[n := st][p := t[p].(firstChild := n)];
    FreshIds(t, n, sign);
    forall c, q {:trigger IsChild(t', c, q)}
      ensures IsChild(t', c, q) <==> IsChild(t, c, q) || (c == n && q == p)
    {
    }
    forall c, q | IsChild(t, c, q) ensures c < n && (q != 0 ==> 0 < q < n) {
      ChildrenAreYounger(t, n, sign, c, q);
    }
    forall q | q in t' ensures Youngest(t', q, n + 1, t'[q].firstChild) {
      if q != n && q != p {
        assert TokenOk(t, n, sign, q);
        assert Youngest(t, q, n, t[q].firstChild);
        SameChildrenSameYoungest(t, t', q, n, n + 1, t'[q].firstChild);
      }
    }
    forall c | c in t' && t'[c].token.delegatedFrom != 0
      ensures Youngest(t', t'[c].token.delegatedFrom, c, t'[c].nextSibling)
    {
      if c != n {
        LiveId(t, n, sign, c);
        assert t[c].nextSibling == t'[c].nextSibling;
      }
      SameChildrenSameYoungest(t, t', t'[c].token.delegatedFrom, c, c, t'[c].nextSibling);
    }
  }

  lemma NewChildKeepsForest(t: map<Id, StoredToken>, n: Id, sign: Token -> Mac, p: Id, st: StoredToken)
    requires Forest(t, n, sign) && p in t
    requires st.token.delegatedFrom == p && st.firstChild == 0 && st.nextSibling == t[p].firstChild
    requires st.token.id == n && st.hmac == sign(st.token) && Attenuates(t[p].token, st.token)
    ensures Forest(t[n := st][p := t[p].(firstChild := n)], n + 1, sign)
  {
    NewChildKeepsLinks(t, n, sign, p, st);
    assert TokenOk(t, n, sign, p);
    var t' := t[n := st][p := t[p].(firstChild := n)];
    forall id | id in t' ensures TokenOk(t', n + 1, sign, id) {
      assert id != n ==> TokenOk(t, n, sign, id);
    }
  }

  lemma DelegateKeepsInv(s: Store, sign: Token -> Mac, parentId: Id, newOwner: nat, permissions: Perm,
                         expires: Option<nat>, budget: Option<Budget>)
    requires Inv(s, sign)
    ensures Inv(Delegate(s, sign, parentId, newOwner, permissions, expires, budget).0, sign)
  {
    var (s', r) := Delegate(s, sign, parentId, newOwner, permissions, expires, budget);
    if r.Ok? {
      assert TokenOk(s.tokens, s.nextId, sign, parentId);
      FreshIds(s.tokens, s.nextId, sign);
      NewChildKeepsForest(s.tokens, s.nextId, sign, parentId, s'.tokens[s.nextId]);
      assert s'.tokens.Keys == s.tokens.Keys + {s.nextId};
    }
  }

  /** The uses so far in the interval that holds the tick. */
  function UsesNow(entry: (nat, nat), b: Budget, tick: nat): nat
  {
    if SatSub(tick, entry.1) >= b.intervalTicks then 0 else entry.0
  }

  /** A use is allowed exactly when fewer uses than the budget have been made in this interval, and it is counted; the
      count never passes the budget. */
  lemma ConsumeStaysInBudget(entry: (nat, nat), b: Budget, tick: nat)
    requires entry.0 <= b.maxUses && entry.1 <= tick
    ensures var (after, allowed) := Consume(entry, b, tick);
      && (allowed <==> UsesNow(entry, b, tick) < b.maxUses)
      && after.0 == UsesNow(entry, b, tick) + (if allowed then 1 else 0)
      && after.0 <= b.maxUses && after.1 <= tick
  {
  }

  lemma ValidateKeepsInv(s: Store, sign: Token -> Mac, id: Id, required: Perm, nonce: nat)
    requires Inv(s, sign)
    ensures Inv(Validate(s, sign, id, required, nonce).0, sign)
  {
    if id in s.tokens && s.tokens[id].budget.Some? {
      ConsumeStaysInBudget(Lookup(s.usage, id, (0, s.tick)), s.tokens[id].budget.value, s.tick);
    }
    ValidateTouchesTrackersOnly(s, sign, id, required, nonce);
  }

  lemma ValidateTouchesTrackersOnly(s: Store, sign: Token -> Mac, id: Id, required: Perm, nonce: nat)
    ensures var s' := Validate(s, sign, id, required, nonce).0;
      && s'.tokens == s.tokens && s'.nextId == s.nextId && s'.tick == s.tick
      && (s'.lastSeen == s.lastSeen
          || (id in s.tokens && s'.lastSeen == s.lastSeen[id := Max(nonce, Lookup(s.lastSeen, id, 0))]))
      && (s'.usage == s.usage
          || (id in s.tokens && s.tokens[id].budget.Some?
              && s'.usage == s.usage[id := Consume(Lookup(s.usage, id, (0, s.tick)), s.tokens[id].budget.value,
                                                   s.tick).0]))
  {
  }

  lemma TickKeepsInv(s: Store, sign: Token -> Mac, n: nat)
    requires Inv(s, sign)
    ensures Inv(s.(tick := s.tick + n), sign)
  {
  }

  // ----- what the pointers mean

  /** The ids met by following next-sibling pointers from x. */
  ghost function Chain(tokens: map<Id, StoredToken>, x: Id): seq<Id>
    decreases x
  {
    if x <= 0 || x !in tokens then []
    else if tokens[x].nextSibling < x then [x] + Chain(tokens, tokens[x].nextSibling)
    else [x]
  }

  ghost predicate Descending(ids: seq<Id>)
  {
    forall i, j :: 0 <= i < j < |ids| ==> ids[i] > ids[j]
  }

  lemma {:induction false} ChainBelow(tokens: map<Id, StoredToken>, n: Id, sign: Token -> Mac, p: Id, bound: Id, x: Id)
    requires Forest(tokens, n, sign) && p != 0
    requires Youngest(tokens, p, bound, x)
    ensures forall c :: c in Chain(tokens, x) <==> IsChild(tokens, c, p) && c < bound
    ensures Descending(Chain(tokens, x))
    decreases x
  {
    if x == 0 {
      assert Chain(tokens, x) == [];
    } else {
      assert TokenOk(tokens, n, sign, x);
      var next := tokens[x].nextSibling;
      NextIsOlder(tokens, n, sign, p, x);
      ChainBelow(tokens, n, sign, p, x, next);
      PrependKeeps(tokens, p, bound, x, Chain(tokens, next));
    }
  }

  lemma NextIsOlder(tokens: map<Id, StoredToken>, n: Id, sign: Token -> Mac, p: Id, x: Id)
    requires Forest(tokens, n, sign) && p != 0 && IsChild(tokens, x, p)
    ensures Youngest(tokens, p, x, tokens[x].nextSibling)
    ensures 0 <= tokens[x].nextSibling < x
  {
    assert TokenOk(tokens, n, sign, x);
    var next := tokens[x].nextSibling;
    if next != 0 {
      assert TokenOk(tokens, n, sign, next);
    }
  }

  lemma PrependKeeps(tokens: map<Id, StoredToken>, p: Id, bound: Id, x: Id, rest: seq<Id>)
    requires x != 0 && Youngest(tokens, p, bound, x)
    requires forall c :: c in rest <==> IsChild(tokens, c, p) && c < x
    requires Descending(rest)
    ensures forall c :: c in [x] + rest <==> IsChild(tokens, c, p) && c < bound
    ensures Descending([x] + rest)
  {
    var all := [x] + rest;
    forall i, j | 0 <= i < j < |all| ensures all[i] > all[j] {
      assert all[j] in rest;
    }
  }

  /** A token's first-child/next-sibling chain lists exactly its live children, each once, youngest first. */
  lemma ChainListsChildren(s: Store, sign: Token -> Mac, p: Id)
    requires Inv(s, sign) && p in s.tokens
    ensures forall c :: c in Chain(s.tokens, s.tokens[p].firstChild) <==> IsChild(s.tokens, c, p)
    ensures Descending(Chain(s.tokens, s.tokens[p].firstChild))
  {
    assert TokenOk(s.tokens, s.nextId, sign, p);
    ChainBelow(s.tokens, s.nextId, sign, p, s.nextId, s.tokens[p].firstChild);
    forall c | IsChild(s.tokens, c, p) ensures c < s.nextId {
      ChildrenAreYounger(s.tokens, s.nextId, sign, c, p);
    }
  }

  lemma SubsetTransitive(a: Perm, b: Perm, c: Perm)
    requires IsSubsetOf(a, b) && IsSubsetOf(b, c)
    ensures IsSubsetOf(a, c)
  {
  }

  lemma SubsetReflexive(a: Perm)
    ensures IsSubsetOf(a, a)
  {
  }

  /** Along every delegation chain permissions only shrink, the resource is constant, and whoever
      delegated held GRANT. */
  lemma {:induction false} DelegationAttenuates(s: Store, sign: Token -> Mac, u: Id, t: Id)
    requires Inv(s, sign) && Descends(s.tokens, u, t)
    ensures t in s.tokens && t <= u
    ensures IsSubsetOf(s.tokens[u].token.permissions, s.tokens[t].token.permissions)
    ensures s.tokens[u].token.resource == s.tokens[t].token.resource
    ensures u != t ==> Contains(s.tokens[t].token.permissions, GRANT)
    decreases u
  {
    if u == t {
      SubsetReflexive(s.tokens[u].token.permissions);
    } else {
      assert TokenOk(s.tokens, s.nextId, sign, u);
      var p := s.tokens[u].token.delegatedFrom;
      DelegationAttenuates(s, sign, p, t);
      SubsetTransitive(s.tokens[u].token.permissions, s.tokens[p].token.permissions, s.tokens[t].token.permissions);
    }
  }

  // ----- revocation

  lemma SubtreeClosed(t: map<Id, StoredToken>, n: Id, sign: Token -> Mac, r: Id, c: Id)
    requires Forest(t, n, sign) && r in t && c in t
    ensures r in Subtree(t, r)
    ensures c in Subtree(t, r)
       <==> c == r || (t[c].token.delegatedFrom != 0 && t[c].token.delegatedFrom in Subtree(t, r))
  {
    assert TokenOk(t, n, sign, r);
    assert TokenOk(t, n, sign, c);
    assert t[c].token.delegatedFrom == 0 ==> !Descends(t, 0, r);
  }

  lemma ShrinkKeepsYoungest(a: map<Id, StoredToken>, b: map<Id, StoredToken>, p: Id, bound: Id, x: Id)
    requires Youngest(a, p, bound, x)
    requires forall c :: IsChild(b, c, p) ==> IsChild(a, c, p)
    requires x != 0 ==> IsChild(b, x, p)
    ensures Youngest(b, p, bound, x)
  {
  }

  /** After the revocation of r: who is left, and who is whose child. */
  ghost predicate Pruned(a: map<Id, StoredToken>, b: map<Id, StoredToken>, r: Id)
  {
    && r in a && r !in b
    && (forall u :: u in b ==> u in a && b[u] == SkipOver(a[u], r, a[r].nextSibling))
    && (forall c, p :: IsChild(a, c, p) && (p == 0 || p in b) && c != r ==> c in b)
    && (forall c :: c in b && b[c].token.delegatedFrom != 0 ==> b[c].token.delegatedFrom in b)
  }

  lemma RevokePrunes(t: map<Id, StoredToken>, n: Id, sign: Token -> Mac, r: Id)
    requires Forest(t, n, sign) && r in t
    ensures Pruned(t, Relink(t, r) - Subtree(t, r), r)
  {
    var b := Relink(t, r) - Subtree(t, r);
    SubtreeClosed(t, n, sign, r, r);
    forall c | c in t
      ensures c in Subtree(t, r)
         <==> c == r || (t[c].token.delegatedFrom != 0 && t[c].token.delegatedFrom in Subtree(t, r))
    {
      SubtreeClosed(t, n, sign, r, c);
    }
    forall c | c in b && b[c].token.delegatedFrom != 0 ensures b[c].token.delegatedFrom in b {
      assert TokenOk(t, n, sign, c);
    }
  }

  /** A pointer into p's child list stays right: it moves past r, or it never pointed at r. */
  lemma PrunedPointer(a: map<Id, StoredToken>, b: map<Id, StoredToken>, r: Id, p: Id, bound: Id, x: Id)
    requires Pruned(a, b, r) && p in b && p != 0 && r != 0
    requires Youngest(a, p, bound, x)
    requires a[r].token.delegatedFrom != 0 ==> Youngest(a, a[r].token.delegatedFrom, r, a[r].nextSibling)
    ensures Youngest(b, p, bound, if x == r then a[r].nextSibling else x)
  {
    forall c | IsChild(b, c, p) ensures IsChild(a, c, p) && c != r {
    }
    if x == r {
      var y := a[r].nextSibling;
      assert IsChild(a, r, p);
      assert y != 0 ==> IsChild(a, y, p) && y != r;
    } else {
      ShrinkKeepsYoungest(a, b, p, bound, x);
    }
  }

  lemma RevokeKeepsForest(t: map<Id, StoredToken>, n: Id, sign: Token -> Mac, r: Id)
    requires Forest(t, n, sign) && r in t
    ensures Forest(Relink(t, r) - Subtree(t, r), n, sign)
  {
    var b := Relink(t, r) - Subtree(t, r);
    RevokePrunes(t, n, sign, r);
    assert TokenOk(t, n, sign, r);
    forall p | p in b ensures TokenOk(b, n, sign, p) && Youngest(b, p, n, b[p].firstChild) {
      assert TokenOk(t, n, sign, p);
      PrunedPointer(t, b, r, p, n, t[p].firstChild);
    }
    forall c | c in b && b[c].token.delegatedFrom != 0
      ensures Youngest(b, b[c].token.delegatedFrom, c, b[c].nextSibling)
    {
      PrunedPointer(t, b, r, t[c].token.delegatedFrom, c, t[c].nextSibling);
    }
  }

  lemma RevokeKeepsInv(s: Store, sign: Token -> Mac, r: Id)
    requires Inv(s, sign)
    ensures Inv(Revoke(s, r).0, sign)
  {
    if r in s.tokens {
      RevokeKeepsForest(s.tokens, s.nextId, sign, r);
      var s' := Revoke(s, r).0;
      FixedMap.SubsetSize(s'.tokens.Keys, s.tokens.Keys);
    }
  }

  /** Following siblings from x reaches the one whose next sibling is r. */
  lemma {:induction false} PredecessorAmongSiblings(t: map<Id, StoredToken>, n: Id, sign: Token -> Mac, r: Id, x: Id)
    returns (v: Id)
    requires Forest(t, n, sign) && r in t && t[r].token.delegatedFrom != 0
    requires IsChild(t, x, t[r].token.delegatedFrom) && x > r
    ensures IsChild(t, v, t[r].token.delegatedFrom) && v > r && t[v].nextSibling == r
    decreases x
  {
    var p := t[r].token.delegatedFrom;
    NextIsOlder(t, n, sign, p, x);
    assert IsChild(t, r, p);
    if t[x].nextSibling == r {
      v := x;
    } else {
      v := PredecessorAmongSiblings(t, n, sign, r, t[x].nextSibling);
    }
  }

  /** Who points at the delegated token r: its parent or its next younger sibling. */
  ghost predicate PointsAt(t: map<Id, StoredToken>, v: Id, r: Id)
  {
    v in t && (t[v].firstChild == r || t[v].nextSibling == r)
  }

  lemma OnePointerToEachChild(t: map<Id, StoredToken>, n: Id, sign: Token -> Mac, r: Id) returns (v: Id)
    requires Forest(t, n, sign) && r in t && t[r].token.delegatedFrom != 0
    ensures PointsAt(t, v, r)
    ensures forall u :: PointsAt(t, u, r) ==> u == v
    ensures v == t[r].token.delegatedFrom || (v > r && IsChild(t, v, t[r].token.delegatedFrom))
  {
    var p := t[r].token.delegatedFrom;
    assert TokenOk(t, n, sign, r);
    assert IsChild(t, r, p);
    assert TokenOk(t, n, sign, p);
    if t[p].firstChild == r {
      v := p;
    } else {
      v := PredecessorAmongSiblings(t, n, sign, r, t[p].firstChild);
    }
    LiveId(t, n, sign, v);
    forall u | PointsAt(t, u, r) ensures u == v {
      PointerOwner(t, n, sign, r, u);
      LiveId(t, n, sign, u);
      if u != p && v != p {
        NextIsOlder(t, n, sign, p, u);
        NextIsOlder(t, n, sign, p, v);
      }
    }
  }

  lemma PointerOwner(t: map<Id, StoredToken>, n: Id, sign: Token -> Mac, r: Id, u: Id)
    requires Forest(t, n, sign) && r in t && PointsAt(t, u, r)
    ensures t[r].token.delegatedFrom != 0
    ensures if t[u].firstChild == r then u == t[r].token.delegatedFrom
            else IsChild(t, u, t[r].token.delegatedFrom) && u > r
  {
    assert TokenOk(t, n, sign, r);
    assert TokenOk(t, n, sign, u);
    if t[u].firstChild == r {
      assert IsChild(t, r, u);
    } else {
      assert t[u].token.delegatedFrom != 0;
      assert Youngest(t, t[u].token.delegatedFrom, u, r);
    }
  }

  lemma RelinkedRecord(t: map<Id, StoredToken>, r: Id, u: Id)
    requires r in t && u in t && t[r].nextSibling != r
    ensures Relink(t, r)[u] != t[u] <==> PointsAt(t, u, r)
    ensures Relink(t, r)[u]
         == t[u].(firstChild := Relink(t, r)[u].firstChild, nextSibling := Relink(t, r)[u].nextSibling)
  {
  }

  /** Nobody points at a root token, so revoking it leaves every surviving record as it was. */
  lemma RevokeRootChangesNoPointer(s: Store, sign: Token -> Mac, r: Id)
    requires Inv(s, sign) && r in s.tokens && s.tokens[r].token.delegatedFrom == 0
    ensures Revoke(s, r).0.tokens == s.tokens - Subtree(s.tokens, r)
  {
    assert TokenOk(s.tokens, s.nextId, sign, r);
    forall u | u in s.tokens ensures Relink(s.tokens, r)[u] == s.tokens[u] {
      RelinkedRecord(s.tokens, r, u);
      if PointsAt(s.tokens, u, r) {
        PointerOwner(s.tokens, s.nextId, sign, r, u);
      }
    }
  }

  /** Revoking a delegated token changes one pointer of one surviving record, and nothing else of any survivor. */
  lemma RevokeChangesOnePointer(s: Store, sign: Token -> Mac, r: Id) returns (v: Id)
    requires Inv(s, sign) && r in s.tokens && s.tokens[r].token.delegatedFrom != 0
    ensures Revoke(s, r).0.tokens.Keys == s.tokens.Keys - Subtree(s.tokens, r)
    ensures v in Revoke(s, r).0.tokens
    ensures Revoke(s, r).0.tokens[v] != s.tokens[v]
    ensures Revoke(s, r).0.tokens[v] == s.tokens[v].(firstChild := s.tokens[r].nextSibling)
         || Revoke(s, r).0.tokens[v] == s.tokens[v].(nextSibling := s.tokens[r].nextSibling)
    ensures forall u :: u in Revoke(s, r).0.tokens && u != v ==> Revoke(s, r).0.tokens[u] == s.tokens[u]
  {
    var t := s.tokens;
    v := OnePointerToEachChild(t, s.nextId, sign, r);
    PointerSurvives(t, s.nextId, sign, r, v);
    NextIsOlder(t, s.nextId, sign, t[r].token.delegatedFrom, r);
    forall u | u in t ensures Relink(t, r)[u] != t[u] <==> PointsAt(t, u, r) {
      RelinkedRecord(t, r, u);
    }
    OnlyOneOfTheTwo(t, s.nextId, sign, r, v);
  }

  lemma OnlyOneOfTheTwo(t: map<Id, StoredToken>, n: Id, sign: Token -> Mac, r: Id, v: Id)
    requires Forest(t, n, sign) && r in t && PointsAt(t, v, r)
    ensures !(t[v].firstChild == r && t[v].nextSibling == r)
  {
    PointerOwner(t, n, sign, r, v);
    assert TokenOk(t, n, sign, v);
    assert TokenOk(t, n, sign, r);
  }

  lemma PointerSurvives(t: map<Id, StoredToken>, n: Id, sign: Token -> Mac, r: Id, v: Id)
    requires Forest(t, n, sign) && r in t && t[r].token.delegatedFrom != 0
    requires v == t[r].token.delegatedFrom || (v > r && IsChild(t, v, t[r].token.delegatedFrom))
    ensures v in t && v !in Subtree(t, r)
  {
    var p := t[r].token.delegatedFrom;
    assert TokenOk(t, n, sign, r);
    SubtreeIsYounger(t, n, sign, p, r);
    if v != p {
      SubtreeClosed(t, n, sign, r, v);
    }
  }

  lemma {:induction false} SubtreeIsYounger(t: map<Id, StoredToken>, n: Id, sign: Token -> Mac, u: Id, r: Id)
    requires Forest(t, n, sign)
    ensures Descends(t, u, r) ==> u in t && r in t && u >= r
    decreases u
  {
    if Descends(t, u, r) && u != r {
      SubtreeIsYounger(t, n, sign, t[u].token.delegatedFrom, r);
    }
  }

  // ----- deadlines

  /** Whenever the parent has expired, so has the child. */
  ghost predicate ExpiresWith(child: StoredToken, parent: StoredToken)
  {
    forall tick {:trigger IsExpired(child, tick)} :: IsExpired(parent, tick) ==> IsExpired(child, tick)
  }

  /** A lifetime counts from the token's own creation, and 0 means for ever, so a delegated token can outlive its
      parent: it does not exactly when the parent never expires, or a lifetime other than 0 was asked for that ends in
      time. */
  lemma DeadlineBoundedIff(s: Store, sign: Token -> Mac, parentId: Id, newOwner: nat, permissions: Perm,
                           expires: Option<nat>, budget: Option<Budget>)
    requires Inv(s, sign) && Delegate(s, sign, parentId, newOwner, permissions, expires, budget).1.Ok?
    ensures parentId in s.tokens
    ensures var (r, id) := Delegate(s, sign, parentId, newOwner, permissions, expires, budget);
      var parent := s.tokens[parentId];
      && id.value in r.tokens && parentId in r.tokens
      && (ExpiresWith(r.tokens[id.value], r.tokens[parentId])
          <==> || parent.token.expires == 0
               || (&& expires != Some(0)
                   && s.tick + ChildExpires(expires, parent.token.expires) <= parent.createdAt + parent.token.expires))
  {
    var (r, id) := Delegate(s, sign, parentId, newOwner, permissions, expires, budget);
    var parent := s.tokens[parentId];
    assert TokenOk(s.tokens, s.nextId, sign, parentId);
    var c, p := r.tokens[id.value], r.tokens[parentId];
    var end := parent.createdAt + parent.token.expires;
    assert parent.token.expires > 0 ==> IsExpired(p, end);
    if ExpiresWith(c, p) && parent.token.expires > 0 {
      assert IsExpired(c, end);
    }
  }

  /** Asking for a lifetime of 0 under a parent that expires gives a token that never does. */
  lemma NeverExpires(s: Store, sign: Token -> Mac, parentId: Id, newOwner: nat, permissions: Perm,
                     budget: Option<Budget>, tick: nat)
    requires Inv(s, sign) && Delegate(s, sign, parentId, newOwner, permissions, Some(0), budget).1.Ok?
    ensures var (r, id) := Delegate(s, sign, parentId, newOwner, permissions, Some(0), budget);
      id.value in r.tokens && !IsExpired(r.tokens[id.value], tick)
  {
    assert TokenOk(s.tokens, s.nextId, sign, parentId);
  }
}
