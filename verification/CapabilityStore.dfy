/** The mutable capability store.  Its three hash maps appear as the finite maps that FixedMap is
    proved to implement, including the load limit.  Every method is proved to compute the operation
    of the same name in CapabilityModel and to keep its invariant; along the way no insertion is
    refused and no `expect` fires. */
module CapabilityStore {
  import opened Wrappers
  import opened CapabilityModel
  import opened CapabilityDfs
  import Runs = CapabilityRuns
  import Slab = FixedMap

  /** Identifiers are u64. */
  const MAX_ID: int := 0xFFFF_FFFF_FFFF_FFFF

  class CapabilityStore {
    const sign: Token -> Mac
    var tokens: map<Id, StoredToken>
    var usage: map<Id, (nat, nat)>
    var lastSeen: map<Id, nat>
    var nextId: int
    var tick: nat

    ghost function Abs(): Store
      reads this
    {
      Store(tokens, nextId, usage, lastSeen, tick)
    }

    constructor (sign: Token -> Mac)
      ensures Abs() == EmptyStore && this.sign == sign
    {
      this.sign := sign;
      tokens, usage, lastSeen, nextId, tick := map[], map[], map[], 1, 0;
    }

    method Create(resource: nat, permissions: Perm, owner: nat, expires: Option<nat>, budget: Option<Budget>)
      returns (r: Result<Id, CapabilityError>)
      requires nextId < MAX_ID
      modifies this
      ensures (Abs(), r) == CapabilityModel.Create(old(Abs()), sign, resource, permissions, owner, expires, budget)
    {
      if |tokens| >= MAX_TOKENS {
        return Err(StoreFull);
      }
      var id := nextId;
      nextId := nextId + 1;
      var token := Token(TOKEN_VERSION, permissions, owner, id, resource, 0, 0,
                         if expires.Some? then expires.value else 0);
      var hmac := sign(token);
      var (tokens', _) := Slab.Inserted(tokens, id, StoredToken(token, hmac, budget, tick, 0, 0));
      tokens := tokens';
      return Ok(id);
    }

    method Delegate(parentId: Id, newOwner: nat, permissions: Perm, expires: Option<nat>, budget: Option<Budget>)
      returns (r: Result<Id, CapabilityError>)
      requires nextId < MAX_ID && nextId !in tokens
      modifies this
      ensures (Abs(), r) == CapabilityModel.Delegate(old(Abs()), sign, parentId, newOwner, permissions, expires, budget)
    {
      if |tokens| >= MAX_TOKENS {
        return Err(StoreFull);
      }
      if parentId !in tokens {
        return Err(NotFound);
      }
      var parent := tokens[parentId];
      if !Contains(parent.token.permissions, GRANT) {
        return Err(DelegationDenied);
      }
      if !IsSubsetOf(permissions, parent.token.permissions) {
        return Err(PermissionEscalation);
      }
      var id := nextId;
      nextId := nextId + 1;
      var token := Token(TOKEN_VERSION, permissions, newOwner, id, parent.token.resource, parentId, 0,
                         ChildExpires(expires, parent.token.expires));
      var hmac := sign(token);
      Prepend(parentId, id, StoredToken(token, hmac, budget, tick, 0, parent.firstChild));
      return Ok(id);
    }

    /** Insert a child and make it the head of its parent's child list. */
    method Prepend(parentId: Id, id: Id, child: StoredToken)
      requires parentId in tokens && id !in tokens && |tokens| < MAX_TOKENS
      modifies this`tokens
      ensures tokens == old(tokens)[id := child][parentId := old(tokens)[parentId].(firstChild := id)]
    {
      var (tokens', _) := Slab.Inserted(tokens, id, child);
      tokens := tokens';
      if parentId in tokens {
        tokens := tokens[parentId := tokens[parentId].(firstChild := id)];
      }
    }

    /** Accept a nonce only if it is above the last one accepted.  The tracker follows live tokens
        only, so the entry can always be made and the `expect` never fires. */
    method CheckAndAdvance(id: Id, nonce: nat) returns (ok: bool)
      requires |tokens| <= MAX_TOKENS && lastSeen.Keys <= tokens.Keys && id in tokens
      modifies this`lastSeen
      ensures lastSeen == old(lastSeen)[id := Max(nonce, Lookup(old(lastSeen), id, 0))]
      ensures ok <==> nonce > Lookup(old(lastSeen), id, 0)
    {
      TrackedFits(lastSeen.Keys, tokens.Keys, id);
      var (lastSeen', entry) := Slab.GottenOrInserted(lastSeen, id, 0);
      lastSeen := lastSeen';
      if nonce > entry.value {
        lastSeen := lastSeen[id := nonce];
        return true;
      }
      return false;
    }

    /** Count one use against the budget's current interval, starting a new interval when the old one is over. */
    method CheckAndConsume(id: Id, b: Budget) returns (ok: bool)
      requires |tokens| <= MAX_TOKENS && usage.Keys <= tokens.Keys && id in tokens
      modifies this`usage
      ensures var (e, allowed) := Consume(Lookup(old(usage), id, (0, tick)), b, tick);
              usage == old(usage)[id := e] && ok == allowed
    {
      TrackedFits(usage.Keys, tokens.Keys, id);
      var (usage', found) := Slab.GottenOrInserted(usage, id, (0, tick));
      var (uses, start) := found.value;
      if SatSub(tick, start) >= b.intervalTicks {
        uses, start := 0, tick;
      }
      ok := uses < b.maxUses;
      if ok {
        uses := uses + 1;
      }
      assert usage'[id := (uses, start)] == usage[id := (uses, start)];
      usage := usage'[id := (uses, start)];
    }

    method Validate(id: Id, required: Perm, nonce: nat) returns (r: Result<(), CapabilityError>)
      requires |tokens| <= MAX_TOKENS && lastSeen.Keys <= tokens.Keys && usage.Keys <= tokens.Keys
      modifies this`lastSeen, this`usage
      ensures (Abs(), r) == CapabilityModel.Validate(old(Abs()), sign, id, required, nonce)
    {
      if id !in tokens {
        return Err(NotFound);
      }
      var stored := tokens[id];
      if sign(stored.token) != stored.hmac {
        return Err(InvalidHmac);
      }
      if IsExpired(stored, tick) {
        return Err(Expired);
      }
      if !Contains(stored.token.permissions, required) {
        return Err(InsufficientPermission);
      }
      var advanced := CheckAndAdvance(id, nonce);
      if !advanced {
        return Err(NonceReplay);
      }
      if stored.budget.Some? {
        var allowed := CheckAndConsume(id, stored.budget.value);
        if !allowed {
          return Err(BudgetExhausted);
        }
      }
      return Ok(());
    }

    /** Take a token out of its parent's child list. */
    method UnlinkChild(parentId: Id, childId: Id)
      requires Forest(tokens, nextId, sign) && parentId != 0 && IsChild(tokens, childId, parentId)
      modifies this`tokens
      ensures tokens == Relink(old(tokens), childId)
    {
      ghost var t := tokens;
      assert TokenOk(t, nextId, sign, childId);
      var childNext := if childId in tokens then tokens[childId].nextSibling else 0;
      var parentFirst := if parentId in tokens then tokens[parentId].firstChild else 0;
      if parentFirst == childId {
        OneUpdateRelinks(t, nextId, sign, childId, parentId);
        tokens := tokens[parentId := tokens[parentId].(firstChild := childNext)];
      } else {
        var prevId := parentFirst;
        while prevId != 0
          invariant tokens == t && IsChild(t, prevId, parentId) && prevId > childId
          decreases prevId
        {
          var next := if prevId in tokens then tokens[prevId].nextSibling else 0;
          NextIsOlder(t, nextId, sign, parentId, prevId);
          if next == childId {
            OneUpdateRelinks(t, nextId, sign, childId, prevId);
            tokens := tokens[prevId := tokens[prevId].(nextSibling := childNext)];
            break;
          }
          prevId := next;
        }
      }
    }

    /** The children of a token, read off the sibling chain.  `t` is the forest before any removal. */
    method CollectChildren(parentId: Id, ghost t: Tokens) returns (children: seq<Id>)
      requires Forest(t, nextId, sign) && parentId in t && parentId != 0
      requires parentId in tokens && tokens[parentId] == t[parentId]
      requires forall c :: IsChild(t, c, parentId) ==> c in tokens && tokens[c] == t[c]
      ensures children == Chain(t, t[parentId].firstChild)
    {
      children := [];
      FirstChildIs(t, nextId, sign, parentId);
      var childId := if parentId in tokens then tokens[parentId].firstChild else 0;
      while childId != 0
        invariant childId == 0 || IsChild(t, childId, parentId)
        invariant childId >= 0
        invariant children + Chain(t, childId) == Chain(t, t[parentId].firstChild)
        decreases childId
      {
        NextIsOlder(t, nextId, sign, parentId, childId);
        assert Chain(t, childId) == [childId] + Chain(t, t[childId].nextSibling);
        children := children + [childId];
        childId := if childId in tokens then tokens[childId].nextSibling else 0;
      }
      assert Chain(t, 0) == [];
    }

    /** How far the walk below r has come: `s` is the store before it, `gone` what it removed. */
    ghost predicate Walking(s: Store, r: Id, gone: set<Id>)
      reads this
      requires r in s.tokens
    {
      && nextId == s.nextId
      && tokens == Relink(s.tokens, r) - gone
      && usage == s.usage - gone && lastSeen == s.lastSeen - gone
    }

    /** Pop one token and push its children. */
    method PushChildren(stack: seq<Id>, ghost s: Store, r: Id, ghost gone: set<Id>) returns (stack': seq<Id>, id: Id)
      requires Forest(s.tokens, s.nextId, sign) && r in s.tokens
      requires stack != [] && Frontier(s.tokens, r, gone, stack) && Walking(s, r, gone)
      ensures id in Subtree(s.tokens, r) && id !in gone
      ensures Frontier(s.tokens, r, gone + {id}, stack')
    {
      id := stack[|stack| - 1];
      var rest := stack[..|stack| - 1];
      assert stack == rest + [id];
      VisitReady(s.tokens, nextId, sign, r, gone, rest, id);
      var children := CollectChildren(id, s.tokens);
      stack' := rest + children;
    }

    /** Drop a token and its tracker records. */
    method Drop(id: Id, ghost s: Store, r: Id, ghost gone: set<Id>) returns (hit: bool)
      requires r in s.tokens && Walking(s, r, gone)
      modifies this`tokens, this`usage, this`lastSeen
      ensures Walking(s, r, gone + {id})
      ensures hit <==> id in s.tokens && id !in gone
    {
      hit := id in tokens;
      if hit {
        tokens := tokens - {id};
      }
      usage := usage - {id};
      lastSeen := lastSeen - {id};
    }

    /** Remove r and everything delegated from it, depth first, together with the tracker records. */
    method RemoveSubtree(r: Id, ghost s: Store) returns (count: nat)
      requires Forest(s.tokens, s.nextId, sign)
      requires r in s.tokens && Walking(s, r, {})
      modifies this`tokens, this`usage, this`lastSeen
      ensures Walking(s, r, Subtree(s.tokens, r))
      ensures count == |Subtree(s.tokens, r)|
    {
      var stack := [r];
      count := 0;
      ghost var gone: set<Id> := {};
      FrontierStarts(s.tokens, s.nextId, sign, r);
      while stack != []
        invariant Walking(s, r, gone)
        invariant count == |gone|
        invariant Frontier(s.tokens, r, gone, stack)
        decreases Subtree(s.tokens, r) - gone
      {
        var id;
        stack, id := PushChildren(stack, s, r, gone);
        var hit := Drop(id, s, r, gone);
        gone := gone + {id};
        if hit {
          count := count + 1;
        }
      }
      FrontierEnds(s.tokens, r, gone);
    }

    method Revoke(id: Id) returns (r: Result<nat, CapabilityError>)
      requires Forest(tokens, nextId, sign)
      modifies this`tokens, this`usage, this`lastSeen
      ensures (Abs(), r) == CapabilityModel.Revoke(old(Abs()), id)
    {
      if id !in tokens {
        return Err(NotFound);
      }
      ghost var s := Abs();
      Detach(id);
      var count := RemoveSubtree(id, s);
      return Ok(count);
    }

    /** Takes a token out of its parent's list of children, if it has a parent. */
    method Detach(id: Id)
      requires Forest(tokens, nextId, sign) && id in tokens
      modifies this`tokens
      ensures Walking(old(Abs()), id, {})
    {
      var parentId := tokens[id].token.delegatedFrom;
      if parentId != 0 {
        UnlinkChild(parentId, id);
      } else {
        RelinkRoot(tokens, nextId, sign, id);
      }
    }

    method Advance(n: nat)
      modifies this`tick
      ensures Abs() == old(Abs()).(tick := old(tick) + n)
    {
      tick := tick + n;
    }

    /** Any operation at all: the invariant meets the precondition of each, and each keeps it, so the
        object follows the runs of CapabilityRuns step by step. */
    method Perform(op: Runs.Op)
      requires Inv(Abs(), sign) && nextId < MAX_ID
      modifies this
      ensures Inv(Abs(), sign)
      ensures Abs() == Runs.Step(Runs.History(old(Abs()), [], map[]), sign, op).store
    {
      Runs.StepKeepsInv(Runs.History(Abs(), [], map[]), sign, op);
      InvMeetsPreconditions(Abs(), sign);
      match op {
        case DoCreate(resource, permissions, owner, expires, budget) =>
          var _ := Create(resource, permissions, owner, expires, budget);
        case DoDelegate(parentId, newOwner, permissions, expires, budget) =>
          var _ := Delegate(parentId, newOwner, permissions, expires, budget);
        case DoValidate(id, required, nonce) =>
          var _ := Validate(id, required, nonce);
        case DoRevoke(id) =>
          var _ := Revoke(id);
        case DoTick(n) =>
          Advance(n);
      }
    }
  }

  /** Moving the one pointer to r past r is all that relinking does. */
  lemma OneUpdateRelinks(t: Tokens, n: Id, sign: Token -> Mac, r: Id, v: Id)
    requires Forest(t, n, sign) && r in t && PointsAt(t, v, r)
    ensures t[v := SkipOver(t[v], r, t[r].nextSibling)] == Relink(t, r)
    ensures SkipOver(t[v], r, t[r].nextSibling) ==
            if t[v].firstChild == r then t[v].(firstChild := t[r].nextSibling)
            else t[v].(nextSibling := t[r].nextSibling)
  {
    PointerOwner(t, n, sign, r, v);
    var w := OnePointerToEachChild(t, n, sign, r);
    OnlyOneOfTheTwo(t, n, sign, r, v);
    forall u | u in t && u != v ensures Relink(t, r)[u] == t[u] {
      assert !PointsAt(t, u, r);
    }
  }

  lemma RelinkRoot(t: Tokens, n: Id, sign: Token -> Mac, r: Id)
    requires Forest(t, n, sign) && r in t && t[r].token.delegatedFrom == 0
    ensures Relink(t, r) == t
  {
    forall u | u in t ensures Relink(t, r)[u] == t[u] {
      if PointsAt(t, u, r) {
        PointerOwner(t, n, sign, r, u);
      }
    }
  }

  lemma SubtreeUntouched(t: Tokens, n: Id, sign: Token -> Mac, r: Id, u: Id)
    requires Forest(t, n, sign) && r in t && u in Subtree(t, r)
    ensures Relink(t, r)[u] == t[u]
  {
    if PointsAt(t, u, r) {
      PointerOwner(t, n, sign, r, u);
      PointerSurvives(t, n, sign, r, u);
    }
  }

  lemma AllChildrenBelow(t: Tokens, n: Id, sign: Token -> Mac, p: Id)
    requires Forest(t, n, sign)
    ensures forall c :: IsChild(t, c, p) ==> c < n
  {
    forall c | IsChild(t, c, p) ensures c < n {
      ChildrenAreYounger(t, n, sign, c, p);
    }
  }

  /** When a token is popped, it and all its children are still there with their pointers as before,
      and pushing the children accounts for everything that is left. */
  lemma VisitReady(t: Tokens, n: Id, sign: Token -> Mac, r: Id, gone: set<Id>, rest: seq<Id>, id: Id)
    requires Forest(t, n, sign) && r in t
    requires Frontier(t, r, gone, rest + [id])
    ensures id in t && id != 0 && id !in gone && id in Subtree(t, r)
    ensures Relink(t, r)[id] == t[id]
    ensures forall c :: IsChild(t, c, id) ==> c in t && c !in gone && Relink(t, r)[c] == t[c]
    ensures Frontier(t, r, gone + {id}, rest + Chain(t, t[id].firstChild))
  {
    TopIsLive(t, n, sign, r, gone, rest, id);
    ChainBelow(t, n, sign, id, n, t[id].firstChild);
    AllChildrenBelow(t, n, sign, id);
    PopKeepsFrontier(t, n, sign, r, gone, rest, id, Chain(t, t[id].firstChild));
  }

  lemma TopIsLive(t: Tokens, n: Id, sign: Token -> Mac, r: Id, gone: set<Id>, rest: seq<Id>, id: Id)
    requires Forest(t, n, sign) && r in t
    requires Frontier(t, r, gone, rest + [id])
    ensures id in t && id != 0 && id !in gone && id in Subtree(t, r)
    ensures Relink(t, r)[id] == t[id]
    ensures Youngest(t, id, n, t[id].firstChild)
    ensures forall c :: IsChild(t, c, id) ==> c in t && c !in gone && Relink(t, r)[c] == t[c]
  {
    var before := rest + [id];
    assert before[|rest|] == id;
    assert id in Subtree(t, r);
    assert TokenOk(t, n, sign, id);
    assert Descends(t, id, before[|rest|]);
    assert UnderStack(t, id, before);
    SubtreeUntouched(t, n, sign, r, id);
    forall c | IsChild(t, c, id) ensures c in t && c !in gone && Relink(t, r)[c] == t[c] {
      ChildDescends(t, n, sign, c, id);
      assert Descends(t, c, before[|rest|]);
      assert UnderStack(t, c, before);
      SubtreeClosed(t, n, sign, r, c);
      SubtreeUntouched(t, n, sign, r, c);
    }
  }

  lemma InvMeetsPreconditions(s: Store, sign: Token -> Mac)
    requires Inv(s, sign)
    ensures s.nextId !in s.tokens && |s.tokens| <= MAX_TOKENS
    ensures s.lastSeen.Keys <= s.tokens.Keys && s.usage.Keys <= s.tokens.Keys
    ensures Forest(s.tokens, s.nextId, sign)
  {
    FreshIds(s.tokens, s.nextId, sign);
  }

  lemma FirstChildIs(t: Tokens, n: Id, sign: Token -> Mac, p: Id)
    requires Forest(t, n, sign) && p in t
    ensures t[p].firstChild == 0 || (IsChild(t, t[p].firstChild, p) && t[p].firstChild > 0)
  {
    var x := t[p].firstChild;
    if x != 0 {
      assert TokenOk(t, n, sign, x);
    }
  }

  /** A tracker that follows live tokens only has room for any live token. */
  lemma TrackedFits(tracked: set<Id>, live: set<Id>, id: Id)
    requires tracked <= live && |live| <= Slab.MAX_LOAD && id in live
    ensures id !in tracked ==> |tracked| < Slab.MAX_LOAD
  {
    if id !in tracked {
      Slab.SubsetSize(tracked, live - {id});
    }
  }
}
