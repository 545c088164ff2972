/** Whole runs of the capability store: what holds after any sequence of operations, and what the
    accepted uses of a token look like over its lifetime. */
module CapabilityRuns {
  import opened Wrappers
  import opened CapabilityModel

  datatype Op =
    | DoCreate(resource: nat, permissions: Perm, owner: nat, expires: Option<nat>, budget: Option<Budget>)
    | DoDelegate(parentId: Id, newOwner: nat, permissions: Perm, expires: Option<nat>, budget: Option<Budget>)
    | DoValidate(id: Id, required: Perm, nonce: nat)
    | DoRevoke(id: Id)
    | DoTick(n: nat)

  /** One accepted validation. */
  datatype Use = Use(id: Id, tick: nat, nonce: nat, required: Perm)

  /** The store, every use accepted so far, and the budget each identifier was minted with. */
  datatype History = History(store: Store, uses: seq<Use>, minted: map<Id, Option<Budget>>)

  ghost function Step(h: History, sign: Token -> Mac, op: Op): History
  {
    match op
    case DoCreate(resource, permissions, owner, expires, budget) =>
      var (s, r) := Create(h.store, sign, resource, permissions, owner, expires, budget);
      h.(store := s, minted := if r.Ok? then h.minted[r.value := budget] else h.minted)
    case DoDelegate(parentId, newOwner, permissions, expires, budget) =>
      var (s, r) := Delegate(h.store, sign, parentId, newOwner, permissions, expires, budget);
      h.(store := s, minted := if r.Ok? then h.minted[r.value := budget] else h.minted)
    case DoValidate(id, required, nonce) =>
      var (s, r) := Validate(h.store, sign, id, required, nonce);
      h.(store := s, uses := if r.Ok? then h.uses + [Use(id, h.store.tick, nonce, required)] else h.uses)
    case DoRevoke(id) => h.(store := Revoke(h.store, id).0)
    case DoTick(n) => h.(store := h.store.(tick := h.store.tick + n))
  }

  ghost function Run(sign: Token -> Mac, ops: seq<Op>): History
  {
    if ops == [] then History(EmptyStore, [], map[])
    else Step(Run(sign, ops[..|ops| - 1]), sign, ops[|ops| - 1])
  }

  // ----- the store invariant

  lemma StepKeepsInv(h: History, sign: Token -> Mac, op: Op)
    requires Inv(h.store, sign)
    ensures Inv(Step(h, sign, op).store, sign)
  {
    match op
    case DoCreate(resource, permissions, owner, expires, budget) =>
      CreateKeepsInv(h.store, sign, resource, permissions, owner, expires, budget);
    case DoDelegate(parentId, newOwner, permissions, expires, budget) =>
      DelegateKeepsInv(h.store, sign, parentId, newOwner, permissions, expires, budget);
    case DoValidate(id, required, nonce) =>
      ValidateKeepsInv(h.store, sign, id, required, nonce);
    case DoRevoke(id) =>
      RevokeKeepsInv(h.store, sign, id);
    case DoTick(n) =>
      TickKeepsInv(h.store, sign, n);
  }

  /** Every reachable store is a forest whose pointers mirror delegation and whose trackers follow
      live tokens only. */
  lemma {:induction false} ReachableStoreInv(sign: Token -> Mac, ops: seq<Op>)
    ensures Inv(Run(sign, ops).store, sign)
    decreases |ops|
  {
    if ops == [] {
      EmptyStoreInv(sign);
    } else {
      ReachableStoreInv(sign, ops[..|ops| - 1]);
      StepKeepsInv(Run(sign, ops[..|ops| - 1]), sign, ops[|ops| - 1]);
    }
  }

  /** No run ends in a state where a live token fails its integrity check. */
  lemma NeverInvalidHmac(sign: Token -> Mac, ops: seq<Op>, id: Id, required: Perm, nonce: nat)
    ensures Validate(Run(sign, ops).store, sign, id, required, nonce).1 != Err(InvalidHmac)
  {
    ReachableStoreInv(sign, ops);
    var s := Run(sign, ops).store;
    if id in s.tokens {
      assert TokenOk(s.tokens, s.nextId, sign, id);
    }
  }

  // ----- counting uses

  /** How many uses of `id` were accepted at ticks in [lo, hi). */
  ghost function Count(uses: seq<Use>, id: Id, lo: int, hi: int): nat
  {
    if uses == [] then 0
    else
      var u := uses[|uses| - 1];
      Count(uses[..|uses| - 1], id, lo, hi) + if u.id == id && lo <= u.tick < hi then 1 else 0
  }

  lemma CountAppend(uses: seq<Use>, u: Use, id: Id, lo: int, hi: int)
    ensures Count(uses + [u], id, lo, hi) == Count(uses, id, lo, hi) + if u.id == id && lo <= u.tick < hi then 1 else 0
  {
    var after := uses + [u];
    assert after[..|after| - 1] == uses;
  }

  lemma {:induction false} CountSplit(uses: seq<Use>, id: Id, lo: int, mid: int, hi: int)
    requires lo <= mid <= hi
    ensures Count(uses, id, lo, hi) == Count(uses, id, lo, mid) + Count(uses, id, mid, hi)
    decreases |uses|
  {
    if uses != [] {
      CountSplit(uses[..|uses| - 1], id, lo, mid, hi);
    }
  }

  lemma {:induction false} CountWithin(uses: seq<Use>, id: Id, lo: int, hi: int, lo': int, hi': int)
    requires lo' <= lo && hi <= hi'
    ensures Count(uses, id, lo, hi) <= Count(uses, id, lo', hi')
    decreases |uses|
  {
    if uses != [] {
      CountWithin(uses[..|uses| - 1], id, lo, hi, lo', hi');
    }
  }

  ghost predicate Past(uses: seq<Use>, now: nat)
  {
    forall i :: 0 <= i < |uses| ==> uses[i].tick <= now
  }

  lemma {:induction false} CountFuture(uses: seq<Use>, id: Id, now: nat, lo: int, hi: int)
    requires Past(uses, now) && lo > now
    ensures Count(uses, id, lo, hi) == 0
    decreases |uses|
  {
    if uses != [] {
      CountFuture(uses[..|uses| - 1], id, now, lo, hi);
    }
  }

  lemma {:induction false} CountUnused(uses: seq<Use>, id: Id, lo: int, hi: int)
    requires forall i :: 0 <= i < |uses| ==> uses[i].id != id
    ensures Count(uses, id, lo, hi) == 0
    decreases |uses|
  {
    if uses != [] {
      CountUnused(uses[..|uses| - 1], id, lo, hi);
    }
  }

  // ----- budgets

  /** Uses accepted in the window of one interval length that starts at tick a. */
  ghost function InWindow(uses: seq<Use>, id: Id, b: Budget, a: int): nat
  {
    Count(uses, id, a, a + b.intervalTicks)
  }

  /** No window as long as the budget's interval holds more than twice the allowance. */
  ghost predicate AtMostTwice(uses: seq<Use>, id: Id, b: Budget)
  {
    forall a: int :: InWindow(uses, id, b, a) <= 2 * b.maxUses
  }

  /** The tracker's entry tells the truth: it has counted every use since its interval began, and
      the stretch just before holds at most one allowance. */
  ghost predicate Window(uses: seq<Use>, id: Id, b: Budget, now: nat, entry: (nat, nat))
  {
    var (u, start) := entry;
    && u <= b.maxUses && start <= now
    && Count(uses, id, start, now + 1) == u
    && Count(uses, id, start + b.intervalTicks, now + 1) == 0
    && Count(uses, id, start - b.intervalTicks, start) <= b.maxUses
  }

  lemma FreshWindow(uses: seq<Use>, id: Id, b: Budget, now: nat)
    requires forall i :: 0 <= i < |uses| ==> uses[i].id != id
    ensures Window(uses, id, b, now, (0, now)) && AtMostTwice(uses, id, b)
  {
    CountUnused(uses, id, now, now + 1);
    CountUnused(uses, id, now + b.intervalTicks, now + 1);
    CountUnused(uses, id, now - b.intervalTicks, now);
    forall a: int ensures InWindow(uses, id, b, a) <= 2 * b.maxUses {
      CountUnused(uses, id, a, a + b.intervalTicks);
    }
  }

  lemma WindowAges(uses: seq<Use>, id: Id, b: Budget, now: nat, later: nat, entry: (nat, nat))
    requires Past(uses, now) && now <= later
    requires Window(uses, id, b, now, entry)
    ensures Window(uses, id, b, later, entry)
  {
    var (u, start) := entry;
    CountSplit(uses, id, start, now + 1, later + 1);
    CountFuture(uses, id, now, now + 1, later + 1);
    if start + b.intervalTicks <= now + 1 {
      CountSplit(uses, id, start + b.intervalTicks, now + 1, later + 1);
    } else {
      CountFuture(uses, id, now, start + b.intervalTicks, later + 1);
    }
  }

  /** Starting a new interval once the old one is over. */
  lemma WindowResets(uses: seq<Use>, id: Id, b: Budget, now: nat, entry: (nat, nat))
    requires Window(uses, id, b, now, entry)
    requires b.intervalTicks > 0 && now - entry.1 >= b.intervalTicks
    ensures Window(uses, id, b, now, (0, now))
  {
    var (u, start) := entry;
    CountWithin(uses, id, now, now + 1, start + b.intervalTicks, now + 1);
    CountWithin(uses, id, now + b.intervalTicks, now + 1, start + b.intervalTicks, now + 1);
    CountWithin(uses, id, now - b.intervalTicks, now, start, now + 1);
  }

  /** A window that contains the present spans at most the current interval and the stretch before it. */
  lemma WindowBounds(uses: seq<Use>, id: Id, b: Budget, now: nat, entry: (nat, nat), a: int)
    requires Past(uses, now) && Window(uses, id, b, now, entry)
    requires a <= now < a + b.intervalTicks
    ensures InWindow(uses, id, b, a) <= 2 * b.maxUses
  {
    var (u, start) := entry;
    CountSplit(uses, id, a, now + 1, a + b.intervalTicks);
    CountFuture(uses, id, now, now + 1, a + b.intervalTicks);
    if a >= start {
      CountWithin(uses, id, a, now + 1, start, now + 1);
    } else {
      CountSplit(uses, id, a, start, now + 1);
      CountWithin(uses, id, a, start, start - b.intervalTicks, start);
    }
  }

  lemma UseKeepsAtMostTwice(uses: seq<Use>, u: Use, b: Budget, entry: (nat, nat))
    requires Past(uses, u.tick) && AtMostTwice(uses, u.id, b)
    requires Window(uses + [u], u.id, b, u.tick, entry)
    ensures AtMostTwice(uses + [u], u.id, b)
  {
    var after, id, now := uses + [u], u.id, u.tick;
    forall a: int ensures InWindow(after, id, b, a) <= 2 * b.maxUses {
      assert InWindow(uses, id, b, a) <= 2 * b.maxUses;
      CountAppend(uses, u, id, a, a + b.intervalTicks);
      if a <= now < a + b.intervalTicks {
        WindowBounds(after, id, b, now, entry, a);
      }
    }
  }

  /** One call of the tracker keeps its entry truthful and the two-allowance bound intact. */
  lemma ConsumeKeepsWindow(uses: seq<Use>, u: Use, b: Budget, entry: (nat, nat))
    requires Past(uses, u.tick) && b.intervalTicks > 0
    requires Window(uses, u.id, b, u.tick, entry) && AtMostTwice(uses, u.id, b)
    ensures var (e, allowed) := Consume(entry, b, u.tick);
            var after := if allowed then uses + [u] else uses;
            Window(after, u.id, b, u.tick, e) && AtMostTwice(after, u.id, b)
  {
    var id, now := u.id, u.tick;
    var current := if SatSub(now, entry.1) >= b.intervalTicks then (0, now) else entry;
    if current != entry {
      WindowResets(uses, id, b, now, entry);
    }
    if current.0 < b.maxUses {
      UseKeepsAtMostTwice(uses, u, b, (current.0 + 1, current.1));
    }
  }

  lemma OtherUseKeepsWindow(uses: seq<Use>, u: Use, id: Id, b: Budget, now: nat, entry: (nat, nat))
    requires u.id != id
    ensures Window(uses, id, b, now, entry) ==> Window(uses + [u], id, b, now, entry)
    ensures AtMostTwice(uses, id, b) ==> AtMostTwice(uses + [u], id, b)
  {
    CountAppend(uses, u, id, entry.1, now + 1);
    CountAppend(uses, u, id, entry.1 + b.intervalTicks, now + 1);
    CountAppend(uses, u, id, entry.1 - b.intervalTicks, entry.1);
    if AtMostTwice(uses, id, b) {
      forall a: int ensures InWindow(uses + [u], id, b, a) <= 2 * b.maxUses {
        CountAppend(uses, u, id, a, a + b.intervalTicks);
        assert InWindow(uses, id, b, a) <= 2 * b.maxUses;
      }
    }
  }

  // ----- what a history keeps

  ghost predicate Unused(uses: seq<Use>, id: Id)
  {
    forall i :: 0 <= i < |uses| ==> uses[i].id != id
  }

  ghost predicate MintedOk(h: History)
  {
    && Past(h.uses, h.store.tick)
    && (forall id :: id in h.store.tokens ==> id in h.minted && h.minted[id] == h.store.tokens[id].budget)
    && (forall id :: id in h.minted ==> id < h.store.nextId)
    && (forall i :: 0 <= i < |h.uses| ==> h.uses[i].id in h.minted)
  }

  ghost predicate BudgetOk(h: History, id: Id, b: Budget)
  {
    && AtMostTwice(h.uses, id, b)
    && (id in h.store.usage ==> Window(h.uses, id, b, h.store.tick, h.store.usage[id]))
    && (id in h.store.tokens && id !in h.store.usage ==> Unused(h.uses, id))
  }

  /** Every budget with a positive interval is respected, by live and by revoked tokens. */
  ghost predicate BudgetsOk(h: History)
  {
    forall id :: id in h.minted && h.minted[id].Some? && h.minted[id].value.intervalTicks > 0 ==>
      BudgetOk(h, id, h.minted[id].value)
  }

  ghost predicate NoncesOk(h: History)
  {
    && (forall i, j :: 0 <= i < j < |h.uses| && h.uses[i].id == h.uses[j].id ==> h.uses[i].nonce < h.uses[j].nonce)
    && (forall i :: 0 <= i < |h.uses| && h.uses[i].id in h.store.tokens ==>
          h.uses[i].id in h.store.lastSeen && h.uses[i].nonce <= h.store.lastSeen[h.uses[i].id])
  }

  ghost predicate HistoryOk(h: History, sign: Token -> Mac)
  {
    Inv(h.store, sign) && MintedOk(h) && BudgetsOk(h) && NoncesOk(h)
  }

  // ----- minting

  /** A step that only adds the fresh identifier `id` to the store. */
  ghost predicate Mints(h: History, h': History, id: Id, budget: Option<Budget>)
  {
    && id == h.store.nextId && id !in h.store.tokens && h'.store.nextId == id + 1
    && h'.store.tokens.Keys == h.store.tokens.Keys + {id} && h'.store.tokens[id].budget == budget
    && (forall u :: u in h.store.tokens ==> h'.store.tokens[u].budget == h.store.tokens[u].budget)
    && h' == h.(store := h.store.(tokens := h'.store.tokens, nextId := h'.store.nextId),
                minted := h.minted[id := budget])
  }

  lemma MintKeepsHistory(h: History, sign: Token -> Mac, h': History, id: Id, budget: Option<Budget>)
    requires HistoryOk(h, sign) && Inv(h'.store, sign) && Mints(h, h', id, budget)
    ensures HistoryOk(h', sign)
  {
    assert id !in h.minted;
    assert Unused(h.uses, id);
    forall u | u in h'.minted && h'.minted[u].Some? && h'.minted[u].value.intervalTicks > 0
      ensures BudgetOk(h', u, h'.minted[u].value)
    {
      if u == id {
        FreshWindow(h.uses, id, h'.minted[u].value, h.store.tick);
        assert id !in h.store.usage;
      } else {
        assert BudgetOk(h, u, h.minted[u].value);
      }
    }
  }

  lemma CreateKeepsHistory(h: History, sign: Token -> Mac, op: Op)
    requires HistoryOk(h, sign) && op.DoCreate?
    ensures HistoryOk(Step(h, sign, op), sign)
  {
    StepKeepsInv(h, sign, op);
    assert h.store.nextId !in h.store.tokens;
    if |h.store.tokens| < MAX_TOKENS {
      MintKeepsHistory(h, sign, Step(h, sign, op), h.store.nextId, op.budget);
    }
  }

  lemma DelegateKeepsHistory(h: History, sign: Token -> Mac, op: Op)
    requires HistoryOk(h, sign) && op.DoDelegate?
    ensures HistoryOk(Step(h, sign, op), sign)
  {
    StepKeepsInv(h, sign, op);
    assert h.store.nextId !in h.store.tokens;
    var h' := Step(h, sign, op);
    if h'.store != h.store {
      assert h'.store.tokens.Keys == h.store.tokens.Keys + {h.store.nextId};
      MintKeepsHistory(h, sign, h', h.store.nextId, op.budget);
    }
  }

  // ----- time and revocation

  lemma TickKeepsHistory(h: History, sign: Token -> Mac, n: nat)
    requires HistoryOk(h, sign)
    ensures HistoryOk(Step(h, sign, DoTick(n)), sign)
  {
    var h' := Step(h, sign, DoTick(n));
    TickKeepsInv(h.store, sign, n);
    forall u | u in h'.minted && h'.minted[u].Some? && h'.minted[u].value.intervalTicks > 0
      ensures BudgetOk(h', u, h'.minted[u].value)
    {
      assert BudgetOk(h, u, h.minted[u].value);
      if u in h.store.usage {
        WindowAges(h.uses, u, h.minted[u].value, h.store.tick, h'.store.tick, h.store.usage[u]);
      }
    }
  }

  lemma RevokeKeepsHistory(h: History, sign: Token -> Mac, id: Id)
    requires HistoryOk(h, sign)
    ensures HistoryOk(Step(h, sign, DoRevoke(id)), sign)
  {
    var h' := Step(h, sign, DoRevoke(id));
    RevokeKeepsInv(h.store, sign, id);
    forall u | u in h'.minted && h'.minted[u].Some? && h'.minted[u].value.intervalTicks > 0
      ensures BudgetOk(h', u, h'.minted[u].value)
    {
      assert BudgetOk(h, u, h.minted[u].value);
    }
  }

  // ----- validation

  /** The tracker was consulted, and said yes exactly when the call succeeded. */
  ghost predicate Consulted(s: Store, s': Store, id: Id, ok: bool)
  {
    && id in s.tokens && s.tokens[id].budget.Some?
    && Consume(Lookup(s.usage, id, (0, s.tick)), s.tokens[id].budget.value, s.tick)
       == (Lookup(s'.usage, id, (0, 0)), ok)
    && s'.usage == s.usage[id := Lookup(s'.usage, id, (0, 0))]
  }

  lemma ValidateOutcome(s: Store, sign: Token -> Mac, id: Id, required: Perm, nonce: nat)
    ensures var (s', r) := Validate(s, sign, id, required, nonce);
      && s' == s.(usage := s'.usage, lastSeen := s'.lastSeen)
      && (s'.lastSeen == s.lastSeen
          || (id in s.tokens && s'.lastSeen == s.lastSeen[id := Max(nonce, Lookup(s.lastSeen, id, 0))]))
      && (r.Ok? ==> id in s.tokens && nonce > Lookup(s.lastSeen, id, 0) && s'.lastSeen == s.lastSeen[id := nonce])
      && (if r.Ok? then (s'.usage == s.usage && s.tokens[id].budget.None?) || Consulted(s, s', id, true)
          else s'.usage == s.usage || Consulted(s, s', id, false))
  {
  }

  lemma ValidateKeepsBudget(h: History, sign: Token -> Mac, id: Id, required: Perm, nonce: nat, v: Id)
    requires HistoryOk(h, sign)
    requires v in h.minted && h.minted[v].Some? && h.minted[v].value.intervalTicks > 0
    ensures BudgetOk(Step(h, sign, DoValidate(id, required, nonce)), v, h.minted[v].value)
  {
    var h' := Step(h, sign, DoValidate(id, required, nonce));
    var b, now := h.minted[v].value, h.store.tick;
    var ok := Validate(h.store, sign, id, required, nonce).1.Ok?;
    ValidateOutcome(h.store, sign, id, required, nonce);
    assert BudgetOk(h, v, b);
    if v != id {
      if ok {
        OtherUseKeepsWindow(h.uses, Use(id, now, nonce, required), v, b, now, Lookup(h.store.usage, v, (0, 0)));
      }
    } else if Consulted(h.store, h'.store, id, ok) {
      if id !in h.store.usage {
        FreshWindow(h.uses, id, b, now);
      }
      ConsumeKeepsWindow(h.uses, Use(id, now, nonce, required), b, Lookup(h.store.usage, id, (0, now)));
    }
  }

  lemma ValidateKeepsNonces(h: History, sign: Token -> Mac, id: Id, required: Perm, nonce: nat)
    requires MintedOk(h) && NoncesOk(h)
    ensures NoncesOk(Step(h, sign, DoValidate(id, required, nonce)))
  {
    ValidateOutcome(h.store, sign, id, required, nonce);
  }

  lemma ValidateKeepsMinted(h: History, sign: Token -> Mac, id: Id, required: Perm, nonce: nat)
    requires MintedOk(h)
    ensures MintedOk(Step(h, sign, DoValidate(id, required, nonce)))
  {
    ValidateOutcome(h.store, sign, id, required, nonce);
  }

  lemma ValidateKeepsHistory(h: History, sign: Token -> Mac, op: Op)
    requires HistoryOk(h, sign) && op.DoValidate?
    ensures HistoryOk(Step(h, sign, op), sign)
  {
    StepKeepsInv(h, sign, op);
    ValidateKeepsNonces(h, sign, op.id, op.required, op.nonce);
    ValidateKeepsMinted(h, sign, op.id, op.required, op.nonce);
    var h' := Step(h, sign, op);
    assert h'.minted == h.minted;
    forall v | v in h.minted && h.minted[v].Some? && h.minted[v].value.intervalTicks > 0
      ensures BudgetOk(h', v, h.minted[v].value)
    {
      ValidateKeepsBudget(h, sign, op.id, op.required, op.nonce, v);
    }
  }

  lemma StepKeepsHistory(h: History, sign: Token -> Mac, op: Op)
    requires HistoryOk(h, sign)
    ensures HistoryOk(Step(h, sign, op), sign)
  {
    match op
    case DoCreate(_, _, _, _, _) => CreateKeepsHistory(h, sign, op);
    case DoDelegate(_, _, _, _, _) => DelegateKeepsHistory(h, sign, op);
    case DoValidate(_, _, _) => ValidateKeepsHistory(h, sign, op);
    case DoRevoke(id) => RevokeKeepsHistory(h, sign, id);
    case DoTick(n) => TickKeepsHistory(h, sign, n);
  }

  lemma {:induction false} EveryRunOk(sign: Token -> Mac, ops: seq<Op>)
    ensures HistoryOk(Run(sign, ops), sign)
    decreases |ops|
  {
    if ops == [] {
      EmptyStoreInv(sign);
    } else {
      EveryRunOk(sign, ops[..|ops| - 1]);
      StepKeepsHistory(Run(sign, ops[..|ops| - 1]), sign, ops[|ops| - 1]);
    }
  }

  // ----- the theorems about lifetimes

  /** In every run, a token minted with budget (m uses per T > 0 ticks) is accepted at most 2m times in
      any T consecutive ticks; and since its current interval began, at most m times, all of them
      counted by the tracker. */
  lemma BudgetTheorem(sign: Token -> Mac, ops: seq<Op>, h: History, id: Id, b: Budget, from: int)
    requires h == Run(sign, ops)
    requires id in h.minted && h.minted[id] == Some(b) && b.intervalTicks > 0
    ensures Count(h.uses, id, from, from + b.intervalTicks) <= 2 * b.maxUses
    ensures id in h.store.usage ==>
              Count(h.uses, id, h.store.usage[id].1, h.store.tick + 1) == h.store.usage[id].0 <= b.maxUses
  {
    EveryRunOk(sign, ops);
    BudgetOfHistory(h, sign, id, b, from);
  }

  lemma BudgetOfHistory(h: History, sign: Token -> Mac, id: Id, b: Budget, from: int)
    requires HistoryOk(h, sign)
    requires id in h.minted && h.minted[id] == Some(b) && b.intervalTicks > 0
    ensures Count(h.uses, id, from, from + b.intervalTicks) <= 2 * b.maxUses
    ensures id in h.store.usage ==>
              Count(h.uses, id, h.store.usage[id].1, h.store.tick + 1) == h.store.usage[id].0 <= b.maxUses
  {
    assert BudgetOk(h, id, b);
    assert InWindow(h.uses, id, b, from) <= 2 * b.maxUses;
  }

  /** In every run, the accepted nonces of a token strictly increase over its whole lifetime. */
  lemma NonceTheorem(sign: Token -> Mac, ops: seq<Op>, i: nat, j: nat)
    requires i < j < |Run(sign, ops).uses|
    requires Run(sign, ops).uses[i].id == Run(sign, ops).uses[j].id
    ensures Run(sign, ops).uses[i].nonce < Run(sign, ops).uses[j].nonce
  {
    EveryRunOk(sign, ops);
  }
}
