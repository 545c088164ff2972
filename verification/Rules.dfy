/** The policy rules: a list kept in descending priority, of which the first match decides. */
module Rules {
  import opened Wrappers

  const MAX_RULES: nat := 64

  datatype Safety = Normal | Elevated | Safe | Chaos | Lockdown
  datatype Acs = Active | Degraded | Contingency | Emergency
  datatype Action = Allow | AllowIfCapValid | Deny | DenyAndLog | EscalateToChaos | EscalateToTier2

  function Severity(s: Safety): nat
  {
    match s
    case Normal => 0
    case Elevated => 1
    case Safe => 2
    case Chaos => 3
    case Lockdown => 4
  }

  function AcsLevel(a: Acs): nat
  {
    match a
    case Active => 0
    case Degraded => 1
    case Contingency => 2
    case Emergency => 3
  }

  /** A condition; its value is cut to the width of what it is compared with. */
  datatype Condition =
    | SenderEquals(value: nat)
    | ReceiverEquals(value: nat)
    | MsgTypeEquals(value: nat)
    | ResourceKindEquals(value: nat)
    | PriorityBelow(value: nat)
    | Always
    | SafetyStateAtLeast(value: nat)
    | AcsStateEquals(value: nat)
    | SenderNotButler
    | TierEscalated

  datatype Context = Context(sender: nat, receiver: nat, msgType: nat, resourceKind: nat, priority: nat,
                             safety: Safety, acs: Acs, tierEscalated: bool)

  predicate Holds(c: Condition, ctx: Context)
  {
    match c
    case SenderEquals(v) => ctx.sender == v % 0x1_0000_0000
    case ReceiverEquals(v) => ctx.receiver == v % 0x1_0000_0000
    case MsgTypeEquals(v) => ctx.msgType == v % 0x1_0000
    case ResourceKindEquals(v) => ctx.resourceKind == v % 0x1_0000
    case PriorityBelow(v) => ctx.priority < v % 0x100
    case Always => true
    case SafetyStateAtLeast(v) => Severity(ctx.safety) >= v % 0x100
    case AcsStateEquals(v) => AcsLevel(ctx.acs) == v % 0x100
    case SenderNotButler => ctx.sender != 1
    case TierEscalated => ctx.tierEscalated
  }

  datatype Rule = Rule(name: string, priority: nat, conditions: seq<Condition>, action: Action)

  predicate Matches(r: Rule, ctx: Context)
  {
    forall i {:trigger r.conditions[i]} :: 0 <= i < |r.conditions| ==> Holds(r.conditions[i], ctx)
  }

  // ----- sorting

  /** r behind everything of at least its priority, in a list in descending priority. */
  function Insert(s: seq<Rule>, r: Rule): (t: seq<Rule>)
    ensures |t| == |s| + 1
    decreases |s|
  {
    if s == [] || s[|s| - 1].priority >= r.priority then s + [r]
    else Insert(s[..|s| - 1], r) + [s[|s| - 1]]
  }

  function Sorted(s: seq<Rule>): (t: seq<Rule>)
    ensures |t| == |s|
    decreases |s|
  {
    if s == [] then [] else Insert(Sorted(s[..|s| - 1]), s[|s| - 1])
  }

  ghost predicate Descending(s: seq<Rule>)
  {
    forall i, j {:trigger s[i], s[j]} :: 0 <= i < j < |s| ==> s[i].priority >= s[j].priority
  }

  lemma {:induction false} InsertMembers(s: seq<Rule>, r: Rule)
    ensures multiset(Insert(s, r)) == multiset(s) + multiset{r}
    decreases |s|
  {
    if s != [] && s[|s| - 1].priority < r.priority {
      assert s == s[..|s| - 1] + [s[|s| - 1]];
      InsertMembers(s[..|s| - 1], r);
    }
  }

  lemma InsertMember(s: seq<Rule>, r: Rule, x: Rule)
    requires x in Insert(s, r)
    ensures x == r || x in s
  {
    InsertMembers(s, r);
    assert x in multiset(Insert(s, r));
  }

  lemma {:induction false} InsertKeeps(s: seq<Rule>, r: Rule)
    requires Descending(s)
    ensures Descending(Insert(s, r))
    decreases |s|
  {
    if s != [] && s[|s| - 1].priority < r.priority {
      var init, last := s[..|s| - 1], s[|s| - 1];
      InsertKeeps(init, r);
      forall x | x in Insert(init, r)
        ensures x.priority >= last.priority
      {
        InsertMember(init, r, x);
      }
    }
  }

  /** Sorting yields the same rules in descending priority. */
  lemma {:induction false} SortedIsSorted(s: seq<Rule>)
    ensures Descending(Sorted(s)) && multiset(Sorted(s)) == multiset(s)
    decreases |s|
  {
    if s != [] {
      var init, last := s[..|s| - 1], s[|s| - 1];
      assert s == init + [last];
      SortedIsSorted(init);
      InsertKeeps(Sorted(init), last);
      InsertMembers(Sorted(init), last);
    }
  }

  lemma {:induction false} SortedOfSorted(s: seq<Rule>)
    requires Descending(s)
    ensures Sorted(s) == s
    decreases |s|
  {
    if s != [] {
      var init, last := s[..|s| - 1], s[|s| - 1];
      assert s == init + [last];
      SortedOfSorted(init);
    }
  }

  // ----- first match

  function First(s: seq<Rule>, ctx: Context): Option<Rule>
    decreases |s|
  {
    if s == [] then None else if Matches(s[0], ctx) then Some(s[0]) else First(s[1..], ctx)
  }

  /** The better of a winner so far and one more rule. */
  ghost function Better(w: Option<Rule>, r: Rule, ctx: Context): Option<Rule>
  {
    if Matches(r, ctx) && (w == None || w.value.priority < r.priority) then Some(r) else w
  }

  /** The matching rule of highest priority, and among equals the one loaded first. */
  ghost function Winner(s: seq<Rule>, ctx: Context): Option<Rule>
    decreases |s|
  {
    if s == [] then None else Better(Winner(s[..|s| - 1], ctx), s[|s| - 1], ctx)
  }

  lemma {:induction false} FirstOfConcat(a: seq<Rule>, b: seq<Rule>, ctx: Context)
    ensures First(a + b, ctx) == if First(a, ctx).Some? then First(a, ctx) else First(b, ctx)
    decreases |a|
  {
    if a == [] {
      assert a + b == b;
    } else {
      assert (a + b)[1..] == a[1..] + b;
      FirstOfConcat(a[1..], b, ctx);
    }
  }

  lemma {:induction false} FirstIsMember(s: seq<Rule>, ctx: Context)
    requires First(s, ctx).Some?
    ensures First(s, ctx).value in s && Matches(First(s, ctx).value, ctx)
    decreases |s|
  {
    if !Matches(s[0], ctx) {
      FirstIsMember(s[1..], ctx);
    }
  }

  lemma {:induction false} FirstAfterInsert(s: seq<Rule>, r: Rule, ctx: Context)
    requires Descending(s)
    ensures First(Insert(s, r), ctx) == Better(First(s, ctx), r, ctx)
    decreases |s|
  {
    if s == [] || s[|s| - 1].priority >= r.priority {
      FirstOfConcat(s, [r], ctx);
      if First(s, ctx).Some? {
        FirstIsMember(s, ctx);
      }
    } else {
      var init, last := s[..|s| - 1], s[|s| - 1];
      assert s == init + [last];
      FirstAfterInsert(init, r, ctx);
      FirstOfConcat(Insert(init, r), [last], ctx);
      FirstOfConcat(init, [last], ctx);
    }
  }

  /** First match on the sorted list picks the matching rule of highest priority, the earliest loaded among equals. */
  lemma {:induction false} FirstMatchIsWinner(s: seq<Rule>, ctx: Context)
    ensures First(Sorted(s), ctx) == Winner(s, ctx)
    decreases |s|
  {
    if s != [] {
      FirstMatchIsWinner(s[..|s| - 1], ctx);
      SortedIsSorted(s[..|s| - 1]);
      FirstAfterInsert(Sorted(s[..|s| - 1]), s[|s| - 1], ctx);
    }
  }

  // ----- the genesis rules

  const BUTLER_RULE: Rule := Rule("butler-unrestricted", 1000, [SenderEquals(1)], Allow)
  const LOCKDOWN_RULE: Rule := Rule("lockdown-deny-all", 900, [SafetyStateAtLeast(4), SenderNotButler], DenyAndLog)
  const CHAOS_RULE: Rule :=
    Rule("chaos-critical-only", 800, [SafetyStateAtLeast(3), SenderNotButler, PriorityBelow(4)], DenyAndLog)
  const ELEVATED_RULE: Rule := Rule("elevated-throttle-low", 700, [SafetyStateAtLeast(1), PriorityBelow(2)], Deny)
  const KERNEL_RULE: Rule := Rule("deny-kernel-spoof", 950, [SenderEquals(0)], DenyAndLog)
  const EMERGENCY_RULE: Rule := Rule("acs-emergency-escalate", 850, [AcsStateEquals(3)], EscalateToChaos)
  const DEVICE_RULE: Rule := Rule("device-access-gated", 600, [ResourceKindEquals(3), SenderNotButler], AllowIfCapValid)
  const DEFAULT_RULE: Rule := Rule("normal-default-allow", 100, [Always], Allow)
  const SAFE_RULE: Rule := Rule("safe-state-allow", 650, [SafetyStateAtLeast(2), SenderNotButler], AllowIfCapValid)
  const COUNCIL_RULE: Rule := Rule("council-escalation", 550, [ResourceKindEquals(6), SenderNotButler], AllowIfCapValid)

  function Genesis(): seq<Rule>
  {
    [BUTLER_RULE, LOCKDOWN_RULE, CHAOS_RULE, ELEVATED_RULE, KERNEL_RULE, EMERGENCY_RULE, DEVICE_RULE, DEFAULT_RULE,
     SAFE_RULE, COUNCIL_RULE]
  }

  /** What the ten rules decide: the action of the rule that fires. */
  function GenesisAction(ctx: Context): Action
  {
    if ctx.sender == 1 then Allow
    else if ctx.sender == 0 then DenyAndLog
    else if ctx.safety == Lockdown then DenyAndLog
    else if ctx.acs == Emergency then EscalateToChaos
    else if ctx.safety == Chaos && ctx.priority < 4 then DenyAndLog
    else if ctx.safety != Normal && ctx.priority < 2 then Deny
    else if ctx.safety == Safe || ctx.safety == Chaos then AllowIfCapValid
    else if ctx.resourceKind == 3 || ctx.resourceKind == 6 then AllowIfCapValid
    else Allow
  }

  function ActionOf(r: Option<Rule>): Action { if r.Some? then r.value.action else Allow }

  lemma MatchesOne(r: Rule, ctx: Context)
    requires |r.conditions| == 1
    ensures Matches(r, ctx) <==> Holds(r.conditions[0], ctx)
  {
  }

  lemma MatchesTwo(r: Rule, ctx: Context)
    requires |r.conditions| == 2
    ensures Matches(r, ctx) <==> Holds(r.conditions[0], ctx) && Holds(r.conditions[1], ctx)
  {
  }

  lemma MatchesThree(r: Rule, ctx: Context)
    requires |r.conditions| == 3
    ensures Matches(r, ctx)
       <==> Holds(r.conditions[0], ctx) && Holds(r.conditions[1], ctx) && Holds(r.conditions[2], ctx)
  {
  }

  lemma WinnerStep(s: seq<Rule>, r: Rule, ctx: Context)
    ensures Winner(s + [r], ctx) == Better(Winner(s, ctx), r, ctx)
  {
    assert (s + [r])[..|s|] == s;
  }

  lemma WinnerThree(s: seq<Rule>, a: Rule, b: Rule, c: Rule, ctx: Context)
    ensures Winner(s + [a, b, c], ctx) == Better(Better(Better(Winner(s, ctx), a, ctx), b, ctx), c, ctx)
  {
    WinnerStep(s, a, ctx);
    WinnerStep(s + [a], b, ctx);
    WinnerStep(s + [a] + [b], c, ctx);
    assert s + [a, b, c] == s + [a] + [b] + [c];
  }

  function FirstFour(): seq<Rule> { [BUTLER_RULE, LOCKDOWN_RULE, CHAOS_RULE, ELEVATED_RULE] }

  function FirstSeven(): seq<Rule> { FirstFour() + [KERNEL_RULE, EMERGENCY_RULE, DEVICE_RULE] }

  ghost function WinnerOfFour(ctx: Context): Option<Rule>
  {
    if ctx.sender == 1 then Some(BUTLER_RULE)
    else if ctx.safety == Lockdown then Some(LOCKDOWN_RULE)
    else if ctx.safety == Chaos && ctx.priority < 4 then Some(CHAOS_RULE)
    else if ctx.safety != Normal && ctx.priority < 2 then Some(ELEVATED_RULE)
    else None
  }

  ghost function WinnerOfSeven(ctx: Context): Option<Rule>
  {
    if ctx.sender == 1 then Some(BUTLER_RULE)
    else if ctx.sender == 0 then Some(KERNEL_RULE)
    else if ctx.safety == Lockdown then Some(LOCKDOWN_RULE)
    else if ctx.acs == Emergency then Some(EMERGENCY_RULE)
    else if WinnerOfFour(ctx).Some? then WinnerOfFour(ctx)
    else if ctx.resourceKind == 3 then Some(DEVICE_RULE)
    else None
  }

  lemma WinnerFour(a: Rule, b: Rule, c: Rule, d: Rule, ctx: Context)
    requires a.priority > b.priority > c.priority > d.priority
    ensures Winner([a, b, c, d], ctx)
         == if Matches(a, ctx) then Some(a) else if Matches(b, ctx) then Some(b)
            else if Matches(c, ctx) then Some(c) else if Matches(d, ctx) then Some(d) else None
  {
    WinnerStep([], a, ctx);
    assert [] + [a] == [a] && [a, b, c, d] == [a] + [b, c, d];
    WinnerThree([a], b, c, d, ctx);
  }

  lemma FourWinner(ctx: Context)
    ensures Winner(FirstFour(), ctx) == WinnerOfFour(ctx)
  {
    WinnerFour(BUTLER_RULE, LOCKDOWN_RULE, CHAOS_RULE, ELEVATED_RULE, ctx);
    MatchesOne(BUTLER_RULE, ctx);
    MatchesTwo(LOCKDOWN_RULE, ctx);
    MatchesThree(CHAOS_RULE, ctx);
    MatchesTwo(ELEVATED_RULE, ctx);
  }

  lemma SevenWinner(ctx: Context)
    ensures Winner(FirstSeven(), ctx) == WinnerOfSeven(ctx)
  {
    FourWinner(ctx);
    WinnerThree(FirstFour(), KERNEL_RULE, EMERGENCY_RULE, DEVICE_RULE, ctx);
    MatchesOne(KERNEL_RULE, ctx);
    MatchesOne(EMERGENCY_RULE, ctx);
    MatchesTwo(DEVICE_RULE, ctx);
  }

  /** What the last three rules add to a winner of the first seven. */
  lemma LastThree(w: Option<Rule>, ctx: Context)
    requires w == None || w == Some(DEVICE_RULE) || w.value.priority >= 700
    ensures ActionOf(Better(Better(Better(w, DEFAULT_RULE, ctx), SAFE_RULE, ctx), COUNCIL_RULE, ctx))
         == if w.Some? && w.value.priority >= 700 then w.value.action
            else if Severity(ctx.safety) >= 2 && ctx.sender != 1 then AllowIfCapValid
            else if w.Some? || (ctx.resourceKind == 6 && ctx.sender != 1) then AllowIfCapValid
            else Allow
  {
    MatchesOne(DEFAULT_RULE, ctx);
    MatchesTwo(SAFE_RULE, ctx);
    MatchesTwo(COUNCIL_RULE, ctx);
  }

  lemma GenesisWinner(ctx: Context)
    ensures ActionOf(Winner(Genesis(), ctx)) == GenesisAction(ctx)
  {
    SevenWinner(ctx);
    WinnerThree(FirstSeven(), DEFAULT_RULE, SAFE_RULE, COUNCIL_RULE, ctx);
    assert Genesis() == FirstSeven() + [DEFAULT_RULE, SAFE_RULE, COUNCIL_RULE];
    LastThree(WinnerOfSeven(ctx), ctx);
  }

  /** The sorted genesis rules and their first match, in closed form. */
  lemma GenesisFirstMatch(ctx: Context)
    ensures ActionOf(First(Sorted(Genesis()), ctx)) == GenesisAction(ctx)
  {
    FirstMatchIsWinner(Genesis(), ctx);
    GenesisWinner(ctx);
  }
}
