/** Which rule lists let a policy check lower the severity. A check only lowers it out of Lockdown, when the rule that
    decides escalates to Chaos; whether some message brings that about can be read off a list of rules by trying
    finitely many contexts. */
module SeverityTest {
  import opened Wrappers
  import opened Rules
  import opened Governance

  // ----- messages and rules of the kernel

  /** What a message of the kernel can carry; its sender's priority comes from the process table, where it is at most
      4. */
  predicate Buildable(m: Message)
  {
    && m.sender < 0x1_0000_0000 && m.receiver < 0x1_0000_0000 && m.msgType < 0x1_0000 && m.resourceKind < 0x1_0000
    && m.priority <= 4
  }

  /** What the rule table holds. */
  predicate Loadable(rules: seq<Rule>)
  {
    |rules| <= MAX_RULES && forall i {:trigger rules[i]} :: 0 <= i < |rules| ==> |rules[i].conditions| <= MAX_CONDITIONS
  }

  const MAX_CONDITIONS: nat := 4

  // ----- a value that no rule names

  function Without(q: seq<nat>, v: nat): (r: seq<nat>)
    ensures |r| <= |q| && (v in q ==> |r| < |q|)
    ensures forall x :: x in r <==> x in q && x != v
  {
    if q == [] then [] else if q[0] == v then Without(q[1..], v) else [q[0]] + Without(q[1..], v)
  }

  /** The least value from v on that is not in the list. */
  function Unnamed(q: seq<nat>, v: nat): (r: nat)
    ensures r !in q && v <= r <= v + |q|
    decreases |q|
  {
    if v !in q then v else Unnamed(Without(q, v), v + 1)
  }

  datatype Field = Sender | Receiver | MsgType | ResourceKind

  /** The value that a condition asks a field to have. */
  function NamedBy(c: Condition, f: Field): seq<nat>
  {
    match c
    case SenderEquals(v) => if f == Sender then [v % 0x1_0000_0000] else []
    case ReceiverEquals(v) => if f == Receiver then [v % 0x1_0000_0000] else []
    case MsgTypeEquals(v) => if f == MsgType then [v % 0x1_0000] else []
    case ResourceKindEquals(v) => if f == ResourceKind then [v % 0x1_0000] else []
    case SenderNotButler => if f == Sender then [1] else []
    case _ => []
  }

  function NamedIn(cs: seq<Condition>, f: Field): (r: seq<nat>)
    ensures |r| <= |cs|
  {
    if cs == [] then [] else NamedBy(cs[0], f) + NamedIn(cs[1..], f)
  }

  /** The values that the rules ask a field to have. */
  function Named(rules: seq<Rule>, f: Field): seq<nat>
  {
    if rules == [] then [] else NamedIn(rules[0].conditions, f) + Named(rules[1..], f)
  }

  lemma {:induction false} NamedInHas(cs: seq<Condition>, f: Field, i: nat, v: nat)
    requires i < |cs| && v in NamedBy(cs[i], f)
    ensures v in NamedIn(cs, f)
    decreases |cs|
  {
    if i > 0 {
      NamedInHas(cs[1..], f, i - 1, v);
    }
  }

  lemma {:induction false} NamedHas(rules: seq<Rule>, f: Field, k: nat, v: nat)
    requires k < |rules| && v in NamedIn(rules[k].conditions, f)
    ensures v in Named(rules, f)
    decreases |rules|
  {
    if k > 0 {
      NamedHas(rules[1..], f, k - 1, v);
    }
  }

  lemma {:induction false} NamedIsShort(rules: seq<Rule>, f: Field, n: nat)
    requires |rules| <= n
    requires forall i {:trigger rules[i]} :: 0 <= i < |rules| ==> |rules[i].conditions| <= MAX_CONDITIONS
    ensures |Named(rules, f)| <= 4 * n
    decreases |rules|
  {
    if rules != [] {
      assert |rules[0].conditions| <= MAX_CONDITIONS;
      NamedIsShort(rules[1..], f, n - 1);
    }
  }

  function Other(rules: seq<Rule>, f: Field): nat { Unnamed(Named(rules, f), 0) }

  // ----- the contexts to try

  predicate Tried(rules: seq<Rule>, f: Field, x: nat) { x in Named(rules, f) || x == Other(rules, f) }

  /** In Lockdown, with each field one that a rule names or one value that no rule names. */
  predicate Sample(rules: seq<Rule>, ctx: Context)
  {
    && ctx.safety == Lockdown && !ctx.tierEscalated && ctx.priority <= 4
    && Tried(rules, Sender, ctx.sender) && Tried(rules, Receiver, ctx.receiver)
    && Tried(rules, MsgType, ctx.msgType) && Tried(rules, ResourceKind, ctx.resourceKind)
  }

  function Pull(rules: seq<Rule>, f: Field, x: nat): nat { if x in Named(rules, f) then x else Other(rules, f) }

  /** The sample that the rules cannot tell from a context. */
  function SampleOf(rules: seq<Rule>, ctx: Context): Context
  {
    ctx.(sender := Pull(rules, Sender, ctx.sender), receiver := Pull(rules, Receiver, ctx.receiver),
         msgType := Pull(rules, MsgType, ctx.msgType), resourceKind := Pull(rules, ResourceKind, ctx.resourceKind))
  }

  lemma SameHolds(rules: seq<Rule>, c: Condition, ctx: Context)
    requires forall f, v {:trigger v in NamedBy(c, f)} :: v in NamedBy(c, f) ==> v in Named(rules, f)
    ensures Holds(c, SampleOf(rules, ctx)) <==> Holds(c, ctx)
  {
    match c
    case SenderEquals(v) => assert v % 0x1_0000_0000 in NamedBy(c, Sender);
    case ReceiverEquals(v) => assert v % 0x1_0000_0000 in NamedBy(c, Receiver);
    case MsgTypeEquals(v) => assert v % 0x1_0000 in NamedBy(c, MsgType);
    case ResourceKindEquals(v) => assert v % 0x1_0000 in NamedBy(c, ResourceKind);
    case SenderNotButler => assert 1 in NamedBy(c, Sender);
    case _ =>
  }

  lemma SameMatches(rules: seq<Rule>, k: nat, ctx: Context)
    requires k < |rules|
    ensures Matches(rules[k], SampleOf(rules, ctx)) <==> Matches(rules[k], ctx)
  {
    var cs := rules[k].conditions;
    forall i | 0 <= i < |cs|
      ensures Holds(cs[i], SampleOf(rules, ctx)) <==> Holds(cs[i], ctx)
    {
      forall f, v | v in NamedBy(cs[i], f)
        ensures v in Named(rules, f)
      {
        NamedInHas(cs, f, i, v);
        NamedHas(rules, f, k, v);
      }
      SameHolds(rules, cs[i], ctx);
    }
  }

  /** A context and its sample are decided by the same rule. */
  lemma {:induction false} SameFirst(rules: seq<Rule>, k: nat, ctx: Context)
    requires k <= |rules|
    ensures First(rules[k..], SampleOf(rules, ctx)) == First(rules[k..], ctx)
    decreases |rules| - k
  {
    if k < |rules| {
      assert rules[k..][0] == rules[k] && rules[k..][1..] == rules[k + 1..];
      SameMatches(rules, k, ctx);
      SameFirst(rules, k + 1, ctx);
    }
  }

  // ----- the test

  predicate Escalates(rules: seq<Rule>, ctx: Context) { ActionOf(First(rules, ctx)) == EscalateToChaos }

  /** The test: no sample is escalated to Chaos. */
  ghost predicate NoSampleEscalates(rules: seq<Rule>)
  {
    forall ctx {:trigger Escalates(rules, ctx)} :: Sample(rules, ctx) ==> !Escalates(rules, ctx)
  }

  ghost predicate Lowers(g: Gov, m: Message, council: bool)
  {
    Severity(EvaluatePolicy(g, m, council).0.safety.state) < Severity(g.safety.state)
  }

  lemma NoneLowered(g: Gov, m: Message, council: bool)
    requires NoSampleEscalates(g.rules) && m.priority <= 4
    ensures !Lowers(g, m, council)
  {
    var ctx := ContextOf(g, m);
    SameFirst(g.rules, 0, ctx);
    assert g.rules[0..] == g.rules;
    SeverityLoweredIff(g, m, council);
    assert !Sample(g.rules, SampleOf(g.rules, ctx)) || !Escalates(g.rules, SampleOf(g.rules, ctx));
  }

  lemma {:induction false} NamedFits(rules: seq<Rule>, f: Field, v: nat)
    requires v in Named(rules, f)
    ensures v < if f == Sender || f == Receiver then 0x1_0000_0000 else 0x1_0000
    decreases |rules|
  {
    if v in NamedIn(rules[0].conditions, f) {
      NamedInFits(rules[0].conditions, f, v);
    } else {
      NamedFits(rules[1..], f, v);
    }
  }

  lemma {:induction false} NamedInFits(cs: seq<Condition>, f: Field, v: nat)
    requires v in NamedIn(cs, f)
    ensures v < if f == Sender || f == Receiver then 0x1_0000_0000 else 0x1_0000
    decreases |cs|
  {
    if v !in NamedBy(cs[0], f) {
      NamedInFits(cs[1..], f, v);
    }
  }

  lemma TriedFits(rules: seq<Rule>, f: Field, x: nat)
    requires Loadable(rules) && Tried(rules, f, x)
    ensures x < if f == Sender || f == Receiver then 0x1_0000_0000 else 0x1_0000
  {
    if x in Named(rules, f) {
      NamedFits(rules, f, x);
    } else {
      NamedIsShort(rules, f, MAX_RULES);
    }
  }

  /** Every sample is the context of a message of the kernel. */
  lemma SomeLowered(rules: seq<Rule>, ctx: Context) returns (g: Gov, m: Message)
    requires Loadable(rules) && Sample(rules, ctx) && Escalates(rules, ctx)
    ensures g.rules == rules && Buildable(m) && Lowers(g, m, false)
  {
    TriedFits(rules, Sender, ctx.sender);
    TriedFits(rules, Receiver, ctx.receiver);
    TriedFits(rules, MsgType, ctx.msgType);
    TriedFits(rules, ResourceKind, ctx.resourceKind);
    g := Start(false).(rules := rules);
    g := g.(safety := g.safety.(state := Lockdown), acs := g.acs.(state := ctx.acs));
    m := Message(ctx.sender, ctx.receiver, ctx.msgType, ctx.resourceKind, ctx.priority);
    assert ContextOf(g, m) == ctx;
    SeverityLoweredIff(g, m, false);
  }

  /** A rule list that the table can hold never lets a check lower the severity, in any state and for any message that
      the kernel can build, exactly when it passes the test. */
  lemma SeverityKeptIff(rules: seq<Rule>)
    requires Loadable(rules)
    ensures (forall g: Gov, m, council {:trigger Lowers(g, m, council)} ::
               g.rules == rules && Buildable(m) ==> !Lowers(g, m, council))
       <==> NoSampleEscalates(rules)
  {
    if NoSampleEscalates(rules) {
      forall g: Gov, m: Message, council: bool | g.rules == rules && Buildable(m)
        ensures !Lowers(g, m, council)
      {
        NoneLowered(g, m, council);
      }
    } else {
      var ctx :| Sample(rules, ctx) && Escalates(rules, ctx);
      var g, m := SomeLowered(rules, ctx);
    }
  }

  /** With the emergency rule alone, a check in Lockdown and Emergency moves to Chaos, whoever sends what. */
  lemma EmergencyRuleLowers(g: Gov, m: Message, council: bool)
    requires g.initialized && !g.glass.active && g.rules == [EMERGENCY_RULE]
    requires g.safety.state == Lockdown && g.acs.state == Emergency
    ensures EvaluatePolicy(g, m, council).0.safety.state == Chaos && Lowers(g, m, council)
  {
    MatchesOne(EMERGENCY_RULE, ContextOf(g, m));
    assert First(g.rules, ContextOf(g, m)) == Some(EMERGENCY_RULE);
  }

  /** The genesis rules can be loaded, and pass. */
  lemma GenesisPasses()
    ensures Loadable(Sorted(Genesis())) && NoSampleEscalates(Sorted(Genesis()))
  {
    SortedLoadable(Genesis());
    forall ctx | Sample(Sorted(Genesis()), ctx)
      ensures !Escalates(Sorted(Genesis()), ctx)
    {
      GenesisFirstMatch(ctx);
    }
  }

  lemma SortedLoadable(rules: seq<Rule>)
    requires Loadable(rules)
    ensures Loadable(Sorted(rules))
  {
    var s := Sorted(rules);
    SortedIsSorted(rules);
    forall i | 0 <= i < |s|
      ensures |s[i].conditions| <= MAX_CONDITIONS
    {
      assert s[i] in multiset(s);
      assert s[i] in rules;
    }
  }
}
