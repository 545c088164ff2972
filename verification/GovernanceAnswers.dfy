/** What a policy check answers on every path, and when the safety state moves, over every run. */
module GovernanceAnswers {
  import opened Wrappers
  import opened Rules
  import opened Governance

  // ----- the policy check

  /** w is the first rule of the list that matches, if any does. */
  ghost predicate Decides(rules: seq<Rule>, ctx: Context, w: Option<Rule>)
  {
    match w
    case None => forall i {:trigger rules[i]} :: 0 <= i < |rules| ==> !Matches(rules[i], ctx)
    case Some(r) =>
      exists i {:trigger rules[i]} ::
        && 0 <= i < |rules| && rules[i] == r && Matches(r, ctx)
        && forall j {:trigger rules[j]} :: 0 <= j < i ==> !Matches(rules[j], ctx)
  }

  lemma {:induction false} FirstDecides(rules: seq<Rule>, ctx: Context)
    ensures Decides(rules, ctx, First(rules, ctx))
    decreases |rules|
  {
    if rules != [] && !Matches(rules[0], ctx) {
      var rest := rules[1..];
      FirstDecides(rest, ctx);
      assert forall j {:trigger rules[j]} :: 0 < j < |rules| ==> rules[j] == rest[j - 1];
      var w := First(rest, ctx);
      if w.Some? {
        var i :| 0 <= i < |rest| && rest[i] == w.value && Matches(w.value, ctx)
          && forall j {:trigger rest[j]} :: 0 <= j < i ==> !Matches(rest[j], ctx);
        assert rules[i + 1] == w.value;
      }
    }
  }

  lemma OnlyOneDecides(rules: seq<Rule>, ctx: Context, v: Option<Rule>, w: Option<Rule>)
    requires Decides(rules, ctx, v) && Decides(rules, ctx, w)
    ensures v == w
  {
  }

  /** In a list in descending priority, the deciding rule has the highest priority of all that match. */
  lemma DecidesByPriority(rules: seq<Rule>, ctx: Context, r: Rule, x: Rule)
    requires Descending(rules) && Decides(rules, ctx, Some(r)) && x in rules && Matches(x, ctx)
    ensures x.priority <= r.priority
  {
  }

  /** What a policy check sees of a message in a safety state. */
  function Seen(g: Gov, m: Message, safety: Safety): Context
  {
    Context(m.sender, m.receiver, m.msgType, m.resourceKind, m.priority, safety, g.acs.state, false)
  }

  predicate Lets(w: Option<Rule>)
  {
    w == None || w.value.action == Allow || w.value.action == AllowIfCapValid
  }

  /** Whether a message may go, given the rule that decides and the one that would decide in Chaos. */
  predicate Verdict(w: Option<Rule>, inChaos: Option<Rule>, council: bool)
  {
    if w == None then true
    else
      match w.value.action
      case Allow => true
      case AllowIfCapValid => true
      case Deny => false
      case DenyAndLog => false
      case EscalateToTier2 => council
      case EscalateToChaos => Lets(inChaos)
  }

  /** Before the engine is set up every message may go, and nothing changes. */
  lemma UncheckedAnswer(g: Gov, m: Message, council: bool)
    requires !g.initialized
    ensures EvaluatePolicy(g, m, council) == (g, true)
  {
  }

  /** While the break-glass is open every message may go; the bypass is counted and logged, and nothing else changes. */
  lemma BypassAnswer(g: Gov, m: Message, council: bool)
    requires g.initialized && g.glass.active
    ensures var (r, ok) := EvaluatePolicy(g, m, council);
      && ok
      && r.bypasses == g.bypasses + 1 && r.evaluations == g.evaluations + 1 && r.glass.logged == g.glass.logged + 1
      && r == g.(bypasses := r.bypasses, evaluations := r.evaluations, glass := g.glass.(logged := r.glass.logged))
  {
  }

  /** Otherwise the first rule that matches decides, whatever the rules are; a message that may not go is counted, and
      only an escalation changes the safety state, to Chaos. */
  lemma PolicyAnswer(g: Gov, m: Message, council: bool, w: Option<Rule>, inChaos: Option<Rule>)
    requires g.initialized && !g.glass.active
    requires Decides(g.rules, Seen(g, m, g.safety.state), w) && Decides(g.rules, Seen(g, m, Chaos), inChaos)
    ensures var (r, ok) := EvaluatePolicy(g, m, council);
      && (ok <==> Verdict(w, inChaos, council))
      && r.evaluations == g.evaluations + 1 && r.denials == g.denials + (if ok then 0 else 1)
      && r == g.(evaluations := r.evaluations, denials := r.denials, safety := r.safety)
      && if w.Some? && w.value.action == EscalateToChaos && g.safety.state != Chaos
         then r.safety == g.safety.(state := Chaos, entered := g.tick, transitions := g.safety.transitions + 1)
         else r.safety == g.safety
  {
    var forced := g.(safety := MoveTo(g.safety, Chaos, g.tick));
    FirstDecides(g.rules, Seen(g, m, g.safety.state));
    FirstDecides(g.rules, Seen(g, m, Chaos));
    OnlyOneDecides(g.rules, Seen(g, m, g.safety.state), w, First(g.rules, Seen(g, m, g.safety.state)));
    OnlyOneDecides(g.rules, Seen(g, m, Chaos), inChaos, First(g.rules, Seen(g, m, Chaos)));
    assert ContextOf(g, m) == Seen(g, m, g.safety.state) && ContextOf(forced, m) == Seen(g, m, Chaos);
  }

  // ----- when the safety state moves

  predicate Moved(m: SafetyMachine, n: SafetyMachine, to: Safety, now: nat)
  {
    n.state == to && n.entered == now && n.transitions == m.transitions + 1
  }

  predicate Stayed(m: SafetyMachine, n: SafetyMachine)
  {
    n.state == m.state && n.entered == m.entered && n.transitions == m.transitions
  }

  /** Time clears Elevated after 300,000 ticks and Safe after 1,800,000. */
  lemma TimeMoves(m: SafetyMachine, now: nat)
    ensures var n := SafetyTick(m, now);
      if (m.state == Elevated && now >= m.entered + 300_000) || (m.state == Safe && now >= m.entered + 1_800_000)
      then Moved(m, n, Normal, now)
      else n == m
  {
  }

  /** The third anomaly of a window of 60,000 ticks raises Normal to Elevated. */
  lemma AnomalyMoves(m: SafetyMachine, now: nat)
    ensures var n := ReportAnomaly(m, now);
      var count := if now >= m.windowStart + 60_000 then 1 else m.anomalies + 1;
      && n.windowStart == (if now >= m.windowStart + 60_000 then now else m.windowStart)
      && if m.state == Normal && count >= 3 then Moved(m, n, Elevated, now) && n.anomalies == 0
         else Stayed(m, n) && n.anomalies == count
  {
  }

  /** The third alarm since the last such rise raises Elevated to Chaos. */
  lemma AlarmMoves(m: SafetyMachine, now: nat)
    ensures var n := ReportAlarm(m, now);
      if m.state == Elevated && m.alarms >= 2 then Moved(m, n, Chaos, now) && n.alarms == 0
      else Stayed(m, n) && n.alarms == m.alarms + 1
  {
  }

  /** The sum of the weights reported from a tick on. */
  ghost function SumFrom(s: seq<Signal>, from: int): nat
  {
    if s == [] then 0 else SumFrom(s[1..], from) + if s[0].tick >= from then s[0].weight else 0
  }

  ghost function CountFrom(s: seq<Signal>, from: int): nat
  {
    if s == [] then 0 else CountFrom(s[1..], from) + if s[0].tick >= from then 1 else 0
  }

  lemma {:induction false} SumFromInit(s: seq<Signal>, from: int)
    requires s != []
    ensures var last := s[|s| - 1];
      && SumFrom(s, from) == SumFrom(s[..|s| - 1], from) + (if last.tick >= from then last.weight else 0)
      && CountFrom(s, from) == CountFrom(s[..|s| - 1], from) + (if last.tick >= from then 1 else 0)
    decreases |s|
  {
    if |s| > 1 {
      SumFromInit(s[1..], from);
      assert s[1..][..|s| - 2] == s[..|s| - 1][1..];
    }
  }

  lemma SumFromPush(s: seq<Signal>, x: Signal, from: int)
    ensures SumFrom(s + [x], from) == SumFrom(s, from) + (if x.tick >= from then x.weight else 0)
  {
    SumFromInit(s + [x], from);
    assert (s + [x])[..|s|] == s;
  }

  lemma TotalPush(s: seq<Signal>, x: Signal)
    ensures Total(s + [x]) == Total(s) + x.weight
  {
    assert (s + [x])[..|s|] == s;
  }

  /** What is kept of a window weighs what was reported in it. */
  lemma {:induction false} FreshSum(s: seq<Signal>, from: nat)
    ensures var kept := Fresh(s, from);
      Total(kept) == SumFrom(kept, from) == SumFrom(s, from) && |kept| == CountFrom(s, from)
    decreases |s|
  {
    if s != [] {
      var init, last := s[..|s| - 1], s[|s| - 1];
      FreshSum(init, from);
      SumFromInit(s, from);
      if last.tick >= from {
        SumFromPush(Fresh(init, from), last, from);
        TotalPush(Fresh(init, from), last);
      } else {
        assert Fresh(s, from) == Fresh(init, from);
      }
    }
  }

  /** Integrity, instruction pointer and authority signals act at once. */
  predicate Critical(k: Kind) { k == MemoryIntegrity || k == InstructionPointer || k == AcsTimeout }

  predicate Rises(from: Safety, to: Safety) { (from == Normal && to == Elevated) || (from == Elevated && to == Chaos) }

  /** A critical signal raises Normal to Elevated and Elevated to Chaos, unless a signal did so in the last 5,000
      ticks. */
  lemma CriticalMoves(m: SafetyMachine, k: Kind, now: nat)
    requires Critical(k)
    ensures var n := ReportSignal(m, k, now);
      && n.signals == m.signals
      && if now >= m.lastEscalation + 5_000 && (m.state == Normal || m.state == Elevated)
         then Moved(m, n, n.state, now) && Rises(m.state, n.state) && n.lastEscalation == now
         else n == m
  {
  }

  function Lesser(k: Kind): nat
    requires !Critical(k)
  {
    if k == CapabilityFailure then 60 else if k == CouncilDrift then 40 else 20
  }

  /** The signals that a report leaves in the window. */
  function Window(m: SafetyMachine, k: Kind, now: nat): seq<Signal>
  {
    var kept := Fresh(m.signals, SatSub(now, 1_000));
    if |kept| < 32 then kept + [Signal(now, Weight(k))] else kept
  }

  lemma WindowSum(m: SafetyMachine, k: Kind, now: nat, from: nat)
    requires !Critical(k) && from == if now < 1_000 then 0 else now - 1_000
    ensures Total(Window(m, k, now)) == SumFrom(Window(m, k, now), from)
         == SumFrom(m.signals, from) + if CountFrom(m.signals, from) < 32 then Lesser(k) else 0
  {
    FreshSum(m.signals, from);
    SumFromPush(Fresh(m.signals, from), Signal(now, Weight(k)), from);
    TotalPush(Fresh(m.signals, from), Signal(now, Weight(k)));
  }

  /** A lesser signal does so when the signals of the last 1,000 ticks, 32 at most, with it weigh at least 150, or 300
      out of Elevated, and otherwise stays in the window. Capability failures weigh 60, council drift 40 and input
      anomalies 20. */
  lemma SignalMoves(m: SafetyMachine, k: Kind, now: nat, from: nat)
    requires !Critical(k) && from == if now < 1_000 then 0 else now - 1_000
    ensures var n := ReportSignal(m, k, now);
      var sum := SumFrom(m.signals, from) + if CountFrom(m.signals, from) < 32 then Lesser(k) else 0;
      if now >= m.lastEscalation + 5_000 && ((m.state == Normal && sum >= 150) || (m.state == Elevated && sum >= 300))
      then Moved(m, n, n.state, now) && Rises(m.state, n.state) && n.signals == [] && n.lastEscalation == now
      else n == m.(signals := n.signals) && SumFrom(n.signals, from) == sum
  {
    WindowSum(m, k, now, from);
    SignalCases(m, k, now, Window(m, k, now));
  }

  lemma SignalCases(m: SafetyMachine, k: Kind, now: nat, signals: seq<Signal>)
    requires !Critical(k) && signals == Window(m, k, now)
    ensures ReportSignal(m, k, now)
         == if now >= m.lastEscalation + 5_000 && m.state == Normal && Total(signals) >= 150
            then m.(signals := [], state := Elevated, entered := now, transitions := m.transitions + 1,
                    lastEscalation := now)
            else if now >= m.lastEscalation + 5_000 && m.state == Elevated && Total(signals) >= 300
            then m.(signals := [], state := Chaos, entered := now, transitions := m.transitions + 1,
                    lastEscalation := now)
            else m.(signals := signals)
  {
  }

  // ----- the break-glass

  predicate Opened(b: Glass, c: Glass, now: nat)
  {
    c.active && c.activated == now && c.expiry == now + 60_000 && c.logged == 0 && c.activations == b.activations + 1
  }

  /** The break-glass opens by hand at any time. */
  lemma HandOpens(g: Gov)
    ensures Opened(g.glass, Step(g, EvBreakGlass).glass, g.tick)
    ensures Step(g, EvBreakGlass) == g.(glass := Step(g, EvBreakGlass).glass)
  {
  }

  /** A tick opens a closed one exactly in Lockdown and Emergency, and closes an open one exactly when its time is up or
      safety is Normal or Elevated again. */
  lemma TickGlass(g: Gov)
    ensures var r := Tick(g);
      if g.glass.active then
        r.glass == g.glass.(active := r.tick < g.glass.expiry && r.safety.state != Normal && r.safety.state != Elevated)
      else if r.safety.state == Lockdown && r.acs.state == Emergency then Opened(g.glass, r.glass, r.tick)
      else r.glass == g.glass
  {
  }

  /** A tick locks down exactly when it gives up the authority; otherwise safety is as time alone leaves it. */
  lemma TickSafety(g: Gov, alternate: bool)
    requires GovInv(g, alternate)
    ensures var r := Tick(g);
      var gives := g.acs.state != Emergency && r.acs.state == Emergency;
      && r.tick == g.tick + 1
      && (gives ==> r.safety.state == Lockdown)
      && (!gives ==> r.safety == SafetyTick(g.safety, g.tick + 1))
  {
  }

  /** A confirmation ends Lockdown in Safe, and does nothing otherwise. */
  lemma ConfirmMoves(m: SafetyMachine, now: nat)
    ensures var (n, ok) := HumanConfirm(m, now);
      if m.state == Lockdown then ok && Moved(m, n, Safe, now) else !ok && n == m
  {
  }

  // ----- over runs

  /** Which event moves the safety state from where to where, with the genesis rules. */
  predicate Allowed(from: Safety, e: Event, to: Safety)
  {
    || to == from
    || (from == Normal && to == Elevated && (e == EvAnomaly || e.EvSignal?))
    || (from == Elevated && to == Chaos && (e == EvAlarm || e.EvSignal?))
    || ((from == Elevated || from == Safe) && to == Normal && e == EvTick)
    || (from != Lockdown && to == Chaos && e.EvCheck?)
    || (to == Lockdown && (e == EvLockdown || e == EvTick))
    || (from == Lockdown && to == Safe && e == EvConfirm)
  }

  lemma CheckAllowed(g: Gov, m: Message, council: bool)
    requires g.rules == Sorted(Genesis())
    ensures Allowed(g.safety.state, EvCheck(m, council), EvaluatePolicy(g, m, council).0.safety.state)
  {
    GenesisFirstMatch(ContextOf(g, m));
  }

  lemma StepAllowed(g: Gov, e: Event)
    requires g.rules == Sorted(Genesis())
    ensures Allowed(g.safety.state, e, Step(g, e).safety.state)
  {
    if e.EvCheck? {
      CheckAllowed(g, e.message, e.council);
    }
  }

  /** In every run the safety state moves only as its events allow. */
  lemma EveryMoveAllowed(alternate: bool, es: seq<Event>, e: Event)
    ensures Allowed(Run(alternate, es).safety.state, e, Run(alternate, es + [e]).safety.state)
  {
    assert (es + [e])[..|es|] == es;
    EveryRunInv(alternate, es);
    StepAllowed(Run(alternate, es), e);
  }

  /** Elevated and Safe end in time: in every reachable state Elevated is less than 300,000 ticks old, and Safe less
      than 1,800,000. */
  ghost predicate Young(g: Gov)
  {
    && g.safety.entered <= g.tick
    && (g.safety.state == Elevated ==> g.tick < g.safety.entered + 300_000)
    && (g.safety.state == Safe ==> g.tick < g.safety.entered + 1_800_000)
  }

  lemma {:induction false} EveryRunYoung(alternate: bool, es: seq<Event>)
    ensures Young(Run(alternate, es))
    decreases |es|
  {
    if es != [] {
      EveryRunYoung(alternate, es[..|es| - 1]);
      StepYoung(Run(alternate, es[..|es| - 1]), es[|es| - 1]);
    }
  }

  lemma StepYoung(g: Gov, e: Event)
    requires Young(g)
    ensures Young(Step(g, e))
  {
  }

  /** The ticks at which anomalies were reported. */
  ghost function Anomalies(alternate: bool, es: seq<Event>): seq<nat>
    decreases |es|
  {
    if es == [] then []
    else
      var init := es[..|es| - 1];
      Anomalies(alternate, init) + if es[|es| - 1] == EvAnomaly then [Run(alternate, init).tick] else []
  }

  /** The counter counts the last anomalies, none of them from before the window. */
  ghost predicate CountsLast(g: Gov, times: seq<nat>)
  {
    && g.safety.anomalies <= |times| && g.safety.windowStart <= g.tick
    && (forall i {:trigger times[i]} :: |times| - g.safety.anomalies <= i < |times| ==>
          g.safety.windowStart <= times[i] <= g.tick)
  }

  lemma StepCounts(g: Gov, e: Event, times: seq<nat>)
    requires CountsLast(g, times)
    ensures CountsLast(Step(g, e), times + if e == EvAnomaly then [g.tick] else [])
  {
  }

  lemma {:induction false} EveryRunCounts(alternate: bool, es: seq<Event>)
    ensures CountsLast(Run(alternate, es), Anomalies(alternate, es))
    decreases |es|
  {
    if es != [] {
      EveryRunCounts(alternate, es[..|es| - 1]);
      StepCounts(Run(alternate, es[..|es| - 1]), es[|es| - 1], Anomalies(alternate, es[..|es| - 1]));
    }
  }

  /** In every run: an anomaly raises Normal to Elevated only if at least three anomalies, with it, were reported within
      60,000 ticks. */
  lemma BurstRaises(alternate: bool, es: seq<Event>)
    requires Run(alternate, es).safety.state == Normal && Run(alternate, es + [EvAnomaly]).safety.state == Elevated
    ensures var times, now := Anomalies(alternate, es + [EvAnomaly]), Run(alternate, es).tick;
      && |times| >= 3 && times[|times| - 1] == now
      && now - times[|times| - 2] < 60_000 && now - times[|times| - 3] < 60_000
  {
    var g := Run(alternate, es);
    assert (es + [EvAnomaly])[..|es|] == es;
    EveryRunCounts(alternate, es);
    AnomalyMoves(g.safety, g.tick);
  }
}
