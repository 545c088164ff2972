/** The governance engine as values: safety state, authority continuity (ACS), break-glass and policy checks. */
module Governance {
  import Bits
  import opened Wrappers
  import opened Rules

  const ELEVATED_CLEAR: nat := 300_000
  const SAFE_BURNDOWN: nat := 1_800_000
  const ANOMALY_WINDOW: nat := 60_000
  const ANOMALY_BURST: nat := 3
  const ALARM_BURST: nat := 3
  const SIGNAL_WINDOW: nat := 1_000
  const ELEVATED_SUM: nat := 150
  const CHAOS_SUM: nat := 300
  const INSTANT: nat := 80
  const COOLDOWN: nat := 5_000
  const MAX_SIGNALS: nat := 32
  const DEGRADED_AFTER: nat := 3_600_000
  const CONTINGENCY_AFTER: nat := 7_200_000
  const EMERGENCY_AFTER: nat := 14_400_000
  const GLASS_EXPIRY: nat := 60_000

  // ----- safety

  datatype Kind = MemoryIntegrity | InstructionPointer | AcsTimeout | CapabilityFailure | CouncilDrift | IoAnomaly

  function Weight(k: Kind): nat
  {
    match k
    case MemoryIntegrity => 100
    case InstructionPointer => 90
    case AcsTimeout => 80
    case CapabilityFailure => 60
    case CouncilDrift => 40
    case IoAnomaly => 20
  }

  datatype Signal = Signal(tick: nat, weight: nat)

  datatype SafetyMachine = SafetyMachine(state: Safety, entered: nat, anomalies: nat, windowStart: nat, alarms: nat,
                                         transitions: nat, signals: seq<Signal>, lastEscalation: nat)

  function MoveTo(m: SafetyMachine, to: Safety, now: nat): SafetyMachine
  {
    if m.state == to then m else m.(state := to, entered := now, transitions := m.transitions + 1)
  }

  function SafetyTick(m: SafetyMachine, now: nat): SafetyMachine
  {
    if m.state == Elevated && SatSub(now, m.entered) >= ELEVATED_CLEAR then MoveTo(m, Normal, now)
    else if m.state == Safe && SatSub(now, m.entered) >= SAFE_BURNDOWN then MoveTo(m, Normal, now)
    else m
  }

  function ReportAnomaly(m: SafetyMachine, now: nat): SafetyMachine
  {
    var w := if SatSub(now, m.windowStart) >= ANOMALY_WINDOW then m.(anomalies := 0, windowStart := now) else m;
    var c := w.(anomalies := w.anomalies + 1);
    if c.state == Normal && c.anomalies >= ANOMALY_BURST then MoveTo(c, Elevated, now).(anomalies := 0) else c
  }

  function ReportAlarm(m: SafetyMachine, now: nat): SafetyMachine
  {
    var c := m.(alarms := m.alarms + 1);
    if c.state == Elevated && c.alarms >= ALARM_BURST then MoveTo(c, Chaos, now).(alarms := 0) else c
  }

  function HumanConfirm(m: SafetyMachine, now: nat): (SafetyMachine, bool)
  {
    if m.state == Lockdown then (MoveTo(m, Safe, now), true) else (m, false)
  }

  /** The signals from a tick on, in order. */
  function Fresh(s: seq<Signal>, from: nat): seq<Signal>
    decreases |s|
  {
    if s == [] then []
    else Fresh(s[..|s| - 1], from) + if s[|s| - 1].tick >= from then [s[|s| - 1]] else []
  }

  function Total(s: seq<Signal>): nat
    decreases |s|
  {
    if s == [] then 0 else Total(s[..|s| - 1]) + s[|s| - 1].weight
  }

  function Escalate(m: SafetyMachine, to: Safety, now: nat): SafetyMachine
  {
    MoveTo(m, to, now).(lastEscalation := now)
  }

  function ReportSignal(m: SafetyMachine, kind: Kind, now: nat): SafetyMachine
  {
    var cool := SatSub(now, m.lastEscalation) >= COOLDOWN;
    if Weight(kind) >= INSTANT then
      if m.state == Normal && cool then Escalate(m, Elevated, now)
      else if m.state == Elevated && cool then Escalate(m, Chaos, now)
      else m
    else
      var kept := Fresh(m.signals, SatSub(now, SIGNAL_WINDOW));
      var signals := if |kept| < MAX_SIGNALS then kept + [Signal(now, Weight(kind))] else kept;
      var n := m.(signals := signals);
      if cool && n.state == Normal && Total(signals) >= ELEVATED_SUM then Escalate(n, Elevated, now).(signals := [])
      else if cool && n.state == Elevated && Total(signals) >= CHAOS_SUM then Escalate(n, Chaos, now).(signals := [])
      else n
  }

  // ----- authority continuity

  datatype AcsMachine = AcsMachine(state: Acs, last: nat, alternate: bool, transitions: nat, triggered: bool)

  function AcsMove(m: AcsMachine, to: Acs): AcsMachine
  {
    if m.state == to then m else m.(state := to, transitions := m.transitions + 1)
  }

  function AcsTick(m: AcsMachine, now: nat): AcsMachine
  {
    var elapsed := SatSub(now, m.last);
    match m.state
    case Active => if elapsed >= DEGRADED_AFTER then AcsMove(m, Degraded) else m
    case Degraded =>
      if elapsed >= CONTINGENCY_AFTER && m.alternate then AcsMove(m, Contingency)
      else if elapsed >= EMERGENCY_AFTER then AcsMove(m, Emergency).(triggered := true)
      else m
    case Contingency => if elapsed >= EMERGENCY_AFTER then AcsMove(m, Emergency).(triggered := true) else m
    case Emergency => m
  }

  function Heartbeat(m: AcsMachine, now: nat): AcsMachine
  {
    AcsMove(m.(last := now), Active)
  }

  // ----- break-glass

  datatype Glass = Glass(active: bool, activated: nat, expiry: nat, logged: nat, activations: nat)

  function Activate(b: Glass, now: nat): Glass
  {
    Glass(true, now, now + GLASS_EXPIRY, 0, b.activations + 1)
  }

  function CheckAndActivate(b: Glass, safety: Safety, acs: Acs, now: nat): Glass
  {
    if b.active then (if now >= b.expiry then b.(active := false) else b)
    else if safety == Lockdown && acs == Emergency then Activate(b, now)
    else b
  }

  function CheckExpiry(b: Glass, now: nat): Glass
  {
    if b.active && now >= b.expiry then b.(active := false) else b
  }

  function CheckRecovery(b: Glass, safety: Safety): Glass
  {
    if b.active && (safety == Normal || safety == Elevated) then b.(active := false) else b
  }

  // ----- the engine

  datatype Gov = Gov(rules: seq<Rule>, safety: SafetyMachine, acs: AcsMachine, glass: Glass, tick: nat,
                     evaluations: nat, denials: nat, bypasses: nat, initialized: bool)

  function Tick(g: Gov): Gov
  {
    var now := g.tick + 1;
    var acs := AcsTick(g.acs, now);
    var calm := SafetyTick(g.safety, now);
    var safety := if acs.triggered then MoveTo(calm, Lockdown, now) else calm;
    var checked := CheckAndActivate(g.glass, safety.state, acs.state, now);
    g.(tick := now, acs := acs.(triggered := false), safety := safety,
       glass := CheckRecovery(CheckExpiry(checked, now), safety.state))
  }

  /** What a policy check knows about a message. */
  datatype Message = Message(sender: nat, receiver: nat, msgType: nat, resourceKind: nat, priority: nat)

  function ContextOf(g: Gov, m: Message): Context
  {
    Context(m.sender, m.receiver, m.msgType, m.resourceKind, m.priority, g.safety.state, g.acs.state, false)
  }

  /** Whether a verdict lets the message through. */
  predicate Passes(a: Action) { a == Allow || a == AllowIfCapValid }

  function Denied(g: Gov): (Gov, bool) { (g.(denials := g.denials + 1), false) }

  /** The policy check; `council` is what the second tier would answer. The flag says whether the message may go. */
  function EvaluatePolicy(g: Gov, m: Message, council: bool): (Gov, bool)
  {
    if !g.initialized then (g, true)
    else if g.glass.active then
      (g.(glass := g.glass.(logged := g.glass.logged + 1), bypasses := g.bypasses + 1,
          evaluations := g.evaluations + 1),
       true)
    else
      var seen := g.(evaluations := g.evaluations + 1);
      match ActionOf(First(g.rules, ContextOf(g, m)))
      case Allow => (seen, true)
      case AllowIfCapValid => (seen, true)
      case Deny => Denied(seen)
      case DenyAndLog => Denied(seen)
      case EscalateToChaos =>
        var forced := seen.(safety := MoveTo(seen.safety, Chaos, seen.tick));
        if Passes(ActionOf(First(g.rules, ContextOf(forced, m)))) then (forced, true) else Denied(forced)
      case EscalateToTier2 => if council then (seen, true) else Denied(seen)
  }

  // ----- what the genesis rules decide

  /** The policy in one line. */
  predicate Permitted(m: Message, safety: Safety, acs: Acs)
  {
    || m.sender == 1
    || (&& m.sender != 0 && acs != Emergency && safety != Lockdown
        && (safety == Chaos ==> m.priority >= 4)
        && (Severity(safety) >= Severity(Elevated) ==> m.priority >= 2))
  }

  /** With the genesis rules loaded and no bypass, a message may go exactly when the policy permits it. */
  lemma GenesisPolicy(g: Gov, m: Message, council: bool)
    requires g.initialized && !g.glass.active && g.rules == Sorted(Genesis())
    ensures EvaluatePolicy(g, m, council).1 <==> Permitted(m, g.safety.state, g.acs.state)
  {
    GenesisFirstMatch(ContextOf(g, m));
    GenesisFirstMatch(ContextOf(g.(safety := MoveTo(g.safety, Chaos, g.tick)), m));
  }

  /** For any rules: a check lowers the severity exactly when a rule escalates to Chaos out of Lockdown. */
  lemma SeverityLoweredIff(g: Gov, m: Message, council: bool)
    ensures Severity(EvaluatePolicy(g, m, council).0.safety.state) < Severity(g.safety.state)
       <==> g.initialized && !g.glass.active && g.safety.state == Lockdown
            && ActionOf(First(g.rules, ContextOf(g, m))) == EscalateToChaos
  {
  }

  /** With the genesis rules a check never lowers the severity. */
  lemma GenesisNeverLowers(g: Gov, m: Message, council: bool)
    requires g.rules == Sorted(Genesis())
    ensures Severity(EvaluatePolicy(g, m, council).0.safety.state) >= Severity(g.safety.state)
  {
    SeverityLoweredIff(g, m, council);
    GenesisFirstMatch(ContextOf(g, m));
  }

  // ----- runs

  datatype Event =
    | EvTick
    | EvHeartbeat
    | EvAnomaly
    | EvAlarm
    | EvSignal(kind: Kind)
    | EvLockdown
    | EvConfirm
    | EvBreakGlass
    | EvCheck(message: Message, council: bool)

  function Step(g: Gov, e: Event): Gov
  {
    match e
    case EvTick => Tick(g)
    case EvHeartbeat => g.(acs := Heartbeat(g.acs, g.tick))
    case EvAnomaly => g.(safety := ReportAnomaly(g.safety, g.tick))
    case EvAlarm => g.(safety := ReportAlarm(g.safety, g.tick))
    case EvSignal(k) => g.(safety := ReportSignal(g.safety, k, g.tick))
    case EvLockdown => g.(safety := MoveTo(g.safety, Lockdown, g.tick))
    case EvConfirm => g.(safety := HumanConfirm(g.safety, g.tick).0)
    case EvBreakGlass => g.(glass := Activate(g.glass, g.tick))
    case EvCheck(m, council) => EvaluatePolicy(g, m, council).0
  }

  /** The engine after its start, with or without an alternate authority. */
  function Start(alternate: bool): Gov
  {
    Gov(Sorted(Genesis()), SafetyMachine(Normal, 0, 0, 0, 0, 0, [], 0), AcsMachine(Active, 0, alternate, 0, false),
        Glass(false, 0, 0, 0, 0), 0, 0, 0, 0, true)
  }

  function Run(alternate: bool, es: seq<Event>): Gov
    decreases |es|
  {
    if es == [] then Start(alternate) else Step(Run(alternate, es[..|es| - 1]), es[|es| - 1])
  }

  /** The ACS state as a function of the ticks since the last heartbeat. */
  function AcsAfter(elapsed: nat, alternate: bool): Acs
  {
    if elapsed < DEGRADED_AFTER then Active
    else if elapsed < CONTINGENCY_AFTER then Degraded
    else if elapsed < EMERGENCY_AFTER then (if alternate then Contingency else Degraded)
    else Emergency
  }

  ghost predicate GovInv(g: Gov, alternate: bool)
  {
    && g.initialized && g.rules == Sorted(Genesis())
    && g.acs.alternate == alternate && g.acs.last <= g.tick && !g.acs.triggered
    && g.acs.state == AcsAfter(g.tick - g.acs.last, alternate)
    && (g.glass.active ==> g.glass.activated <= g.tick < g.glass.activated + GLASS_EXPIRY == g.glass.expiry)
  }

  lemma StepKeeps(g: Gov, e: Event, alternate: bool)
    requires GovInv(g, alternate)
    ensures GovInv(Step(g, e), alternate)
  {
  }

  /** In every reachable state the ACS state is that function of the ticks since the last heartbeat, and an active
      break-glass is less than 60,000 ticks old. */
  lemma {:induction false} EveryRunInv(alternate: bool, es: seq<Event>)
    ensures GovInv(Run(alternate, es), alternate)
    decreases |es|
  {
    if es != [] {
      EveryRunInv(alternate, es[..|es| - 1]);
      StepKeeps(Run(alternate, es[..|es| - 1]), es[|es| - 1], alternate);
    }
  }

  /** The tick on which the authority is given up ends in Lockdown, and with the break-glass open unless an earlier
      activation expires on that very tick. */
  lemma EmergencyLocksDown(g: Gov, alternate: bool)
    requires GovInv(g, alternate) && g.acs.state != Emergency && Tick(g).acs.state == Emergency
    ensures Tick(g).safety.state == Lockdown
    ensures Tick(g).glass.active <==> !(g.glass.active && g.tick + 1 >= g.glass.expiry)
  {
  }

  /** After each tick an active break-glass is young, and safety is neither Normal nor Elevated. */
  lemma GlassAfterTick(alternate: bool, es: seq<Event>)
    requires es != [] && es[|es| - 1] == EvTick
    ensures var g := Run(alternate, es);
      g.glass.active ==>
        && g.tick - g.glass.activated < GLASS_EXPIRY
        && g.safety.state != Normal && g.safety.state != Elevated
  {
    EveryRunInv(alternate, es);
  }

  lemma LockdownHolds(g: Gov, e: Event)
    requires g.rules == Sorted(Genesis()) && g.safety.state == Lockdown && e != EvConfirm
    ensures Step(g, e).safety.state == Lockdown
  {
    if e.EvCheck? {
      GenesisFirstMatch(ContextOf(g, e.message));
    }
  }

  /** Lockdown is left only by human confirmation: without one it lasts through any further events. */
  lemma {:induction false} LockdownLasts(alternate: bool, es: seq<Event>, more: seq<Event>)
    requires Run(alternate, es).safety.state == Lockdown && EvConfirm !in more
    ensures Run(alternate, es + more).safety.state == Lockdown
    decreases |more|
  {
    if more == [] {
      assert es + more == es;
    } else {
      var init, last := more[..|more| - 1], more[|more| - 1];
      assert (es + more)[..|es + more| - 1] == es + init;
      LockdownLasts(alternate, es, init);
      EveryRunInv(alternate, es + init);
      LockdownHolds(Run(alternate, es + init), last);
    }
  }

  // ----- how long the break-glass stays open

  function Ticks(g: Gov, n: nat): Gov
  {
    if n == 0 then g else Tick(Ticks(g, n - 1))
  }

  /** k ticks after an activation, in Lockdown and Emergency. */
  ghost predicate InCycle(g: Gov, k: nat)
  {
    && g.safety.state == Lockdown && g.acs.state == Emergency && !g.acs.triggered
    && k <= GLASS_EXPIRY && (g.glass.active <==> k < GLASS_EXPIRY)
    && (g.glass.active ==> g.glass.expiry + k == g.tick + GLASS_EXPIRY)
  }

  lemma NextRemainder(n: nat, m: nat)
    requires m > 0
    ensures (n + 1) % m == if n % m == m - 1 then 0 else n % m + 1
  {
    if n % m == m - 1 {
      assert n + 1 == m * (n / m + 1);
      Bits.DivUnique(n + 1, m, n / m + 1, 0);
    } else {
      Bits.DivUnique(n + 1, m, n / m, n % m + 1);
    }
  }

  /** While Lockdown and Emergency last, the break-glass is reopened one tick after it expires: it is closed on one tick
      in every 60,001. */
  lemma {:induction false} GlassCycle(g: Gov, n: nat)
    requires InCycle(g, 0)
    ensures InCycle(Ticks(g, n), n % (GLASS_EXPIRY + 1))
    decreases n
  {
    if n > 0 {
      GlassCycle(g, n - 1);
      NextRemainder(n - 1, GLASS_EXPIRY + 1);
    }
  }
}
