/** The governance engine as the kernel keeps it: state machines and counters updated in place. */
module GovernanceEngine {
  import opened Wrappers
  import opened Rules
  import Model = Governance
  import opened Table = RuleEngine

  type Signal = Model.Signal

  lemma FreshStep(s: seq<Signal>, r: nat, from: nat)
    requires r < |s|
    ensures Model.Fresh(s[..r + 1], from) == Model.Fresh(s[..r], from) + if s[r].tick >= from then [s[r]] else []
  {
    assert s[..r + 1][..r] == s[..r];
  }

  lemma TotalStep(s: seq<Signal>, r: nat)
    requires r < |s|
    ensures Model.Total(s[..r + 1]) == Model.Total(s[..r]) + s[r].weight
  {
    assert s[..r + 1][..r] == s[..r];
  }

  class SafetyStateMachine {
    var state: Safety
    var entered: nat
    var anomalies: nat
    var windowStart: nat
    var alarms: nat
    var transitions: nat
    const buffer: array<Signal>
    var signalCount: nat
    var lastEscalation: nat

    ghost predicate Valid()
      reads this
    {
      buffer.Length == Model.MAX_SIGNALS && signalCount <= Model.MAX_SIGNALS
    }

    ghost function Abs(): Model.SafetyMachine
      requires Valid()
      reads this, buffer
    {
      Model.SafetyMachine(state, entered, anomalies, windowStart, alarms, transitions, buffer[..signalCount],
                          lastEscalation)
    }

    constructor ()
      ensures Valid() && fresh(buffer)
      ensures Abs() == Model.SafetyMachine(Normal, 0, 0, 0, 0, 0, [], 0)
    {
      state, entered, anomalies, windowStart, alarms := Normal, 0, 0, 0, 0;
      transitions, signalCount, lastEscalation := 0, 0, 0;
      buffer := new Signal[Model.MAX_SIGNALS](_ => Model.Signal(0, 0));
    }

    method MoveTo(to: Safety, now: nat)
      requires Valid()
      modifies this`state, this`entered, this`transitions
      ensures Valid() && Abs() == Model.MoveTo(old(Abs()), to, now)
    {
      if state != to {
        state, entered, transitions := to, now, transitions + 1;
      }
    }

    method Tick(now: nat)
      requires Valid()
      modifies this`state, this`entered, this`transitions
      ensures Valid() && Abs() == Model.SafetyTick(old(Abs()), now)
    {
      if state == Elevated {
        if SatSub(now, entered) >= Model.ELEVATED_CLEAR {
          MoveTo(Normal, now);
        }
      } else if state == Safe {
        if SatSub(now, entered) >= Model.SAFE_BURNDOWN {
          MoveTo(Normal, now);
        }
      }
    }

    method ReportAnomaly(now: nat)
      requires Valid()
      modifies this
      ensures Valid() && Abs() == Model.ReportAnomaly(old(Abs()), now)
    {
      if SatSub(now, windowStart) >= Model.ANOMALY_WINDOW {
        anomalies, windowStart := 0, now;
      }
      anomalies := anomalies + 1;
      if state == Normal && anomalies >= Model.ANOMALY_BURST {
        MoveTo(Elevated, now);
        anomalies := 0;
      }
    }

    method ReportAlarm(now: nat)
      requires Valid()
      modifies this
      ensures Valid() && Abs() == Model.ReportAlarm(old(Abs()), now)
    {
      alarms := alarms + 1;
      if state == Elevated && alarms >= Model.ALARM_BURST {
        MoveTo(Chaos, now);
        alarms := 0;
      }
    }

    method HumanConfirm(now: nat) returns (ok: bool)
      requires Valid()
      modifies this
      ensures Valid() && (Abs(), ok) == Model.HumanConfirm(old(Abs()), now)
    {
      if state != Lockdown {
        return false;
      }
      MoveTo(Safe, now);
      return true;
    }

    /** Compacts the buffer in place: the signals from a tick on move to the front, in order. */
    method Evict(from: nat)
      requires Valid()
      modifies this`signalCount, buffer
      ensures Valid() && buffer[..signalCount] == Model.Fresh(old(buffer[..signalCount]), from)
    {
      ghost var was := buffer[..signalCount];
      var write := 0;
      var read := 0;
      while read < signalCount
        invariant 0 <= write <= read <= signalCount
        invariant buffer[..write] == Model.Fresh(was[..read], from)
        invariant forall k {:trigger buffer[k]} :: read <= k < signalCount ==> buffer[k] == was[k]
        modifies buffer
      {
        FreshStep(was, read, from);
        if buffer[read].tick >= from {
          buffer[write] := buffer[read];
          write := write + 1;
        }
        read := read + 1;
      }
      assert was[..|was|] == was;
      signalCount := write;
    }

    method WeightedSum() returns (sum: nat)
      requires Valid()
      ensures sum == Model.Total(buffer[..signalCount])
    {
      sum := 0;
      ghost var all := buffer[..signalCount];
      for i := 0 to signalCount
        invariant sum == Model.Total(all[..i])
      {
        TotalStep(all, i);
        sum := sum + buffer[i].weight;
      }
      assert all[..signalCount] == all;
    }

    method Escalate(to: Safety, now: nat)
      requires Valid()
      modifies this`state, this`entered, this`transitions, this`lastEscalation
      ensures Valid() && Abs() == Model.Escalate(old(Abs()), to, now)
    {
      MoveTo(to, now);
      lastEscalation := now;
    }

    method Record(kind: Model.Kind, now: nat)
      requires Valid()
      modifies this`signalCount, buffer
      ensures Valid()
      ensures var kept := Model.Fresh(old(buffer[..signalCount]), SatSub(now, Model.SIGNAL_WINDOW));
        buffer[..signalCount]
        == if |kept| < Model.MAX_SIGNALS then kept + [Model.Signal(now, Model.Weight(kind))] else kept
    {
      Evict(SatSub(now, Model.SIGNAL_WINDOW));
      if signalCount < Model.MAX_SIGNALS {
        buffer[signalCount] := Model.Signal(now, Model.Weight(kind));
        signalCount := signalCount + 1;
      }
    }

    method ReportSignal(kind: Model.Kind, now: nat)
      requires Valid()
      modifies this, buffer
      ensures Valid() && Abs() == Model.ReportSignal(old(Abs()), kind, now)
    {
      if Model.Weight(kind) >= Model.INSTANT {
        if SatSub(now, lastEscalation) >= Model.COOLDOWN {
          if state == Normal {
            Escalate(Elevated, now);
          } else if state == Elevated {
            Escalate(Chaos, now);
          }
        }
        return;
      }
      Record(kind, now);
      if SatSub(now, lastEscalation) >= Model.COOLDOWN {
        CheckSum(now);
      }
    }

    /** Escalates when the signals in the window weigh enough, and empties the window. */
    method CheckSum(now: nat)
      requires Valid()
      modifies this
      ensures Valid()
      ensures var m := old(Abs());
        Abs() == if m.state == Normal && Model.Total(m.signals) >= Model.ELEVATED_SUM then
                   Model.Escalate(m, Elevated, now).(signals := [])
                 else if m.state == Elevated && Model.Total(m.signals) >= Model.CHAOS_SUM then
                   Model.Escalate(m, Chaos, now).(signals := [])
                 else m
    {
      var sum := WeightedSum();
      if state == Normal && sum >= Model.ELEVATED_SUM {
        Escalate(Elevated, now);
        signalCount := 0;
      } else if state == Elevated && sum >= Model.CHAOS_SUM {
        Escalate(Chaos, now);
        signalCount := 0;
      }
    }
  }

  class AcsStateMachine {
    var state: Acs
    var last: nat
    var alternate: bool
    var transitions: nat
    var triggered: bool

    ghost function Abs(): Model.AcsMachine
      reads this
    {
      Model.AcsMachine(state, last, alternate, transitions, triggered)
    }

    constructor (alternate: bool)
      ensures Abs() == Model.AcsMachine(Active, 0, alternate, 0, false)
    {
      state, last, transitions, triggered := Active, 0, 0, false;
      this.alternate := alternate;
    }

    method MoveTo(to: Acs)
      modifies this`state, this`transitions
      ensures Abs() == Model.AcsMove(old(Abs()), to)
    {
      if state != to {
        state, transitions := to, transitions + 1;
      }
    }

    method Tick(now: nat)
      modifies this
      ensures Abs() == Model.AcsTick(old(Abs()), now)
    {
      var elapsed := SatSub(now, last);
      match state
      case Active =>
        if elapsed >= Model.DEGRADED_AFTER {
          MoveTo(Degraded);
        }
      case Degraded =>
        if elapsed >= Model.CONTINGENCY_AFTER && alternate {
          MoveTo(Contingency);
        } else if elapsed >= Model.EMERGENCY_AFTER {
          MoveTo(Emergency);
          triggered := true;
        }
      case Contingency =>
        if elapsed >= Model.EMERGENCY_AFTER {
          MoveTo(Emergency);
          triggered := true;
        }
      case Emergency =>
    }

    method Heartbeat(now: nat)
      modifies this
      ensures Abs() == Model.Heartbeat(old(Abs()), now)
    {
      last := now;
      if state != Active {
        MoveTo(Active);
      }
    }

    method TakeTrigger() returns (was: bool)
      modifies this`triggered
      ensures was == old(triggered) && Abs() == old(Abs()).(triggered := false)
    {
      was := triggered;
      triggered := false;
    }
  }

  class BreakGlass {
    var active: bool
    var activated: nat
    var expiry: nat
    var logged: nat
    var activations: nat

    ghost function Abs(): Model.Glass
      reads this
    {
      Model.Glass(active, activated, expiry, logged, activations)
    }

    constructor ()
      ensures Abs() == Model.Glass(false, 0, 0, 0, 0)
    {
      active, activated, expiry, logged, activations := false, 0, 0, 0, 0;
    }

    method Activate(now: nat)
      modifies this
      ensures Abs() == Model.Activate(old(Abs()), now)
    {
      active, activated, expiry := true, now, now + Model.GLASS_EXPIRY;
      logged, activations := 0, activations + 1;
    }

    method CheckExpiry(now: nat)
      modifies this`active
      ensures Abs() == Model.CheckExpiry(old(Abs()), now)
    {
      if active && now >= expiry {
        active := false;
      }
    }

    /** What a tick does: activation, expiry, recovery. */
    method Update(safety: Safety, acs: Acs, now: nat)
      modifies this
      ensures Abs() == Model.CheckRecovery(
                         Model.CheckExpiry(Model.CheckAndActivate(old(Abs()), safety, acs, now), now), safety)
    {
      if active {
        if now >= expiry {
          active := false;
        }
      } else if safety == Lockdown && acs == Emergency {
        Activate(now);
      }
      CheckExpiry(now);
      if active && (safety == Normal || safety == Elevated) {
        active := false;
      }
    }

    method LogOperation()
      modifies this`logged
      ensures Abs() == old(Abs()).(logged := old(logged) + 1)
    {
      logged := logged + 1;
    }
  }

  class Governor {
    const rules: Engine
    const safety: SafetyStateMachine
    const acs: AcsStateMachine
    const glass: BreakGlass
    var tick: nat
    var evaluations: nat
    var denials: nat
    var bypasses: nat
    var initialized: bool

    ghost predicate Valid()
      reads this, rules, safety
    {
      rules.Valid() && safety.Valid()
    }

    ghost function Abs(): Model.Gov
      requires Valid()
      reads this, rules, rules.table, safety, safety.buffer, acs, glass
    {
      Model.Gov(rules.Loaded(), safety.Abs(), acs.Abs(), glass.Abs(), tick, evaluations, denials, bypasses, initialized)
    }

    /** A new engine with the genesis rules loaded. */
    constructor (alternate: bool)
      ensures Valid() && Abs() == Model.Start(alternate)
    {
      var table := new Engine();
      var machine := new SafetyStateMachine();
      var authority := new AcsStateMachine(alternate);
      var bypass := new BreakGlass();
      rules, safety, acs, glass := table, machine, authority, bypass;
      tick, evaluations, denials, bypasses, initialized := 0, 0, 0, 0, true;
      new;
      rules.LoadRules(Genesis());
    }

    /** The timers of the two state machines; entering Emergency forces Lockdown. */
    method AdvanceMachines(now: nat)
      requires safety.Valid()
      modifies safety, acs
      ensures safety.Valid()
      ensures var a := Model.AcsTick(old(acs.Abs()), now);
        var calm := Model.SafetyTick(old(safety.Abs()), now);
        && acs.Abs() == a.(triggered := false)
        && safety.Abs() == if a.triggered then Model.MoveTo(calm, Lockdown, now) else calm
    {
      safety.Tick(now);
      acs.Tick(now);
      var triggered := acs.TakeTrigger();
      if triggered {
        safety.MoveTo(Lockdown, now);
      }
    }

    method Tick()
      requires Valid()
      modifies this`tick, safety, acs, glass
      ensures Valid() && Abs() == Model.Tick(old(Abs()))
    {
      tick := tick + 1;
      AdvanceMachines(tick);
      glass.Update(safety.state, acs.state, tick);
    }

    method ActionFor(m: Model.Message) returns (a: Action)
      requires Valid()
      ensures a == ActionOf(First(rules.Loaded(), Model.ContextOf(Abs(), m)))
    {
      var ctx := Context(m.sender, m.receiver, m.msgType, m.resourceKind, m.priority, safety.state, acs.state, false);
      var r := rules.Evaluate(ctx);
      a := ActionOf(r);
    }

    /** Chaos is forced, and the rules are asked once more. */
    method ForceChaos(m: Model.Message) returns (ok: bool)
      requires Valid()
      modifies safety
      ensures Valid()
      ensures var forced := old(Abs()).(safety := Model.MoveTo(old(safety.Abs()), Chaos, tick));
        && Abs() == forced
        && ok == Model.Passes(ActionOf(First(forced.rules, Model.ContextOf(forced, m))))
    {
      safety.MoveTo(Chaos, tick);
      var again := ActionFor(m);
      ok := again == Allow || again == AllowIfCapValid;
    }

    /** The policy check before a message is sent; true means it may go. */
    method EvaluatePolicy(m: Model.Message, council: bool) returns (ok: bool)
      requires Valid()
      modifies this`evaluations, this`denials, this`bypasses, safety, glass
      ensures Valid() && Abs() == Model.EvaluatePolicy(old(Abs()), m, council).0
      ensures ok == Model.EvaluatePolicy(old(Abs()), m, council).1
    {
      if !initialized {
        return true;
      }
      if glass.active {
        glass.LogOperation();
        bypasses, evaluations := bypasses + 1, evaluations + 1;
        return true;
      }
      var action := ActionFor(m);
      evaluations := evaluations + 1;
      match action {
        case Allow => ok := true;
        case AllowIfCapValid => ok := true;
        case Deny => ok := false;
        case DenyAndLog => ok := false;
        case EscalateToChaos => ok := ForceChaos(m);
        case EscalateToTier2 => ok := council;
      }
      if !ok {
        denials := denials + 1;
      }
    }

    /** Any event, in any state the invariant describes. */
    method Handle(e: Model.Event, ghost alternate: bool)
      requires Valid() && Model.GovInv(Abs(), alternate)
      modifies this`tick, this`evaluations, this`denials, this`bypasses, safety, safety.buffer, acs, glass
      ensures Valid() && Abs() == Model.Step(old(Abs()), e) && Model.GovInv(Abs(), alternate)
    {
      Model.StepKeeps(Abs(), e, alternate);
      match e
      case EvTick => Tick();
      case EvHeartbeat => acs.Heartbeat(tick);
      case EvAnomaly => safety.ReportAnomaly(tick);
      case EvAlarm => safety.ReportAlarm(tick);
      case EvSignal(k) => safety.ReportSignal(k, tick);
      case EvLockdown => safety.MoveTo(Lockdown, tick);
      case EvConfirm => var _ := safety.HumanConfirm(tick);
      case EvBreakGlass => glass.Activate(tick);
      case EvCheck(m, council) => var _ := EvaluatePolicy(m, council);
    }
  }
}
