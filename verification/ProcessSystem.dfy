/** The process table and the scheduler as the kernel keeps them, updated in place. */
module ProcessSystem {
  import opened Wrappers
  import opened ProcessModel
  import ProcessInvariant
  import ProcessRuns
  import Supervision
  import Model = ProcessModel

  /** The queue without one process. */
  method Retain(q: seq<Pid>, p: Pid) returns (r: seq<Pid>)
    ensures r == Drop(q, {p})
  {
    r := [];
    for i := 0 to |q|
      invariant r + Drop(q[i..], {p}) == Drop(q, {p})
    {
      assert q[i..][1..] == q[i + 1..];
      if q[i] != p {
        r := r + [q[i]];
      }
    }
  }

  method RetainAll(qs: seq<seq<Pid>>, p: Pid) returns (r: seq<seq<Pid>>)
    ensures r == DropAll(qs, {p})
  {
    r := [];
    for l := 0 to |qs|
      invariant |r| == l && forall k {:trigger r[k]} :: 0 <= k < l ==> r[k] == Drop(qs[k], {p})
    {
      var kept := Retain(qs[l], p);
      r := r + [kept];
    }
  }

  /** The restart times still inside the window. */
  method RetainRecent(stamps: seq<nat>, now: nat, window: nat) returns (r: seq<nat>)
    ensures r == SaturatedRecent(stamps, now, window)
  {
    r := [];
    for i := 0 to |stamps|
      invariant r + SaturatedRecent(stamps[i..], now, window) == SaturatedRecent(stamps, now, window)
    {
      assert stamps[i..][1..] == stamps[i + 1..] && stamps[i..][0] == stamps[i];
      ghost var rest := SaturatedRecent(stamps[i + 1..], now, window);
      assert r + ([stamps[i]] + rest) == r + [stamps[i]] + rest && r + ([] + rest) == r + rest;
      if SatSub(now, stamps[i]) < window {
        r := r + [stamps[i]];
      }
    }
  }

  method RecordRestart(t: Tracker, now: nat) returns (t': Tracker, exceeded: bool)
    ensures (t', exceeded) == Record(t, now)
  {
    var recent := RetainRecent(t.stamps, now, t.window);
    var stamps := recent + [now];
    t' := t.(stamps := stamps);
    exceeded := |stamps| > t.max;
  }

  /** The children to restart under RestForOne. */
  method FilterLater(table: map<Pid, Pcb>, children: seq<Pid>, order: nat, ghost s: Sys) returns (r: seq<Pid>)
    requires table == s.table
    ensures r == Later(s, children, order)
  {
    r := [];
    for i := 0 to |children|
      invariant r + Later(s, children[i..], order) == Later(s, children, order)
    {
      assert children[i..][1..] == children[i + 1..];
      if children[i] in table && table[children[i]].spawnOrder >= order {
        r := r + [children[i]];
      }
    }
  }

  class Processes {
    var table: map<Pid, Pcb>
    var nextPid: Pid
    var queues: seq<seq<Pid>>
    var current: Option<Pid>
    var tick: nat
    var decisions: nat

    ghost function Abs(): Sys
      reads this
    {
      Sys(table, nextPid, queues, current, tick, decisions)
    }

    constructor ()
      ensures Abs() == Boot() && ProcessInvariant.Inv(Abs())
    {
      var b := NewPcb(Intent(Compute, 4, 0), KERNEL, OneForOne, 0, 0).(tracker := Tracker(1000, 60, []));
      table := map[BUTLER := b];
      nextPid := 2;
      queues := [[], [], [], [], [BUTLER]];
      current, tick, decisions := None, 0, 0;
      new;
      ProcessRuns.BootInv();
    }

    // ----- queues

    method Enqueue(p: Pid, eff: nat)
      requires |queues| == LEVELS
      modifies this`queues
      ensures Abs() == Model.Enqueue(old(Abs()), p, eff)
    {
      var level := Least(eff, LEVELS - 1);
      if p !in queues[level] {
        queues := queues[level := queues[level] + [p]];
      }
    }

    method Dequeue(p: Pid)
      modifies this`queues, this`current
      ensures Abs() == Model.Dequeue(old(Abs()), p)
    {
      queues := RetainAll(queues, p);
      if current == Some(p) {
        current := None;
      }
    }

    // ----- scheduling

    method RequeueCurrent()
      requires |queues| == LEVELS
      modifies this`current, this`table, this`queues
      ensures Abs() == Model.Requeue(old(Abs()))
    {
      if current.Some? {
        var p := current.value;
        current := None;
        if p in table && table[p].state == Running {
          table := table[p := table[p].(state := Ready)];
          Enqueue(p, table[p].eff);
        }
      }
    }

    /** The head of a queue leaves it, and runs if the table knows it. */
    method TakeHead(level: nat) returns (r: Option<Pid>)
      requires |queues| == LEVELS && level < LEVELS && queues[level] != []
      modifies this`current, this`table, this`queues, this`decisions
      ensures var p := old(queues)[level][0];
        var popped := old(Abs()).(queues := old(queues)[level := old(queues)[level][1..]]);
        if p in old(table) then r == Some(p) && Abs() == Dispatch(popped, p) else r == None && Abs() == popped
    {
      var p := queues[level][0];
      queues := queues[level := queues[level][1..]];
      if p !in table {
        return None;
      }
      var b := table[p];
      table := table[p := b.(state := Running, slice := SliceFor(b.eff), lastScheduled := tick)];
      current := Some(p);
      decisions := decisions + 1;
      return Some(p);
    }

    method ScheduleNext() returns (r: Option<Pid>)
      requires |queues| == LEVELS
      modifies this`current, this`table, this`queues, this`decisions
      ensures (Abs(), r) == Model.ScheduleNext(old(Abs()))
    {
      if current.Some? && current.value in table && table[current.value].state == Running
         && table[current.value].slice > 0 {
        return current;
      }
      RequeueCurrent();
      ghost var goal := Pick(Abs(), LEVELS);
      var level := LEVELS;
      while level > 0
        invariant 0 <= level <= LEVELS && |queues| == LEVELS
        invariant Pick(Abs(), level) == goal
      {
        level := level - 1;
        if queues[level] != [] {
          r := TakeHead(level);
          if r.Some? {
            return;
          }
        }
      }
      return None;
    }

    /** What aging is going to raise. */
    method CollectStarved() returns (rs: seq<Raise>)
      requires |queues| == LEVELS
      ensures rs == Raises(Abs(), LEVELS - 1)
    {
      rs := [];
      for level := 0 to LEVELS - 1
        invariant rs == Raises(Abs(), level)
      {
        rs := CollectFrom(level, rs);
      }
    }

    method CollectFrom(level: nat, before: seq<Raise>) returns (rs: seq<Raise>)
      requires |queues| == LEVELS && level < LEVELS
      ensures rs == before + RaisesIn(Abs(), queues[level], level)
    {
      var q := queues[level];
      rs := before;
      for j := 0 to |q|
        invariant rs + RaisesIn(Abs(), q[j..], level) == before + RaisesIn(Abs(), q, level)
      {
        assert q[j..][1..] == q[j + 1..];
        var p := q[j];
        if p in table && table[p].state == Ready {
          if SatSub(tick, table[p].lastScheduled) >= AGING_INTERVAL && table[p].eff < LEVELS - 1 {
            rs := rs + [Raise(p, level, table[p].eff + 1)];
          }
        }
      }
      assert q[|q|..] == [];
    }

    method RaiseOne(r: Raise)
      requires |queues| == LEVELS && r.level < LEVELS
      modifies this`queues, this`table
      ensures Abs() == Boost(old(Abs()), r.pid, r.level, r.eff)
    {
      var kept := Retain(queues[r.level], r.pid);
      queues := queues[r.level := kept];
      if r.pid in table {
        table := table[r.pid := table[r.pid].(eff := r.eff)];
      }
      var up := Least(r.eff, LEVELS - 1);
      queues := queues[up := queues[up] + [r.pid]];
    }

    method RunAging()
      requires |queues| == LEVELS
      modifies this`queues, this`table
      ensures Abs() == Model.RunAging(old(Abs()))
    {
      var rs := CollectStarved();
      RaisesFit(Abs(), LEVELS - 1);
      for i := 0 to |rs|
        invariant |queues| == LEVELS && RaisesOk(rs[i..])
        invariant BoostAll(Abs(), rs[i..]) == BoostAll(old(Abs()), rs)
      {
        assert rs[i..][1..] == rs[i + 1..] && rs[i..][0] == rs[i];
        RaiseOne(rs[i]);
      }
    }

    // ----- blocking

    method Reprioritize(p: Pid, eff: nat)
      requires |queues| == LEVELS && p in table
      modifies this`table, this`queues, this`current
      ensures Abs() == Model.Reprioritize(old(Abs()), p, eff)
    {
      table := table[p := table[p].(eff := eff)];
      Dequeue(p);
      if table[p].state == Ready || table[p].state == Running {
        Enqueue(p, eff);
      }
    }

    method ApplyInheritance(target: Pid, boost: nat, depth: nat)
      requires |queues| == LEVELS
      modifies this`table, this`queues, this`current
      ensures Abs() == Inherit(old(Abs()), target, boost, depth)
      decreases MAX_INHERITANCE_DEPTH - depth
    {
      if depth >= MAX_INHERITANCE_DEPTH {
        return;
      }
      if target in table && table[target].eff < boost {
        Reprioritize(target, boost);
        if table[target].blockedOn.Some? {
          ApplyInheritance(table[target].blockedOn.value, boost, depth + 1);
        }
      }
    }

    method Block(p: Pid, waitingOn: Option<Pid>) returns (r: Result<(), Error>)
      requires |queues| == LEVELS
      modifies this`table, this`queues, this`current
      ensures (Abs(), r) == Model.Block(old(Abs()), p, waitingOn)
    {
      if p !in table {
        return Err(NotFound);
      }
      if table[p].state != Running && table[p].state != Ready {
        return Err(InvalidState);
      }
      table := table[p := table[p].(state := Blocked, blockedOn := waitingOn)];
      Dequeue(p);
      if waitingOn.Some? {
        ApplyInheritance(waitingOn.value, table[p].eff, 0);
      }
      return Ok(());
    }

    method Unblock(p: Pid) returns (r: Result<(), Error>)
      requires |queues| == LEVELS
      modifies this`table, this`queues, this`current
      ensures (Abs(), r) == Model.Unblock(old(Abs()), p)
    {
      if p !in table {
        return Err(NotFound);
      }
      if table[p].state != Blocked {
        return Err(InvalidState);
      }
      var was := table[p].blockedOn;
      var b := table[p].(blockedOn := None, state := Ready, wake := tick);
      var eff := Woken(b, tick);
      table := table[p := b.(eff := eff)];
      Enqueue(p, eff);
      if was.Some? && was.value in table && table[was.value].eff != table[was.value].base {
        Reprioritize(was.value, table[was.value].base);
      }
      return Ok(());
    }

    // ----- starting and ending

    method Spawn(supervisor: Pid, intent: Intent, strategy: Strategy) returns (r: Result<Pid, Error>)
      requires |queues| == LEVELS
      modifies this`table, this`queues, this`nextPid
      ensures (Abs(), r) == Model.Spawn(old(Abs()), supervisor, intent, strategy)
    {
      if supervisor !in table {
        return Err(SupervisorNotFound);
      }
      var pid := nextPid;
      nextPid := nextPid + 1;
      var b := NewPcb(intent, supervisor, strategy, |table[supervisor].children|, tick);
      if |table| >= MAX_PROCESSES {
        return Err(TableFull);
      }
      if pid in table {
        return Err(AlreadyExists);
      }
      table := table[pid := b];
      table := table[supervisor := table[supervisor].(children := table[supervisor].children + [pid])];
      Enqueue(pid, b.eff);
      return Ok(pid);
    }

    method KillOne(p: Pid, why: ExitReason)
      requires p in table
      modifies this`table, this`queues, this`current
      ensures Abs() == Kill(old(Abs()), p, why)
    {
      table := table[p := table[p].(state := Terminated, exit := Some(why))];
      Dequeue(p);
    }

    method Terminate(p: Pid) returns (r: Result<(), Error>)
      modifies this`table, this`queues, this`current
      ensures (Abs(), r) == Model.Terminate(old(Abs()), p)
    {
      if p !in table {
        return Err(NotFound);
      }
      KillOne(p, Finished);
      var sup := table[p].supervisor;
      if sup in table {
        var kept := Retain(table[sup].children, p);
        table := table[sup := table[sup].(children := kept)];
      }
      return Ok(());
    }

    // ----- supervision

    method RestartProcess(p: Pid)
      requires |queues| == LEVELS
      modifies this`table, this`queues
      ensures Abs() == Restart(old(Abs()), p)
    {
      if p in table {
        table := table[p := Reset(table[p], tick)];
        Enqueue(p, table[p].eff);
      }
    }

    method KillThenRestart(ps: seq<Pid>)
      requires |queues| == LEVELS
      modifies this`table, this`queues, this`current
      ensures Abs() == RestartKilled(old(Abs()), ps)
    {
      for i := 0 to |ps|
        invariant |queues| == LEVELS
        invariant KillAll(Abs(), ps[i..]) == KillAll(old(Abs()), ps)
      {
        assert ps[i..][1..] == ps[i + 1..] && ps[i..][0] == ps[i];
        if ps[i] in table && table[ps[i]].state != Terminated {
          KillOne(ps[i], Killed);
        }
      }
      ghost var down := Abs();
      for i := 0 to |ps|
        invariant |queues| == LEVELS
        invariant RestartAll(Abs(), ps[i..]) == RestartAll(down, ps)
      {
        assert ps[i..][1..] == ps[i + 1..] && ps[i..][0] == ps[i];
        RestartProcess(ps[i]);
      }
    }

    method ApplyStrategy(sup: Pid, crashed: Pid) returns (restarted: nat)
      requires |queues| == LEVELS && sup in table
      modifies this`table, this`queues, this`current
      ensures var ps := RestartSet(old(Abs()), sup, crashed);
        && restarted == |ps|
        && Abs() == if old(table)[sup].strategy == OneForOne then Restart(old(Abs()), crashed)
                    else RestartKilled(old(Abs()), ps)
    {
      match table[sup].strategy
      case OneForOne =>
        RestartProcess(crashed);
        restarted := 1;
      case OneForAll =>
        var children := table[sup].children;
        KillThenRestart(children);
        restarted := |children|;
      case RestForOne =>
        var order := if crashed in table then table[crashed].spawnOrder else 0;
        var later := FilterLater(table, table[sup].children, order, Abs());
        KillThenRestart(later);
        restarted := |later|;
    }

    method HandleChildCrash(sup: Pid, crashed: Pid) returns (r: Result<nat, Error>)
      requires |queues| == LEVELS && Descending(Abs())
      modifies this`table, this`queues, this`current
      ensures (Abs(), r) == HandleCrash(old(Abs()), sup, crashed)
      decreases sup
    {
      if sup !in table {
        return Err(SupervisorNotFound);
      }
      var tracker, exceeded := RecordRestart(table[sup].tracker, tick);
      table := table[sup := table[sup].(tracker := tracker)];
      if exceeded {
        var parent := table[sup].supervisor;
        KillOne(sup, Exceeded);
        if parent != KERNEL {
          var _ := HandleChildCrash(parent, sup);
        }
        return Err(IntensityExceeded);
      }
      var n := ApplyStrategy(sup, crashed);
      return Ok(n);
    }

    method Crash(p: Pid) returns (r: Result<(), Error>)
      requires |queues| == LEVELS && Descending(Abs())
      modifies this`table, this`queues, this`current
      ensures (Abs(), r) == Model.Crash(old(Abs()), p)
    {
      if p !in table {
        return Err(NotFound);
      }
      var sup := table[p].supervisor;
      KillOne(p, Crashed);
      var _ := HandleChildCrash(sup, p);
      return Ok(());
    }

    /** Any operation, on any state the invariant describes. */
    method Perform(op: ProcessRuns.Op)
      requires ProcessInvariant.Inv(Abs())
      modifies this
      ensures Abs() == ProcessRuns.Apply(old(Abs()), op) && ProcessInvariant.Inv(Abs())
    {
      Supervision.InvDescends(Abs());
      ProcessRuns.ApplyKeepsInv(Abs(), op);
      match op
      case OpSpawn(sup, intent, strategy) => var _ := Spawn(sup, intent, strategy);
      case OpTerminate(p) => var _ := Terminate(p);
      case OpBlock(p, w) => var _ := Block(p, w);
      case OpUnblock(p) => var _ := Unblock(p);
      case OpCrash(p) => var _ := Crash(p);
      case OpSchedule => var _ := ScheduleNext();
      case OpAge => RunAging();
      case OpConsume =>
        if current.Some? && current.value in table && table[current.value].slice > 0 {
          var b := table[current.value];
          table := table[current.value := b.(slice := b.slice - 1, ran := b.ran + 1)];
        }
      case OpTick => tick := tick + 1;
    }
  }
}
