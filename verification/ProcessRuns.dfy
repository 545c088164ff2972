/** Aging, and the invariant over every run of the process subsystem. */
module ProcessRuns {
  import opened Wrappers
  import opened ProcessModel
  import opened ProcessInvariant
  import opened Supervision

  // ----- aging

  lemma {:induction false} StarvedMembers(s: Sys, q: seq<Pid>, x: Pid)
    ensures x in StarvedIn(s, q) <==> x in q && Starved(s, x)
    decreases |q|
  {
    if q != [] {
      StarvedMembers(s, q[1..], x);
      assert q == [q[0]] + q[1..];
    }
  }

  lemma {:induction false} StarvedNoDup(s: Sys, q: seq<Pid>)
    requires NoDup(q)
    ensures NoDup(StarvedIn(s, q))
    decreases |q|
  {
    if q != [] {
      NoDupTail(q);
      StarvedNoDup(s, q[1..]);
      StarvedMembers(s, q[1..], q[0]);
      if Starved(s, q[0]) {
        NoDupCons(q[0], StarvedIn(s, q[1..]));
      }
    }
  }

  /** The raise that aging plans for a starved process. */
  ghost predicate Planned(s: Sys, r: Raise)
  {
    Starved(s, r.pid) && r.level == s.table[r.pid].eff && r.eff == r.level + 1
  }

  ghost predicate Plan(s: Sys, rs: seq<Raise>)
  {
    && (forall i {:trigger rs[i]} :: 0 <= i < |rs| ==> Planned(s, rs[i]))
    && (forall i, j {:trigger rs[i], rs[j]} :: 0 <= i < j < |rs| ==> rs[i].pid != rs[j].pid)
  }

  ghost predicate Names(rs: seq<Raise>, p: Pid) { exists i :: 0 <= i < |rs| && rs[i].pid == p }

  lemma RaisesInPlan(s: Sys, level: nat)
    requires Inv(s) && level < LEVELS
    ensures Plan(s, RaisesIn(s, s.queues[level], level))
    ensures forall p :: Names(RaisesIn(s, s.queues[level], level), p) <==> p in s.queues[level] && Starved(s, p)
  {
    var q := s.queues[level];
    var ps, rs := StarvedIn(s, q), RaisesIn(s, q, level);
    StarvedNoDup(s, q);
    forall i | 0 <= i < |ps|
      ensures Planned(s, rs[i]) && rs[i].pid == ps[i]
    {
      assert ps[i] in ps;
      StarvedMembers(s, q, ps[i]);
    }
    forall p
      ensures Names(rs, p) <==> p in q && Starved(s, p)
    {
      StarvedMembers(s, q, p);
      if p in ps {
        var i :| 0 <= i < |ps| && ps[i] == p;
        assert rs[i].pid == p;
      }
    }
  }

  lemma PlanConcat(s: Sys, a: seq<Raise>, b: seq<Raise>)
    requires Plan(s, a) && Plan(s, b) && forall p :: Names(a, p) ==> !Names(b, p)
    ensures Plan(s, a + b) && forall p :: Names(a + b, p) <==> Names(a, p) || Names(b, p)
  {
    var c := a + b;
    forall i, j | 0 <= i < j < |c|
      ensures c[i].pid != c[j].pid
    {
      if i < |a| <= j {
        assert Names(a, a[i].pid) && Names(b, b[j - |a|].pid);
      }
    }
    forall p
      ensures Names(c, p) <==> Names(a, p) || Names(b, p)
    {
      if Names(a, p) {
        var i :| 0 <= i < |a| && a[i].pid == p;
        assert c[i].pid == p;
      }
      if Names(b, p) {
        var i :| 0 <= i < |b| && b[i].pid == p;
        assert c[|a| + i].pid == p;
      }
    }
  }

  /** Aging plans to raise exactly the starved processes in the levels it looks at, each once. */
  lemma {:induction false} RaisesPlan(s: Sys, n: nat)
    requires Inv(s) && n <= LEVELS
    ensures Plan(s, Raises(s, n))
    ensures forall p :: Names(Raises(s, n), p) <==> Starved(s, p) && s.table[p].eff < n
    decreases n
  {
    if n > 0 {
      RaisesPlan(s, n - 1);
      RaisesInPlan(s, n - 1);
      PlanConcat(s, Raises(s, n - 1), RaisesIn(s, s.queues[n - 1], n - 1));
    }
  }

  /** Moving a starved process up is a change of priority like any other. */
  lemma BoostIsReprioritize(s: Sys, r: Raise)
    requires Inv(s) && Planned(s, r)
    ensures Boost(s, r.pid, r.level, r.eff) == Reprioritize(s, r.pid, r.eff)
  {
    var p := r.pid;
    var out := DropAll(s.queues, {p});
    forall l | 0 <= l < LEVELS && l != r.level
      ensures out[l] == s.queues[l]
    {
      assert p !in s.queues[l];
      DropAbsent(s.queues[l], {p});
    }
    DropMembers(s.queues[r.eff], {p}, p);
    assert out == s.queues[r.level := Drop(s.queues[r.level], {p})];
  }

  lemma PlanAfter(s: Sys, rs: seq<Raise>)
    requires Inv(s) && Plan(s, rs) && rs != []
    ensures Plan(Reprioritize(s, rs[0].pid, rs[0].eff), rs[1..])
  {
    var g := Reprioritize(s, rs[0].pid, rs[0].eff);
    forall i | 0 <= i < |rs[1..]|
      ensures Planned(g, rs[1..][i])
    {
      assert rs[1..][i] == rs[i + 1] && rs[0].pid != rs[i + 1].pid;
    }
  }

  lemma {:induction false} BoostAllKeepsInv(s: Sys, rs: seq<Raise>)
    requires Inv(s) && Plan(s, rs) && RaisesOk(rs)
    ensures Inv(BoostAll(s, rs))
    decreases |rs|
  {
    if rs != [] {
      BoostIsReprioritize(s, rs[0]);
      ReprioritizeKeepsInv(s, rs[0].pid, rs[0].eff);
      PlanAfter(s, rs);
      BoostAllKeepsInv(Reprioritize(s, rs[0].pid, rs[0].eff), rs[1..]);
    }
  }

  ghost function RaisedBy(b: Pcb, named: bool): Pcb { b.(eff := if named then b.eff + 1 else b.eff) }

  lemma {:induction false} BoostAllRaises(s: Sys, rs: seq<Raise>, p: Pid)
    requires Inv(s) && Plan(s, rs) && RaisesOk(rs) && p in s.table
    ensures p in BoostAll(s, rs).table && BoostAll(s, rs).table[p] == RaisedBy(s.table[p], Names(rs, p))
    decreases |rs|
  {
    if rs != [] {
      var r, rest := rs[0], rs[1..];
      BoostIsReprioritize(s, r);
      ReprioritizeKeepsInv(s, r.pid, r.eff);
      PlanAfter(s, rs);
      BoostAllRaises(Reprioritize(s, r.pid, r.eff), rest, p);
      NamesCons(s, rs, p);
    }
  }

  lemma NamesCons(s: Sys, rs: seq<Raise>, p: Pid)
    requires Plan(s, rs) && rs != []
    ensures Names(rs, p) <==> p == rs[0].pid || Names(rs[1..], p)
    ensures Names(rs[1..], p) ==> p != rs[0].pid
  {
    if Names(rs, p) && p != rs[0].pid {
      var i :| 0 <= i < |rs| && rs[i].pid == p;
      assert rs[1..][i - 1].pid == p;
    }
    if Names(rs[1..], p) {
      var i :| 0 <= i < |rs[1..]| && rs[1..][i].pid == p;
      assert rs[i + 1].pid == p;
    }
  }

  lemma AgingKeepsInv(s: Sys)
    requires Inv(s)
    ensures Inv(RunAging(s))
  {
    var rs := Raises(s, LEVELS - 1);
    RaisesPlan(s, LEVELS - 1);
    RaisesFit(s, LEVELS - 1);
    BoostAllKeepsInv(s, rs);
  }

  lemma {:induction false} BoostAllKeys(s: Sys, rs: seq<Raise>)
    requires |s.queues| == LEVELS && RaisesOk(rs)
    ensures BoostAll(s, rs).table.Keys == s.table.Keys
    decreases |rs|
  {
    if rs != [] {
      BoostAllKeys(Boost(s, rs[0].pid, rs[0].level, rs[0].eff), rs[1..]);
    }
  }

  lemma AgingKeys(s: Sys)
    requires |s.queues| == LEVELS
    ensures RunAging(s).table.Keys == s.table.Keys
  {
    RaisesFit(s, LEVELS - 1);
    BoostAllKeys(s, Raises(s, LEVELS - 1));
  }

  /** Aging raises every starved process by one level, and changes nothing else about any process. */
  lemma AgingRaisesTheStarved(s: Sys, p: Pid)
    requires Inv(s) && p in s.table
    ensures p in RunAging(s).table && RunAging(s).table[p] == RaisedBy(s.table[p], Starved(s, p))
  {
    RaisesPlan(s, LEVELS - 1);
    RaisesFit(s, LEVELS - 1);
    BoostAllRaises(s, Raises(s, LEVELS - 1), p);
  }

  // ----- runs

  datatype Op =
    | OpSpawn(supervisor: Pid, intent: Intent, strategy: Strategy)
    | OpTerminate(pid: Pid)
    | OpBlock(pid: Pid, waitingOn: Option<Pid>)
    | OpUnblock(pid: Pid)
    | OpCrash(pid: Pid)
    | OpSchedule
    | OpAge
    | OpConsume
    | OpTick

  ghost function Apply(s: Sys, op: Op): Sys
    requires Inv(s)
  {
    InvDescends(s);
    match op
    case OpSpawn(sup, intent, strategy) => Spawn(s, sup, intent, strategy).0
    case OpTerminate(p) => Terminate(s, p).0
    case OpBlock(p, w) => Block(s, p, w).0
    case OpUnblock(p) => Unblock(s, p).0
    case OpCrash(p) => Crash(s, p).0
    case OpSchedule => ScheduleNext(s).0
    case OpAge => RunAging(s)
    case OpConsume => ConsumeTick(s).0
    case OpTick => s.(tick := s.tick + 1)
  }

  lemma ApplyKeepsInv(s: Sys, op: Op)
    requires Inv(s)
    ensures Inv(Apply(s, op))
  {
    match op
    case OpSpawn(sup, intent, strategy) => SpawnKeepsInv(s, sup, intent, strategy);
    case OpTerminate(p) => TerminateKeepsInv(s, p);
    case OpBlock(p, w) => BlockKeepsInv(s, p, w);
    case OpUnblock(p) => UnblockKeepsInv(s, p);
    case OpCrash(p) =>
      InvDescends(s);
      CrashKeepsInv(s, p);
    case OpSchedule => ScheduleNextKeepsInv(s);
    case OpAge => AgingKeepsInv(s);
    case OpConsume => ConsumeTickKeepsInv(s);
    case OpTick =>
  }

  lemma BootInv()
    ensures Inv(Boot())
  {
    var s := Boot();
    assert s.queues[4] == [BUTLER];
    assert forall l {:trigger s.queues[l]} :: 0 <= l < 4 ==> s.queues[l] == [];
  }

  /** The state after a list of operations, from the start of the system. */
  ghost function Run(ops: seq<Op>): (s: Sys)
    ensures Inv(s)
    decreases |ops|
  {
    if ops == [] then BootInv(); Boot()
    else
      var s := Run(ops[..|ops| - 1]);
      ApplyKeepsInv(s, ops[|ops| - 1]);
      Apply(s, ops[|ops| - 1])
  }

  lemma RunPush(ops: seq<Op>, op: Op)
    ensures Run(ops + [op]) == Apply(Run(ops), op)
  {
    assert (ops + [op])[..|ops|] == ops;
  }

  /** A process without a deadline. */
  function Plain(priority: Priority): Intent { Intent(Compute, priority, 0) }

  /** A process is in the queue of its priority, once, and in no other. */
  ghost predicate OnlyIn(s: Sys, p: Pid, level: nat)
  {
    && level < |s.queues|
    && (forall l {:trigger s.queues[l]} :: 0 <= l < |s.queues| ==> (p in s.queues[l] <==> l == level))
    && (exists i :: 0 <= i < |s.queues[level]| && s.queues[level][i] == p)
    && (forall i, j {:trigger s.queues[level][i], s.queues[level][j]} ::
          0 <= i < j < |s.queues[level]| ==> !(s.queues[level][i] == p && s.queues[level][j] == p))
  }

  ghost predicate Unqueued(s: Sys, p: Pid)
  {
    forall l {:trigger s.queues[l]} :: 0 <= l < |s.queues| ==> p !in s.queues[l]
  }

  /** In every reachable state: a ready process is in exactly one queue, that of its priority; a running one is there or
      current, never both; any other is in no queue and not current. */
  lemma EveryRunPlaces(ops: seq<Op>, p: Pid)
    requires p in Run(ops).table
    ensures var s := Run(ops);
      var b := s.table[p];
      && b.base <= b.eff <= 4
      && (b.state == Ready ==> OnlyIn(s, p, b.eff) && s.current != Some(p))
      && (b.state == Running ==>
            (OnlyIn(s, p, b.eff) && s.current != Some(p)) || (Unqueued(s, p) && s.current == Some(p)))
      && (!Runnable(b) ==> Unqueued(s, p) && s.current != Some(p))
  {
    var s := Run(ops);
    if Waiting(s, p) {
    }
  }
}
