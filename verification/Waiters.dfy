/** When a process has at least the priority of everyone who waits for it: what each operation does to that. */
module Waiters {
  import opened Wrappers
  import opened ProcessModel
  import opened ProcessInvariant
  import opened Supervision
  import opened Escalation
  import opened ProcessRuns

  ghost predicate Waits(t: map<Pid, Pcb>, w: Pid, x: Pid)
  {
    w in t && x in t && t[w].state == Blocked && t[w].blockedOn == Some(x)
  }

  /** Every process has at least the priority of each process that waits for it. */
  ghost predicate Covered(t: map<Pid, Pcb>)
  {
    forall w, x {:trigger Waits(t, w, x)} :: Waits(t, w, x) ==> t[w].eff <= t[x].eff
  }

  ghost predicate CoveredBut(t: map<Pid, Pcb>, from: Pid)
  {
    forall w, x {:trigger Waits(t, w, x)} :: Waits(t, w, x) && w != from ==> t[w].eff <= t[x].eff
  }

  /** Nobody starts to wait, no waiter is raised and nobody who is waited for is lowered. */
  ghost predicate NoWorse(t: map<Pid, Pcb>, u: map<Pid, Pcb>)
  {
    forall w, x {:trigger Waits(u, w, x)} :: Waits(u, w, x) ==>
      Waits(t, w, x) && u[w].eff <= t[w].eff && t[x].eff <= u[x].eff
  }

  // ----- blocking

  /** Whether inheritance stops at its depth limit before a process that is below the waiter's priority and that the
      last process it raised waits for. */
  ghost predicate Cut(t: map<Pid, Pcb>, from: Pid, target: Pid, boost: nat, depth: nat)
    decreases MAX_INHERITANCE_DEPTH - depth
  {
    if target !in t || t[target].eff >= boost then false
    else if depth >= MAX_INHERITANCE_DEPTH then Waits(t, from, target)
    else
      match t[target].blockedOn
      case None => false
      case Some(further) => Cut(t[target := t[target].(eff := boost)], target, further, boost, depth + 1)
  }

  lemma {:induction false} InheritCoversIff(s: Sys, from: Pid, target: Pid, boost: nat, depth: nat)
    requires |s.queues| == LEVELS && from in s.table && s.table[from].eff == boost
    requires s.table[from].blockedOn == Some(target) && CoveredBut(s.table, from)
    ensures Covered(Inherit(s, target, boost, depth).table) <==> !Cut(s.table, from, target, boost, depth)
    decreases MAX_INHERITANCE_DEPTH - depth
  {
    if depth < MAX_INHERITANCE_DEPTH && target in s.table && s.table[target].eff < boost {
      var next := Reprioritize(s, target, boost);
      assert next.table == s.table[target := s.table[target].(eff := boost)];
      forall w, x | Waits(next.table, w, x) && w != target
        ensures next.table[w].eff <= next.table[x].eff
      {
        assert Waits(s.table, w, x);
      }
      if s.table[target].blockedOn.Some? {
        InheritCoversIff(next, target, s.table[target].blockedOn.value, boost, depth + 1);
      }
    } else if target in s.table {
      assert Waits(s.table, from, target) ==> s.table[target].eff >= boost || Cut(s.table, from, target, boost, depth);
    }
  }

  ghost predicate BlockUncovers(s: Sys, p: Pid, waitingOn: Option<Pid>)
  {
    && p in s.table && Runnable(s.table[p]) && waitingOn.Some?
    && Cut(s.table[p := s.table[p].(state := Blocked, blockedOn := waitingOn)], p, waitingOn.value, s.table[p].eff, 0)
  }

  lemma BlockCoversIff(s: Sys, p: Pid, waitingOn: Option<Pid>)
    requires Inv(s) && Covered(s.table)
    ensures Covered(Block(s, p, waitingOn).0.table) <==> !BlockUncovers(s, p, waitingOn)
  {
    if p in s.table && Runnable(s.table[p]) {
      var s1 := Dequeue(Put(s, p, s.table[p].(state := Blocked, blockedOn := waitingOn)), p);
      forall w, x | Waits(s1.table, w, x) && w != p
        ensures s1.table[w].eff <= s1.table[x].eff
      {
        assert Waits(s.table, w, x);
      }
      if waitingOn.Some? {
        InheritCoversIff(s1, p, waitingOn.value, s.table[p].eff, 0);
      }
    }
  }

  // ----- waking

  /** The priority of q once p has been woken and the process it waited for is back at its base. */
  ghost function EffAfter(s: Sys, p: Pid, q: Pid): nat
    requires p in s.table && q in s.table
  {
    if s.table[p].blockedOn == Some(q) then s.table[q].base
    else if q == p then Woken(s.table[p].(blockedOn := None, state := Ready, wake := s.tick), s.tick)
    else s.table[q].eff
  }

  /** Someone else still waits, with a higher priority, for the woken process or the one it waited for. */
  ghost predicate UnblockUncovers(s: Sys, p: Pid)
  {
    && p in s.table && s.table[p].state == Blocked
    && exists w, x {:trigger Waits(s.table, w, x)} ::
         && Waits(s.table, w, x) && w != p && (x == p || s.table[p].blockedOn == Some(x))
         && EffAfter(s, p, w) > EffAfter(s, p, x)
  }

  lemma Unblocked(s: Sys, p: Pid, q: Pid)
    requires |s.queues| == LEVELS && p in s.table && s.table[p].state == Blocked && q in s.table
    ensures var u := Unblock(s, p).0.table;
      && u.Keys == s.table.Keys && u[q].eff == EffAfter(s, p, q) && u[p].state == Ready
      && (q != p ==> u[q].state == s.table[q].state && u[q].blockedOn == s.table[q].blockedOn)
  {
  }

  lemma UnblockCoversIff(s: Sys, p: Pid)
    requires Inv(s) && Covered(s.table)
    ensures Covered(Unblock(s, p).0.table) <==> !UnblockUncovers(s, p)
  {
    if p in s.table && s.table[p].state == Blocked {
      var u := Unblock(s, p).0.table;
      Unblocked(s, p, p);
      forall w, x | w in s.table && x in s.table
        ensures Waits(u, w, x) <==> Waits(s.table, w, x) && w != p
        ensures u[w].eff == EffAfter(s, p, w) && u[x].eff == EffAfter(s, p, x)
      {
        Unblocked(s, p, w);
        Unblocked(s, p, x);
      }
      forall w, x | Waits(u, w, x) && x != p && s.table[p].blockedOn != Some(x)
        ensures u[w].eff <= u[x].eff
      {
        assert PcbOk(s.table[w]);
      }
    }
  }

  // ----- crashes and new processes

  /** A process that is not restarted waits, with a higher priority, for one that goes back to its base. */
  ghost predicate LeavesBehind(k: Sys, sup: Pid, crashed: Pid)
    requires Descending(k)
  {
    exists w, x {:trigger Waits(k.table, w, x)} ::
      && Waits(k.table, w, x) && w !in GaveUp(k, sup) && !Revived(k, sup, crashed, w) && Revived(k, sup, crashed, x)
      && k.table[w].eff > k.table[x].base
  }

  lemma OutcomeWaits(k: Sys, sup: Pid, crashed: Pid, u: map<Pid, Pcb>, w: Pid, x: Pid)
    requires Descending(k) && w in k.table && x in k.table && w in u && x in u
    requires u[w] == Outcome(k, sup, crashed, w) && u[x] == Outcome(k, sup, crashed, x)
    ensures Waits(u, w, x) <==> Waits(k.table, w, x) && w !in GaveUp(k, sup) && !Revived(k, sup, crashed, w)
    ensures Waits(u, w, x) ==> u[w].eff == k.table[w].eff
    ensures u[x].eff == if Revived(k, sup, crashed, x) then k.table[x].base else k.table[x].eff
  {
  }

  lemma OutcomeCoversIff(k: Sys, sup: Pid, crashed: Pid, u: map<Pid, Pcb>)
    requires Descending(k) && Covered(k.table) && u.Keys == k.table.Keys
    requires forall x {:trigger u[x]} :: x in u ==> u[x] == Outcome(k, sup, crashed, x)
    ensures Covered(u) <==> !LeavesBehind(k, sup, crashed)
  {
    forall w, x | Waits(u, w, x)
      ensures LeavesBehind(k, sup, crashed) || u[w].eff <= u[x].eff
    {
      OutcomeWaits(k, sup, crashed, u, w, x);
    }
    if LeavesBehind(k, sup, crashed) {
      var w, x :| && Waits(k.table, w, x) && w !in GaveUp(k, sup) && !Revived(k, sup, crashed, w)
                  && Revived(k, sup, crashed, x) && k.table[w].eff > k.table[x].base;
      OutcomeWaits(k, sup, crashed, u, w, x);
    }
  }

  ghost predicate CrashUncovers(s: Sys, p: Pid)
    requires Inv(s)
  {
    && p in s.table
    && (KillKeepsInv(s, p, Crashed); InvDescends(Kill(s, p, Crashed));
        LeavesBehind(Kill(s, p, Crashed), s.table[p].supervisor, p))
  }

  lemma CrashCoversIff(s: Sys, p: Pid)
    requires Inv(s) && Descending(s) && Covered(s.table)
    ensures Covered(Crash(s, p).0.table) <==> !CrashUncovers(s, p)
  {
    if p in s.table {
      var k, sup, u := Kill(s, p, Crashed), s.table[p].supervisor, Crash(s, p).0.table;
      KillKeepsInv(s, p, Crashed);
      InvDescends(k);
      assert NoWorse(s.table, k.table);
      forall x | x in s.table
        ensures x in u && u[x] == Outcome(k, sup, p, x)
      {
        CrashOutcome(s, p, x);
      }
      OutcomeCoversIff(k, sup, p, u);
    }
  }

  /** A process already waits, with a higher priority, for the pid that the new process gets. */
  ghost predicate SpawnUncovers(s: Sys, supervisor: Pid, intent: Intent)
  {
    && supervisor in s.table && |s.table| < MAX_PROCESSES
    && exists w {:trigger s.table[w]} ::
         w in s.table && s.table[w].state == Blocked && s.table[w].blockedOn == Some(s.nextPid)
         && s.table[w].eff > intent.priority
  }

  lemma SpawnCoversIff(s: Sys, supervisor: Pid, intent: Intent, strategy: Strategy)
    requires Inv(s) && Covered(s.table)
    ensures Covered(Spawn(s, supervisor, intent, strategy).0.table) <==> !SpawnUncovers(s, supervisor, intent)
  {
    var u := Spawn(s, supervisor, intent, strategy).0.table;
    var pid := s.nextPid;
    if supervisor in s.table && |s.table| < MAX_PROCESSES {
      assert pid !in s.table;
      forall w, x | x != pid
        ensures Waits(u, w, x) <==> Waits(s.table, w, x)
      {
      }
      forall w | w in s.table
        ensures Waits(u, w, pid) <==> s.table[w].state == Blocked && s.table[w].blockedOn == Some(pid)
      {
      }
      assert !Waits(u, pid, pid);
    }
  }

  // ----- every operation

  ghost predicate Uncovers(s: Sys, op: Op)
    requires Inv(s)
  {
    match op
    case OpSpawn(sup, intent, strategy) => SpawnUncovers(s, sup, intent)
    case OpBlock(p, w) => BlockUncovers(s, p, w)
    case OpUnblock(p) => UnblockUncovers(s, p)
    case OpCrash(p) => CrashUncovers(s, p)
    case _ => false
  }

  lemma AgingCovers(s: Sys)
    requires Inv(s) && Covered(s.table)
    ensures Covered(RunAging(s).table)
  {
    var u := RunAging(s).table;
    forall w, x | Waits(u, w, x)
      ensures Waits(s.table, w, x) && u[w].eff <= s.table[w].eff && s.table[x].eff <= u[x].eff
    {
      AgingKeys(s);
      AgingRaisesTheStarved(s, w);
      AgingRaisesTheStarved(s, x);
    }
  }

  lemma ScheduleCovers(s: Sys)
    requires Inv(s) && Covered(s.table)
    ensures Covered(ScheduleNext(s).0.table)
  {
    if !KeepsRunning(s) {
      RequeueKeeps(s);
      PickIsTop(Requeue(s), LEVELS);
      assert NoWorse(s.table, Requeue(s).table);
      assert NoWorse(Requeue(s).table, ScheduleNext(s).0.table);
    }
  }

  /** One operation keeps everyone's priority at or above the priorities of its waiters exactly when: it is no block
      whose inheritance is cut off, no wake-up, crash or spawn that leaves a higher waiter behind. */
  lemma CoveredIff(s: Sys, op: Op)
    requires Inv(s) && Covered(s.table)
    ensures Covered(Apply(s, op).table) <==> !Uncovers(s, op)
  {
    match op
    case OpSpawn(sup, intent, strategy) => SpawnCoversIff(s, sup, intent, strategy);
    case OpTerminate(p) => assert NoWorse(s.table, Terminate(s, p).0.table);
    case OpBlock(p, w) => BlockCoversIff(s, p, w);
    case OpUnblock(p) => UnblockCoversIff(s, p);
    case OpCrash(p) =>
      InvDescends(s);
      CrashCoversIff(s, p);
    case OpSchedule => ScheduleCovers(s);
    case OpAge => AgingCovers(s);
    case OpConsume => assert NoWorse(s.table, ConsumeTick(s).0.table);
    case OpTick =>
  }

  /** No operation of the run uncovers anyone. */
  ghost predicate Careful(ops: seq<Op>)
    decreases |ops|
  {
    ops == [] || (var init, op := ops[..|ops| - 1], ops[|ops| - 1]; Careful(init) && !Uncovers(Run(init), op))
  }

  /** Every process has at least the priority of its waiters in every state of the run. */
  ghost predicate AlwaysCovered(ops: seq<Op>)
    decreases |ops|
  {
    Covered(Run(ops).table) && (ops == [] || AlwaysCovered(ops[..|ops| - 1]))
  }

  /** Every process has at least the priority of its waiters throughout a run exactly when no operation uncovers one. */
  lemma {:induction false} EveryRunCoversIff(ops: seq<Op>)
    ensures AlwaysCovered(ops) <==> Careful(ops)
    decreases |ops|
  {
    if ops != [] {
      var init := ops[..|ops| - 1];
      EveryRunCoversIff(init);
      if AlwaysCovered(init) {
        CoveredIff(Run(init), ops[|ops| - 1]);
      }
    }
  }

  // ----- a run that leaves a waiter uncovered

  ghost predicate Has(s: Sys, p: Pid, state: State, base: nat, eff: nat, on: Option<Pid>)
  {
    && base <= 4
    && p in s.table && s.table[p].state == state && s.table[p].eff == eff && s.table[p].blockedOn == on
    && s.table[p].intent == Plain(base) && s.table[p].base == base
  }

  ghost predicate Waiting3(ops: seq<Op>)
  {
    var t := Run(ops).table; Waits(t, 3, 2) && t[3].eff == 4 && t[2].eff == 0
  }

  /** A run after which process 2 is at priority 0 while process 3 waits for it at priority 4: another waiter of 2 woke
      up and took the inherited priority away. */
  lemma WaiterForgotten() returns (ops: seq<Op>)
    ensures Waiting3(ops)
  {
    ops := ForgetSpawn([], Boot());
  }

  lemma ForgetSpawn(ops: seq<Op>, s: Sys) returns (run: seq<Op>)
    requires s == Run(ops) && s.table.Keys == {1} && s.nextPid == 2 && Has(s, 1, Ready, 4, 4, None)
    ensures Waiting3(run)
  {
    var op := OpSpawn(1, Plain(0), OneForOne);
    assert |s.table| == |s.table.Keys| == 1;
    RunPush(ops, op);
    run := ForgetSpawnAgain(ops + [op], Apply(s, op));
  }

  lemma ForgetSpawnAgain(ops: seq<Op>, s: Sys) returns (run: seq<Op>)
    requires s == Run(ops) && s.table.Keys == {1, 2} && s.nextPid == 3
    requires Has(s, 1, Ready, 4, 4, None) && Has(s, 2, Ready, 0, 0, None)
    ensures Waiting3(run)
  {
    var op := OpSpawn(1, Plain(4), OneForOne);
    assert |s.table| == |s.table.Keys| == 2;
    RunPush(ops, op);
    run := ForgetBlock(ops + [op], Apply(s, op));
  }

  lemma ForgetBlock(ops: seq<Op>, s: Sys) returns (run: seq<Op>)
    requires s == Run(ops) && Has(s, 1, Ready, 4, 4, None) && Has(s, 2, Ready, 0, 0, None)
    requires Has(s, 3, Ready, 4, 4, None)
    ensures Waiting3(run)
  {
    var op := OpBlock(1, Some(2));
    RunPush(ops, op);
    run := ForgetBlockAgain(ops + [op], Apply(s, op));
  }

  lemma ForgetBlockAgain(ops: seq<Op>, s: Sys) returns (run: seq<Op>)
    requires s == Run(ops) && Has(s, 1, Blocked, 4, 4, Some(2)) && Has(s, 2, Ready, 0, 4, None)
    requires Has(s, 3, Ready, 4, 4, None)
    ensures Waiting3(run)
  {
    var op := OpBlock(3, Some(2));
    RunPush(ops, op);
    run := ForgetWake(ops + [op], Apply(s, op));
  }

  lemma ForgetWake(ops: seq<Op>, s: Sys) returns (run: seq<Op>)
    requires s == Run(ops) && Has(s, 1, Blocked, 4, 4, Some(2)) && Has(s, 2, Ready, 0, 4, None)
    requires Has(s, 3, Blocked, 4, 4, Some(2))
    ensures Waiting3(run)
  {
    RunPush(ops, OpUnblock(1));
    Unblocked(s, 1, 2);
    Unblocked(s, 1, 3);
    run := ops + [OpUnblock(1)];
  }
}
