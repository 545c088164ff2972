/** When at most one process is running. A change of priority can take the current process off the processor without
    changing its state; the next schedule then starts a second one, unless it picks that process. */
module CurrentProcess {
  import opened Wrappers
  import opened ProcessModel
  import opened ProcessInvariant
  import opened Supervision
  import opened Escalation
  import opened ProcessRuns

  ghost predicate RunningIsCurrent(s: Sys)
  {
    forall p {:trigger s.table[p]} :: p in s.table && s.table[p].state == Running ==> s.current == Some(p)
  }

  /** The processes whose priority a new waiter raises: the one it waits for, the one that one waits for, and so on. */
  function Raised(t: map<Pid, Pcb>, target: Pid, boost: nat, depth: nat): set<Pid>
    decreases MAX_INHERITANCE_DEPTH - depth
  {
    if depth >= MAX_INHERITANCE_DEPTH || target !in t || t[target].eff >= boost then {}
    else
      match t[target].blockedOn
      case None => {target}
      case Some(further) => {target} + Raised(t[target := t[target].(eff := boost)], further, boost, depth + 1)
  }

  /** Inheritance takes the current process off the processor exactly when it raises it. */
  lemma {:induction false} InheritCurrent(s: Sys, target: Pid, boost: nat, depth: nat)
    requires |s.queues| == LEVELS
    ensures Inherit(s, target, boost, depth).current
         == if s.current.Some? && s.current.value in Raised(s.table, target, boost, depth) then None else s.current
    decreases MAX_INHERITANCE_DEPTH - depth
  {
    if depth < MAX_INHERITANCE_DEPTH && target in s.table && s.table[target].eff < boost {
      var next := Reprioritize(s, target, boost);
      assert next.table == s.table[target := s.table[target].(eff := boost)];
      if s.table[target].blockedOn.Some? {
        InheritCurrent(next, s.table[target].blockedOn.value, boost, depth + 1);
      }
    }
  }

  // ----- the operations that requeue the current process

  /** Another process blocks, and its priority reaches the current process. */
  predicate BlockRequeues(s: Sys, p: Pid, waitingOn: Option<Pid>)
  {
    && p in s.table && Runnable(s.table[p]) && waitingOn.Some? && s.current.Some? && s.current.value != p
    && s.current.value in Raised(s.table[p := s.table[p].(state := Blocked, blockedOn := waitingOn)], waitingOn.value,
                                 s.table[p].eff, 0)
  }

  /** A process that waited for the current one wakes up, and the current one runs above its base priority. */
  predicate UnblockRequeues(s: Sys, p: Pid)
  {
    && p in s.table && s.table[p].state == Blocked && s.current.Some? && s.table[p].blockedOn == s.current
    && s.current.value in s.table && s.table[s.current.value].eff != s.table[s.current.value].base
  }

  predicate Requeues(s: Sys, op: Op)
  {
    match op
    case OpBlock(p, w) => BlockRequeues(s, p, w)
    case OpUnblock(p) => UnblockRequeues(s, p)
    case _ => false
  }

  lemma BlockKeepsRunningIff(s: Sys, p: Pid, waitingOn: Option<Pid>)
    requires Inv(s) && RunningIsCurrent(s)
    ensures RunningIsCurrent(Block(s, p, waitingOn).0) <==> !BlockRequeues(s, p, waitingOn)
  {
    if p in s.table && Runnable(s.table[p]) {
      var s1 := Dequeue(Put(s, p, s.table[p].(state := Blocked, blockedOn := waitingOn)), p);
      if waitingOn.Some? {
        var target, boost := waitingOn.value, s.table[p].eff;
        InheritCurrent(s1, target, boost, 0);
        var r := Inherit(s1, target, boost, 0);
        forall x | x in s1.table
          ensures x in r.table && r.table[x].state == s1.table[x].state
        {
          InheritRaises(s1, target, boost, 0, x);
        }
        if s.current.Some? && s.current.value != p {
          assert r.table[s.current.value].state == Running;
        }
        assert r.table.Keys == s1.table.Keys by {
          InheritRaises(s1, target, boost, 0, p);
        }
      }
    }
  }

  lemma UnblockKeepsRunningIff(s: Sys, p: Pid)
    requires Inv(s) && RunningIsCurrent(s)
    ensures RunningIsCurrent(Unblock(s, p).0) <==> !UnblockRequeues(s, p)
  {
    if p in s.table && s.table[p].state == Blocked && s.table[p].blockedOn.Some? {
      var target := s.table[p].blockedOn.value;
      var r := Revert(Wake(s, p), target);
      if UnblockRequeues(s, p) {
        assert r.current == None && r.table[target].state == Running;
      }
    }
  }

  // ----- the others

  lemma {:induction false} HandleCrashKeepsRunning(s: Sys, sup: Pid, crashed: Pid)
    requires Inv(s) && Descending(s) && (crashed in s.table ==> !Runnable(s.table[crashed])) && RunningIsCurrent(s)
    ensures RunningIsCurrent(HandleCrash(s, sup, crashed).0)
    decreases sup
  {
    if sup in s.table {
      if Exceeds(s, sup) {
        var gone := GivenUp(s, sup);
        if s.table[sup].supervisor != KERNEL {
          HandleCrashKeepsRunning(gone, s.table[sup].supervisor, sup);
        }
      } else {
        RestartKeepsRunning(s, sup, crashed);
      }
    }
  }

  lemma RestartKeepsRunning(s: Sys, sup: Pid, crashed: Pid)
    requires Inv(s) && Descending(s) && (crashed in s.table ==> !Runnable(s.table[crashed])) && RunningIsCurrent(s)
    requires sup in s.table && !Exceeds(s, sup)
    ensures RunningIsCurrent(HandleCrash(s, sup, crashed).0)
  {
    WithinLimitRestarts(s, sup, crashed);
  }

  lemma CrashKeepsRunning(s: Sys, p: Pid)
    requires Inv(s) && Descending(s) && RunningIsCurrent(s)
    ensures RunningIsCurrent(Crash(s, p).0)
  {
    if p in s.table {
      var k := Kill(s, p, Crashed);
      KillKeepsInv(s, p, Crashed);
      InvDescends(k);
      HandleCrashKeepsRunning(k, s.table[p].supervisor, p);
    }
  }

  lemma ScheduleKeepsRunning(s: Sys)
    requires Inv(s) && RunningIsCurrent(s)
    ensures RunningIsCurrent(ScheduleNext(s).0)
  {
    if !KeepsRunning(s) {
      RequeueKeeps(s);
      PickIsTop(Requeue(s), LEVELS);
    }
  }

  lemma {:induction false} BoostAllCurrent(s: Sys, rs: seq<Raise>)
    requires |s.queues| == LEVELS && RaisesOk(rs)
    ensures BoostAll(s, rs).current == s.current
    decreases |rs|
  {
    if rs != [] {
      BoostAllCurrent(Boost(s, rs[0].pid, rs[0].level, rs[0].eff), rs[1..]);
    }
  }

  lemma AgingKeepsRunning(s: Sys)
    requires Inv(s) && RunningIsCurrent(s)
    ensures RunningIsCurrent(RunAging(s))
  {
    RaisesFit(s, LEVELS - 1);
    BoostAllCurrent(s, Raises(s, LEVELS - 1));
    AgingKeys(s);
    forall p | p in s.table
      ensures RunAging(s).table[p].state == s.table[p].state
    {
      AgingRaisesTheStarved(s, p);
    }
  }

  /** One operation keeps every running process current exactly when it does not requeue the current one. */
  lemma RunningKeptIff(s: Sys, op: Op)
    requires Inv(s) && RunningIsCurrent(s)
    ensures RunningIsCurrent(Apply(s, op)) <==> !Requeues(s, op)
  {
    match op
    case OpSpawn(sup, intent, strategy) =>
    case OpTerminate(p) =>
    case OpBlock(p, w) => BlockKeepsRunningIff(s, p, w);
    case OpUnblock(p) => UnblockKeepsRunningIff(s, p);
    case OpCrash(p) =>
      InvDescends(s);
      CrashKeepsRunning(s, p);
    case OpSchedule => ScheduleKeepsRunning(s);
    case OpAge => AgingKeepsRunning(s);
    case OpConsume =>
    case OpTick =>
  }

  // ----- at most one running process

  ghost predicate OneRunning(t: map<Pid, Pcb>)
  {
    forall p, q {:trigger t[p], t[q]} :: p in t && q in t && t[p].state == Running && t[q].state == Running ==> p == q
  }

  /** Nothing is current, and the process that the scheduler will pick is not the one that is running. */
  ghost predicate StartsSecond(s: Sys)
    requires |s.queues| == LEVELS
  {
    && s.current == None && Top(s, LEVELS) >= 0
    && exists p {:trigger s.table[p]} :: p in s.table && s.table[p].state == Running && p != s.queues[Top(s, LEVELS)][0]
  }

  lemma ScheduleStartsSecondIff(s: Sys)
    requires Inv(s) && OneRunning(s.table)
    ensures OneRunning(ScheduleNext(s).0.table) <==> !StartsSecond(s)
  {
    if !KeepsRunning(s) {
      var q := Requeue(s);
      RequeueKeeps(s);
      PickIsTop(q, LEVELS);
      if s.current.Some? {
        assert forall p {:trigger q.table[p]} :: p in q.table ==> q.table[p].state != Running;
      } else {
        assert q == s;
        PickedRuns(s);
      }
    }
  }

  lemma PickedRuns(s: Sys)
    requires Inv(s) && OneRunning(s.table) && s.current == None
    ensures OneRunning(Pick(s, LEVELS).0.table) <==> !StartsSecond(s)
  {
    PickIsTop(s, LEVELS);
    var t := Top(s, LEVELS);
    if t >= 0 {
      var h, u := s.queues[t][0], Pick(s, LEVELS).0.table;
      assert h in u && u[h].state == Running;
      if StartsSecond(s) {
        var p :| p in s.table && s.table[p].state == Running && p != h;
        assert u[p].state == Running;
      }
    }
  }

  lemma CrashRunningBefore(s: Sys, p: Pid, x: Pid)
    requires Inv(s) && Descending(s) && x in Crash(s, p).0.table && Crash(s, p).0.table[x].state == Running
    ensures x in s.table && s.table[x].state == Running
  {
    if p in s.table {
      CrashOutcome(s, p, x);
    }
  }

  lemma UnblockRunningBefore(s: Sys, p: Pid, x: Pid)
    requires |s.queues| == LEVELS && x in Unblock(s, p).0.table && Unblock(s, p).0.table[x].state == Running
    ensures x in s.table && s.table[x].state == Running
  {
  }

  /** No operation but scheduling makes a process run. */
  lemma RunningBefore(s: Sys, op: Op, x: Pid)
    requires Inv(s) && op != OpSchedule && x in Apply(s, op).table && Apply(s, op).table[x].state == Running
    ensures x in s.table && s.table[x].state == Running
  {
    match op
    case OpBlock(p, w) =>
      if p in s.table && Runnable(s.table[p]) && w.Some? {
        var s1 := Dequeue(Put(s, p, s.table[p].(state := Blocked, blockedOn := w)), p);
        InheritRaises(s1, w.value, s.table[p].eff, 0, p);
        InheritRaises(s1, w.value, s.table[p].eff, 0, x);
      }
    case OpCrash(p) =>
      InvDescends(s);
      CrashRunningBefore(s, p, x);
    case OpUnblock(p) => UnblockRunningBefore(s, p, x);
    case OpAge =>
      AgingKeys(s);
      AgingRaisesTheStarved(s, x);
    case _ =>
  }

  /** An operation ends with two running processes exactly when it is the scheduling that starts a second one. */
  lemma OneRunningIff(s: Sys, op: Op)
    requires Inv(s) && OneRunning(s.table)
    ensures OneRunning(Apply(s, op).table) <==> !(op == OpSchedule && StartsSecond(s))
  {
    if op == OpSchedule {
      ScheduleStartsSecondIff(s);
    } else {
      var u := Apply(s, op).table;
      forall x | x in u && u[x].state == Running
        ensures x in s.table && s.table[x].state == Running
      {
        RunningBefore(s, op, x);
      }
    }
  }

  /** At most one process is running in every state of the run. */
  ghost predicate AlwaysOne(ops: seq<Op>)
    decreases |ops|
  {
    OneRunning(Run(ops).table) && (ops == [] || AlwaysOne(ops[..|ops| - 1]))
  }

  /** No scheduling of the run starts a second process. */
  ghost predicate NoSecondStart(ops: seq<Op>)
    decreases |ops|
  {
    ops == [] || (var init, op := ops[..|ops| - 1], ops[|ops| - 1];
                  NoSecondStart(init) && !(op == OpSchedule && StartsSecond(Run(init))))
  }

  /** At most one process is running throughout a run exactly when no scheduling starts a second one. */
  lemma {:induction false} EveryRunOneIff(ops: seq<Op>)
    ensures AlwaysOne(ops) <==> NoSecondStart(ops)
    decreases |ops|
  {
    if ops != [] {
      var init := ops[..|ops| - 1];
      EveryRunOneIff(init);
      if AlwaysOne(init) {
        OneRunningIff(Run(init), ops[|ops| - 1]);
      }
    }
  }

  // ----- when it stays current

  /** No operation of the run requeues the current process. */
  ghost predicate Steady(ops: seq<Op>)
    decreases |ops|
  {
    ops == [] || (var init, op := ops[..|ops| - 1], ops[|ops| - 1]; Steady(init) && !Requeues(Run(init), op))
  }

  /** Every running process is the current one in every state of the run. */
  ghost predicate AlwaysCurrent(ops: seq<Op>)
    decreases |ops|
  {
    RunningIsCurrent(Run(ops)) && (ops == [] || AlwaysCurrent(ops[..|ops| - 1]))
  }

  /** Every running process is current throughout a run exactly when no operation requeues the current one, and then at
      most one is running. */
  lemma {:induction false} AtMostOneRunning(ops: seq<Op>)
    ensures AlwaysCurrent(ops) <==> Steady(ops)
    ensures Steady(ops) ==> OneRunning(Run(ops).table)
    decreases |ops|
  {
    if ops != [] {
      var init := ops[..|ops| - 1];
      AtMostOneRunning(init);
      if AlwaysCurrent(init) {
        RunningKeptIff(Run(init), ops[|ops| - 1]);
      }
    }
  }

  // ----- a run with two running processes

  /** What the run below depends on about a process. */
  ghost predicate Is(s: Sys, p: Pid, state: State, eff: nat)
  {
    && eff <= 4
    && p in s.table && s.table[p].state == state && s.table[p].eff == eff && s.table[p].blockedOn == None
    && s.table[p].intent == Plain(eff) && s.table[p].base == eff
  }

  ghost predicate At(s: Sys, pids: set<Pid>, low: seq<Pid>, high: seq<Pid>, current: Option<Pid>)
  {
    s.table.Keys == pids && s.nextPid == |pids| + 1 && s.queues == [low, [], [], [], high] && s.current == current
  }

  ghost predicate Two(ops: seq<Op>)
  {
    var t := Run(ops).table; 2 in t && 3 in t && t[2].state == t[3].state == Running
  }

  /** A run after which two processes are running: process 2 is current when the Butler blocks on it and raises it; it
      stays Running in its new queue, and the scheduler starts process 3. */
  lemma TwoRunning() returns (ops: seq<Op>)
    ensures Two(ops)
  {
    ops := TwoSpawn([], Boot());
  }

  lemma TwoSpawn(ops: seq<Op>, s: Sys) returns (run: seq<Op>)
    requires s == Run(ops) && Is(s, 1, Ready, 4) && At(s, {1}, [], [1], None)
    ensures Two(run)
  {
    var op := OpSpawn(1, Plain(0), OneForOne);
    assert |s.table| == |s.table.Keys| == 1;
    assert s.queues[0] + [2] == [2];
    assert Apply(s, op).queues == [[2], [], [], [], [1]];
    RunPush(ops, op);
    run := TwoBlock(ops + [op], Apply(s, op));
  }

  lemma ButlerBlocks(s: Sys)
    requires Is(s, 1, Ready, 4) && Is(s, 2, Ready, 0) && At(s, {1, 2}, [2], [1], None)
    ensures var a := Block(s, 1, None).0; Is(a, 1, Blocked, 4) && Is(a, 2, Ready, 0) && At(a, {1, 2}, [2], [], None)
  {
    assert Drop([2], {1}) == [2];
    assert Block(s, 1, None).0.queues == [[2], [], [], [], []];
  }

  lemma TwoBlock(ops: seq<Op>, s: Sys) returns (run: seq<Op>)
    requires s == Run(ops) && Is(s, 1, Ready, 4) && Is(s, 2, Ready, 0) && At(s, {1, 2}, [2], [1], None)
    ensures Two(run)
  {
    ButlerBlocks(s);
    RunPush(ops, OpBlock(1, None));
    run := TwoSchedule(ops + [OpBlock(1, None)], Apply(s, OpBlock(1, None)));
  }

  lemma TwoSchedule(ops: seq<Op>, s: Sys) returns (run: seq<Op>)
    requires s == Run(ops) && Is(s, 1, Blocked, 4) && Is(s, 2, Ready, 0) && At(s, {1, 2}, [2], [], None)
    ensures Two(run)
  {
    var a := Apply(s, OpSchedule);
    assert Requeue(s) == s;
    assert Pick(s, 5) == Pick(s, 4) == Pick(s, 3) == Pick(s, 2) == Pick(s, 1);
    assert s.queues[0][1..] == [];
    assert a.queues == [[], [], [], [], []];
    RunPush(ops, OpSchedule);
    run := TwoWake(ops + [OpSchedule], a);
  }

  lemma TwoWake(ops: seq<Op>, s: Sys) returns (run: seq<Op>)
    requires s == Run(ops) && Is(s, 1, Blocked, 4) && Is(s, 2, Running, 0) && At(s, {1, 2}, [], [], Some(2))
    ensures Two(run)
  {
    assert s.queues[4] + [1] == [1];
    assert Apply(s, OpUnblock(1)).queues == [[], [], [], [], [1]];
    RunPush(ops, OpUnblock(1));
    run := TwoSpawnAgain(ops + [OpUnblock(1)], Apply(s, OpUnblock(1)));
  }

  lemma TwoSpawnAgain(ops: seq<Op>, s: Sys) returns (run: seq<Op>)
    requires s == Run(ops) && Is(s, 1, Ready, 4) && Is(s, 2, Running, 0) && At(s, {1, 2}, [], [1], Some(2))
    ensures Two(run)
  {
    var op := OpSpawn(1, Plain(4), OneForOne);
    assert |s.table| == |s.table.Keys| == 2;
    assert s.queues[4] + [3] == [1, 3];
    assert Apply(s, op).queues == [[], [], [], [], [1, 3]];
    RunPush(ops, op);
    run := TwoRaise(ops + [op], Apply(s, op));
  }

  lemma RaisedWhileRunning(s: Sys)
    requires Is(s, 1, Ready, 4) && Is(s, 2, Running, 0) && Is(s, 3, Ready, 4) && At(s, {1, 2, 3}, [], [1, 3], Some(2))
    ensures var a := Block(s, 1, Some(2)).0;
      && a.table.Keys == {1, 2, 3} && a.queues == [[], [], [], [], [3, 2]] && a.current == None
      && a.table[2].state == Running
  {
    var b := Dequeue(Put(s, 1, s.table[1].(state := Blocked, blockedOn := Some(2))), 1);
    assert Drop([1, 3], {1}) == Drop([3], {1}) == [3] && Drop([3], {2}) == [3];
    assert b.queues == [[], [], [], [], [3]];
    var c := Dequeue(Put(b, 2, b.table[2].(eff := 4)), 2);
    assert c.queues == [[], [], [], [], [3]];
    assert c.queues[4] + [2] == [3, 2];
    assert Block(s, 1, Some(2)).0.queues == [[], [], [], [], [3, 2]];
  }

  lemma TwoRaise(ops: seq<Op>, s: Sys) returns (run: seq<Op>)
    requires s == Run(ops) && Is(s, 1, Ready, 4) && Is(s, 2, Running, 0) && Is(s, 3, Ready, 4)
    requires At(s, {1, 2, 3}, [], [1, 3], Some(2))
    ensures Two(run)
  {
    RaisedWhileRunning(s);
    RunPush(ops, OpBlock(1, Some(2)));
    run := TwoEnd(ops + [OpBlock(1, Some(2))], Apply(s, OpBlock(1, Some(2))));
  }

  lemma TwoEnd(ops: seq<Op>, s: Sys) returns (run: seq<Op>)
    requires s == Run(ops) && s.table.Keys == {1, 2, 3} && s.queues == [[], [], [], [], [3, 2]] && s.current == None
    requires s.table[2].state == Running
    ensures Two(run)
  {
    assert Requeue(s) == s;
    assert Apply(s, OpSchedule) == Dispatch(s.(queues := s.queues[4 := s.queues[4][1..]]), 3);
    RunPush(ops, OpSchedule);
    run := ops + [OpSchedule];
  }
}
