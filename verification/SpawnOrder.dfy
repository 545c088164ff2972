/** When a crash under RestForOne restarts the crashed child and exactly those started after it. The spawn order of a
    child is the number of children its supervisor had, so a child started after others have terminated can get an
    order that an older sibling already has, or a lower one. */
module SpawnOrder {
  import opened Wrappers
  import opened ProcessModel
  import opened ProcessInvariant
  import opened Supervision
  import opened Escalation
  import opened ProcessRuns

  /** Spawn orders strictly ascend along a list of children. */
  ghost predicate Rising(t: map<Pid, Pcb>, q: seq<Pid>)
  {
    && (forall i {:trigger q[i]} :: 0 <= i < |q| ==> q[i] in t)
    && (forall i, j {:trigger q[i], q[j]} :: 0 <= i < j < |q| ==> t[q[i]].spawnOrder < t[q[j]].spawnOrder)
  }

  ghost predicate OrdersRise(s: Sys, sup: Pid) { sup in s.table && Rising(s.table, s.table[sup].children) }

  /** The children of a supervisor stand in the order in which they were started: pids are never used again. */
  ghost predicate Ascending(q: seq<Pid>)
  {
    forall i, j {:trigger q[i], q[j]} :: 0 <= i < j < |q| ==> q[i] < q[j]
  }

  ghost predicate AllAscending(s: Sys)
  {
    forall p {:trigger s.table[p]} :: p in s.table ==> Ascending(s.table[p].children)
  }

  // ----- which list a crash restarts

  lemma {:induction false} LaterIsSuffix(s: Sys, q: seq<Pid>, k: nat)
    requires Rising(s.table, q) && k < |q|
    ensures Later(s, q, s.table[q[k]].spawnOrder) == q[k..]
    decreases |q|
  {
    var order := s.table[q[k]].spawnOrder;
    if k == 0 {
      LaterAll(s, q, order);
    } else {
      assert s.table[q[0]].spawnOrder < order;
      LaterIsSuffix(s, q[1..], k - 1);
    }
  }

  lemma {:induction false} LaterAll(s: Sys, children: seq<Pid>, order: nat)
    requires forall i {:trigger children[i]} :: 0 <= i < |children| ==>
      children[i] in s.table && s.table[children[i]].spawnOrder >= order
    ensures Later(s, children, order) == children
    decreases |children|
  {
    if children != [] {
      assert children[0] in s.table && s.table[children[0]].spawnOrder >= order;
      LaterAll(s, children[1..], order);
    }
  }

  /** A crash of any child restarts that child and exactly those started after it. */
  ghost predicate RestartsSuffixes(s: Sys, sup: Pid)
    requires sup in s.table
  {
    var q := s.table[sup].children;
    forall k {:trigger q[k]} :: 0 <= k < |q| ==> RestartSet(s, sup, q[k]) == q[k..]
  }

  /** RestForOne does what it is for exactly while the spawn orders strictly ascend along the list of children. */
  lemma RestForOneIff(s: Sys, sup: Pid)
    requires Inv(s) && sup in s.table && s.table[sup].strategy == RestForOne
    ensures RestartsSuffixes(s, sup) <==> OrdersRise(s, sup)
  {
    var q := s.table[sup].children;
    forall i | 0 <= i < |q|
      ensures q[i] in s.table
    {
      var c := q[i];
      assert c in s.table[sup].children;
    }
    if OrdersRise(s, sup) {
      forall k | 0 <= k < |q|
        ensures RestartSet(s, sup, q[k]) == q[k..]
      {
        LaterIsSuffix(s, q, k);
      }
    }
    if RestartsSuffixes(s, sup) {
      forall i, j | 0 <= i < j < |q|
        ensures s.table[q[i]].spawnOrder < s.table[q[j]].spawnOrder
      {
        assert RestartSet(s, sup, q[j]) == q[j..];
        EarlierIsNotIn(q, i, j);
        LaterMembers(s, q, s.table[q[j]].spawnOrder, q[i]);
      }
    }
  }

  lemma EarlierIsNotIn(q: seq<Pid>, i: nat, j: nat)
    requires NoDup(q) && i < j < |q|
    ensures q[i] !in q[j..]
  {
    forall k | 0 <= k < |q[j..]|
      ensures q[j..][k] != q[i]
    {
      assert q[j..][k] == q[j + k];
    }
  }

  // ----- which operations keep it

  /** A child is started whose order, the number of children, is not above that of the newest one there. */
  predicate Repeats(s: Sys, sup: Pid, op: Op)
  {
    && op.OpSpawn? && op.supervisor == sup && sup in s.table && |s.table| < MAX_PROCESSES
    && var q := s.table[sup].children;
      q != [] && q[|q| - 1] in s.table && s.table[q[|q| - 1]].spawnOrder >= |q|
  }

  lemma {:induction false} DropAt(q: seq<Pid>, k: nat)
    requires NoDup(q) && k < |q|
    ensures Drop(q, {q[k]}) == q[..k] + q[k + 1..]
    decreases |q|
  {
    NoDupTail(q);
    if k == 0 {
      DropAbsent(q[1..], {q[0]});
    } else {
      assert q[0] != q[k];
      DropAt(q[1..], k - 1);
    }
  }

  /** What terminating does to the lists of children. */
  lemma ChildrenAfterTerminate(s: Sys, p: Pid, x: Pid)
    requires Inv(s) && p in s.table && x in s.table
    ensures var t := Terminate(s, p).0.table;
      && t.Keys == s.table.Keys && t[x].spawnOrder == s.table[x].spawnOrder
      && t[x].children == if x == s.table[p].supervisor then Drop(s.table[x].children, {p}) else s.table[x].children
  {
  }

  lemma SameRising(t: map<Pid, Pcb>, u: map<Pid, Pcb>, q: seq<Pid>)
    requires Rising(t, q)
    requires forall x {:trigger t[x]} :: x in t ==> x in u && u[x].spawnOrder == t[x].spawnOrder
    ensures Rising(u, q)
  {
    forall i | 0 <= i < |q|
      ensures q[i] in u && u[q[i]].spawnOrder == t[q[i]].spawnOrder
    {
      var x := q[i];
      assert t[x].spawnOrder == u[x].spawnOrder;
    }
  }

  lemma {:induction false} DropRising(t: map<Pid, Pcb>, q: seq<Pid>, gone: set<Pid>)
    requires Rising(t, q)
    ensures Rising(t, Drop(q, gone))
    decreases |q|
  {
    if q != [] {
      DropRising(t, q[1..], gone);
      var r := Drop(q[1..], gone);
      forall i | 0 <= i < |r|
        ensures t[q[0]].spawnOrder < t[r[i]].spawnOrder
      {
        DropMembers(q[1..], gone, r[i]);
        assert r[i] in q[1..];
      }
    }
  }

  /** Terminating never breaks it. */
  lemma TerminateKeepsRise(s: Sys, sup: Pid, p: Pid)
    requires Inv(s) && OrdersRise(s, sup) && p in s.table
    ensures OrdersRise(Terminate(s, p).0, sup)
  {
    var t, q := Terminate(s, p).0.table, s.table[sup].children;
    forall x | x in s.table
      ensures t.Keys == s.table.Keys && t[x].spawnOrder == s.table[x].spawnOrder
    {
      ChildrenAfterTerminate(s, p, x);
    }
    ChildrenAfterTerminate(s, p, sup);
    DropRising(s.table, q, {p});
    SameRising(s.table, t, t[sup].children);
  }

  lemma PushRising(t: map<Pid, Pcb>, q: seq<Pid>, c: Pid)
    requires Rising(t, q) && c in t
    ensures Rising(t, q + [c]) <==> q == [] || t[q[|q| - 1]].spawnOrder < t[c].spawnOrder
  {
    var r := q + [c];
    if q != [] {
      assert r[|q| - 1] == q[|q| - 1] && r[|q|] == c;
      forall i | 0 <= i < |q|
        ensures t[q[i]].spawnOrder <= t[q[|q| - 1]].spawnOrder
      {
      }
    }
  }

  lemma SpawnKeepsRiseIff(s: Sys, sup: Pid, boss: Pid, intent: Intent, strategy: Strategy)
    requires Inv(s) && OrdersRise(s, sup)
    ensures OrdersRise(Spawn(s, boss, intent, strategy).0, sup) <==> !Repeats(s, sup, OpSpawn(boss, intent, strategy))
  {
    var t, q := Spawn(s, boss, intent, strategy).0.table, s.table[sup].children;
    if boss in s.table && |s.table| < MAX_PROCESSES {
      assert s.nextPid !in s.table;
      SameRising(s.table, t, q);
      if boss == sup {
        PushRising(t, q, s.nextPid);
      }
    }
  }

  ghost predicate SameLink(b: Pcb, c: Pcb) { c.children == b.children && c.spawnOrder == b.spawnOrder }

  lemma OutcomeKeepsLink(s: Sys, sup: Pid, crashed: Pid, x: Pid)
    requires Descending(s) && x in s.table
    ensures SameLink(s.table[x], Outcome(s, sup, crashed, x))
  {
  }

  lemma CrashKeepsLink(s: Sys, p: Pid, x: Pid)
    requires Inv(s) && Descending(s) && x in s.table
    ensures x in Crash(s, p).0.table && SameLink(s.table[x], Crash(s, p).0.table[x])
  {
    if p in s.table {
      CrashOutcome(s, p, x);
      OutcomeKeepsLink(Kill(s, p, Crashed), s.table[p].supervisor, p, x);
    }
  }

  lemma ScheduleKeepsLink(s: Sys, x: Pid)
    requires Inv(s) && x in s.table
    ensures ScheduleNext(s).0.table.Keys == s.table.Keys && SameLink(s.table[x], ScheduleNext(s).0.table[x])
  {
    RequeueKeeps(s);
    PickIsTop(Requeue(s), LEVELS);
  }

  lemma BlockKeepsLink(s: Sys, p: Pid, w: Option<Pid>, x: Pid)
    requires |s.queues| == LEVELS && x in s.table
    ensures Block(s, p, w).0.table.Keys == s.table.Keys && SameLink(s.table[x], Block(s, p, w).0.table[x])
  {
    if p in s.table && Runnable(s.table[p]) && w.Some? {
      var s1 := Dequeue(Put(s, p, s.table[p].(state := Blocked, blockedOn := w)), p);
      InheritRaises(s1, w.value, s.table[p].eff, 0, x);
    }
  }

  lemma UnblockKeepsLink(s: Sys, p: Pid, x: Pid)
    requires |s.queues| == LEVELS && x in s.table
    ensures Unblock(s, p).0.table.Keys == s.table.Keys && SameLink(s.table[x], Unblock(s, p).0.table[x])
  {
  }

  lemma {:induction false} InheritKeys(s: Sys, target: Pid, boost: nat, depth: nat)
    requires |s.queues| == LEVELS
    ensures Inherit(s, target, boost, depth).table.Keys == s.table.Keys
    decreases MAX_INHERITANCE_DEPTH - depth
  {
    if depth < MAX_INHERITANCE_DEPTH && target in s.table && s.table[target].eff < boost {
      if s.table[target].blockedOn.Some? {
        InheritKeys(Reprioritize(s, target, boost), s.table[target].blockedOn.value, boost, depth + 1);
      }
    }
  }

  lemma KeysKept(s: Sys, op: Op)
    requires Inv(s) && !op.OpSpawn?
    ensures Apply(s, op).table.Keys == s.table.Keys
  {
    match op
    case OpBlock(p, w) =>
      if p in s.table && Runnable(s.table[p]) && w.Some? {
        InheritKeys(Dequeue(Put(s, p, s.table[p].(state := Blocked, blockedOn := w)), p), w.value, s.table[p].eff, 0);
      }
    case OpSchedule =>
      RequeueKeeps(s);
      PickIsTop(Requeue(s), LEVELS);
    case OpAge => AgingKeys(s);
    case OpUnblock(p) =>
      if p in s.table {
        UnblockKeepsLink(s, p, p);
      }
    case _ =>
  }

  /** An operation that is no spawn and no terminate changes no link. */
  lemma LinksKept(s: Sys, op: Op, x: Pid)
    requires Inv(s) && x in s.table && !op.OpSpawn? && !op.OpTerminate?
    ensures Apply(s, op).table.Keys == s.table.Keys && SameLink(s.table[x], Apply(s, op).table[x])
  {
    match op
    case OpBlock(p, w) => BlockKeepsLink(s, p, w, x);
    case OpUnblock(p) => UnblockKeepsLink(s, p, x);
    case OpCrash(p) =>
      InvDescends(s);
      CrashKeepsLink(s, p, x);
    case OpSchedule => ScheduleKeepsLink(s, x);
    case OpAge =>
      AgingKeys(s);
      AgingRaisesTheStarved(s, x);
    case OpConsume =>
    case OpTick =>
  }

  /** From such a state an operation keeps it exactly when it does not start a child with a repeated order. */
  lemma RiseKeptIff(s: Sys, sup: Pid, op: Op)
    requires Inv(s) && OrdersRise(s, sup)
    ensures OrdersRise(Apply(s, op), sup) <==> !Repeats(s, sup, op)
  {
    match op
    case OpSpawn(boss, intent, strategy) => SpawnKeepsRiseIff(s, sup, boss, intent, strategy);
    case OpTerminate(p) =>
      if p in s.table {
        TerminateKeepsRise(s, sup, p);
      }
    case _ =>
      var t := Apply(s, op).table;
      forall x | x in s.table
        ensures x in t && SameLink(s.table[x], t[x])
      {
        LinksKept(s, op, x);
      }
      SameRising(s.table, t, s.table[sup].children);
  }

  // ----- runs

  lemma {:induction false} DropAscending(q: seq<Pid>, gone: set<Pid>)
    requires Ascending(q)
    ensures Ascending(Drop(q, gone))
    decreases |q|
  {
    if q != [] {
      DropAscending(q[1..], gone);
      var r := Drop(q[1..], gone);
      forall i | 0 <= i < |r|
        ensures q[0] < r[i]
      {
        DropMembers(q[1..], gone, r[i]);
        assert r[i] in q[1..];
      }
    }
  }

  lemma SpawnAscending(s: Sys, boss: Pid, intent: Intent, strategy: Strategy)
    requires Inv(s) && AllAscending(s)
    ensures AllAscending(Spawn(s, boss, intent, strategy).0)
  {
    if boss in s.table {
      var q := s.table[boss].children;
      forall i | 0 <= i < |q|
        ensures q[i] < s.nextPid
      {
        assert q[i] in s.table[boss].children;
        assert s.table[q[i]].supervisor == boss;
      }
      assert Ascending(q + [s.nextPid]);
    }
  }

  lemma TerminateAscending(s: Sys, p: Pid)
    requires Inv(s) && AllAscending(s)
    ensures AllAscending(Terminate(s, p).0)
  {
    if p in s.table {
      forall x | x in s.table
        ensures Terminate(s, p).0.table.Keys == s.table.Keys && Ascending(Terminate(s, p).0.table[x].children)
      {
        ChildrenAfterTerminate(s, p, x);
        DropAscending(s.table[x].children, {p});
      }
    }
  }

  lemma AscendingKept(s: Sys, op: Op)
    requires Inv(s) && AllAscending(s)
    ensures AllAscending(Apply(s, op))
  {
    match op
    case OpSpawn(boss, intent, strategy) => SpawnAscending(s, boss, intent, strategy);
    case OpTerminate(p) => TerminateAscending(s, p);
    case _ =>
      var t := Apply(s, op).table;
      KeysKept(s, op);
      forall x | x in s.table
        ensures Ascending(t[x].children)
      {
        LinksKept(s, op, x);
      }
  }

  /** A new supervisor has no children. */
  lemma NewcomerIsChildless(s: Sys, op: Op, sup: Pid)
    requires Inv(s) && sup !in s.table && sup in Apply(s, op).table
    ensures Apply(s, op).table[sup].children == []
  {
    if !op.OpSpawn? {
      KeysKept(s, op);
    }
  }

  /** In every reachable state the children of a supervisor stand in the order in which they were started. */
  lemma {:induction false} EveryRunAscends(ops: seq<Op>)
    ensures AllAscending(Run(ops))
    decreases |ops|
  {
    if ops != [] {
      EveryRunAscends(ops[..|ops| - 1]);
      AscendingKept(Run(ops[..|ops| - 1]), ops[|ops| - 1]);
    }
  }

  /** No operation of the run starts a child of that supervisor with a repeated order. */
  ghost predicate NoneRepeats(ops: seq<Op>, sup: Pid)
    decreases |ops|
  {
    ops == [] || (var init, op := ops[..|ops| - 1], ops[|ops| - 1];
                  NoneRepeats(init, sup) && !Repeats(Run(init), sup, op))
  }

  /** In every state of the run in which the supervisor exists, the orders of its children rise. */
  ghost predicate AlwaysRise(ops: seq<Op>, sup: Pid)
    decreases |ops|
  {
    && (sup in Run(ops).table ==> OrdersRise(Run(ops), sup))
    && (ops == [] || AlwaysRise(ops[..|ops| - 1], sup))
  }

  /** The orders rise throughout a run exactly when no child is started with a repeated order. With RestForOneIff:
      through exactly these runs a crash restarts the crashed child and those started after it. */
  lemma {:induction false} EveryRunRisesIff(ops: seq<Op>, sup: Pid)
    ensures AlwaysRise(ops, sup) <==> NoneRepeats(ops, sup)
    decreases |ops|
  {
    if ops == [] {
      BootRises(sup);
    } else {
      var init, op := ops[..|ops| - 1], ops[|ops| - 1];
      EveryRunRisesIff(init, sup);
      if AlwaysRise(init, sup) {
        RiseStep(Run(init), sup, op);
      }
    }
  }

  lemma BootRises(sup: Pid)
    ensures sup in Boot().table ==> OrdersRise(Boot(), sup)
  {
  }

  lemma RiseStep(s: Sys, sup: Pid, op: Op)
    requires Inv(s) && (sup in s.table ==> OrdersRise(s, sup))
    ensures (sup in Apply(s, op).table ==> OrdersRise(Apply(s, op), sup)) <==> !Repeats(s, sup, op)
  {
    if sup in s.table {
      RiseKeptIff(s, sup, op);
      KeysGrow(s, op, sup);
    } else if sup in Apply(s, op).table {
      NewcomerIsChildless(s, op, sup);
    }
  }

  lemma KeysGrow(s: Sys, op: Op, x: Pid)
    requires Inv(s) && x in s.table
    ensures x in Apply(s, op).table
  {
    if !op.OpSpawn? {
      KeysKept(s, op);
    }
  }

  // ----- a run in which the orders are not those of the starts

  /** Process 2 supervises with RestForOne, and its children have these spawn orders. */
  ghost predicate Kids(s: Sys, kids: seq<Pid>, orders: seq<nat>, next: Pid)
  {
    && s.nextPid == next && |s.table| == next - 1 && 2 in s.table && s.table[2].strategy == RestForOne
    && s.table[2].children == kids && |orders| == |kids|
    && forall i {:trigger kids[i]} :: 0 <= i < |kids| ==>
         kids[i] in s.table && s.table[kids[i]].supervisor == 2 && s.table[kids[i]].spawnOrder == orders[i]
  }

  lemma KidsSpawn(s: Sys, kids: seq<Pid>, orders: seq<nat>, next: Pid)
    requires Inv(s) && Kids(s, kids, orders, next) && next < 10
    ensures Kids(Spawn(s, 2, Plain(0), OneForOne).0, kids + [next], orders + [|kids|], next + 1)
  {
    var r := Spawn(s, 2, Plain(0), OneForOne).0;
    assert next !in s.table;
    assert r.table.Keys == s.table.Keys + {next};
    assert |r.table| == |r.table.Keys| == |s.table.Keys| + 1;
  }

  lemma KidsTerminate(s: Sys, kids: seq<Pid>, orders: seq<nat>, next: Pid)
    requires Inv(s) && Kids(s, kids, orders, next) && kids != []
    ensures Kids(Terminate(s, kids[0]).0, kids[1..], orders[1..], next)
  {
    var r := Terminate(s, kids[0]).0;
    assert NoDup(s.table[2].children);
    DropAt(kids, 0);
    assert kids[..0] + kids[1..] == kids[1..];
    assert r.table.Keys == s.table.Keys;
    assert |r.table| == |r.table.Keys|;
  }

  lemma RunSpawn(ops: seq<Op>, kids: seq<Pid>, orders: seq<nat>, next: Pid) returns (run: seq<Op>)
    requires Kids(Run(ops), kids, orders, next) && next < 10
    ensures Kids(Run(run), kids + [next], orders + [|kids|], next + 1)
  {
    run := ops + [OpSpawn(2, Plain(0), OneForOne)];
    RunPush(ops, OpSpawn(2, Plain(0), OneForOne));
    KidsSpawn(Run(ops), kids, orders, next);
  }

  lemma RunTerminate(ops: seq<Op>, kids: seq<Pid>, orders: seq<nat>, next: Pid) returns (run: seq<Op>)
    requires Kids(Run(ops), kids, orders, next) && kids != []
    ensures Kids(Run(run), kids[1..], orders[1..], next)
  {
    run := ops + [OpTerminate(kids[0])];
    RunPush(ops, OpTerminate(kids[0]));
    KidsTerminate(Run(ops), kids, orders, next);
  }

  lemma RunToSupervisor() returns (run: seq<Op>)
    ensures Kids(Run(run), [], [], 3)
  {
    var op := OpSpawn(1, Plain(0), RestForOne);
    RunPush([], op);
    run := [] + [op];
    assert Run([]) == Boot();
    assert |Boot().table| == |Boot().table.Keys| == 1;
    assert Run(run).table.Keys == {1, 2};
    assert |Run(run).table| == |Run(run).table.Keys|;
  }

  /** Children 3, 4 and 5 are started, 3 and 4 terminate, and 6 is started and gets order 1 while 5 has order 2: a crash
      of 5 does not restart 6, which was started later, and a crash of 6 restarts 5, which was started earlier. */
  lemma OrdersSwapped() returns (ops: seq<Op>)
    ensures var s := Run(ops);
      && 2 in s.table && s.table[2].children == [5, 6]
      && RestartSet(s, 2, 5) == [5] && RestartSet(s, 2, 6) == [5, 6]
  {
    ops := RunToTwo();
    ops := RunSpawn(ops, [3, 4], [0, 1], 5);
    ops := RunTerminate(ops, [3, 4, 5], [0, 1, 2], 6);
    ops := RunToSwap(ops);
    SwappedSets(Run(ops));
  }

  lemma RunToSwap(ops: seq<Op>) returns (run: seq<Op>)
    requires Kids(Run(ops), [4, 5], [1, 2], 6)
    ensures Kids(Run(run), [5, 6], [2, 1], 7)
  {
    run := RunTerminate(ops, [4, 5], [1, 2], 6);
    run := RunSpawn(run, [5], [2], 6);
  }

  lemma RunToTwo() returns (run: seq<Op>)
    ensures Kids(Run(run), [3, 4], [0, 1], 5)
  {
    run := RunToSupervisor();
    run := RunSpawn(run, [], [], 3);
    run := RunSpawn(run, [3], [0], 4);
  }

  lemma SwappedSets(s: Sys)
    requires Kids(s, [5, 6], [2, 1], 7)
    ensures RestartSet(s, 2, 5) == [5] && RestartSet(s, 2, 6) == [5, 6]
  {
    var kids: seq<Pid> := [5, 6];
    assert kids[0] == 5 && kids[1] == 6 && kids[1..] == [6] && kids[1..][1..] == [];
    assert s.table[5].spawnOrder == 2 && s.table[6].spawnOrder == 1;
    assert Later(s, [6], 2) == [] && Later(s, [6], 1) == [6];
    assert Later(s, kids, 2) == [5] && Later(s, kids, 1) == [5, 6];
  }
}
