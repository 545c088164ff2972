/** What every operation on processes keeps. */
module ProcessInvariant {
  import opened Wrappers
  import opened ProcessModel

  /** A process that must be in a queue. */
  ghost predicate Waiting(s: Sys, p: Pid)
    requires p in s.table
  {
    s.table[p].state == Ready || (s.table[p].state == Running && s.current != Some(p))
  }

  /** Every process outside `loose` is where its state says: a ready one in the queue of its priority, a running one
      there or current, the others nowhere. Nothing in `loose` is in a queue or current. */
  ghost predicate Placed(s: Sys, loose: set<Pid>)
  {
    && |s.queues| == LEVELS
    && (forall l {:trigger s.queues[l]} :: 0 <= l < LEVELS ==> NoDup(s.queues[l]))
    && (forall l, p {:trigger p in s.queues[l]} :: 0 <= l < LEVELS && p in s.queues[l] ==>
          && p !in loose && p in s.table && s.table[p].eff == l && Runnable(s.table[p]) && s.current != Some(p))
    && (forall p {:trigger s.table[p]} :: p in s.table && p !in loose && Waiting(s, p) ==>
          s.table[p].eff < LEVELS && p in s.queues[s.table[p].eff])
    && (s.current.Some? ==>
          && s.current.value !in loose && s.current.value in s.table && s.table[s.current.value].state == Running)
  }

  ghost predicate PcbOk(b: Pcb)
  {
    && b.base == b.intent.priority && b.base <= b.eff <= 4
    && (Runnable(b) ==> b.blockedOn == None)
  }

  /** Pids below the next one, supervisors below their children, and children lists without strangers or repeats. */
  ghost predicate Tree(t: map<Pid, Pcb>, nextPid: Pid)
  {
    && (forall p {:trigger t[p]} :: p in t ==> 0 < p < nextPid && 0 <= t[p].supervisor < p && NoDup(t[p].children))
    && (forall p {:trigger t[p]} :: p in t ==> t[p].supervisor == KERNEL || t[p].supervisor in t)
    && (forall p, c {:trigger c in t[p].children} :: p in t && c in t[p].children ==> c in t && t[c].supervisor == p)
    && KERNEL !in t
  }

  ghost predicate PcbsOk(t: map<Pid, Pcb>)
  {
    forall p {:trigger t[p]} :: p in t ==> PcbOk(t[p])
  }

  ghost predicate TableOk(t: map<Pid, Pcb>, nextPid: Pid)
  {
    Tree(t, nextPid) && PcbsOk(t)
  }

  ghost predicate Inv(s: Sys)
  {
    Placed(s, {}) && TableOk(s.table, s.nextPid)
  }

  // ----- filtering a queue

  lemma {:induction false} DropMembers(q: seq<Pid>, gone: set<Pid>, x: Pid)
    ensures x in Drop(q, gone) <==> x in q && x !in gone
    decreases |q|
  {
    if q != [] {
      DropMembers(q[1..], gone, x);
      assert q == [q[0]] + q[1..];
    }
  }

  lemma NoDupCons(x: Pid, q: seq<Pid>)
    requires NoDup(q) && x !in q
    ensures NoDup([x] + q)
  {
    var r := [x] + q;
    forall i, j | 0 <= i < j < |r|
      ensures r[i] != r[j]
    {
      assert r[j] == q[j - 1];
    }
  }

  lemma NoDupTail(q: seq<Pid>)
    requires NoDup(q) && q != []
    ensures NoDup(q[1..]) && q[0] !in q[1..]
  {
    var r := q[1..];
    forall i, j | 0 <= i < j < |r|
      ensures r[i] != r[j]
    {
      assert r[i] == q[i + 1] && r[j] == q[j + 1];
    }
  }

  lemma NoDupPush(q: seq<Pid>, x: Pid)
    requires NoDup(q) && x !in q
    ensures NoDup(q + [x])
  {
  }

  lemma {:induction false} DropNoDup(q: seq<Pid>, gone: set<Pid>)
    requires NoDup(q)
    ensures NoDup(Drop(q, gone))
    decreases |q|
  {
    if q != [] {
      NoDupTail(q);
      DropNoDup(q[1..], gone);
      if q[0] !in gone {
        DropMembers(q[1..], gone, q[0]);
        NoDupCons(q[0], Drop(q[1..], gone));
      }
    }
  }

  // ----- taking a process out and putting it back

  lemma DequeueDetaches(s: Sys, p: Pid, loose: set<Pid>)
    requires Placed(s, loose)
    ensures Placed(Dequeue(s, p), loose + {p})
  {
    var r := Dequeue(s, p);
    forall l | 0 <= l < LEVELS
      ensures NoDup(r.queues[l])
    {
      DropNoDup(s.queues[l], {p});
    }
    forall l, x | 0 <= l < LEVELS
      ensures x in r.queues[l] <==> x in s.queues[l] && x != p
    {
      DropMembers(s.queues[l], {p}, x);
    }
  }

  lemma PutDetached(s: Sys, p: Pid, b: Pcb, loose: set<Pid>)
    requires Placed(s, loose) && p in loose
    ensures Placed(Put(s, p, b), loose)
  {
  }

  /** Fields other than state and priority do not matter to the queues. */
  lemma PutAlike(s: Sys, p: Pid, b: Pcb, loose: set<Pid>)
    requires Placed(s, loose) && p in s.table && b.state == s.table[p].state && b.eff == s.table[p].eff
    ensures Placed(Put(s, p, b), loose)
  {
  }

  lemma EnqueueAttaches(s: Sys, p: Pid, loose: set<Pid>)
    requires Placed(s, loose) && p in loose && p in s.table && Runnable(s.table[p]) && 0 <= s.table[p].eff < LEVELS
    ensures Placed(Enqueue(s, p, s.table[p].eff), loose - {p})
  {
    var l := s.table[p].eff;
    NoDupPush(s.queues[l], p);
    var r := Enqueue(s, p, l);
    assert r.queues[l] == s.queues[l] + [p];
  }

  lemma StaysOut(s: Sys, p: Pid, loose: set<Pid>)
    requires Placed(s, loose) && (p in s.table ==> !Runnable(s.table[p]))
    ensures Placed(s, loose - {p})
  {
  }

  // ----- scheduling

  /** An update that keeps the links of a process and its own invariant keeps the table's. */
  lemma PutKeepsTable(t: map<Pid, Pcb>, nextPid: Pid, p: Pid, b: Pcb)
    requires TableOk(t, nextPid) && p in t && PcbOk(b)
    requires b.supervisor == t[p].supervisor && b.children == t[p].children
    ensures TableOk(t[p := b], nextPid)
  {
  }

  lemma RequeueKeeps(s: Sys)
    requires Inv(s)
    ensures Inv(Requeue(s)) && Requeue(s).current == None
  {
    if s.current.Some? {
      var p := s.current.value;
      var b := s.table[p].(state := Ready);
      var out := s.(current := None);
      assert Placed(out, {p});
      PutDetached(out, p, b, {p});
      EnqueueAttaches(Put(out, p, b), p, {p});
      PutKeepsTable(s.table, s.nextPid, p, b);
    }
  }

  /** The highest non-empty queue below a level, or -1. */
  ghost function Top(s: Sys, level: nat): (t: int)
    requires |s.queues| == LEVELS && level <= LEVELS
    ensures -1 <= t < level && (t >= 0 ==> s.queues[t] != [])
    ensures forall l {:trigger s.queues[l]} :: t < l < level ==> s.queues[l] == []
  {
    if level == 0 then -1 else if s.queues[level - 1] != [] then level - 1 else Top(s, level - 1)
  }

  /** The head of a queue leaves it and runs. */
  ghost function Take(s: Sys, l: nat): Sys
    requires |s.queues| == LEVELS && l < LEVELS && s.queues[l] != [] && s.queues[l][0] in s.table
  {
    Dispatch(s.(queues := s.queues[l := s.queues[l][1..]]), s.queues[l][0])
  }

  lemma HeadIsLive(s: Sys, l: nat)
    requires Placed(s, {}) && l < LEVELS && s.queues[l] != []
    ensures s.queues[l][0] in s.table && s.table[s.queues[l][0]].eff == l && Runnable(s.table[s.queues[l][0]])
  {
    var p := s.queues[l][0];
    assert p in s.queues[l];
  }

  /** The scan takes the head of the highest non-empty queue. */
  lemma PickIsTop(s: Sys, level: nat)
    requires Placed(s, {}) && level <= LEVELS
    ensures var t := Top(s, level);
      if t < 0 then Pick(s, level) == (s, None)
      else s.queues[t][0] in s.table && Pick(s, level) == (Take(s, t), Some(s.queues[t][0]))
    decreases level
  {
    if level > 0 {
      if s.queues[level - 1] == [] {
        PickIsTop(s, level - 1);
      } else {
        HeadIsLive(s, level - 1);
      }
    }
  }

  lemma TakeKeeps(s: Sys, l: nat)
    requires Placed(s, {}) && s.current == None && l < LEVELS && s.queues[l] != []
    ensures s.queues[l][0] in s.table && Runnable(s.table[s.queues[l][0]]) && Placed(Take(s, l), {})
  {
    HeadIsLive(s, l);
    var q := s.queues[l];
    var p := q[0];
    NoDupTail(q);
    var out := s.(queues := s.queues[l := q[1..]]);
    forall x
      ensures x in q[1..] <==> x in q && x != p
    {
      assert q == [p] + q[1..];
    }
    assert forall k {:trigger out.queues[k]} :: 0 <= k < LEVELS && k != l ==> out.queues[k] == s.queues[k];
    assert Placed(out, {p});
    PutDetached(out, p, Dispatch(out, p).table[p], {p});
  }

  lemma {:induction false} ScheduleNextKeepsInv(s: Sys)
    requires Inv(s)
    ensures Inv(ScheduleNext(s).0)
  {
    if !KeepsRunning(s) {
      var q := Requeue(s);
      RequeueKeeps(s);
      PickIsTop(q, LEVELS);
      var t := Top(q, LEVELS);
      if t >= 0 {
        TakeKeeps(q, t);
        var p := q.queues[t][0];
        PutKeepsTable(q.table, q.nextPid, p, Take(q, t).table[p]);
      }
    }
  }

  /** p was first in its queue, has at least the given priority, and now runs on a fresh time slice. */
  ghost predicate Picked(s: Sys, r: Sys, p: Pid, eff: nat)
    requires |s.queues| == LEVELS && |r.queues| == LEVELS
  {
    && p in s.table && eff <= s.table[p].eff < LEVELS
    && p in r.table && r.table[p].state == Running && r.table[p].slice == SliceFor(s.table[p].eff)
    && Requeue(s).queues[s.table[p].eff] == [p] + r.queues[s.table[p].eff]
  }

  /** When the scheduler switches, the one it picks was first in its queue and no process that can run has a higher
      priority; it idles only when none can run. */
  lemma ScheduleNextPicksHighest(s: Sys, x: Pid)
    requires Inv(s) && !KeepsRunning(s) && x in s.table && Runnable(s.table[x])
    ensures ScheduleNext(s).1.Some?
    ensures Picked(s, ScheduleNext(s).0, ScheduleNext(s).1.value, s.table[x].eff)
  {
    var q := Requeue(s);
    RequeueKeeps(s);
    PickIsTop(q, LEVELS);
    assert q.table[x].eff == s.table[x].eff && Waiting(q, x);
    assert x in q.queues[s.table[x].eff];
    var t := Top(q, LEVELS);
    HeadIsLive(q, t);
    assert q.queues[t] == [q.queues[t][0]] + q.queues[t][1..];
  }

  lemma IdleMeansNoneCanRun(s: Sys, x: Pid)
    requires Inv(s) && ScheduleNext(s).1 == None && x in s.table
    ensures !Runnable(s.table[x])
  {
    if Runnable(s.table[x]) {
      ScheduleNextPicksHighest(s, x);
    }
  }

  lemma ConsumeTickKeepsInv(s: Sys)
    requires Inv(s)
    ensures Inv(ConsumeTick(s).0)
  {
    if s.current.Some? {
      var p := s.current.value;
      var b := ConsumeTick(s).0.table[p];
      PutAlike(s, p, b, {});
      PutKeepsTable(s.table, s.nextPid, p, b);
    }
  }

  // ----- priorities

  lemma ReprioritizeKeepsInv(s: Sys, p: Pid, eff: nat)
    requires Inv(s) && p in s.table && s.table[p].base <= eff <= 4
    ensures Inv(Reprioritize(s, p, eff))
  {
    var b := s.table[p].(eff := eff);
    var out := Dequeue(s, p);
    DequeueDetaches(s, p, {});
    PutDetached(out, p, b, {p});
    PutKeepsTable(s.table, s.nextPid, p, b);
    assert Dequeue(Put(s, p, b), p) == Put(out, p, b);
    assert {} + {p} == {p} && {p} - {p} == {};
    if Runnable(b) {
      EnqueueAttaches(Put(out, p, b), p, {p});
    } else {
      StaysOut(Put(out, p, b), p, {p});
    }
  }

  lemma {:induction false} InheritKeepsInv(s: Sys, target: Pid, boost: nat, depth: nat)
    requires Inv(s) && boost <= 4
    ensures Inv(Inherit(s, target, boost, depth))
    decreases MAX_INHERITANCE_DEPTH - depth
  {
    if depth < MAX_INHERITANCE_DEPTH && target in s.table && s.table[target].eff < boost {
      ReprioritizeKeepsInv(s, target, boost);
      if s.table[target].blockedOn.Some? {
        InheritKeepsInv(Reprioritize(s, target, boost), s.table[target].blockedOn.value, boost, depth + 1);
      }
    }
  }

  /** Inheritance only touches priorities: it never lowers one, never raises one above the waiter's, and the process
      waited for ends up with at least the waiter's. */
  lemma {:induction false} InheritRaises(s: Sys, target: Pid, boost: nat, depth: nat, x: Pid)
    requires |s.queues| == LEVELS && x in s.table
    ensures var r := Inherit(s, target, boost, depth);
      && r.table.Keys == s.table.Keys
      && r.table[x] == s.table[x].(eff := r.table[x].eff)
      && s.table[x].eff <= r.table[x].eff
      && (r.table[x].eff != s.table[x].eff ==> r.table[x].eff == boost)
      && (x == target && depth < MAX_INHERITANCE_DEPTH ==> boost <= r.table[x].eff)
    decreases MAX_INHERITANCE_DEPTH - depth
  {
    if depth < MAX_INHERITANCE_DEPTH && target in s.table && s.table[target].eff < boost {
      if s.table[target].blockedOn.Some? {
        InheritRaises(Reprioritize(s, target, boost), s.table[target].blockedOn.value, boost, depth + 1, x);
      }
    }
  }

  lemma KillKeepsInv(s: Sys, p: Pid, why: ExitReason)
    requires Inv(s) && p in s.table
    ensures Inv(Kill(s, p, why))
  {
    var b := s.table[p].(state := Terminated, exit := Some(why));
    DequeueDetaches(s, p, {});
    PutDetached(Dequeue(s, p), p, b, {p});
    assert Kill(s, p, why) == Put(Dequeue(s, p), p, b);
    assert {} + {p} == {p} && {p} - {p} == {};
    StaysOut(Kill(s, p, why), p, {p});
    PutKeepsTable(s.table, s.nextPid, p, b);
  }

  lemma BlockKeepsInv(s: Sys, p: Pid, waitingOn: Option<Pid>)
    requires Inv(s)
    ensures Inv(Block(s, p, waitingOn).0)
  {
    if p in s.table && Runnable(s.table[p]) {
      var b := s.table[p].(state := Blocked, blockedOn := waitingOn);
      var out := Put(Dequeue(s, p), p, b);
      DequeueDetaches(s, p, {});
      PutDetached(Dequeue(s, p), p, b, {p});
      assert {} + {p} == {p} && {p} - {p} == {};
      StaysOut(out, p, {p});
      PutKeepsTable(s.table, s.nextPid, p, b);
      assert out == Dequeue(Put(s, p, b), p);
      if waitingOn.Some? {
        InheritKeepsInv(out, waitingOn.value, b.eff, 0);
      }
    }
  }

  /** Whoever a blocked process waits for has at least its priority. */
  lemma BlockedPriorityIsInherited(s: Sys, p: Pid, target: Pid)
    requires Inv(s) && p in s.table && Runnable(s.table[p]) && target in s.table
    ensures var r := Block(s, p, Some(target)).0;
      target in r.table && r.table[target].eff >= s.table[p].eff
  {
    var b := s.table[p].(state := Blocked, blockedOn := Some(target));
    InheritRaises(Dequeue(Put(s, p, b), p), target, b.eff, 0, target);
  }

  // ----- waking

  /** A process that is in no queue becomes ready. */
  lemma ReadyKeepsInv(s: Sys, p: Pid, b: Pcb)
    requires Inv(s) && p in s.table && !Runnable(s.table[p]) && b.state == Ready && PcbOk(b)
    requires b.supervisor == s.table[p].supervisor && b.children == s.table[p].children
    ensures Inv(Enqueue(Put(s, p, b), p, b.eff))
  {
    PutDetached(s, p, b, {p});
    EnqueueAttaches(Put(s, p, b), p, {p});
    assert {p} - {p} == {};
    PutKeepsTable(s.table, s.nextPid, p, b);
  }

  lemma WokenFits(b: Pcb, now: nat)
    requires b.base == b.intent.priority && b.base <= b.eff <= 4
    ensures b.base <= Woken(b, now) <= 4
  {
  }

  lemma WakeKeepsInv(s: Sys, p: Pid)
    requires Inv(s) && p in s.table && s.table[p].state == Blocked
    ensures Inv(Wake(s, p))
  {
    var b := s.table[p].(blockedOn := None, state := Ready, wake := s.tick);
    WokenFits(b, s.tick);
    ReadyKeepsInv(s, p, b.(eff := Woken(b, s.tick)));
  }

  lemma RevertKeepsInv(s: Sys, target: Pid)
    requires Inv(s)
    ensures Inv(Revert(s, target))
  {
    if target in s.table && s.table[target].eff != s.table[target].base {
      ReprioritizeKeepsInv(s, target, s.table[target].base);
    }
  }

  lemma UnblockKeepsInv(s: Sys, p: Pid)
    requires Inv(s)
    ensures Inv(Unblock(s, p).0)
  {
    if p in s.table && s.table[p].state == Blocked {
      WakeKeepsInv(s, p);
      if s.table[p].blockedOn.Some? {
        RevertKeepsInv(Wake(s, p), s.table[p].blockedOn.value);
      }
    }
  }

  // ----- starting and ending

  lemma AddChild(t: map<Pid, Pcb>, pid: Pid, sup: Pid, b: Pcb)
    requires TableOk(t, pid) && sup in t && PcbOk(b) && b.supervisor == sup && b.children == []
    ensures TableOk(t[pid := b][sup := t[sup].(children := t[sup].children + [pid])], pid + 1)
  {
    NoDupPush(t[sup].children, pid);
  }

  lemma SpawnKeepsInv(s: Sys, supervisor: Pid, intent: Intent, strategy: Strategy)
    requires Inv(s)
    ensures Inv(Spawn(s, supervisor, intent, strategy).0)
    ensures Spawn(s, supervisor, intent, strategy).1 != Err(AlreadyExists)
  {
    if supervisor in s.table && |s.table| < MAX_PROCESSES {
      SpawnAdds(s, supervisor, intent, strategy);
    }
  }

  lemma SpawnAdds(s: Sys, supervisor: Pid, intent: Intent, strategy: Strategy)
    requires Inv(s) && supervisor in s.table && |s.table| < MAX_PROCESSES && s.nextPid !in s.table
    ensures Inv(Spawn(s, supervisor, intent, strategy).0)
  {
    var sup := s.table[supervisor];
    var b := NewPcb(intent, supervisor, strategy, |sup.children|, s.tick);
    AddChild(s.table, s.nextPid, supervisor, b);
  }

  lemma RemoveChild(t: map<Pid, Pcb>, nextPid: Pid, sup: Pid, p: Pid)
    requires TableOk(t, nextPid) && sup in t
    ensures TableOk(t[sup := t[sup].(children := Drop(t[sup].children, {p}))], nextPid)
  {
    DropNoDup(t[sup].children, {p});
    forall c
      ensures c in Drop(t[sup].children, {p}) ==> c in t[sup].children
    {
      DropMembers(t[sup].children, {p}, c);
    }
  }

  lemma TerminateKeepsInv(s: Sys, p: Pid)
    requires Inv(s)
    ensures Inv(Terminate(s, p).0)
  {
    if p in s.table {
      KillKeepsInv(s, p, Finished);
      var s1 := Kill(s, p, Finished);
      var sup := s.table[p].supervisor;
      if sup in s1.table {
        PutAlike(s1, sup, s1.table[sup].(children := Drop(s1.table[sup].children, {p})), {});
        RemoveChild(s1.table, s1.nextPid, sup, p);
      }
    }
  }
}
