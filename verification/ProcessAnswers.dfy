/** What the operations on processes answer and leave behind, on the fields of the processes. */
module ProcessAnswers {
  import opened Wrappers
  import opened ProcessModel
  import opened ProcessInvariant
  import opened ProcessRuns

  // ----- starting and ending

  /** A new process is ready at the priority it asked for, is the last child of its supervisor with the number of
      children before it as its order, and may be restarted 5 times in 60 ticks. */
  lemma SpawnAnswer(s: Sys, supervisor: Pid, intent: Intent, strategy: Strategy)
    requires |s.queues| == LEVELS && s.nextPid !in s.table
    ensures var (r, answer) := Spawn(s, supervisor, intent, strategy);
      if supervisor !in s.table then answer == Err(SupervisorNotFound) && r == s
      else if |s.table| >= 1024 then answer == Err(TableFull) && r == s.(nextPid := s.nextPid + 1)
      else
        var b, sup := r.table[s.nextPid], s.table[supervisor];
        && answer == Ok(s.nextPid) && r.nextPid == s.nextPid + 1 && r.current == s.current && r.tick == s.tick
        && r.table == s.table[s.nextPid := b][supervisor := sup.(children := sup.children + [s.nextPid])]
        && b.intent == intent && b.state == Ready && b.eff == intent.priority && b.base == intent.priority
        && b.supervisor == supervisor && b.strategy == strategy && b.spawnOrder == |sup.children|
        && b.children == [] && b.slice == 0 && b.ran == 0 && b.blockedOn == None && b.exit == None
        && b.created == s.tick && b.tracker.max == 5 && b.tracker.window == 60 && b.tracker.stamps == []
  {
  }

  /** A process that ends is down for good, its supervisor forgets it, and every other process is as before. */
  lemma TerminateAnswer(s: Sys, p: Pid, x: Pid)
    requires Inv(s) && x in s.table
    ensures var (r, answer) := Terminate(s, p);
      if p !in s.table then answer == Err(NotFound) && r == s
      else
        && answer == Ok(()) && x in r.table
        && r.current == (if s.current == Some(p) then None else s.current)
        && if x == p then r.table[x] == s.table[x].(state := Terminated, exit := Some(Finished))
           else if x == s.table[p].supervisor then
             && r.table[x] == s.table[x].(children := r.table[x].children)
             && forall c :: c in r.table[x].children <==> c in s.table[x].children && c != p
           else r.table[x] == s.table[x]
  {
    if p in s.table && x == s.table[p].supervisor {
      forall c
        ensures c in Drop(s.table[x].children, {p}) <==> c in s.table[x].children && c != p
      {
        DropMembers(s.table[x].children, {p}, c);
      }
    }
  }

  // ----- blocking and waking

  /** The processes that a waiter of the given priority raises: the one it waits for, the one that one waits for, and
      so on, as long as they are lower, and n at most. */
  ghost function Lifted(t: map<Pid, Pcb>, target: Pid, boost: nat, n: nat): set<Pid>
    decreases n
  {
    if n == 0 || target !in t || t[target].eff >= boost then {}
    else {target} + match t[target].blockedOn
                    case None => {}
                    case Some(q) => Lifted(t[target := t[target].(eff := boost)], q, boost, n - 1)
  }

  lemma {:induction false} InheritLifts(s: Sys, target: Pid, boost: nat, depth: nat, n: nat, x: Pid)
    requires |s.queues| == LEVELS && x in s.table && depth + n == 4
    ensures var t := Inherit(s, target, boost, depth).table;
      x in t && t[x] == s.table[x].(eff := if x in Lifted(s.table, target, boost, n) then boost else s.table[x].eff)
    decreases n
  {
    if n > 0 && target in s.table && s.table[target].eff < boost {
      var next := Reprioritize(s, target, boost);
      assert next.table == s.table[target := s.table[target].(eff := boost)];
      if s.table[target].blockedOn.Some? {
        InheritLifts(next, s.table[target].blockedOn.value, boost, depth + 1, n - 1, x);
      }
    }
  }

  /** A process that can run and blocks is blocked on what it named; its priority goes to the chain of at most four
      that it waits for, and nothing else of the others changes. */
  lemma BlockAnswer(s: Sys, p: Pid, waitingOn: Option<Pid>, x: Pid)
    requires Inv(s) && x in s.table
    ensures var (r, answer) := Block(s, p, waitingOn);
      if p !in s.table then answer == Err(NotFound) && r == s
      else if s.table[p].state != Ready && s.table[p].state != Running then answer == Err(InvalidState) && r == s
      else
        && answer == Ok(()) && x in r.table
        && var t, boost := s.table[p := s.table[p].(state := Blocked, blockedOn := waitingOn)], s.table[p].eff;
          r.table[x]
          == if waitingOn.Some? && x in Lifted(t, waitingOn.value, boost, 4) then t[x].(eff := boost) else t[x]
  {
    if p in s.table && Runnable(s.table[p]) && waitingOn.Some? {
      var s1 := Dequeue(Put(s, p, s.table[p].(state := Blocked, blockedOn := waitingOn)), p);
      InheritLifts(s1, waitingOn.value, s.table[p].eff, 0, 4, x);
    }
  }

  /** The priority a process wakes up with: Critical when its deadline is at most 10 ticks away; else one level more for
      input, network, storage and display; Background work at most Low; and everything else as it was. */
  function WakePriority(b: Pcb, now: nat): nat
  {
    if 0 < b.intent.deadline <= now + 10 then 4
    else
      match b.intent.category
      case Io => Least(b.eff + 1, 4)
      case Network => Least(b.eff + 1, 4)
      case Storage => Least(b.eff + 1, 4)
      case Display => Least(b.eff + 1, 4)
      case Compute => if b.intent.priority == 0 then Least(b.eff, 1) else b.eff
      case Ai => b.eff
  }

  lemma WokenIs(b: Pcb, now: nat)
    requires b.wake == now
    ensures Woken(b, now) == WakePriority(b, now)
  {
  }

  /** A process that wakes is ready with its wake-up priority, the one it waited for is back at its base priority, and
      every other process is as before. */
  lemma UnblockAnswer(s: Sys, p: Pid, x: Pid)
    requires Inv(s) && x in s.table
    ensures var (r, answer) := Unblock(s, p);
      if p !in s.table then answer == Err(NotFound) && r == s
      else if s.table[p].state != Blocked then answer == Err(InvalidState) && r == s
      else
        var eff := if s.table[p].blockedOn == Some(x) then s.table[x].base
                   else if x == p then WakePriority(s.table[p], s.tick) else s.table[x].eff;
        && answer == Ok(()) && x in r.table
        && r.table[x] == if x == p then s.table[x].(state := Ready, blockedOn := None, wake := s.tick, eff := eff)
                         else s.table[x].(eff := eff)
  {
    if p in s.table && s.table[p].state == Blocked {
      var b := s.table[p].(blockedOn := None, state := Ready, wake := s.tick);
      WokenIs(b, s.tick);
      assert WakePriority(b, s.tick) == WakePriority(s.table[p], s.tick);
      WokeTable(s, p);
    }
  }

  lemma WokeTable(s: Sys, p: Pid)
    requires |s.queues| == LEVELS && p in s.table && s.table[p].state == Blocked
    ensures var b := s.table[p].(blockedOn := None, state := Ready, wake := s.tick);
      var woken := s.table[p := b.(eff := Woken(b, s.tick))];
      Unblock(s, p).0.table
      == match s.table[p].blockedOn
         case None => woken
         case Some(q) => if q in woken then woken[q := woken[q].(eff := woken[q].base)] else woken
  {
  }

  // ----- scheduling

  /** The time slice of a priority. */
  predicate Slice(eff: nat, slice: nat)
  {
    (eff == 4 && slice == 20) || (eff == 3 && slice == 15) || (eff == 2 && slice == 10) || (eff == 1 && slice == 5)
    || (eff == 0 && slice == 2)
  }

  /** A running current process with ticks left goes on; otherwise the chosen process runs on the slice of its
      priority from now on, the one before it is ready again, and every other process is as before. */
  lemma ScheduleAnswer(s: Sys, x: Pid)
    requires Inv(s) && x in s.table
    ensures var (r, answer) := ScheduleNext(s);
      if s.current.Some? && s.table[s.current.value].slice > 0 then answer == s.current && r == s
      else
        && x in r.table && r.current == answer && r.tick == s.tick
        && r.decisions == s.decisions + (if answer.Some? then 1 else 0)
        && if answer == Some(x) then
             && Slice(s.table[x].eff, r.table[x].slice)
             && r.table[x] == s.table[x].(state := Running, slice := r.table[x].slice, lastScheduled := s.tick)
           else if s.current == Some(x) then r.table[x] == s.table[x].(state := Ready)
           else r.table[x] == s.table[x]
  {
    if !KeepsRunning(s) {
      RequeueKeeps(s);
      PickIsTop(Requeue(s), LEVELS);
    }
  }

  /** Using a tick takes one from the slice of the current process; the answer tells whether any is left. */
  lemma ConsumeAnswer(s: Sys)
    requires Inv(s)
    ensures var (r, more) := ConsumeTick(s);
      if s.current == None || s.table[s.current.value].slice == 0 then r == s && !more
      else
        var p := s.current.value;
        && r == s.(table := s.table[p := s.table[p].(slice := s.table[p].slice - 1, ran := s.table[p].ran + 1)])
        && (more <==> s.table[p].slice > 1)
  {
  }

  /** Aging raises by one level exactly the ready processes below Critical that were not scheduled for 100 ticks. */
  lemma AgingAnswer(s: Sys, p: Pid)
    requires Inv(s) && p in s.table
    ensures var t := RunAging(s).table;
      var b := s.table[p];
      && p in t
      && t[p] == if b.state == Ready && b.eff < 4 && s.tick >= b.lastScheduled + 100 then b.(eff := b.eff + 1) else b
  {
    AgingRaisesTheStarved(s, p);
  }
}
