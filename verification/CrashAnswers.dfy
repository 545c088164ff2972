/** What a supervisor's answer to a crash is, and what the crash leaves of each process, on the fields of the
    processes. */
module CrashAnswers {
  import opened Wrappers
  import opened ProcessModel
  import opened ProcessInvariant
  import opened Supervision

  /** Whether the strategy of a supervisor says that x is restarted when one of its children crashes. */
  ghost predicate Due(t: map<Pid, Pcb>, sup: Pid, crashed: Pid, x: Pid)
    requires sup in t && x in t
  {
    match t[sup].strategy
    case OneForOne => x == crashed
    case OneForAll => x in t[sup].children
    case RestForOne =>
      x in t[sup].children && (crashed in t ==> t[x].spawnOrder >= t[crashed].spawnOrder)
  }

  /** A process as if it had just been started: ready at its base priority, with no slice, no wait and no exit reason.
      */
  ghost predicate Renewed(was: Pcb, now: Pcb, tick: nat)
  {
    && now.state == Ready && now.eff == was.base && now.slice == 0 && now.blockedOn == None && now.exit == None
    && now.created == tick && now.lastScheduled == 0 && now.wake == 0
    && now == was.(state := Ready, eff := now.eff, slice := 0, blockedOn := None, lastScheduled := 0, wake := 0,
                   exit := None, created := tick)
  }

  /** The restart is noted in the supervisor's tracker, and nothing else of it changes. */
  ghost predicate Notes(was: Pcb, now: Pcb, tick: nat)
  {
    && now == was.(tracker := now.tracker) && now.tracker.max == was.tracker.max
    && now.tracker.window == was.tracker.window && tick in now.tracker.stamps
  }

  lemma DueIs(s: Sys, sup: Pid, crashed: Pid, x: Pid)
    requires Inv(s) && sup in s.table && x in s.table
    ensures x in RestartSet(Noted(s, sup), sup, crashed) <==> Due(s.table, sup, crashed, x)
  {
    var n := Noted(s, sup);
    if s.table[sup].strategy == RestForOne {
      LaterMembers(n, s.table[sup].children, if crashed in s.table then s.table[crashed].spawnOrder else 0, x);
    }
  }

  /** Within its limit, a supervisor restarts exactly the processes its strategy says; every other process is unchanged,
      but for the note in the supervisor's own tracker. */
  lemma CrashRestarts(s: Sys, sup: Pid, crashed: Pid, x: Pid)
    requires Inv(s) && Descending(s) && (crashed in s.table ==> !Runnable(s.table[crashed]))
    requires sup in s.table && !Exceeds(s, sup) && x in s.table && x != sup
    ensures var t := HandleCrash(s, sup, crashed).0.table;
      x in t && if Due(s.table, sup, crashed, x) then Renewed(s.table[x], t[x], s.tick) else t[x] == s.table[x]
  {
    WithinLimitRestarts(s, sup, crashed);
    DueIs(s, sup, crashed, x);
  }

  lemma SupervisorNotes(s: Sys, sup: Pid, crashed: Pid)
    requires Inv(s) && Descending(s) && (crashed in s.table ==> !Runnable(s.table[crashed]))
    requires sup in s.table && !Exceeds(s, sup) && crashed != sup
    ensures var t := HandleCrash(s, sup, crashed).0.table; sup in t && Notes(s.table[sup], t[sup], s.tick)
  {
    WithinLimitRestarts(s, sup, crashed);
    DueIs(s, sup, crashed, sup);
  }

  /** How many processes a supervisor restarts, and answers. */
  ghost function DueCount(t: map<Pid, Pcb>, sup: Pid, crashed: Pid): nat
    requires sup in t
  {
    match t[sup].strategy
    case OneForOne => 1
    case OneForAll => |t[sup].children|
    case RestForOne => |set x | x in t[sup].children && x in t && Due(t, sup, crashed, x)|
  }

  lemma {:induction false} ElemsCount(q: seq<Pid>)
    requires NoDup(q)
    ensures |Elems(q)| == |q|
    decreases |q|
  {
    if q == [] {
      assert Elems(q) == {};
    } else {
      NoDupTail(q);
      ElemsCount(q[1..]);
      assert q == [q[0]] + q[1..];
      ElemsCons(q[0], q[1..]);
    }
  }

  /** The answer within the limit is the number of processes restarted; over it, and without a supervisor, an error. */
  lemma CrashAnswer(s: Sys, sup: Pid, crashed: Pid)
    requires Inv(s) && Descending(s) && (crashed in s.table ==> !Runnable(s.table[crashed]))
    ensures HandleCrash(s, sup, crashed).1
         == if sup !in s.table then Err(SupervisorNotFound)
            else if Exceeds(s, sup) then Err(IntensityExceeded)
            else Ok(DueCount(s.table, sup, crashed))
  {
    if sup in s.table && !Exceeds(s, sup) {
      WithinLimitRestarts(s, sup, crashed);
      if s.table[sup].strategy == RestForOne {
        LaterCount(s, sup, crashed);
      }
    }
  }

  lemma LaterCount(s: Sys, sup: Pid, crashed: Pid)
    requires Inv(s) && sup in s.table && s.table[sup].strategy == RestForOne
    ensures |RestartSet(Noted(s, sup), sup, crashed)| == DueCount(s.table, sup, crashed)
  {
    var ps := RestartSet(Noted(s, sup), sup, crashed);
    var due := set x | x in s.table[sup].children && x in s.table && Due(s.table, sup, crashed, x);
    NotedSet(s, sup, crashed);
    ElemsCount(ps);
    forall x
      ensures x in Elems(ps) <==> x in due
    {
      LaterMembers(Noted(s, sup), s.table[sup].children,
                   if crashed in s.table then s.table[crashed].spawnOrder else 0, x);
    }
    assert Elems(ps) == due;
  }

  lemma NotedSet(s: Sys, sup: Pid, crashed: Pid)
    requires Inv(s) && sup in s.table
    ensures NoDup(RestartSet(Noted(s, sup), sup, crashed))
  {
    NotedKeepsInv(s, sup);
    RestartSetNoDup(Noted(s, sup), sup, crashed);
  }

  /** A crash that is reported: the crashed process is down, with its exit reason, unless it is restarted itself. */
  lemma ReportedCrash(s: Sys, p: Pid, x: Pid)
    requires Inv(s) && Descending(s) && p in s.table && x in s.table && s.table[p].supervisor in s.table
    requires !Exceeds(s, s.table[p].supervisor) && x != s.table[p].supervisor
    ensures Crash(s, p).1 == Ok(())
    ensures var t, sup := Crash(s, p).0.table, s.table[p].supervisor;
      && x in t
      && if Due(s.table, sup, p, x) then Renewed(s.table[x], t[x], s.tick)
         else t[x] == if x == p then s.table[p].(state := Terminated, exit := Some(Crashed)) else s.table[x]
  {
    var k, sup := Kill(s, p, Crashed), s.table[p].supervisor;
    KillKeepsInv(s, p, Crashed);
    InvDescends(k);
    assert sup != p && k.table[sup] == s.table[sup];
    CrashRestarts(k, sup, p, x);
  }

  /** A crash of an unknown process is an error and changes nothing; a process that nobody supervises just goes down. */
  lemma UnsupervisedCrash(s: Sys, p: Pid)
    requires Inv(s) && Descending(s) && (p in s.table ==> s.table[p].supervisor !in s.table)
    ensures p !in s.table ==> Crash(s, p) == (s, Err(NotFound))
    ensures p in s.table ==>
      && Crash(s, p).1 == Ok(())
      && Crash(s, p).0.table == s.table[p := s.table[p].(state := Terminated, exit := Some(Crashed))]
  {
    if p in s.table {
      KillKeepsInv(s, p, Crashed);
      InvDescends(Kill(s, p, Crashed));
    }
  }

  /** A supervisor over its limit that the kernel itself supervises goes down, and nothing else changes. */
  lemma LastResort(s: Sys, sup: Pid, crashed: Pid)
    requires Inv(s) && Descending(s) && sup in s.table && Exceeds(s, sup) && s.table[sup].supervisor == 0
    ensures var t := HandleCrash(s, sup, crashed).0.table;
      && sup in t && t == s.table[sup := t[sup]]
      && t[sup] == s.table[sup].(state := Terminated, exit := Some(Exceeded), tracker := t[sup].tracker)
  {
  }

  /** A restart is one too many exactly when the restarts of the window, with this one, are more than allowed. */
  lemma ExceedsIff(s: Sys, sup: Pid)
    requires sup in s.table
    ensures var k := s.table[sup].tracker;
      Exceeds(s, sup) <==> Recent(k.stamps, s.tick, k.window) + 1 > k.max
  {
    RecentIs(s.table[sup].tracker.stamps, s.tick, s.table[sup].tracker.window);
  }

  /** How many of the times are less than a window ago. */
  ghost function Recent(stamps: seq<nat>, now: nat, window: nat): nat
  {
    if stamps == [] then 0
    else Recent(stamps[1..], now, window) + if 0 < window && now < stamps[0] + window then 1 else 0
  }

  lemma {:induction false} RecentIs(stamps: seq<nat>, now: nat, window: nat)
    ensures |SaturatedRecent(stamps, now, window)| == Recent(stamps, now, window)
    decreases |stamps|
  {
    if stamps != [] {
      RecentIs(stamps[1..], now, window);
    }
  }
}
