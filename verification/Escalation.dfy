/** How far a crash escalates, and what it leaves behind. */
module Escalation {
  import opened Wrappers
  import opened ProcessModel
  import opened ProcessInvariant
  import opened Supervision

  /** The supervisors that give up: the crashed child's, then that one's and so on, while each exceeds its limit. */
  ghost function GaveUp(s: Sys, sup: Pid): (r: set<Pid>)
    requires Descending(s)
    ensures forall x :: x in r ==> x <= sup && x in s.table
    decreases sup
  {
    if sup !in s.table || !Exceeds(s, sup) then {}
    else {sup} + if s.table[sup].supervisor == KERNEL then {} else GaveUp(s, s.table[sup].supervisor)
  }

  /** The supervisor that handles the crash in the end, if one does. */
  ghost function Stop(s: Sys, sup: Pid): (r: Option<Pid>)
    requires Descending(s)
    ensures r.Some? ==> r.value in s.table && r.value <= sup && !Exceeds(s, r.value)
    decreases sup
  {
    if sup !in s.table then None
    else if !Exceeds(s, sup) then Some(sup)
    else if s.table[sup].supervisor == KERNEL then None
    else Stop(s, s.table[sup].supervisor)
  }

  /** The child for which that supervisor is called: the crashed process, or the last supervisor that gave up. */
  ghost function Blamed(s: Sys, sup: Pid, crashed: Pid): Pid
    requires Descending(s)
    decreases sup
  {
    if sup !in s.table || !Exceeds(s, sup) || s.table[sup].supervisor == KERNEL then crashed
    else Blamed(s, s.table[sup].supervisor, sup)
  }

  /** Whether x is among the processes that the last supervisor restarts. */
  ghost predicate Revived(s: Sys, sup: Pid, crashed: Pid, x: Pid)
    requires Descending(s)
  {
    Stop(s, sup).Some? && x in RestartSet(s, Stop(s, sup).value, Blamed(s, sup, crashed))
  }

  ghost function WithRecord(b: Pcb, now: nat): Pcb { b.(tracker := Record(b.tracker, now).0) }

  /** A process after the crash has been handled. */
  ghost function Outcome(s: Sys, sup: Pid, crashed: Pid, x: Pid): Pcb
    requires Descending(s) && x in s.table
  {
    var b :=
      if x in GaveUp(s, sup) then WithRecord(s.table[x], s.tick).(state := Terminated, exit := Some(Exceeded))
      else if Stop(s, sup) == Some(x) then WithRecord(s.table[x], s.tick)
      else s.table[x];
    if Revived(s, sup, crashed, x) then Reset(b, s.tick) else b
  }

  // ----- what the chain depends on

  ghost predicate SameLinks(s: Sys, g: Sys)
  {
    && g.tick == s.tick && g.table.Keys == s.table.Keys
    && forall p {:trigger g.table[p]} {:trigger s.table[p]} :: p in s.table ==>
         && g.table[p].supervisor == s.table[p].supervisor && g.table[p].children == s.table[p].children
         && g.table[p].strategy == s.table[p].strategy && g.table[p].spawnOrder == s.table[p].spawnOrder
  }

  ghost predicate SameTrackers(s: Sys, g: Sys, sup: Pid)
  {
    forall p {:trigger g.table[p]} :: p in s.table && p in g.table && p <= sup ==>
      g.table[p].tracker == s.table[p].tracker
  }

  lemma {:induction false} SameChain(s: Sys, g: Sys, sup: Pid, crashed: Pid)
    requires Descending(s) && Descending(g) && SameLinks(s, g) && SameTrackers(s, g, sup)
    ensures GaveUp(g, sup) == GaveUp(s, sup) && Stop(g, sup) == Stop(s, sup)
    ensures Blamed(g, sup, crashed) == Blamed(s, sup, crashed)
    decreases sup
  {
    if sup in s.table {
      assert Exceeds(g, sup) == Exceeds(s, sup);
      if Exceeds(s, sup) && s.table[sup].supervisor != KERNEL {
        SameChain(s, g, s.table[sup].supervisor, sup);
      }
    }
  }

  lemma {:induction false} SameLater(s: Sys, g: Sys, children: seq<Pid>, order: nat)
    requires SameLinks(s, g)
    ensures Later(g, children, order) == Later(s, children, order)
    decreases |children|
  {
    if children != [] {
      SameLater(s, g, children[1..], order);
      var c := children[0];
      assert c in s.table ==> g.table[c].spawnOrder == s.table[c].spawnOrder;
    }
  }

  lemma SameRestartSet(s: Sys, g: Sys, sup: Pid, crashed: Pid)
    requires SameLinks(s, g) && sup in s.table
    ensures RestartSet(g, sup, crashed) == RestartSet(s, sup, crashed)
  {
    SameLater(s, g, s.table[sup].children, if crashed in s.table then s.table[crashed].spawnOrder else 0);
  }

  // ----- the outcome

  lemma OutcomeHere(s: Sys, sup: Pid, crashed: Pid, x: Pid)
    requires Inv(s) && Descending(s) && (crashed in s.table ==> !Runnable(s.table[crashed]))
    requires sup in s.table && !Exceeds(s, sup) && x in s.table
    ensures HandleCrash(s, sup, crashed).0.table[x] == Outcome(s, sup, crashed, x)
  {
    WithinLimitRestarts(s, sup, crashed);
    SameRestartSet(s, Noted(s, sup), sup, crashed);
  }

  lemma OutcomeAbove(s: Sys, g: Sys, sup: Pid, crashed: Pid, x: Pid)
    requires Descending(s) && Descending(g) && sup in s.table && Exceeds(s, sup) && s.table[sup].supervisor != KERNEL
    requires g.tick == s.tick && x in s.table
    requires g.table == s.table[sup := WithRecord(s.table[sup], s.tick).(state := Terminated, exit := Some(Exceeded))]
    ensures Outcome(g, s.table[sup].supervisor, sup, x) == Outcome(s, sup, crashed, x)
  {
    var parent := s.table[sup].supervisor;
    SameChain(s, g, parent, sup);
    if Stop(s, parent).Some? {
      SameRestartSet(s, g, Stop(s, parent).value, Blamed(s, parent, sup));
    }
    assert Revived(g, parent, sup, x) == Revived(s, sup, crashed, x);
  }

  /** The state after a supervisor has given up. */
  lemma GivenUp(s: Sys, sup: Pid) returns (gone: Sys)
    requires Inv(s) && sup in s.table
    ensures gone == Kill(Noted(s, sup), sup, Exceeded) && Inv(gone) && Descending(gone)
    ensures gone.tick == s.tick && !Runnable(gone.table[sup])
    ensures gone.table == s.table[sup := WithRecord(s.table[sup], s.tick).(state := Terminated, exit := Some(Exceeded))]
  {
    NotedKeepsInv(s, sup);
    KillKeepsInv(Noted(s, sup), sup, Exceeded);
    gone := Kill(Noted(s, sup), sup, Exceeded);
    InvDescends(gone);
  }

  /** Handling a crash changes exactly the supervisors that gave up, the one that handled it, and the processes that one
      restarts; every other process is as before. */
  lemma {:induction false} HandleCrashOutcome(s: Sys, sup: Pid, crashed: Pid, x: Pid)
    requires Inv(s) && Descending(s) && (crashed in s.table ==> !Runnable(s.table[crashed])) && x in s.table
    ensures HandleCrash(s, sup, crashed).0.table[x] == Outcome(s, sup, crashed, x)
    decreases sup
  {
    if sup in s.table {
      if Exceeds(s, sup) {
        var gone := GivenUp(s, sup);
        if s.table[sup].supervisor != KERNEL {
          HandleCrashOutcome(gone, s.table[sup].supervisor, sup, x);
          OutcomeAbove(s, gone, sup, crashed, x);
        }
      } else {
        OutcomeHere(s, sup, crashed, x);
      }
    }
  }

  /** The same for a crash reported from outside: the crashed process is down before its supervisor is called. */
  lemma CrashOutcome(s: Sys, p: Pid, x: Pid)
    requires Inv(s) && Descending(s) && p in s.table && x in s.table
    ensures Descending(Kill(s, p, Crashed))
    ensures Crash(s, p).0.table[x] == Outcome(Kill(s, p, Crashed), s.table[p].supervisor, p, x)
  {
    KillKeepsInv(s, p, Crashed);
    InvDescends(Kill(s, p, Crashed));
    HandleCrashOutcome(Kill(s, p, Crashed), s.table[p].supervisor, p, x);
  }

  /** Only the crashed process, supervisors with smaller pids, and the restarted set can change. */
  lemma CrashLeavesOthers(s: Sys, p: Pid, x: Pid)
    requires Inv(s) && Descending(s) && p in s.table && x in s.table && x > p
    requires Descending(Kill(s, p, Crashed)) && !Revived(Kill(s, p, Crashed), s.table[p].supervisor, p, x)
    ensures Crash(s, p).0.table[x] == s.table[x]
  {
    CrashOutcome(s, p, x);
  }

  // ----- how often restarts may happen

  /** The tracker after restarts at the given times. */
  ghost function After(max: nat, window: nat, times: seq<nat>): (t: Tracker)
    ensures t.max == max && t.window == window
    decreases |times|
  {
    if times == [] then Tracker(max, window, [])
    else Record(After(max, window, times[..|times| - 1]), times[|times| - 1]).0
  }

  /** Whether the last of these restarts was reported as one too many. */
  ghost predicate Reported(max: nat, window: nat, times: seq<nat>)
    requires times != []
  {
    Record(After(max, window, times[..|times| - 1]), times[|times| - 1]).1
  }

  ghost predicate Sorted(times: seq<nat>)
  {
    forall i, j {:trigger times[i], times[j]} :: 0 <= i < j < |times| ==> times[i] <= times[j]
  }

  lemma {:induction false} RecentTwice(stamps: seq<nat>, before: nat, now: nat, window: nat)
    requires before <= now
    ensures SaturatedRecent(SaturatedRecent(stamps, before, window), now, window)
         == SaturatedRecent(stamps, now, window)
    decreases |stamps|
  {
    if stamps != [] {
      RecentTwice(stamps[1..], before, now, window);
      if SatSub(before, stamps[0]) < window {
        var kept := SaturatedRecent(stamps, before, window);
        assert kept[0] == stamps[0] && kept[1..] == SaturatedRecent(stamps[1..], before, window);
      } else {
        assert SaturatedRecent(stamps, before, window) == SaturatedRecent(stamps[1..], before, window);
      }
    }
  }

  lemma {:induction false} RecentAppend(a: seq<nat>, x: nat, now: nat, window: nat)
    ensures SaturatedRecent(a + [x], now, window)
         == SaturatedRecent(a, now, window) + if SatSub(now, x) < window then [x] else []
    decreases |a|
  {
    if a == [] {
      assert a + [x] == [x];
    } else {
      assert (a + [x])[1..] == a[1..] + [x];
      RecentAppend(a[1..], x, now, window);
    }
  }

  /** What a tracker holds: this restart, and every earlier one still in the window. */
  lemma {:induction false} TrackerHolds(max: nat, window: nat, times: seq<nat>)
    requires Sorted(times) && times != []
    ensures var n := |times| - 1;
      After(max, window, times).stamps == SaturatedRecent(times[..n], times[n], window) + [times[n]]
    decreases |times|
  {
    var n := |times| - 1;
    var init, now := times[..n], times[n];
    if init != [] {
      TrackerHolds(max, window, init);
      var before := init[n - 1];
      assert init[..n - 1] + [before] == init;
      RecentAppend(SaturatedRecent(init[..n - 1], before, window), before, now, window);
      RecentTwice(init[..n - 1], before, now, window);
      RecentAppend(init[..n - 1], before, now, window);
    }
  }

  /** A restart is reported exactly when it and the earlier ones in its window are more than allowed. */
  lemma ReportedIff(max: nat, window: nat, times: seq<nat>)
    requires Sorted(times) && times != []
    ensures var n := |times| - 1;
      Reported(max, window, times) <==> |SaturatedRecent(times[..n], times[n], window)| + 1 > max
  {
    TrackerHolds(max, window, times);
  }

  /** How many of the times lie in the window that starts at x. */
  ghost function Count(times: seq<nat>, x: nat, window: nat): nat
    decreases |times|
  {
    if times == [] then 0
    else Count(times[1..], x, window) + if x <= times[0] < x + window then 1 else 0
  }

  lemma {:induction false} CountAppend(a: seq<nat>, t: nat, x: nat, window: nat)
    ensures Count(a + [t], x, window) == Count(a, x, window) + if x <= t < x + window then 1 else 0
    decreases |a|
  {
    if a == [] {
      assert a + [t] == [t];
    } else {
      assert (a + [t])[1..] == a[1..] + [t];
      CountAppend(a[1..], t, x, window);
    }
  }

  lemma {:induction false} CountRecent(a: seq<nat>, now: nat, x: nat, window: nat)
    requires x <= now < x + window && forall i {:trigger a[i]} :: 0 <= i < |a| ==> a[i] <= now
    ensures Count(a, x, window) <= |SaturatedRecent(a, now, window)|
    decreases |a|
  {
    if a != [] {
      assert a[0] <= now;
      CountRecent(a[1..], now, x, window);
    }
  }

  lemma {:induction false} CountNone(a: seq<nat>, x: nat, window: nat)
    requires forall i {:trigger a[i]} :: 0 <= i < |a| ==> a[i] < x
    ensures Count(a, x, window) == 0
    decreases |a|
  {
    if a != [] {
      assert a[0] < x;
      CountNone(a[1..], x, window);
    }
  }

  /** If no restart was ever reported, no window of that length holds more restarts than allowed. */
  lemma {:induction false} RestartIntensity(max: nat, window: nat, times: seq<nat>, x: nat)
    requires Sorted(times) && forall n {:trigger times[..n]} :: 0 < n <= |times| ==> !Reported(max, window, times[..n])
    ensures Count(times, x, window) <= max
    decreases |times|
  {
    if times != [] {
      var n := |times| - 1;
      var init, now := times[..n], times[n];
      assert init + [now] == times;
      CountAppend(init, now, x, window);
      if now >= x + window {
        forall k | 0 < k <= |init|
          ensures !Reported(max, window, init[..k])
        {
          assert init[..k] == times[..k];
        }
        RestartIntensity(max, window, init, x);
      } else if now < x {
        CountNone(init, x, window);
      } else {
        assert times[..|times|] == times;
        ReportedIff(max, window, times);
        CountRecent(init, now, x, window);
      }
    }
  }
}
