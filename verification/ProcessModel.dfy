/** The process table, the run queues and the supervision tree, as values: what each operation does to them. */
module ProcessModel {
  import opened Wrappers

  type Pid = int

  /** The five priorities, Background (0) to Critical (4). */
  type Priority = x: int | 0 <= x <= 4 witness 0

  const KERNEL: Pid := 0
  const BUTLER: Pid := 1
  const LEVELS: int := 5
  const MAX_PROCESSES: int := 1024
  const MAX_INHERITANCE_DEPTH: int := 4
  const AGING_INTERVAL: int := 100
  const DEADLINE_URGENCY: int := 10

  datatype Category = Compute | Io | Network | Storage | Display | Ai
  datatype State = Ready | Running | Blocked | Suspended | Terminated
  datatype Strategy = OneForOne | OneForAll | RestForOne
  datatype ExitReason = Finished | Crashed | Killed | Exceeded
  datatype Error = TableFull | NotFound | AlreadyExists | InvalidState | SupervisorNotFound | IntensityExceeded

  datatype Intent = Intent(category: Category, priority: Priority, deadline: nat)

  /** Restart times of the children of a supervisor. */
  datatype Tracker = Tracker(max: nat, window: nat, stamps: seq<nat>)

  datatype Pcb = Pcb(intent: Intent, state: State, eff: nat, base: nat, slice: nat, ran: nat, blockedOn: Option<Pid>,
                     lastScheduled: nat, wake: nat, supervisor: Pid, children: seq<Pid>, strategy: Strategy,
                     spawnOrder: nat, tracker: Tracker, exit: Option<ExitReason>, created: nat)

  datatype Sys = Sys(table: map<Pid, Pcb>, nextPid: Pid, queues: seq<seq<Pid>>, current: Option<Pid>, tick: nat,
                     decisions: nat)

  predicate Runnable(b: Pcb) { b.state == Ready || b.state == Running }

  // ----- queues

  /** The elements of q that are not in gone, in order. */
  function Drop(q: seq<Pid>, gone: set<Pid>): seq<Pid>
  {
    if q == [] then []
    else if q[0] in gone then Drop(q[1..], gone)
    else [q[0]] + Drop(q[1..], gone)
  }

  function DropAll(qs: seq<seq<Pid>>, gone: set<Pid>): (r: seq<seq<Pid>>)
    ensures |r| == |qs|
  {
    seq(|qs|, i requires 0 <= i < |qs| => Drop(qs[i], gone))
  }

  function Put(s: Sys, p: Pid, b: Pcb): Sys
  {
    s.(table := s.table[p := b])
  }

  function Enqueue(s: Sys, p: Pid, eff: nat): (r: Sys)
    requires |s.queues| == LEVELS
    ensures |r.queues| == LEVELS
  {
    var level := Least(eff, LEVELS - 1);
    if p in s.queues[level] then s else s.(queues := s.queues[level := s.queues[level] + [p]])
  }

  function Dequeue(s: Sys, p: Pid): (r: Sys)
    ensures |r.queues| == |s.queues|
  {
    s.(queues := DropAll(s.queues, {p}), current := if s.current == Some(p) then None else s.current)
  }

  function SliceFor(eff: nat): nat
  {
    if eff == 4 then 20 else if eff == 3 then 15 else if eff == 2 then 10 else if eff == 1 then 5 else 2
  }

  // ----- scheduling

  predicate KeepsRunning(s: Sys)
  {
    && s.current.Some? && s.current.value in s.table
    && s.table[s.current.value].state == Running && s.table[s.current.value].slice > 0
  }

  /** The current process goes back to its queue, if it was running. */
  function Requeue(s: Sys): (r: Sys)
    requires |s.queues| == LEVELS
    ensures |r.queues| == LEVELS
  {
    var idle := s.(current := None);
    if s.current.Some? && s.current.value in s.table && s.table[s.current.value].state == Running then
      var b := s.table[s.current.value];
      Enqueue(Put(idle, s.current.value, b.(state := Ready)), s.current.value, b.eff)
    else idle
  }

  function Dispatch(s: Sys, p: Pid): Sys
    requires p in s.table
  {
    var b := s.table[p];
    Put(s, p, b.(state := Running, slice := SliceFor(b.eff), lastScheduled := s.tick))
      .(current := Some(p), decisions := s.decisions + 1)
  }

  /** The scan of the levels below the given one, highest first. */
  function Pick(s: Sys, level: nat): (r: (Sys, Option<Pid>))
    requires |s.queues| == LEVELS && level <= LEVELS
    ensures |r.0.queues| == LEVELS
    decreases level
  {
    if level == 0 then (s, None)
    else if s.queues[level - 1] == [] then Pick(s, level - 1)
    else
      var p := s.queues[level - 1][0];
      var popped := s.(queues := s.queues[level - 1 := s.queues[level - 1][1..]]);
      if p in s.table then (Dispatch(popped, p), Some(p)) else Pick(popped, level - 1)
  }

  function ScheduleNext(s: Sys): (r: (Sys, Option<Pid>))
    requires |s.queues| == LEVELS
    ensures |r.0.queues| == LEVELS
  {
    if KeepsRunning(s) then (s, s.current) else Pick(Requeue(s), LEVELS)
  }

  function ConsumeTick(s: Sys): (Sys, bool)
  {
    if s.current.Some? && s.current.value in s.table && s.table[s.current.value].slice > 0 then
      var b := s.table[s.current.value];
      (Put(s, s.current.value, b.(slice := b.slice - 1, ran := b.ran + 1)), b.slice > 1)
    else (s, false)
  }

  predicate Starved(s: Sys, p: Pid)
  {
    && p in s.table && s.table[p].state == Ready && SatSub(s.tick, s.table[p].lastScheduled) >= AGING_INTERVAL
    && s.table[p].eff < LEVELS - 1
  }

  /** The starved processes of one queue, in order. */
  function StarvedIn(s: Sys, q: seq<Pid>): seq<Pid>
  {
    if q == [] then []
    else (if Starved(s, q[0]) then [q[0]] else []) + StarvedIn(s, q[1..])
  }

  function Boost(s: Sys, p: Pid, level: nat, eff: nat): (r: Sys)
    requires |s.queues| == LEVELS && level < LEVELS
    ensures |r.queues| == LEVELS
  {
    var out := s.(queues := s.queues[level := Drop(s.queues[level], {p})]);
    var raised := if p in s.table then Put(out, p, s.table[p].(eff := eff)) else out;
    var up := Least(eff, LEVELS - 1);
    raised.(queues := raised.queues[up := raised.queues[up] + [p]])
  }

  /** A process to raise, from its queue to its new priority. */
  datatype Raise = Raise(pid: Pid, level: nat, eff: nat)

  predicate RaisesOk(rs: seq<Raise>)
  {
    forall i {:trigger rs[i]} :: 0 <= i < |rs| ==> rs[i].level < LEVELS
  }

  function RaisesIn(s: Sys, q: seq<Pid>, level: nat): (r: seq<Raise>)
  {
    var ps := StarvedIn(s, q);
    seq(|ps|, i requires 0 <= i < |ps| => Raise(ps[i], level, if ps[i] in s.table then s.table[ps[i]].eff + 1 else 0))
  }

  /** What aging raises: the starved processes of levels below n, lowest level first. */
  function Raises(s: Sys, n: nat): seq<Raise>
    requires |s.queues| == LEVELS && n <= LEVELS
  {
    if n == 0 then [] else Raises(s, n - 1) + RaisesIn(s, s.queues[n - 1], n - 1)
  }

  lemma RaisesFit(s: Sys, n: nat)
    requires |s.queues| == LEVELS && n <= LEVELS
    ensures RaisesOk(Raises(s, n))
  {
  }

  function BoostAll(s: Sys, rs: seq<Raise>): (r: Sys)
    requires |s.queues| == LEVELS && RaisesOk(rs)
    ensures |r.queues| == LEVELS
    decreases |rs|
  {
    if rs == [] then s else BoostAll(Boost(s, rs[0].pid, rs[0].level, rs[0].eff), rs[1..])
  }

  // ----- blocking and priority inheritance

  /** The priority a process wakes up with. */
  function Woken(b: Pcb, now: nat): nat
  {
    var e0 := if b.intent.category == Compute && b.intent.priority == 0 then Least(b.eff, 1) else b.eff;
    var e1 := if b.intent.category in {Io, Network, Storage} && b.wake == now then Least(e0 + 1, 4) else e0;
    var e2 := if b.intent.category == Display && SatSub(now, b.wake) < 5 then Least(e1 + 1, 4) else e1;
    if b.intent.deadline > 0 && SatSub(b.intent.deadline, now) <= DEADLINE_URGENCY then 4 else e2
  }

  /** A process gets a new effective priority, and its place in the queues. */
  function Reprioritize(s: Sys, p: Pid, eff: nat): (r: Sys)
    requires |s.queues| == LEVELS && p in s.table
    ensures |r.queues| == LEVELS
  {
    var b := s.table[p];
    var out := Dequeue(Put(s, p, b.(eff := eff)), p);
    if Runnable(b) then Enqueue(out, p, eff) else out
  }

  function Inherit(s: Sys, target: Pid, boost: nat, depth: nat): (r: Sys)
    requires |s.queues| == LEVELS
    ensures |r.queues| == LEVELS
    decreases MAX_INHERITANCE_DEPTH - depth
  {
    if depth >= MAX_INHERITANCE_DEPTH || target !in s.table || s.table[target].eff >= boost then s
    else
      var next := Reprioritize(s, target, boost);
      match s.table[target].blockedOn
      case None => next
      case Some(further) => Inherit(next, further, boost, depth + 1)
  }

  function Revert(s: Sys, target: Pid): (r: Sys)
    requires |s.queues| == LEVELS
    ensures |r.queues| == LEVELS
  {
    if target in s.table && s.table[target].eff != s.table[target].base
    then Reprioritize(s, target, s.table[target].base)
    else s
  }

  // ----- supervision

  function SaturatedRecent(stamps: seq<nat>, now: nat, window: nat): seq<nat>
  {
    if stamps == [] then []
    else (if SatSub(now, stamps[0]) < window then [stamps[0]] else []) + SaturatedRecent(stamps[1..], now, window)
  }

  /** A restart is recorded; the flag says whether there are now too many in the window. */
  function Record(t: Tracker, now: nat): (Tracker, bool)
  {
    var stamps := SaturatedRecent(t.stamps, now, t.window) + [now];
    (t.(stamps := stamps), |stamps| > t.max)
  }

  function Reset(b: Pcb, now: nat): Pcb
  {
    b.(state := Ready, eff := b.base, slice := 0, blockedOn := None, lastScheduled := 0, wake := 0, exit := None,
       created := now)
  }

  function Kill(s: Sys, p: Pid, why: ExitReason): Sys
    requires p in s.table
  {
    Dequeue(Put(s, p, s.table[p].(state := Terminated, exit := Some(why))), p)
  }

  function KillAll(s: Sys, ps: seq<Pid>): (r: Sys)
    ensures |r.queues| == |s.queues| && r.table.Keys == s.table.Keys
    decreases |ps|
  {
    if ps == [] then s
    else KillAll(if ps[0] in s.table && s.table[ps[0]].state != Terminated then Kill(s, ps[0], Killed) else s, ps[1..])
  }

  function Restart(s: Sys, p: Pid): (r: Sys)
    requires |s.queues| == LEVELS
    ensures |r.queues| == LEVELS && r.table.Keys == s.table.Keys
  {
    if p in s.table then
      var b := Reset(s.table[p], s.tick);
      Enqueue(Put(s, p, b), p, b.eff)
    else s
  }

  function RestartAll(s: Sys, ps: seq<Pid>): (r: Sys)
    requires |s.queues| == LEVELS
    ensures |r.queues| == LEVELS && r.table.Keys == s.table.Keys
    decreases |ps|
  {
    if ps == [] then s else RestartAll(Restart(s, ps[0]), ps[1..])
  }

  /** The children whose spawn order is at least the given one; SpawnOrder says when those are the later ones. */
  function Later(s: Sys, children: seq<Pid>, order: nat): seq<Pid>
  {
    if children == [] then []
    else
      (if children[0] in s.table && s.table[children[0]].spawnOrder >= order then [children[0]] else [])
      + Later(s, children[1..], order)
  }

  /** The processes that a supervisor restarts when one of its children crashes. */
  function RestartSet(s: Sys, sup: Pid, crashed: Pid): seq<Pid>
    requires sup in s.table
  {
    match s.table[sup].strategy
    case OneForOne => [crashed]
    case OneForAll => s.table[sup].children
    case RestForOne => Later(s, s.table[sup].children, if crashed in s.table then s.table[crashed].spawnOrder else 0)
  }

  /** Every supervisor has a smaller pid than its child. */
  predicate Descending(s: Sys)
  {
    forall p {:trigger s.table[p]} :: p in s.table ==> 0 <= s.table[p].supervisor < p
  }

  /** The supervisor restarts what its strategy says, or gives up and hands the crash to its own supervisor. */
  function HandleCrash(s: Sys, sup: Pid, crashed: Pid): (r: (Sys, Result<nat, Error>))
    requires |s.queues| == LEVELS && Descending(s)
    ensures |r.0.queues| == LEVELS && r.0.table.Keys == s.table.Keys
    decreases sup
  {
    if sup !in s.table then (s, Err(SupervisorNotFound))
    else
      var record := Record(s.table[sup].tracker, s.tick);
      var noted := Put(s, sup, s.table[sup].(tracker := record.0));
      if record.1 then
        var gone := Kill(noted, sup, Exceeded);
        var parent := s.table[sup].supervisor;
        (if parent == KERNEL then gone else HandleCrash(gone, parent, sup).0, Err(IntensityExceeded))
      else
        var ps := RestartSet(noted, sup, crashed);
        match s.table[sup].strategy
        case OneForOne => (Restart(noted, crashed), Ok(1))
        case OneForAll => (RestartKilled(noted, ps), Ok(|ps|))
        case RestForOne => (RestartKilled(noted, ps), Ok(|ps|))
  }

  function RestartKilled(s: Sys, ps: seq<Pid>): (r: Sys)
    requires |s.queues| == LEVELS
    ensures |r.queues| == LEVELS && r.table.Keys == s.table.Keys
  {
    RestartAll(KillAll(s, ps), ps)
  }

  // ----- the operations

  function NewPcb(intent: Intent, supervisor: Pid, strategy: Strategy, order: nat, now: nat): Pcb
  {
    Pcb(intent, Ready, intent.priority, intent.priority, 0, 0, None, 0, 0, supervisor, [], strategy, order,
        Tracker(5, 60, []), None, now)
  }

  /** The state after the Butler, the root supervisor, has been started. */
  function Boot(): Sys
  {
    var b := NewPcb(Intent(Compute, 4, 0), KERNEL, OneForOne, 0, 0).(tracker := Tracker(1000, 60, []));
    Sys(map[BUTLER := b], 2, [[], [], [], [], [BUTLER]], None, 0, 0)
  }

  function Spawn(s: Sys, supervisor: Pid, intent: Intent, strategy: Strategy): (Sys, Result<Pid, Error>)
    requires |s.queues| == LEVELS
  {
    if supervisor !in s.table then (s, Err(SupervisorNotFound))
    else
      var pid := s.nextPid;
      var s1 := s.(nextPid := pid + 1);
      if |s.table| >= MAX_PROCESSES then (s1, Err(TableFull))
      else if pid in s.table then (s1, Err(AlreadyExists))
      else
        var sup := s.table[supervisor];
        var b := NewPcb(intent, supervisor, strategy, |sup.children|, s.tick);
        var s2 := Put(Put(s1, pid, b), supervisor, sup.(children := sup.children + [pid]));
        (Enqueue(s2, pid, intent.priority), Ok(pid))
  }

  function Terminate(s: Sys, p: Pid): (Sys, Result<(), Error>)
  {
    if p !in s.table then (s, Err(NotFound))
    else
      var s1 := Kill(s, p, Finished);
      var sup := s.table[p].supervisor;
      if sup !in s1.table then (s1, Ok(()))
      else (Put(s1, sup, s1.table[sup].(children := Drop(s1.table[sup].children, {p}))), Ok(()))
  }

  function Block(s: Sys, p: Pid, waitingOn: Option<Pid>): (Sys, Result<(), Error>)
    requires |s.queues| == LEVELS
  {
    if p !in s.table then (s, Err(NotFound))
    else if !Runnable(s.table[p]) then (s, Err(InvalidState))
    else
      var s1 := Dequeue(Put(s, p, s.table[p].(state := Blocked, blockedOn := waitingOn)), p);
      match waitingOn
      case None => (s1, Ok(()))
      case Some(target) => (Inherit(s1, target, s.table[p].eff, 0), Ok(()))
  }

  /** A blocked process, made ready with its wake-up priority. */
  function Wake(s: Sys, p: Pid): (r: Sys)
    requires |s.queues| == LEVELS && p in s.table
    ensures |r.queues| == LEVELS
  {
    var b := s.table[p].(blockedOn := None, state := Ready, wake := s.tick);
    var e := Woken(b, s.tick);
    Enqueue(Put(s, p, b.(eff := e)), p, e)
  }

  function Unblock(s: Sys, p: Pid): (Sys, Result<(), Error>)
    requires |s.queues| == LEVELS
  {
    if p !in s.table then (s, Err(NotFound))
    else if s.table[p].state != Blocked then (s, Err(InvalidState))
    else
      match s.table[p].blockedOn
      case None => (Wake(s, p), Ok(()))
      case Some(target) => (Revert(Wake(s, p), target), Ok(()))
  }

  function Crash(s: Sys, p: Pid): (Sys, Result<(), Error>)
    requires |s.queues| == LEVELS && Descending(s)
  {
    if p !in s.table then (s, Err(NotFound))
    else (HandleCrash(Kill(s, p, Crashed), s.table[p].supervisor, p).0, Ok(()))
  }

  function RunAging(s: Sys): Sys
    requires |s.queues| == LEVELS
  {
    RaisesFit(s, LEVELS - 1);
    BoostAll(s, Raises(s, LEVELS - 1))
  }
}
