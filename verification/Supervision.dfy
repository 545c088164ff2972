/** What a crash does: which processes are restarted, how far it escalates, and how often restarts may happen. */
module Supervision {
  import opened Wrappers
  import opened ProcessModel
  import opened ProcessInvariant

  ghost function Elems(ps: seq<Pid>): set<Pid> { set p | p in ps }

  lemma ElemsCons(p: Pid, rest: seq<Pid>)
    ensures Elems([p] + rest) == {p} + Elems(rest)
  {
    assert forall x :: x in [p] + rest <==> x == p || x in rest;
  }

  // ----- filtering twice

  lemma {:induction false} DropDrop(q: seq<Pid>, a: set<Pid>, b: set<Pid>)
    ensures Drop(Drop(q, a), b) == Drop(q, a + b)
    decreases |q|
  {
    if q != [] {
      DropDrop(q[1..], a, b);
      if q[0] !in a {
        assert Drop(q, a)[1..] == Drop(q[1..], a);
      }
    }
  }

  lemma {:induction false} DropAbsent(q: seq<Pid>, gone: set<Pid>)
    requires forall i {:trigger q[i]} :: 0 <= i < |q| ==> q[i] !in gone
    ensures Drop(q, gone) == q
    decreases |q|
  {
    if q != [] {
      assert q[0] !in gone;
      DropAbsent(q[1..], gone);
    }
  }

  // ----- killing and restarting several processes

  ghost function Killed1(b: Pcb): Pcb
  {
    if b.state == Terminated then b else b.(state := Terminated, exit := Some(Killed))
  }

  /** All of ps out of the queues and terminated. */
  ghost function AllKilled(s: Sys, gone: set<Pid>): Sys
  {
    s.(table := map p | p in s.table :: if p in gone then Killed1(s.table[p]) else s.table[p],
       queues := DropAll(s.queues, gone),
       current := if s.current.Some? && s.current.value in gone then None else s.current)
  }

  lemma KillStep(s: Sys, p: Pid)
    requires Inv(s)
    ensures var r := if p in s.table && s.table[p].state != Terminated then Kill(s, p, Killed) else s;
      Inv(r) && r == AllKilled(s, {p})
  {
    if p in s.table && s.table[p].state != Terminated {
      KillKeepsInv(s, p, Killed);
      assert Kill(s, p, Killed).table == AllKilled(s, {p}).table;
    } else {
      forall l | 0 <= l < LEVELS
        ensures Drop(s.queues[l], {p}) == s.queues[l]
      {
        assert p !in s.queues[l];
        DropAbsent(s.queues[l], {p});
      }
      assert DropAll(s.queues, {p}) == s.queues;
      assert s.table == AllKilled(s, {p}).table;
    }
  }

  lemma AllKilledTwice(s: Sys, a: set<Pid>, b: set<Pid>)
    ensures AllKilled(AllKilled(s, a), b) == AllKilled(s, a + b)
  {
    var once, both := DropAll(s.queues, a), DropAll(s.queues, a + b);
    forall l | 0 <= l < |s.queues|
      ensures DropAll(once, b)[l] == both[l]
    {
      DropDrop(s.queues[l], a, b);
    }
    assert DropAll(once, b) == both;
    SameMap(AllKilled(AllKilled(s, a), b).table, AllKilled(s, a + b).table);
  }

  lemma {:induction false} KillAllIs(s: Sys, ps: seq<Pid>)
    requires Inv(s)
    ensures Inv(KillAll(s, ps)) && KillAll(s, ps) == AllKilled(s, Elems(ps))
    decreases |ps|
  {
    if ps == [] {
      forall l | 0 <= l < LEVELS
        ensures Drop(s.queues[l], {}) == s.queues[l]
      {
        DropAbsent(s.queues[l], {});
      }
      assert DropAll(s.queues, {}) == s.queues;
      assert s.table == AllKilled(s, {}).table;
      assert Elems(ps) == {};
    } else {
      KillStep(s, ps[0]);
      var r := if ps[0] in s.table && s.table[ps[0]].state != Terminated then Kill(s, ps[0], Killed) else s;
      KillAllIs(r, ps[1..]);
      AllKilledTwice(s, {ps[0]}, Elems(ps[1..]));
      assert ps == [ps[0]] + ps[1..];
      ElemsCons(ps[0], ps[1..]);
    }
  }

  /** The processes of ps whose base priority is l, in order. */
  ghost function AtLevel(s: Sys, ps: seq<Pid>, l: nat): seq<Pid>
  {
    if ps == [] then []
    else (if ps[0] in s.table && s.table[ps[0]].base == l then [ps[0]] else []) + AtLevel(s, ps[1..], l)
  }

  ghost function ResetAll(t: map<Pid, Pcb>, ps: set<Pid>, now: nat): map<Pid, Pcb>
  {
    map p | p in t :: if p in ps then Reset(t[p], now) else t[p]
  }

  lemma ResetTwice(t: map<Pid, Pcb>, a: set<Pid>, b: set<Pid>, now: nat)
    ensures ResetAll(ResetAll(t, a, now), b, now) == ResetAll(t, a + b, now)
  {
    forall p | p in t
      ensures Reset(Reset(t[p], now), now) == Reset(t[p], now)
    {
    }
    SameMap(ResetAll(ResetAll(t, a, now), b, now), ResetAll(t, a + b, now));
  }

  lemma SameMap(t: map<Pid, Pcb>, u: map<Pid, Pcb>)
    requires t.Keys == u.Keys && forall p {:trigger t[p]} :: p in t ==> t[p] == u[p]
    ensures t == u
  {
    assert forall p :: p in t <==> p in u;
    assert forall p :: p in t ==> t[p] == u[p];
  }

  ghost function Behind(s: Sys, qs: seq<seq<Pid>>, ps: seq<Pid>): seq<seq<Pid>>
  {
    seq(|qs|, l requires 0 <= l < |qs| => qs[l] + AtLevel(s, ps, l))
  }

  /** All of ps ready at their base priorities, behind whoever was queued before. */
  ghost function AllReady(s: Sys, ps: seq<Pid>): Sys
  {
    s.(table := ResetAll(s.table, Elems(ps), s.tick), queues := Behind(s, s.queues, ps))
  }

  lemma RestartKeepsInv(s: Sys, p: Pid)
    requires Inv(s) && (p in s.table ==> !Runnable(s.table[p]))
    ensures Inv(Restart(s, p))
  {
    if p in s.table {
      ReadyKeepsInv(s, p, Reset(s.table[p], s.tick));
    }
  }

  lemma {:induction false} SameLevels(s: Sys, r: Sys, ps: seq<Pid>, l: nat)
    requires r.table.Keys == s.table.Keys
    requires forall p {:trigger r.table[p]} :: p in s.table ==> r.table[p].base == s.table[p].base
    ensures AtLevel(r, ps, l) == AtLevel(s, ps, l)
    decreases |ps|
  {
    if ps != [] {
      SameLevels(s, r, ps[1..], l);
    }
  }

  ghost predicate AllDown(s: Sys, ps: seq<Pid>)
  {
    NoDup(ps) && forall p :: p in ps && p in s.table ==> !Runnable(s.table[p])
  }

  lemma RestartIsReady(s: Sys, p: Pid)
    requires Inv(s) && (p in s.table ==> !Runnable(s.table[p]))
    ensures Restart(s, p) == AllReady(s, [p])
  {
    if p in s.table {
      var b := s.table[p].base;
      assert p !in s.queues[b];
    }
    forall l | 0 <= l < LEVELS
      ensures Restart(s, p).queues[l] == s.queues[l] + AtLevel(s, [p], l)
    {
      assert AtLevel(s, [p], l) == if p in s.table && s.table[p].base == l then [p] else [];
    }
    assert Restart(s, p).queues == Behind(s, s.queues, [p]);
    assert Elems([p]) == {p};
    SameMap(Restart(s, p).table, ResetAll(s.table, {p}, s.tick));
  }

  lemma BehindTwice(s: Sys, r: Sys, p: Pid, rest: seq<Pid>)
    requires r.table.Keys == s.table.Keys
    requires forall x {:trigger r.table[x]} :: x in s.table ==> r.table[x].base == s.table[x].base
    ensures Behind(r, Behind(s, s.queues, [p]), rest) == Behind(s, s.queues, [p] + rest)
  {
    var first, both := Behind(s, s.queues, [p]), Behind(s, s.queues, [p] + rest);
    forall l | 0 <= l < |s.queues|
      ensures Behind(r, first, rest)[l] == both[l]
    {
      SameLevels(s, r, rest, l);
      assert ([p] + rest)[1..] == rest;
      assert AtLevel(s, [p] + rest, l) == AtLevel(s, [p], l) + AtLevel(s, rest, l);
    }
  }

  lemma {:induction false} RestartAllIs(s: Sys, ps: seq<Pid>)
    requires Inv(s) && AllDown(s, ps)
    ensures Inv(RestartAll(s, ps)) && RestartAll(s, ps) == AllReady(s, ps)
    decreases |ps|
  {
    if ps == [] {
      assert Elems(ps) == {};
      SameMap(s.table, AllReady(s, ps).table);
      assert forall l {:trigger s.queues[l]} :: 0 <= l < LEVELS ==> s.queues[l] + AtLevel(s, ps, l) == s.queues[l];
      assert s.queues == AllReady(s, ps).queues;
    } else {
      var p, rest := ps[0], ps[1..];
      var r := Restart(s, p);
      assert ps == [p] + rest;
      RestartKeepsInv(s, p);
      RestartIsReady(s, p);
      NoDupTail(ps);
      forall x | x in rest && x in r.table
        ensures !Runnable(r.table[x])
      {
        assert x in ps && x != p;
      }
      RestartAllIs(r, rest);
      BehindTwice(s, r, p, rest);
      ResetTwice(s.table, {p}, Elems(rest), s.tick);
      assert Elems([p]) == {p};
      ElemsCons(p, rest);
    }
  }

  /** What restarting a list of processes amounts to: they alone are reset, leave their queues, and join the queues of
      their base priorities in order. */
  ghost function Restarted(s: Sys, ps: seq<Pid>): Sys
  {
    s.(table := ResetAll(s.table, Elems(ps), s.tick),
       queues := Behind(s, DropAll(s.queues, Elems(ps)), ps),
       current := if s.current.Some? && s.current.value in ps then None else s.current)
  }

  lemma ResetKilled(s: Sys, gone: set<Pid>)
    ensures ResetAll(AllKilled(s, gone).table, gone, s.tick) == ResetAll(s.table, gone, s.tick)
  {
    forall p | p in s.table
      ensures Reset(Killed1(s.table[p]), s.tick) == Reset(s.table[p], s.tick)
    {
    }
    SameMap(ResetAll(AllKilled(s, gone).table, gone, s.tick), ResetAll(s.table, gone, s.tick));
  }

  lemma SameBehind(s: Sys, r: Sys, qs: seq<seq<Pid>>, ps: seq<Pid>)
    requires r.table.Keys == s.table.Keys
    requires forall p {:trigger r.table[p]} :: p in s.table ==> r.table[p].base == s.table[p].base
    ensures Behind(r, qs, ps) == Behind(s, qs, ps)
  {
    forall l | 0 <= l < |qs|
      ensures AtLevel(r, ps, l) == AtLevel(s, ps, l)
    {
      SameLevels(s, r, ps, l);
    }
  }

  lemma RestartKilledIs(s: Sys, ps: seq<Pid>)
    requires Inv(s) && NoDup(ps)
    ensures Inv(RestartKilled(s, ps)) && RestartKilled(s, ps) == Restarted(s, ps)
  {
    var k := KillAll(s, ps);
    KillAllIs(s, ps);
    RestartAllIs(k, ps);
    SameBehind(s, k, DropAll(s.queues, Elems(ps)), ps);
    ResetKilled(s, Elems(ps));
  }

  /** Restarting one process that is already down is the same thing. */
  lemma RestartOneIs(s: Sys, p: Pid)
    requires Inv(s) && (p in s.table ==> !Runnable(s.table[p]))
    ensures Inv(Restart(s, p)) && Restart(s, p) == Restarted(s, [p])
  {
    RestartKeepsInv(s, p);
    RestartIsReady(s, p);
    forall l | 0 <= l < LEVELS
      ensures Drop(s.queues[l], {p}) == s.queues[l]
    {
      assert p !in s.queues[l];
      DropAbsent(s.queues[l], {p});
    }
    assert Elems([p]) == {p};
    assert DropAll(s.queues, {p}) == s.queues;
  }

  // ----- which processes a crash restarts

  lemma {:induction false} LaterNoDup(s: Sys, children: seq<Pid>, order: nat)
    requires NoDup(children)
    ensures NoDup(Later(s, children, order)) && forall x :: x in Later(s, children, order) ==> x in children
    decreases |children|
  {
    if children != [] {
      NoDupTail(children);
      LaterNoDup(s, children[1..], order);
      assert children == [children[0]] + children[1..];
      if children[0] in s.table && s.table[children[0]].spawnOrder >= order {
        NoDupCons(children[0], Later(s, children[1..], order));
      }
    }
  }

  lemma {:induction false} LaterMembers(s: Sys, children: seq<Pid>, order: nat, x: Pid)
    ensures x in Later(s, children, order) <==> x in children && x in s.table && s.table[x].spawnOrder >= order
    decreases |children|
  {
    if children != [] {
      LaterMembers(s, children[1..], order, x);
      assert children == [children[0]] + children[1..];
    }
  }

  lemma RestartSetNoDup(s: Sys, sup: Pid, crashed: Pid)
    requires Inv(s) && sup in s.table
    ensures NoDup(RestartSet(s, sup, crashed))
  {
    if s.table[sup].strategy == RestForOne {
      LaterNoDup(s, s.table[sup].children, if crashed in s.table then s.table[crashed].spawnOrder else 0);
    }
  }

  ghost predicate Exceeds(s: Sys, sup: Pid)
    requires sup in s.table
  {
    Record(s.table[sup].tracker, s.tick).1
  }

  /** The supervisor with the restart noted in its tracker. */
  ghost function Noted(s: Sys, sup: Pid): Sys
    requires sup in s.table
  {
    Put(s, sup, s.table[sup].(tracker := Record(s.table[sup].tracker, s.tick).0))
  }

  lemma NotedKeepsInv(s: Sys, sup: Pid)
    requires Inv(s) && sup in s.table
    ensures Inv(Noted(s, sup))
  {
    var b := Noted(s, sup).table[sup];
    PutAlike(s, sup, b, {});
    PutKeepsTable(s.table, s.nextPid, sup, b);
  }

  lemma InvDescends(s: Sys)
    requires Inv(s)
    ensures Descending(s)
  {
  }

  /** A supervisor that has restarts left restarts exactly its strategy's set, and changes nothing else. */
  lemma WithinLimitRestarts(s: Sys, sup: Pid, crashed: Pid)
    requires Inv(s) && sup in s.table && !Exceeds(s, sup) && (crashed in s.table ==> !Runnable(s.table[crashed]))
    requires Descending(s)
    ensures var ps := RestartSet(Noted(s, sup), sup, crashed);
      HandleCrash(s, sup, crashed) == (Restarted(Noted(s, sup), ps), Ok(|ps|))
    ensures Inv(HandleCrash(s, sup, crashed).0)
  {
    var n := Noted(s, sup);
    NotedKeepsInv(s, sup);
    RestartSetNoDup(n, sup, crashed);
    if s.table[sup].strategy == OneForOne {
      RestartOneIs(n, crashed);
    } else {
      RestartKilledIs(n, RestartSet(n, sup, crashed));
    }
  }

  lemma {:induction false} HandleCrashKeepsInv(s: Sys, sup: Pid, crashed: Pid)
    requires Inv(s) && Descending(s) && (crashed in s.table ==> !Runnable(s.table[crashed]))
    ensures Inv(HandleCrash(s, sup, crashed).0)
    decreases sup
  {
    if sup in s.table {
      if Exceeds(s, sup) {
        NotedKeepsInv(s, sup);
        var gone := Kill(Noted(s, sup), sup, Exceeded);
        KillKeepsInv(Noted(s, sup), sup, Exceeded);
        InvDescends(gone);
        if s.table[sup].supervisor != KERNEL {
          HandleCrashKeepsInv(gone, s.table[sup].supervisor, sup);
        }
      } else {
        WithinLimitRestarts(s, sup, crashed);
      }
    }
  }

  lemma CrashKeepsInv(s: Sys, p: Pid)
    requires Inv(s) && Descending(s)
    ensures Inv(Crash(s, p).0)
  {
    if p in s.table {
      KillKeepsInv(s, p, Crashed);
      InvDescends(Kill(s, p, Crashed));
      HandleCrashKeepsInv(Kill(s, p, Crashed), s.table[p].supervisor, p);
    }
  }
}
