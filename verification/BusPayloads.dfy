/** How long the payload of a pending message can be read back, over every run of the bus. */
module BusPayloads {
  import opened Wrappers
  import opened BusArena
  import opened BusAudit
  import opened BusModel

  /** Where the payload of a pending message is: it has none, it was the k-th to be stored since the arena was last
      allocated, or the arena has been allocated anew since. */
  datatype Origin = NoPayload | Stored(k: nat) | Gone

  /** The payloads stored since the arena was last allocated, and the origins of the messages in each inbox. */
  datatype Ledger = Ledger(stored: seq<seq<Byte>>, origins: map<Pid, seq<Origin>>)

  function Lost(os: seq<Origin>): seq<Origin>
  {
    seq(|os|, i requires 0 <= i < |os| => if os[i] == NoPayload then NoPayload else Gone)
  }

  function LostAll(m: map<Pid, seq<Origin>>): map<Pid, seq<Origin>> { map p | p in m :: Lost(m[p]) }

  /** The payload that a send stores, even if the message is refused afterwards. */
  ghost function Kept(b: Bus, m: Header, payload: Option<seq<Byte>>): Option<seq<Byte>>
  {
    if Counts(b, m, payload) && b.ready then Screen(b, m, payload).value else None
  }

  /** The ledger with one more payload, and the origin of the message it came with. */
  ghost function WithStored(l: Ledger, kept: Option<seq<Byte>>): Ledger
  {
    l.(stored := if kept.Some? then l.stored + [kept.value] else l.stored)
  }

  ghost function OriginOf(l: Ledger, kept: Option<seq<Byte>>): Origin
  {
    if kept.Some? then Stored(|l.stored|) else NoPayload
  }

  ghost function Enter(h: Hash, b: Bus, l: Ledger, op: Op): Ledger
    requires ArenaOk(b.arena) && l.origins.Keys == b.inboxes.Keys
  {
    match op
    case OpRegister(p) => if Register(b, p).1.Ok? then l.(origins := l.origins[p := []]) else l
    case OpUnregister(p) => l.(origins := l.origins - {p})
    case OpSend(m, payload) =>
      var kept := Kept(b, m, payload);
      if Send(h, b, m, payload).1.Ok?
      then WithStored(l, kept).(origins := Extend(l.origins, m.receiver, OriginOf(l, kept)))
      else WithStored(l, kept)
    case OpReceive(p) =>
      if Receive(b, p).1.Some? && l.origins[p] != [] then l.(origins := l.origins[p := l.origins[p][1..]]) else l
    case OpPolicy(_) => l
    case OpTick => l
    case OpInit => Ledger([], LostAll(l.origins))
  }

  // ----- what the ledger says about the bus

  ghost predicate AllFit(ds: seq<seq<Byte>>) { forall i {:trigger ds[i]} :: 0 <= i < |ds| ==> Fits(ds[i]) }

  /** The slice that the k-th of the payloads got. */
  ghost predicate SliceOf(start: Arena, ds: seq<seq<Byte>>, k: nat, s: Slice)
    requires ArenaOk(start)
  {
    k < |ds| && Place(PlaceAll(start, ds[..k]), ds[k]).1 == Some(s)
  }

  ghost predicate Agrees(start: Arena, ds: seq<seq<Byte>>, e: Envelope, o: Origin)
    requires ArenaOk(start)
  {
    match o
    case NoPayload => e.payload == None
    case Stored(k) => e.payload.Some? && SliceOf(start, ds, k, e.payload.value)
    case Gone => e.payload.Some?
  }

  ghost predicate AgreesAll(start: Arena, ds: seq<seq<Byte>>, es: seq<Envelope>, os: seq<Origin>)
    requires ArenaOk(start)
  {
    |os| == |es| && forall i {:trigger os[i]} {:trigger es[i]} :: 0 <= i < |os| ==> Agrees(start, ds, es[i], os[i])
  }

  ghost predicate Tracks(start: Arena, b: Bus, l: Ledger)
  {
    && ArenaOk(start) && b.arena == PlaceAll(start, l.stored) && AllFit(l.stored)
    && l.origins.Keys == b.inboxes.Keys
    && (forall p {:trigger b.inboxes[p]} {:trigger l.origins[p]} :: p in b.inboxes ==>
          AgreesAll(start, l.stored, b.inboxes[p], l.origins[p]))
  }

  // ----- payloads that stay readable

  lemma {:induction false} PlaceAllConcat(a: Arena, ds: seq<seq<Byte>>, es: seq<seq<Byte>>)
    requires ArenaOk(a)
    ensures PlaceAll(a, ds + es) == PlaceAll(PlaceAll(a, ds), es)
    decreases |es|
  {
    if es == [] {
      assert ds + es == ds;
    } else {
      var n := |ds + es| - 1;
      assert (ds + es)[..n] == ds + es[..|es| - 1] && (ds + es)[n] == es[|es| - 1];
      PlaceAllConcat(a, ds, es[..|es| - 1]);
    }
  }

  lemma {:induction false} AllAccepted(ds: seq<seq<Byte>>)
    requires AllFit(ds)
    ensures Accepted(ds) == |ds|
    decreases |ds|
  {
    if ds != [] {
      AllAccepted(ds[..|ds| - 1]);
    }
  }

  lemma PlaceAllSplit(a: Arena, ds: seq<seq<Byte>>, k: nat)
    requires ArenaOk(a) && k < |ds|
    ensures ArenaOk(Place(PlaceAll(a, ds[..k]), ds[k]).0)
    ensures PlaceAll(a, ds) == PlaceAll(Place(PlaceAll(a, ds[..k]), ds[k]).0, ds[k + 1..])
  {
    assert ds[..k + 1][..k] == ds[..k] && ds[..k + 1][k] == ds[k];
    assert ds == ds[..k + 1] + ds[k + 1..];
    PlaceOk(PlaceAll(a, ds[..k]), ds[k]);
    PlaceAllConcat(a, ds[..k + 1], ds[k + 1..]);
  }

  /** The k-th payload is still in its slice while at most 62 have been stored after it. */
  lemma StillThere(start: Arena, ds: seq<seq<Byte>>, k: nat, s: Slice)
    requires ArenaOk(start) && AllFit(ds) && SliceOf(start, ds, k, s) && |ds| - k - 1 <= 62
    ensures s.offset + s.len <= BusArena.CAPACITY && Get(PlaceAll(start, ds), s) == ds[k]
  {
    AllAccepted(ds[k + 1..]);
    PayloadSurvives(PlaceAll(start, ds[..k]), ds[k], ds[k + 1..]);
    PlaceAllSplit(start, ds, k);
  }

  // ----- every operation keeps the ledger right

  lemma GrowsAgrees(start: Arena, ds: seq<seq<Byte>>, d: seq<Byte>, es: seq<Envelope>, os: seq<Origin>)
    requires ArenaOk(start) && AgreesAll(start, ds, es, os)
    ensures AgreesAll(start, ds + [d], es, os)
  {
    forall i | 0 <= i < |os|
      ensures Agrees(start, ds + [d], es[i], os[i])
    {
      if os[i].Stored? {
        var k := os[i].k;
        assert (ds + [d])[..k] == ds[..k] && (ds + [d])[k] == ds[k];
      }
    }
  }

  lemma StoredTracks(start: Arena, b: Bus, l: Ledger, d: seq<Byte>)
    requires Tracks(start, b, l) && Fits(d)
    ensures Tracks(start, b.(arena := Place(b.arena, d).0), l.(stored := l.stored + [d]))
    ensures Place(b.arena, d).1.Some? && SliceOf(start, l.stored + [d], |l.stored|, Place(b.arena, d).1.value)
  {
    var ds := l.stored + [d];
    assert ds[..|ds| - 1] == l.stored && ds[|l.stored|] == d;
    PlaceOk(b.arena, d);
    forall p | p in b.inboxes
      ensures AgreesAll(start, ds, b.inboxes[p], l.origins[p])
    {
      GrowsAgrees(start, l.stored, d, b.inboxes[p], l.origins[p]);
    }
  }

  lemma PushedTracks(start: Arena, b: Bus, l: Ledger, p: Pid, e: Envelope, o: Origin)
    requires Tracks(start, b, l) && p in b.inboxes && Agrees(start, l.stored, e, o)
    ensures Tracks(start, b.(inboxes := b.inboxes[p := b.inboxes[p] + [e]]), l.(origins := Extend(l.origins, p, o)))
  {
  }

  /** The tracked state only depends on inboxes and arena. */
  lemma SameTracks(start: Arena, b: Bus, c: Bus, l: Ledger)
    requires Tracks(start, b, l) && c.inboxes == b.inboxes && c.arena == b.arena
    ensures Tracks(start, c, l)
  {
  }

  lemma ScreenedFits(b: Bus, m: Header, payload: Option<seq<Byte>>)
    requires Screen(b, m, payload).Ok? && Screen(b, m, payload).value.Some?
    ensures Fits(Screen(b, m, payload).value.value) && m.receiver in b.inboxes
  {
  }

  lemma PreparedTracks(start: Arena, b: Bus, l: Ledger, m: Header, data: Option<seq<Byte>>)
    requires ArenaOk(b.arena) && Tracks(start, b, l) && (data.Some? ==> Fits(data.value))
    ensures var (c, slice) := Prepared(b, m, data);
      var kept := if b.ready then data else None;
      && ArenaOk(c.arena) && c.inboxes == b.inboxes && Tracks(start, c, WithStored(l, kept))
      && (slice == None <==> data.Some? && !b.ready)
      && (slice.Some? ==> Agrees(start, WithStored(l, kept).stored, Envelope(m, slice.value), OriginOf(l, kept)))
  {
    var c := Prepared(b, m, data).0;
    if data.Some? && b.ready {
      StoredTracks(start, b, l, data.value);
      SameTracks(start, b.(arena := Place(b.arena, data.value).0), c, WithStored(l, data));
    } else {
      SameTracks(start, b, c, l);
    }
  }

  lemma SendTracks(h: Hash, start: Arena, b: Bus, l: Ledger, m: Header, payload: Option<seq<Byte>>)
    requires ArenaOk(b.arena) && Tracks(start, b, l)
    ensures Tracks(start, Send(h, b, m, payload).0, Enter(h, b, l, OpSend(m, payload)))
  {
    var r := Send(h, b, m, payload).0;
    if Counts(b, m, payload) {
      var data := Screen(b, m, payload).value;
      if data.Some? {
        ScreenedFits(b, m, payload);
      }
      PreparedTracks(start, b, l, m, data);
      var (c, slice) := Prepared(b, m, data);
      var kept := Kept(b, m, payload);
      if slice.Some? {
        DeliveredTracks(h, start, c, WithStored(l, kept), m, slice.value, OriginOf(l, kept));
      } else {
        SameTracks(start, c, r, l);
      }
    } else {
      SameTracks(start, b, r, l);
    }
  }

  lemma DeliveredTracks(h: Hash, start: Arena, c: Bus, l: Ledger, m: Header, slice: Option<Slice>, o: Origin)
    requires Tracks(start, c, l) && m.receiver in c.inboxes && Agrees(start, l.stored, Envelope(m, slice), o)
    ensures var r := Deliver(h, c, m, slice);
      Tracks(start, r.0, if r.1.Ok? then l.(origins := Extend(l.origins, m.receiver, o)) else l)
  {
    var r := Deliver(h, c, m, slice);
    if r.1.Ok? {
      var e := Envelope(m, slice);
      PushedTracks(start, c, l, m.receiver, e, o);
      SameTracks(start, c.(inboxes := c.inboxes[m.receiver := c.inboxes[m.receiver] + [e]]), r.0,
                 l.(origins := Extend(l.origins, m.receiver, o)));
    }
  }

  lemma RegisterTracks(start: Arena, b: Bus, l: Ledger, h: Hash, p: Pid)
    requires ArenaOk(b.arena) && Tracks(start, b, l)
    ensures Tracks(start, Register(b, p).0, Enter(h, b, l, OpRegister(p)))
  {
  }

  lemma UnregisterTracks(start: Arena, b: Bus, l: Ledger, h: Hash, p: Pid)
    requires ArenaOk(b.arena) && Tracks(start, b, l)
    ensures Tracks(start, Unregister(b, p).0, Enter(h, b, l, OpUnregister(p)))
  {
    if p !in b.inboxes {
      assert l.origins - {p} == l.origins;
    }
  }

  lemma ReceiveTracks(start: Arena, b: Bus, l: Ledger, h: Hash, p: Pid)
    requires ArenaOk(b.arena) && Tracks(start, b, l)
    ensures Tracks(start, Receive(b, p).0, Enter(h, b, l, OpReceive(p)))
  {
    if Receive(b, p).1.Some? {
      var es, os := b.inboxes[p], l.origins[p];
      forall i | 0 <= i < |os[1..]|
        ensures Agrees(start, l.stored, es[1..][i], os[1..][i])
      {
        assert es[1..][i] == es[i + 1] && os[1..][i] == os[i + 1];
      }
    }
  }

  lemma InitTracks(start: Arena, b: Bus, l: Ledger)
    requires Tracks(start, b, l)
    ensures Tracks(Arena(Blank(), 0), Init(b), Ledger([], LostAll(l.origins)))
  {
    forall p | p in b.inboxes
      ensures AgreesAll(Arena(Blank(), 0), [], b.inboxes[p], LostAll(l.origins)[p])
    {
      var es, os := b.inboxes[p], l.origins[p];
      forall i | 0 <= i < |os|
        ensures Agrees(Arena(Blank(), 0), [], es[i], Lost(os)[i])
      {
        assert Agrees(start, l.stored, es[i], os[i]);
      }
    }
  }

  function StartAfter(start: Arena, op: Op): Arena { if op.OpInit? then Arena(Blank(), 0) else start }

  lemma ApplyTracks(h: Hash, start: Arena, b: Bus, l: Ledger, op: Op)
    requires ArenaOk(b.arena) && Tracks(start, b, l)
    ensures Tracks(StartAfter(start, op), Apply(h, b, op), Enter(h, b, l, op))
  {
    match op
    case OpRegister(p) => RegisterTracks(start, b, l, h, p);
    case OpUnregister(p) => UnregisterTracks(start, b, l, h, p);
    case OpSend(m, payload) => SendTracks(h, start, b, l, m, payload);
    case OpReceive(p) => ReceiveTracks(start, b, l, h, p);
    case OpPolicy(m) => SameTracks(start, b, Apply(h, b, op), l);
    case OpTick => SameTracks(start, b, Apply(h, b, op), l);
    case OpInit => InitTracks(start, b, l);
  }

  /** The ledger of a run, and the arena from which its payloads were stored. */
  ghost function Follow(h: Hash, bytes: seq<Byte>, ops: seq<Op>): (r: (Ledger, Arena))
    requires |bytes| == BusArena.CAPACITY
    ensures Tracks(r.1, Run(h, bytes, false, ops).0, r.0)
    decreases |ops|
  {
    if ops == [] then (Ledger([], map[]), Arena(bytes, 0))
    else
      var init, op := ops[..|ops| - 1], ops[|ops| - 1];
      var (l, start) := Follow(h, bytes, init);
      var b := Run(h, bytes, false, init).0;
      ApplyTracks(h, start, b, l, op);
      (Enter(h, b, l, op), StartAfter(start, op))
  }

  /** In every run: the i-th message pending for p whose payload was the k-th to be stored can still be read back, byte
      for byte, while at most 62 payloads have been stored after it, those of refused messages included. */
  lemma PendingReadsBack(h: Hash, bytes: seq<Byte>, ops: seq<Op>, p: Pid, i: nat)
    requires |bytes| == BusArena.CAPACITY
    requires var b := Run(h, bytes, false, ops).0; p in b.inboxes && i < |b.inboxes[p]|
    ensures var b := Run(h, bytes, false, ops).0;
      var l := Follow(h, bytes, ops).0;
      && p in l.origins && i < |l.origins[p]|
      && var e, o := b.inboxes[p][i], l.origins[p][i];
        && (o == NoPayload <==> e.payload == None)
        && (o.Stored? ==> o.k < |l.stored|)
        && (o.Stored? && |l.stored| - o.k - 1 <= 62 ==>
              && e.payload.Some? && e.payload.value.offset + e.payload.value.len <= |b.arena.bytes|
              && Get(b.arena, e.payload.value) == l.stored[o.k])
  {
    var b := Run(h, bytes, false, ops).0;
    var (l, start) := Follow(h, bytes, ops);
    assert AgreesAll(start, l.stored, b.inboxes[p], l.origins[p]);
    var e, o := b.inboxes[p][i], l.origins[p][i];
    assert Agrees(start, l.stored, e, o);
    if o.Stored? && |l.stored| - o.k - 1 <= 62 {
      StillThere(start, l.stored, o.k, e.payload.value);
    }
  }
}
