/** The message bus as a value, and what holds over every run of it. */
module BusModel {
  import opened Wrappers
  import opened BusArena
  import opened BusAudit
  import Queue = BusQueue

  type Pid = int

  const VERSION: nat := 1
  const MAX_PROCESSES: nat := 64

  datatype Header = Header(version: nat, sender: nat, receiver: nat, msgType: nat, capability: nat, sequence: nat,
                           payloadLen: nat)

  datatype Envelope = Envelope(header: Header, payload: Option<Slice>)

  datatype Error =
    | InvalidVersion | InvalidSender | SenderNotRegistered | ReceiverNotRegistered | SelfSendDenied | PayloadTooLarge
    | PayloadLengthMismatch | SequenceReplay | SequenceGap(expected: nat, got: nat) | ArenaFull | ReceiverQueueFull
    | ProcessAlreadyRegistered | ProcessLimitReached

  /** The inboxes, the last accepted number of each sender, the arena and whether it is there yet, the audit log, and
      the counters. */
  datatype Bus = Bus(inboxes: map<Pid, seq<Envelope>>, last: map<Pid, nat>, arena: Arena, ready: bool, log: seq<Entry>,
                     tick: nat, sent: nat, rejected: nat)

  // ----- sequence numbers

  function Expected(last: map<Pid, nat>, p: Pid): nat { if p in last then last[p] + 1 else 1 }

  function CheckSequence(last: map<Pid, nat>, p: Pid, n: nat): Result<(), Error>
  {
    if n == Expected(last, p) then Ok(())
    else if n <= (if p in last then last[p] else 0) then Err(SequenceReplay)
    else Err(SequenceGap(Expected(last, p), n))
  }

  // ----- operations

  function Logged(h: Hash, b: Bus, m: Header, a: Action): Bus
  {
    b.(log := Append(h, b.log, b.tick, m.sender, a, m.receiver, m.msgType, m.capability, m.sequence))
  }

  function Rejected(h: Hash, b: Bus, m: Header, a: Action): Bus
  {
    Logged(h, b, m, a).(rejected := b.rejected + 1)
  }

  /** The checks on a message before its number is looked at: the payload to store, or the reason to refuse. */
  function Screen(b: Bus, m: Header, payload: Option<seq<Byte>>): Result<Option<seq<Byte>>, Error>
  {
    if m.version != VERSION then Err(InvalidVersion)
    else if m.sender == 0 then Err(InvalidSender)
    else if m.sender !in b.inboxes then Err(SenderNotRegistered)
    else if m.receiver !in b.inboxes then Err(ReceiverNotRegistered)
    else if m.sender == m.receiver then Err(SelfSendDenied)
    else if m.payloadLen == 0 && (payload == None || payload == Some([])) then Ok(None)
    else if payload.Some? && m.payloadLen == |payload.value| then
      if |payload.value| > MAX_PAYLOAD then Err(PayloadTooLarge) else Ok(payload)
    else Err(PayloadLengthMismatch)
  }

  /** The payload copied into the arena; None means that there is no room or no arena. */
  function Store(b: Bus, data: Option<seq<Byte>>): (r: (Bus, Option<Option<Slice>>))
    requires ArenaOk(b.arena)
  {
    match data
    case None => (b, Some(None))
    case Some(d) =>
      if !b.ready then (b, None)
      else
        var (a, s) := Place(b.arena, d);
        (b.(arena := a), if s.Some? then Some(s) else None)
  }

  /** The envelope pushed to the receiver, unless its inbox is full. */
  function Deliver(h: Hash, b: Bus, m: Header, slice: Option<Slice>): (Bus, Result<(), Error>)
    requires m.receiver in b.inboxes
  {
    var q := b.inboxes[m.receiver];
    if |q| >= Queue.CAPACITY then (Rejected(h, b, m, QueueFull), Err(ReceiverQueueFull))
    else
      var c := Logged(h, b.(inboxes := b.inboxes[m.receiver := q + [Envelope(m, slice)]]), m, MessageSent);
      (c.(sent := b.sent + 1), Ok(()))
  }

  function Send(h: Hash, b: Bus, m: Header, payload: Option<seq<Byte>>): (Bus, Result<(), Error>)
    requires ArenaOk(b.arena)
  {
    var screened := Screen(b, m, payload);
    if screened.Err? then (Rejected(h, b, m, MessageRejected), Err(screened.error))
    else
      var checked := CheckSequence(b.last, m.sender, m.sequence);
      if checked.Err? then (Rejected(h, b, m, SequenceViolation), Err(checked.error))
      else
        var counted := b.(last := b.last[m.sender := m.sequence]);
        var (stored, slice) := Store(counted, screened.value);
        if slice == None then (Rejected(h, stored, m, MessageRejected), Err(ArenaFull))
        else Deliver(h, stored, m, slice.value)
  }

  /** The arena is allocated anew. */
  function Init(b: Bus): Bus { b.(arena := Arena(Blank(), 0), ready := true) }

  function Receive(b: Bus, p: Pid): (Bus, Option<Envelope>)
  {
    if p !in b.inboxes || b.inboxes[p] == [] then (b, None)
    else (b.(inboxes := b.inboxes[p := b.inboxes[p][1..]]), Some(b.inboxes[p][0]))
  }

  function Register(b: Bus, p: Pid): (Bus, Result<(), Error>)
  {
    if p == 0 then (b, Err(InvalidSender))
    else if p in b.inboxes then (b, Err(ProcessAlreadyRegistered))
    else if |b.inboxes| >= MAX_PROCESSES then (b, Err(ProcessLimitReached))
    else (b.(inboxes := b.inboxes[p := []]), Ok(()))
  }

  function Unregister(b: Bus, p: Pid): (Bus, Result<(), Error>)
  {
    if p !in b.inboxes then (b, Err(ReceiverNotRegistered))
    else (b.(inboxes := b.inboxes - {p}, last := b.last - {p}), Ok(()))
  }

  // ----- runs, with what has happened so far

  /** Per process since it was registered: what was pushed to it, what it has received, and which of its own numbers
      were accepted; and over the whole run, how many messages were received or dropped with their inbox. */
  datatype History = History(pushed: map<Pid, seq<Envelope>>, popped: map<Pid, seq<Envelope>>,
                             accepted: map<Pid, seq<nat>>, received: nat, dropped: nat)

  datatype Op =
    | OpRegister(pid: Pid)
    | OpUnregister(pid: Pid)
    | OpSend(header: Header, payload: Option<seq<Byte>>)
    | OpReceive(pid: Pid)
    | OpPolicy(header: Header)
    | OpTick
    | OpInit

  ghost function Apply(h: Hash, b: Bus, op: Op): Bus
    requires ArenaOk(b.arena)
  {
    match op
    case OpRegister(p) => Register(b, p).0
    case OpUnregister(p) => Unregister(b, p).0
    case OpSend(m, payload) => Send(h, b, m, payload).0
    case OpReceive(p) => Receive(b, p).0
    case OpPolicy(m) => Rejected(h, b, m, PolicyViolation)
    case OpTick => b.(tick := b.tick + 1)
    case OpInit => Init(b)
  }

  /** Whether a send gets as far as having its number accepted. */
  ghost predicate Counts(b: Bus, m: Header, payload: Option<seq<Byte>>)
  {
    Screen(b, m, payload).Ok? && CheckSequence(b.last, m.sender, m.sequence).Ok?
  }

  ghost function Extend<T>(m: map<Pid, seq<T>>, p: Pid, x: T): map<Pid, seq<T>>
  {
    m[p := (if p in m then m[p] else []) + [x]]
  }

  ghost function Note(h: Hash, b: Bus, t: History, op: Op): History
    requires ArenaOk(b.arena)
  {
    match op
    case OpRegister(p) =>
      if Register(b, p).1.Ok? then t.(pushed := t.pushed[p := []], popped := t.popped[p := []]) else t
    case OpUnregister(p) =>
      if p !in b.inboxes then t
      else t.(pushed := t.pushed - {p}, popped := t.popped - {p}, accepted := t.accepted - {p},
              dropped := t.dropped + |b.inboxes[p]|)
    case OpSend(m, payload) =>
      var u := if Counts(b, m, payload) then t.(accepted := Extend(t.accepted, m.sender, m.sequence)) else t;
      var r := Send(h, b, m, payload);
      if r.1.Ok? && m.receiver in r.0.inboxes && r.0.inboxes[m.receiver] != []
      then u.(pushed := Extend(t.pushed, m.receiver, r.0.inboxes[m.receiver][|r.0.inboxes[m.receiver]| - 1]))
      else u
    case OpReceive(p) =>
      var r := Receive(b, p).1;
      if r.Some? then t.(popped := Extend(t.popped, p, r.value), received := t.received + 1) else t
    case OpPolicy(_) => t
    case OpTick => t
    case OpInit => t
  }

  // ----- the invariant

  /** Total length of all inboxes. */
  ghost function Pending(m: map<Pid, seq<Envelope>>): nat
    decreases |m|
  {
    if forall p :: p !in m then 0
    else
      var p :| p in m;
      RemoveSmaller(m, p);
      |m[p]| + Pending(m - {p})
  }

  lemma RemoveSmaller(m: map<Pid, seq<Envelope>>, p: Pid)
    requires p in m
    ensures |m - {p}| == |m| - 1
  {
    assert (m - {p}).Keys == m.Keys - {p};
  }

  /** The total does not depend on the order of counting. */
  lemma {:induction false} PendingSplit(m: map<Pid, seq<Envelope>>, p: Pid)
    requires p in m
    ensures Pending(m) == |m[p]| + Pending(m - {p})
    decreases |m|
  {
    var q :| q in m && Pending(m) == |m[q]| + Pending(m - {q});
    if q != p {
      RemoveSmaller(m, q);
      PendingSplit(m - {q}, p);
      assert (m - {p}) - {q} == (m - {q}) - {p};
      RemoveSmaller(m, p);
      PendingSplit(m - {p}, q);
    }
  }

  lemma PendingUpdate(m: map<Pid, seq<Envelope>>, p: Pid, q: seq<Envelope>)
    ensures Pending(m[p := q]) + (if p in m then |m[p]| else 0) == Pending(m) + |q|
  {
    PendingSplit(m[p := q], p);
    if p in m {
      PendingSplit(m, p);
      assert m[p := q] - {p} == m - {p};
    } else {
      assert m[p := q] - {p} == m;
    }
  }

  /** The numbers 1, 2, ..., n. */
  ghost function UpTo(n: nat): seq<nat> { seq(n, i requires 0 <= i < n => i + 1) }

  /** Every inbox holds what was pushed and not yet received, in that order. */
  ghost predicate Queues(b: Bus, t: History)
  {
    && t.pushed.Keys == b.inboxes.Keys && t.popped.Keys == b.inboxes.Keys
    && (forall p {:trigger b.inboxes[p]} :: p in b.inboxes ==>
          t.pushed[p] == t.popped[p] + b.inboxes[p] && |b.inboxes[p]| <= Queue.CAPACITY)
  }

  /** The accepted numbers of each sender are 1, 2, 3, ... without a gap. */
  ghost predicate Numbers(b: Bus, t: History)
  {
    && t.accepted.Keys == b.last.Keys && b.last.Keys <= b.inboxes.Keys
    && (forall p {:trigger b.last[p]} :: p in b.last ==> t.accepted[p] == UpTo(b.last[p]))
  }

  ghost predicate Counters(h: Hash, b: Bus, t: History)
  {
    && b.sent == t.received + Pending(b.inboxes) + t.dropped
    && b.sent + b.rejected == |b.log| && ChainOk(h, b.log)
  }

  ghost predicate Inv(h: Hash, b: Bus, t: History)
  {
    ArenaOk(b.arena) && Queues(b, t) && Numbers(b, t) && Counters(h, b, t)
  }

  // ----- every operation keeps it

  lemma {:induction false} LoggedKeeps(h: Hash, b: Bus, m: Header, a: Action)
    requires ChainOk(h, b.log)
    ensures ChainOk(h, Logged(h, b, m, a).log) && |Logged(h, b, m, a).log| == |b.log| + 1
  {
    AppendKeepsChain(h, b.log, b.tick, m.sender, a, m.receiver, m.msgType, m.capability, m.sequence);
  }

  lemma RejectedKeeps(h: Hash, b: Bus, t: History, m: Header, a: Action)
    requires Inv(h, b, t)
    ensures Inv(h, Rejected(h, b, m, a), t)
  {
    LoggedKeeps(h, b, m, a);
  }

  lemma RegisterKeeps(h: Hash, b: Bus, t: History, p: Pid)
    requires Inv(h, b, t)
    ensures Inv(h, Register(b, p).0, Note(h, b, t, OpRegister(p)))
  {
    if Register(b, p).1.Ok? {
      PendingUpdate(b.inboxes, p, []);
    }
  }

  lemma UnregisterKeeps(h: Hash, b: Bus, t: History, p: Pid)
    requires Inv(h, b, t)
    ensures Inv(h, Unregister(b, p).0, Note(h, b, t, OpUnregister(p)))
  {
    if p in b.inboxes {
      PendingSplit(b.inboxes, p);
    }
  }

  lemma ReceiveKeeps(h: Hash, b: Bus, t: History, p: Pid)
    requires Inv(h, b, t)
    ensures Inv(h, Receive(b, p).0, Note(h, b, t, OpReceive(p)))
  {
    if Receive(b, p).1.Some? {
      var q := b.inboxes[p];
      PendingUpdate(b.inboxes, p, q[1..]);
      assert t.pushed[p] == t.popped[p] + q && q == [q[0]] + q[1..];
      assert t.popped[p] + q == (t.popped[p] + [q[0]]) + q[1..];
    }
  }

  /** An accepted number is recorded, whatever becomes of the message. */
  lemma CountKeeps(h: Hash, b: Bus, t: History, p: Pid, n: nat)
    requires Inv(h, b, t) && p in b.inboxes && CheckSequence(b.last, p, n).Ok?
    ensures Inv(h, b.(last := b.last[p := n]), t.(accepted := Extend(t.accepted, p, n)))
  {
    if p !in b.last {
      assert [] + [1] == UpTo(1);
    }
  }

  lemma DeliverKeeps(h: Hash, b: Bus, t: History, m: Header, slice: Option<Slice>)
    requires Inv(h, b, t) && m.receiver in b.inboxes
    ensures var r := Deliver(h, b, m, slice);
      Inv(h, r.0, if r.1.Ok? then t.(pushed := Extend(t.pushed, m.receiver, Envelope(m, slice))) else t)
  {
    var q := b.inboxes[m.receiver];
    if |q| >= Queue.CAPACITY {
      RejectedKeeps(h, b, t, m, QueueFull);
    } else {
      var e := Envelope(m, slice);
      LoggedKeeps(h, b.(inboxes := b.inboxes[m.receiver := q + [e]]), m, MessageSent);
      PendingUpdate(b.inboxes, m.receiver, q + [e]);
      assert t.pushed[m.receiver] + [e] == t.popped[m.receiver] + (q + [e]);
    }
  }

  /** The bus once the number of a message has been accepted and its payload stored. */
  ghost function Prepared(b: Bus, m: Header, data: Option<seq<Byte>>): (Bus, Option<Option<Slice>>)
    requires ArenaOk(b.arena)
  {
    Store(b.(last := b.last[m.sender := m.sequence]), data)
  }

  lemma AcceptedKeeps(h: Hash, b: Bus, t: History, m: Header, data: Option<seq<Byte>>)
    requires Inv(h, b, t) && m.sender in b.inboxes && m.receiver in b.inboxes
    requires CheckSequence(b.last, m.sender, m.sequence).Ok?
    ensures var u := t.(accepted := Extend(t.accepted, m.sender, m.sequence));
      var (c, slice) := Prepared(b, m, data);
      && ArenaOk(c.arena) && c.inboxes == b.inboxes
      && (slice == None ==> Inv(h, Rejected(h, c, m, MessageRejected), u))
      && (slice.Some? ==>
            var r := Deliver(h, c, m, slice.value);
            Inv(h, r.0, if r.1.Ok? then u.(pushed := Extend(u.pushed, m.receiver, Envelope(m, slice.value))) else u))
  {
    var u := t.(accepted := Extend(t.accepted, m.sender, m.sequence));
    CountKeeps(h, b, t, m.sender, m.sequence);
    var (c, slice) := Prepared(b, m, data);
    if slice == None {
      RejectedKeeps(h, c, u, m, MessageRejected);
    } else {
      DeliverKeeps(h, c, u, m, slice.value);
    }
  }

  lemma SendKeeps(h: Hash, b: Bus, t: History, m: Header, payload: Option<seq<Byte>>)
    requires Inv(h, b, t)
    ensures Inv(h, Send(h, b, m, payload).0, Note(h, b, t, OpSend(m, payload)))
  {
    var screened := Screen(b, m, payload);
    if screened.Err? {
      RejectedKeeps(h, b, t, m, MessageRejected);
    } else if CheckSequence(b.last, m.sender, m.sequence).Err? {
      RejectedKeeps(h, b, t, m, SequenceViolation);
    } else {
      AcceptedKeeps(h, b, t, m, screened.value);
    }
  }

  lemma ApplyKeeps(h: Hash, b: Bus, t: History, op: Op)
    requires Inv(h, b, t)
    ensures Inv(h, Apply(h, b, op), Note(h, b, t, op))
  {
    match op
    case OpRegister(p) => RegisterKeeps(h, b, t, p);
    case OpUnregister(p) => UnregisterKeeps(h, b, t, p);
    case OpSend(m, payload) => SendKeeps(h, b, t, m, payload);
    case OpReceive(p) => ReceiveKeeps(h, b, t, p);
    case OpPolicy(m) => RejectedKeeps(h, b, t, m, PolicyViolation);
    case OpTick =>
    case OpInit =>
  }

  function Start(bytes: seq<Byte>, ready: bool): Bus
  {
    Bus(map[], map[], Arena(bytes, 0), ready, [], 0, 0, 0)
  }

  ghost function Run(h: Hash, bytes: seq<Byte>, ready: bool, ops: seq<Op>): (r: (Bus, History))
    requires |bytes| == BusArena.CAPACITY
    ensures Inv(h, r.0, r.1)
    decreases |ops|
  {
    if ops == [] then (Start(bytes, ready), History(map[], map[], map[], 0, 0))
    else
      var (b, t) := Run(h, bytes, ready, ops[..|ops| - 1]);
      ApplyKeeps(h, b, t, ops[|ops| - 1]);
      (Apply(h, b, ops[|ops| - 1]), Note(h, b, t, ops[|ops| - 1]))
  }

  /** In every run: each process has received, and will receive, its messages in the order they were pushed; the
      accepted numbers of each sender are 1, 2, 3, ...; sent messages are received, pending or dropped; and the log
      has one entry for each message sent or rejected, chained. */
  lemma EveryRun(h: Hash, bytes: seq<Byte>, ready: bool, ops: seq<Op>, p: Pid)
    requires |bytes| == BusArena.CAPACITY
    ensures var (b, t) := Run(h, bytes, ready, ops);
      && (p in b.inboxes ==> p in t.pushed && p in t.popped && t.popped[p] <= t.pushed[p]
                             && t.pushed[p][|t.popped[p]|..] == b.inboxes[p])
      && (p in t.accepted ==>
            p in b.last && t.accepted[p] == UpTo(b.last[p]) && Expected(b.last, p) == |t.accepted[p]| + 1)
      && b.sent == t.received + Pending(b.inboxes) + t.dropped
      && b.sent + b.rejected == |b.log| && ChainOk(h, b.log)
  {
    var (b, t) := Run(h, bytes, ready, ops);
    assert Queues(b, t) && Numbers(b, t);
    if p in b.inboxes {
      assert t.pushed[p] == t.popped[p] + b.inboxes[p];
    }
  }

  /** A message to a full inbox is refused, and still uses up its number. */
  lemma FullInboxUsesNumber(h: Hash, b: Bus, m: Header, payload: Option<seq<Byte>>)
    requires ArenaOk(b.arena) && Counts(b, m, payload) && |b.inboxes[m.receiver]| >= Queue.CAPACITY
    ensures var (r, result) := Send(h, b, m, payload);
      && result == Err(if Screen(b, m, payload).value.Some? && !b.ready then ArenaFull else ReceiverQueueFull)
      && r.inboxes == b.inboxes && Expected(r.last, m.sender) == m.sequence + 1
  {
    if Screen(b, m, payload).value.Some? {
      PlaceOk(b.arena, payload.value);
    }
  }
}
