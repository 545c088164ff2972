/** The bus router as the kernel keeps it: inboxes, sequence numbers, arena, audit log and counters updated in place. */
module BusRouter {
  import opened Wrappers
  import opened BusArena
  import opened BusAudit
  import opened Model = BusModel
  import Queue = BusQueue

  class Router {
    var inboxes: map<Pid, seq<Envelope>>
    var last: map<Pid, nat>
    const arena: PayloadArena
    var ready: bool
    const audit: AuditLog
    var tick: nat
    var sent: nat
    var rejected: nat

    ghost predicate Valid()
      reads this, arena, audit, audit.slots
    {
      arena.Valid() && audit.Valid()
    }

    ghost function Abs(): Bus
      requires Valid()
      reads this, arena, arena.buffer, audit, audit.slots
    {
      Bus(inboxes, last, arena.Abs(), ready, audit.history, tick, sent, rejected)
    }

    constructor (hash: Hash)
      ensures Valid() && audit.hash == hash && !ready && Abs() == Start(arena.buffer[..], false)
    {
      arena := new PayloadArena();
      audit := new AuditLog(hash);
      inboxes, last, ready, tick, sent, rejected := map[], map[], false, 0, 0, 0;
    }

    method Init()
      requires Valid()
      modifies this`ready, arena`cursor, arena.buffer
      ensures Valid() && Abs() == Model.Init(old(Abs()))
    {
      arena.Init();
      ready := true;
    }

    method RegisterProcess(p: Pid) returns (r: Result<(), Error>)
      requires Valid()
      modifies this`inboxes
      ensures Valid() && (Abs(), r) == Register(old(Abs()), p)
    {
      if p == 0 {
        return Err(InvalidSender);
      }
      if p in inboxes {
        return Err(ProcessAlreadyRegistered);
      }
      if |inboxes| >= MAX_PROCESSES {
        return Err(ProcessLimitReached);
      }
      inboxes := inboxes[p := []];
      return Ok(());
    }

    method UnregisterProcess(p: Pid) returns (r: Result<(), Error>)
      requires Valid()
      modifies this`inboxes, this`last
      ensures Valid() && (Abs(), r) == Unregister(old(Abs()), p)
    {
      if p !in inboxes {
        return Err(ReceiverNotRegistered);
      }
      inboxes := inboxes - {p};
      last := last - {p};
      return Ok(());
    }

    method Log(m: Header, a: Action)
      requires Valid()
      modifies audit, audit.slots
      ensures Valid() && Abs() == Logged(audit.hash, old(Abs()), m, a)
    {
      audit.Record(tick, m.sender, a, m.receiver, m.msgType, m.capability, m.sequence);
    }

    method Reject(m: Header, a: Action)
      requires Valid()
      modifies this`rejected, audit, audit.slots
      ensures Valid() && Abs() == Model.Rejected(audit.hash, old(Abs()), m, a)
    {
      Log(m, a);
      rejected := rejected + 1;
    }

    /** The checks on version, registration and payload, in order. */
    method Check(m: Header, payload: Option<seq<Byte>>) returns (r: Result<Option<seq<Byte>>, Error>)
      requires Valid()
      ensures r == Screen(Abs(), m, payload)
    {
      if m.version != VERSION {
        return Err(InvalidVersion);
      }
      if m.sender == 0 {
        return Err(InvalidSender);
      }
      if m.sender !in inboxes {
        return Err(SenderNotRegistered);
      }
      if m.receiver !in inboxes {
        return Err(ReceiverNotRegistered);
      }
      if m.sender == m.receiver {
        return Err(SelfSendDenied);
      }
      if m.payloadLen == 0 && (payload == None || payload == Some([])) {
        return Ok(None);
      }
      if payload.Some? && m.payloadLen == |payload.value| {
        if |payload.value| > MAX_PAYLOAD {
          return Err(PayloadTooLarge);
        }
        return Ok(payload);
      }
      return Err(PayloadLengthMismatch);
    }

    /** Accepts the next number of a sender, and no other. */
    method AcceptSequence(p: Pid, n: nat) returns (r: Result<(), Error>)
      requires Valid()
      modifies this`last
      ensures Valid() && r == CheckSequence(old(last), p, n)
      ensures Abs() == if r.Ok? then old(Abs()).(last := old(last)[p := n]) else old(Abs())
    {
      var expected := if p in last then last[p] + 1 else 1;
      if n == expected {
        last := last[p := n];
        return Ok(());
      }
      if n <= (if p in last then last[p] else 0) {
        return Err(SequenceReplay);
      }
      return Err(SequenceGap(expected, n));
    }

    method StorePayload(data: Option<seq<Byte>>) returns (r: Option<Option<Slice>>)
      requires Valid()
      modifies arena`cursor, arena.buffer
      ensures Valid() && (Abs(), r) == Store(old(Abs()), data)
    {
      if data == None {
        return Some(None);
      }
      if !ready {
        return None;
      }
      var s := arena.Allocate(data.value);
      return if s.Some? then Some(s) else None;
    }

    method Push(m: Header, slice: Option<Slice>) returns (r: Result<(), Error>)
      requires Valid() && m.receiver in inboxes
      modifies this`inboxes, this`sent, this`rejected, audit, audit.slots
      ensures Valid() && (Abs(), r) == Deliver(audit.hash, old(Abs()), m, slice)
    {
      var q := inboxes[m.receiver];
      if |q| >= Queue.CAPACITY {
        Reject(m, QueueFull);
        return Err(ReceiverQueueFull);
      }
      inboxes := inboxes[m.receiver := q + [Envelope(m, slice)]];
      Log(m, MessageSent);
      sent := sent + 1;
      return Ok(());
    }

    method Send(m: Header, payload: Option<seq<Byte>>) returns (r: Result<(), Error>)
      requires Valid()
      modifies this`inboxes, this`last, this`sent, this`rejected, arena`cursor, arena.buffer, audit, audit.slots
      ensures Valid() && (Abs(), r) == Model.Send(audit.hash, old(Abs()), m, payload)
    {
      var screened := Check(m, payload);
      if screened.Err? {
        Reject(m, MessageRejected);
        return Err(screened.error);
      }
      var checked := AcceptSequence(m.sender, m.sequence);
      if checked.Err? {
        Reject(m, SequenceViolation);
        return Err(checked.error);
      }
      var slice := StorePayload(screened.value);
      if slice == None {
        Reject(m, MessageRejected);
        return Err(ArenaFull);
      }
      r := Push(m, slice.value);
    }

    method Receive(p: Pid) returns (r: Option<Envelope>)
      requires Valid()
      modifies this`inboxes
      ensures Valid() && (Abs(), r) == Model.Receive(old(Abs()), p)
    {
      if p !in inboxes || inboxes[p] == [] {
        return None;
      }
      r := Some(inboxes[p][0]);
      inboxes := inboxes[p := inboxes[p][1..]];
    }

    /** Without tampering the audit log always checks out, with as many entries as the ring holds. */
    method VerifyAuditChain() returns (verified: nat, ok: bool)
      requires Valid()
      ensures ok && verified == Least(|Abs().log|, BusAudit.CAPACITY)
    {
      audit.Untampered();
      verified, ok := audit.VerifyChain();
    }

    /** Any operation, on any state the invariant describes; t is what has happened so far. */
    method Perform(op: Op, ghost t: History)
      requires Valid() && Inv(audit.hash, Abs(), t)
      modifies this, arena, arena.buffer, audit, audit.slots
      ensures Valid() && Abs() == Apply(audit.hash, old(Abs()), op)
      ensures Inv(audit.hash, Abs(), Note(audit.hash, old(Abs()), t, op))
    {
      ApplyKeeps(audit.hash, Abs(), t, op);
      match op
      case OpRegister(p) => var _ := RegisterProcess(p);
      case OpUnregister(p) => var _ := UnregisterProcess(p);
      case OpSend(m, payload) => var _ := Send(m, payload);
      case OpReceive(p) => var _ := Receive(p);
      case OpPolicy(m) => Reject(m, PolicyViolation);
      case OpTick => tick := tick + 1;
      case OpInit => Init();
    }
  }
}
