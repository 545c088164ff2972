/** What the bus answers to each call and what it writes down about it, on the fields of the message; and what every
    message in an inbox looks like, over every run. */
module BusAnswers {
  import opened Wrappers
  import opened BusArena
  import opened BusAudit
  import opened BusModel

  // ----- sending

  function Length(payload: Option<seq<Byte>>): nat { if payload == None then 0 else |payload.value| }

  /** How many numbers of a sender have been accepted since it was registered. */
  ghost function AcceptedFrom(t: History, p: Pid): nat { if p in t.accepted then |t.accepted[p]| else 0 }

  /** What is wrong with a message whatever its number: version, ends and length, in the order of the checks. */
  function Malformed(b: Bus, m: Header, payload: Option<seq<Byte>>): Option<Error>
  {
    if m.version != 1 then Some(InvalidVersion)
    else if m.sender == 0 then Some(InvalidSender)
    else if m.sender !in b.inboxes then Some(SenderNotRegistered)
    else if m.receiver !in b.inboxes then Some(ReceiverNotRegistered)
    else if m.sender == m.receiver then Some(SelfSendDenied)
    else if m.payloadLen != Length(payload) then Some(PayloadLengthMismatch)
    else if m.payloadLen > 4096 then Some(PayloadTooLarge)
    else None
  }

  /** The answer to a send. */
  ghost function Answer(b: Bus, t: History, m: Header, payload: Option<seq<Byte>>): Result<(), Error>
  {
    var next := AcceptedFrom(t, m.sender) + 1;
    if Malformed(b, m, payload).Some? then Err(Malformed(b, m, payload).value)
    else if m.sequence < next then Err(SequenceReplay)
    else if m.sequence > next then Err(SequenceGap(next, m.sequence))
    else if Length(payload) > 0 && !b.ready then Err(ArenaFull)
    else if m.receiver in b.inboxes && |b.inboxes[m.receiver]| >= 32 then Err(ReceiverQueueFull)
    else Ok(())
  }

  lemma ScreenIs(b: Bus, m: Header, payload: Option<seq<Byte>>)
    ensures match Malformed(b, m, payload)
      case Some(e) => Screen(b, m, payload) == Err(e)
      case None => Screen(b, m, payload) == Ok(if Length(payload) == 0 then None else payload)
  {
  }

  lemma NextNumber(h: Hash, b: Bus, t: History, p: Pid)
    requires Inv(h, b, t)
    ensures Expected(b.last, p) == AcceptedFrom(t, p) + 1
  {
  }

  lemma StoreIs(b: Bus, data: Option<seq<Byte>>)
    requires ArenaOk(b.arena) && (data.Some? ==> 0 < |data.value| <= 4096)
    ensures Store(b, data).1 == None <==> data.Some? && !b.ready
  {
    if data.Some? {
      PlaceOk(b.arena, data.value);
    }
  }

  /** A message is accepted exactly when: its version is 1; its sender is not the kernel; sender and receiver are
      registered and different; its length is that of its payload, at most 4096; its number is one more than the
      numbers accepted from that sender; it carries nothing or there is an arena; and fewer than 32 messages are
      pending for the receiver. Each error has its own condition, in the order of the checks. */
  lemma SendAnswer(h: Hash, b: Bus, t: History, m: Header, payload: Option<seq<Byte>>)
    requires Inv(h, b, t)
    ensures Send(h, b, m, payload).1 == Answer(b, t, m, payload)
  {
    ScreenIs(b, m, payload);
    NextNumber(h, b, t, m.sender);
    if Malformed(b, m, payload) == None {
      StoreIs(b.(last := b.last[m.sender := m.sequence]), if Length(payload) == 0 then None else payload);
    }
  }

  /** A refused message leaves all inboxes as they were; an accepted one is the last in the receiver's and in no
      other. */
  lemma SendDelivers(h: Hash, b: Bus, m: Header, payload: Option<seq<Byte>>)
    requires ArenaOk(b.arena)
    ensures var (r, answer) := Send(h, b, m, payload);
      && (answer.Err? ==> r.inboxes == b.inboxes && r.rejected == b.rejected + 1 && r.sent == b.sent)
      && (answer.Ok? ==>
            && m.receiver in b.inboxes && m.receiver in r.inboxes && r.sent == b.sent + 1 && r.rejected == b.rejected
            && r.inboxes[m.receiver] != []
            && var e := r.inboxes[m.receiver][|r.inboxes[m.receiver]| - 1];
              && e.header == m && (e.payload.Some? <==> Length(payload) > 0)
              && r.inboxes == b.inboxes[m.receiver := b.inboxes[m.receiver] + [e]])
  {
    ScreenIs(b, m, payload);
    if Malformed(b, m, payload) == None && Length(payload) > 0 {
      PlaceOk(b.arena, payload.value);
    }
  }

  // ----- the log

  function ActionFor(answer: Result<(), Error>): Action
  {
    match answer
    case Ok(_) => MessageSent
    case Err(e) =>
      if e == SequenceReplay || e.SequenceGap? then SequenceViolation
      else if e == ReceiverQueueFull then QueueFull
      else MessageRejected
  }

  ghost predicate Names(e: Entry, m: Header, a: Action, number: nat, time: nat)
  {
    && e.fact.actor == m.sender && e.fact.target == m.receiver && e.fact.msgType == m.msgType
    && e.fact.capability == m.capability && e.fact.msgSequence == m.sequence && e.fact.action == a
    && e.fact.number == number && e.fact.time == time
  }

  lemma LoggedNames(h: Hash, b: Bus, m: Header, a: Action)
    ensures var r := Logged(h, b, m, a).log;
      && |r| == |b.log| + 1 && r[..|b.log|] == b.log && Names(r[|b.log|], m, a, |b.log|, b.tick)
      && r[|b.log|].hash == h(r[|b.log|].fact) && (b.log != [] ==> r[|b.log|].fact.prev == b.log[|b.log| - 1].hash)
  {
  }

  /** Every send adds one entry to the log, which names the message's own ends, type, capability and number, the time,
      and the action that matches the answer. */
  lemma SendIsLogged(h: Hash, b: Bus, m: Header, payload: Option<seq<Byte>>)
    requires ArenaOk(b.arena)
    ensures var (r, answer) := Send(h, b, m, payload);
      && |r.log| == |b.log| + 1 && r.log[..|b.log|] == b.log
      && Names(r.log[|b.log|], m, ActionFor(answer), |b.log|, b.tick)
  {
    LoggedNames(h, b, m, ActionFor(Send(h, b, m, payload).1));
    SendLogs(h, b, m, payload);
  }

  lemma SendLogs(h: Hash, b: Bus, m: Header, payload: Option<seq<Byte>>)
    requires ArenaOk(b.arena)
    ensures var (r, answer) := Send(h, b, m, payload); r.log == Logged(h, b, m, ActionFor(answer)).log
  {
    ScreenIs(b, m, payload);
  }

  // ----- the other calls

  /** A process is registered with an empty inbox unless it is the kernel, is registered, or 64 are. */
  lemma RegisterAnswer(b: Bus, p: Pid)
    ensures var (r, answer) := Register(b, p);
      if p == 0 then answer == Err(InvalidSender) && r == b
      else if p in b.inboxes then answer == Err(ProcessAlreadyRegistered) && r == b
      else if |b.inboxes| >= 64 then answer == Err(ProcessLimitReached) && r == b
      else answer == Ok(()) && r == b.(inboxes := b.inboxes[p := []])
  {
  }

  /** A process that leaves takes its inbox and its numbers with it, and nothing of any other process. */
  lemma UnregisterAnswer(b: Bus, p: Pid, x: Pid)
    ensures var (r, answer) := Unregister(b, p);
      if p !in b.inboxes then answer == Err(ReceiverNotRegistered) && r == b
      else
        && answer == Ok(()) && r == b.(inboxes := r.inboxes, last := r.last) && p !in r.inboxes && p !in r.last
        && (x != p ==> (x in r.inboxes <==> x in b.inboxes) && (x in r.last <==> x in b.last))
        && (x in r.inboxes ==> r.inboxes[x] == b.inboxes[x]) && (x in r.last ==> r.last[x] == b.last[x])
  {
  }

  /** A receiver gets its oldest message, and nobody else's inbox changes. */
  lemma ReceiveAnswer(b: Bus, p: Pid)
    ensures var (r, answer) := Receive(b, p);
      if p !in b.inboxes || b.inboxes[p] == [] then answer == None && r == b
      else
        && answer.Some? && p in r.inboxes && b.inboxes[p] == [answer.value] + r.inboxes[p]
        && r == b.(inboxes := b.inboxes[p := r.inboxes[p]])
  {
    if p in b.inboxes && b.inboxes[p] != [] {
      assert b.inboxes[p] == [b.inboxes[p][0]] + b.inboxes[p][1..];
    }
  }

  // ----- runs

  /** A message as it must look in the inbox of p. */
  predicate Proper(p: Pid, e: Envelope)
  {
    && e.header.version == 1 && e.header.sender != 0 && e.header.receiver == p && e.header.sender != p
    && e.header.payloadLen <= 4096 && (e.payload.Some? <==> e.header.payloadLen > 0)
  }

  ghost predicate AllProper(t: History)
  {
    forall p, i {:trigger t.pushed[p][i]} :: p in t.pushed && 0 <= i < |t.pushed[p]| ==> Proper(p, t.pushed[p][i])
  }

  lemma SendKeepsProper(h: Hash, b: Bus, t: History, m: Header, payload: Option<seq<Byte>>)
    requires Inv(h, b, t) && AllProper(t)
    ensures AllProper(Note(h, b, t, OpSend(m, payload)))
  {
    SendAnswer(h, b, t, m, payload);
    SendDelivers(h, b, m, payload);
    var (r, answer) := Send(h, b, m, payload);
    if answer.Ok? {
      var e := r.inboxes[m.receiver][|r.inboxes[m.receiver]| - 1];
      assert Proper(m.receiver, e);
      assert m.receiver in t.pushed;
      PushedProper(t.pushed, m.receiver, e);
    }
  }

  lemma PushedProper(m: map<Pid, seq<Envelope>>, p: Pid, e: Envelope)
    requires Proper(p, e)
    requires forall q, i {:trigger m[q][i]} :: q in m && 0 <= i < |m[q]| ==> Proper(q, m[q][i])
    ensures var n := Extend(m, p, e);
      forall q, i {:trigger n[q][i]} :: q in n && 0 <= i < |n[q]| ==> Proper(q, n[q][i])
  {
  }

  lemma NoteKeepsProper(h: Hash, b: Bus, t: History, op: Op)
    requires Inv(h, b, t) && AllProper(t)
    ensures AllProper(Note(h, b, t, op))
  {
    if op.OpSend? {
      SendKeepsProper(h, b, t, op.header, op.payload);
    }
  }

  lemma {:induction false} EveryRunProper(h: Hash, bytes: seq<Byte>, ready: bool, ops: seq<Op>)
    requires |bytes| == BusArena.CAPACITY
    ensures AllProper(Run(h, bytes, ready, ops).1)
    decreases |ops|
  {
    if ops != [] {
      var init := ops[..|ops| - 1];
      EveryRunProper(h, bytes, ready, init);
      var (b, t) := Run(h, bytes, ready, init);
      NoteKeepsProper(h, b, t, ops[|ops| - 1]);
    }
  }

  /** In every run: each message that is pending for p, or that p has received since it was registered, is addressed
      to p by another process that is not the kernel, and carries at most 4096 bytes. */
  lemma EveryMessageProper(h: Hash, bytes: seq<Byte>, ready: bool, ops: seq<Op>, p: Pid, i: nat)
    requires |bytes| == BusArena.CAPACITY && p in Run(h, bytes, ready, ops).0.inboxes
    ensures var (b, t) := Run(h, bytes, ready, ops);
      && p in t.popped
      && (i < |b.inboxes[p]| ==> Proper(p, b.inboxes[p][i]))
      && (i < |t.popped[p]| ==> Proper(p, t.popped[p][i]))
  {
    EveryRunProper(h, bytes, ready, ops);
    var (b, t) := Run(h, bytes, ready, ops);
    assert t.pushed[p] == t.popped[p] + b.inboxes[p];
    if i < |b.inboxes[p]| {
      assert b.inboxes[p][i] == t.pushed[p][|t.popped[p]| + i];
    }
    if i < |t.popped[p]| {
      assert t.popped[p][i] == t.pushed[p][i];
    }
  }
}
