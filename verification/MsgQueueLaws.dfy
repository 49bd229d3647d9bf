/**
 Laws of the message queues over every run of calls: accounting, per-type FIFO order, the keyed
 list as a map, and invisibility of refused calls.
 */
module MsgQueueLaws {
  import opened Common
  import opened MsgQueue

  // ---------------------------------------------------------------- accounting

  /** The bytes that these messages occupy. */
  function Volume(msgs: seq<Message>): nat {
    if msgs == [] then 0 else Volume(Front(msgs)) + |Last(msgs).text|
  }

  /** The counters of a queue tell the truth, and the bounds hold. */
  predicate Accounted(q: Queue) {
    q.size == |q.msgs| <= MAXMSG && q.vol == Volume(q.msgs) <= MAXVOL
  }

  predicate AllAccounted(sys: System) { forall q :: q in sys ==> Accounted(q) }

  lemma {:induction false} VolumeOfConcat(a: seq<Message>, b: seq<Message>)
    ensures Volume(a + b) == Volume(a) + Volume(b)
  {
    if b == [] {
      assert a + b == a;
    } else {
      assert Front(a + b) == a + Front(b);
      VolumeOfConcat(a, Front(b));
    }
  }

  /** Taking a message out takes its whole stored size out. */
  lemma VolumeOfCut(msgs: seq<Message>, i: nat)
    requires i < |msgs|
    ensures Volume(Cut(msgs, i)) == Volume(msgs) - |msgs[i].text|
  {
    CutParts(msgs, i);
    VolumeOfConcat(msgs[..i], [msgs[i]] + msgs[i + 1..]);
    VolumeOfConcat([msgs[i]], msgs[i + 1..]);
    VolumeOfConcat(msgs[..i], msgs[i + 1..]);
    assert Volume([msgs[i]]) == |msgs[i].text|;
  }

  lemma PushAccounted(q: Queue, mtype: int, text: Text)
    requires Accounted(q)
    ensures Accounted(Push(q, mtype, text).0)
  {
    VolumeOfConcat(q.msgs, [Message(q.size + 1, mtype, text)]);
    assert Volume([Message(q.size + 1, mtype, text)]) == |text|;
  }

  lemma PullAccounted(q: Queue, mtype: int, flags: Flags, len: nat)
    requires Accounted(q)
    ensures Accounted(Pull(q, mtype, flags, len).0)
  {
    var i := FindType(q.msgs, mtype);
    if i < |q.msgs| { VolumeOfCut(q.msgs, i); }
  }

  lemma ApplyAccounted(sys: System, op: Op)
    requires AllAccounted(sys)
    ensures AllAccounted(Apply(sys, op).0)
  {
    var i := FindQueue(sys, op.key);
    match op
    case Write(key, mtype, text) => if i < |sys| { PushAccounted(sys[i], mtype, text); }
    case Read(key, mtype, flags, len) => if i < |sys| { PullAccounted(sys[i], mtype, flags, len); }
    case _ =>
  }

  /** Accounting: after any run, in every queue `size` is the number of messages and at most 10,
      and `vol` the sum of their stored sizes and at most 135. */
  lemma {:induction false} RunAccounted(ops: seq<Op>)
    ensures AllAccounted(Run([], ops))
    decreases |ops|
  {
    if ops != [] {
      RunAccounted(Front(ops));
      ApplyAccounted(Run([], Front(ops)), Last(ops));
    }
  }

  /** What a write to a queue answers: FULLMSG if it holds ten messages, otherwise FULLVOL if the
      bytes would be more than 135, otherwise success; and what it leaves. */
  lemma PushAnswers(q: Queue, mtype: int, text: Text)
    requires Accounted(q)
    ensures var (q', code) := Push(q, mtype, text);
      if |q.msgs| == 10 then q' == q && code == 0xFDEF_CE04 - 0x1_0000_0000
      else if Volume(q.msgs) + |text| > 135 then q' == q && code == 0xFDEF_CE05 - 0x1_0000_0000
      else code == 0 && q'.key == q.key && q'.msgs == q.msgs + [Message(|q.msgs| + 1, mtype, text)]
  {
  }

  /** A write is accepted exactly when its queue exists and has room for one message more and for
      its bytes. */
  lemma WriteAcceptedIff(ops: seq<Op>, key: int, mtype: int, text: Text)
    ensures var sys := Run([], ops); var i := FindQueue(sys, key);
      DoWrite(sys, key, mtype, text).1.code == 0 <==>
      i < |sys| && |sys[i].msgs| < 10 && Volume(sys[i].msgs) + |text| <= 135
  {
    RunAccounted(ops);
    var sys := Run([], ops);
    var i := FindQueue(sys, key);
    if i < |sys| { assert Accounted(sys[i]); }
  }

  /** And each refusal is the answer exactly when its reason holds. */
  lemma WriteRefusedIff(ops: seq<Op>, key: int, mtype: int, text: Text)
    ensures var sys := Run([], ops); var i := FindQueue(sys, key);
      var code := DoWrite(sys, key, mtype, text).1.code;
      && (code == 0xFDEF_CE01 - 0x1_0000_0000 <==> i == |sys|)
      && (code == 0xFDEF_CE04 - 0x1_0000_0000 <==> i < |sys| && |sys[i].msgs| == 10)
      && (code == 0xFDEF_CE05 - 0x1_0000_0000 <==>
          i < |sys| && |sys[i].msgs| < 10 && Volume(sys[i].msgs) + |text| > 135)
  {
    RunAccounted(ops);
    var sys := Run([], ops);
    var i := FindQueue(sys, key);
    if i < |sys| {
      assert Accounted(sys[i]);
      PushAnswers(sys[i], mtype, text);
    }
  }

  /** The bounds, in numbers. */
  lemma BoundsHold(ops: seq<Op>, q: Queue)
    requires q in Run([], ops)
    ensures 0 <= q.size == |q.msgs| <= 10 && 0 <= q.vol == Volume(q.msgs) <= 135
  {
    RunAccounted(ops);
  }

  // ---------------------------------------------------------------- one FIFO per type

  /** The messages of one type, in order. */
  function OfType(msgs: seq<Message>, mtype: int): seq<Message> {
    if msgs == [] then []
    else OfType(Front(msgs), mtype) + if Last(msgs).mtype == mtype then [Last(msgs)] else []
  }

  lemma {:induction false} OfTypeConcat(a: seq<Message>, b: seq<Message>, mtype: int)
    ensures OfType(a + b, mtype) == OfType(a, mtype) + OfType(b, mtype)
  {
    if b == [] {
      assert a + b == a;
    } else {
      assert Front(a + b) == a + Front(b);
      OfTypeConcat(a, Front(b), mtype);
    }
  }

  lemma {:induction false} OfTypeNone(msgs: seq<Message>, mtype: int)
    ensures OfType(msgs, mtype) == [] <==> forall j :: 0 <= j < |msgs| ==> msgs[j].mtype != mtype
  {
    if msgs != [] {
      OfTypeNone(Front(msgs), mtype);
      assert forall j :: 0 <= j < |Front(msgs)| ==> Front(msgs)[j] == msgs[j];
    }
  }

  lemma OfTypeAround(msgs: seq<Message>, i: nat, mtype: int)
    requires i < |msgs|
    ensures OfType(msgs, mtype) == OfType(msgs[..i], mtype) + (OfType([msgs[i]], mtype) + OfType(msgs[i + 1..], mtype))
    ensures OfType(Cut(msgs, i), mtype) == OfType(msgs[..i], mtype) + OfType(msgs[i + 1..], mtype)
  {
    CutParts(msgs, i);
    OfTypeConcat(msgs[..i], [msgs[i]] + msgs[i + 1..], mtype);
    OfTypeConcat([msgs[i]], msgs[i + 1..], mtype);
    OfTypeConcat(msgs[..i], msgs[i + 1..], mtype);
  }

  /** Removing the first message of a type dequeues the FIFO of that type and no other. */
  lemma CutDequeues(msgs: seq<Message>, i: nat, mtype: int)
    requires i < |msgs| && i == FindType(msgs, msgs[i].mtype)
    ensures OfType(msgs, mtype) == (if mtype == msgs[i].mtype then [msgs[i]] else []) + OfType(Cut(msgs, i), mtype)
  {
    OfTypeAround(msgs, i, mtype);
    OfTypeOne(msgs[i], mtype);
    if mtype == msgs[i].mtype { NoneBefore(msgs, i); }
    Glue(OfType(msgs[..i], mtype), OfType([msgs[i]], mtype), OfType(msgs[i + 1..], mtype));
  }

  lemma Glue(a: seq<Message>, b: seq<Message>, c: seq<Message>)
    requires a == [] || b == []
    ensures a + (b + c) == b + (a + c)
  {
    assert a + (b + c) == (a + b) + c;
    assert b + (a + c) == (b + a) + c;
  }

  lemma NoneBefore(msgs: seq<Message>, i: nat)
    requires i < |msgs| && i == FindType(msgs, msgs[i].mtype)
    ensures OfType(msgs[..i], msgs[i].mtype) == []
  {
    OfTypeNone(msgs[..i], msgs[i].mtype);
  }

  lemma OfTypeOne(m: Message, mtype: int)
    ensures OfType([m], mtype) == if m.mtype == mtype then [m] else []
  {
    assert Front([m]) == [];
  }

  /** A successful read delivers the oldest message of the requested type: all of it, or with
      MSG_NOERROR its first `len` bytes; the return value is the number of bytes delivered. */
  lemma ReadDelivers(q: Queue, mtype: int, flags: Flags, len: nat)
    ensures var (q', reply) := Pull(q, mtype, flags, len);
      reply.code >= 0 ==>
        var mine := OfType(q.msgs, mtype);
        && mine != []
        && reply.code == |reply.text| == (if len < |mine[0].text| then len else |mine[0].text|)
        && reply.text == mine[0].text[..reply.code]
        && (len < |mine[0].text| ==> flags & 0x0F00_0000 != 0)
        && OfType(q'.msgs, mtype) == mine[1..]
        && forall other :: other != mtype ==> OfType(q'.msgs, other) == OfType(q.msgs, other)
  {
    var i := FindType(q.msgs, mtype);
    if Pull(q, mtype, flags, len).1.code >= 0 {
      forall other { CutDequeues(q.msgs, i, other); }
    }
  }

  /** And it is refused only for one of these reasons, in this order of precedence: NOVOL, NOMSG, and
      SHORT for a message that does not fit when the flags have none of the MSG_NOERROR bits. */
  lemma ReadRefusedIff(q: Queue, mtype: int, flags: Flags, len: nat)
    requires Accounted(q)
    ensures var (q', reply) := Pull(q, mtype, flags, len); var mine := OfType(q.msgs, mtype);
      && (reply.code == 0xFDEF_CE03 - 0x1_0000_0000 <==> q.msgs != [] && Volume(q.msgs) == 0)
      && (reply.code == 0xFDEF_CE02 - 0x1_0000_0000 <==> q.msgs == [] || (Volume(q.msgs) > 0 && mine == []))
      && (reply.code == 0xFDEF_CE06 - 0x1_0000_0000 <==>
          Volume(q.msgs) > 0 && mine != [] && len < |mine[0].text| && flags & 0x0F00_0000 == 0)
      && (reply.code >= 0 <==>
          Volume(q.msgs) > 0 && mine != [] && (len >= |mine[0].text| || flags & 0x0F00_0000 != 0))
      && (reply.code < 0 ==> q' == q && reply.text == [])
  {
    OfTypeNone(q.msgs, mtype);
    var i := FindType(q.msgs, mtype);
    if i < |q.msgs| { CutDequeues(q.msgs, i, mtype); }
  }

  /** A read of a queue that is not there is answered by NOMSQ, and no other read is. */
  lemma ReadNoQueueIff(ops: seq<Op>, key: int, mtype: int, flags: Flags, len: nat)
    ensures var sys := Run([], ops);
      DoRead(sys, key, mtype, flags, len).1.code == 0xFDEF_CE01 - 0x1_0000_0000 <==> FindQueue(sys, key) == |sys|
  {
    RunAccounted(ops);
    var sys := Run([], ops);
    var i := FindQueue(sys, key);
    if i < |sys| {
      assert Accounted(sys[i]);
      ReadRefusedIff(sys[i], mtype, flags, len);
    }
  }

  /** The flags by their bits: waiting is switched off by any bit of the highest four, truncation on
      by any of the next four. */
  lemma FlagBits(flags: Flags)
    ensures NoWait(flags) <==> flags & 0xF000_0000 != 0
    ensures NoError(flags) <==> flags & 0x0F00_0000 != 0
    ensures !NoWait(0) && !NoWait(0x0F00_0000) && NoWait(0xF000_0000) && NoWait(0x8000_0000)
    ensures !NoError(0) && NoError(0x0F00_0000) && !NoError(0xF000_0000) && NoError(0x0100_0000)
  {
  }

  // ---------------------------------------------------------------- looking queues up

  /** `ku_ipc_msq_get`: the first queue with this key. */
  function Lookup(sys: System, key: int): Option<Queue> {
    if Has(sys, key) then Some(sys[FindQueue(sys, key)]) else None
  }

  /** The first match is the one position with the key and none before it. */
  lemma FoundAt(sys: System, key: int, i: nat)
    requires i < |sys| && sys[i].key == key && forall j :: 0 <= j < i ==> sys[j].key != key
    ensures FindQueue(sys, key) == i
  {
  }

  lemma FoundNowhere(sys: System, key: int)
    requires forall j :: 0 <= j < |sys| ==> sys[j].key != key
    ensures !Has(sys, key)
  {
  }

  lemma LookupAppend(sys: System, q: Queue, key: int)
    ensures Lookup(sys + [q], key) == if Has(sys, key) then Lookup(sys, key) else if q.key == key then Some(q) else None
  {
    var i := FindQueue(sys, key);
    if i < |sys| || q.key == key { FoundAt(sys + [q], key, i); } else { FoundNowhere(sys + [q], key); }
  }

  lemma LookupUpdate(sys: System, i: nat, q: Queue, key: int)
    requires i < |sys| && q.key == sys[i].key && i == FindQueue(sys, q.key)
    ensures Lookup(sys[i := q], key) == if key == q.key then Some(q) else Lookup(sys, key)
  {
    var sys' := sys[i := q];
    var f := FindQueue(sys, key);
    assert forall j :: 0 <= j < |sys| ==> sys'[j].key == sys[j].key;
    if f < |sys| { FoundAt(sys', key, f); } else { FoundNowhere(sys', key); }
  }

  /** No two queues share a positive key. */
  predicate PositiveUnique(sys: System) {
    forall i, j :: 0 <= i < j < |sys| && sys[i].key == sys[j].key ==> sys[i].key <= 0
  }

  lemma LookupCut(sys: System, i: nat, key: int)
    requires i < |sys| && PositiveUnique(sys) && sys[i].key > 0
    ensures Lookup(Cut(sys, i), key) == if key == sys[i].key then None else Lookup(sys, key)
  {
    var sys' := Cut(sys, i);
    assert forall j :: 0 <= j < |sys'| ==> sys'[j] == sys[if j < i then j else j + 1];
    var f := FindQueue(sys, key);
    if key == sys[i].key || f == |sys| {
      FoundNowhere(sys', key);
    } else {
      FoundAt(sys', key, if f < i then f else f - 1);
    }
  }

  lemma ApplyPositiveUnique(sys: System, op: Op)
    requires PositiveUnique(sys)
    ensures PositiveUnique(Apply(sys, op).0)
  {
    var sys' := Apply(sys, op).0;
    if op.Close? && Check(sys, op.key) > 0 {
      var i := FindQueue(sys, op.key);
      assert forall j :: 0 <= j < |sys'| ==> sys'[j] == sys[if j < i then j else j + 1];
    } else if op.Get? && Check(sys, op.key) <= 0 {
      assert op.key > 0 ==> !Has(sys, op.key);
    } else {
      assert |sys'| == |sys| && forall j :: 0 <= j < |sys| ==> sys'[j].key == sys[j].key;
    }
  }

  lemma {:induction false} RunPositiveUnique(ops: seq<Op>)
    ensures PositiveUnique(Run([], ops))
    decreases |ops|
  {
    if ops != [] {
      RunPositiveUnique(Front(ops));
      ApplyPositiveUnique(Run([], Front(ops)), Last(ops));
    }
  }

  /** What one call does to the queue found under a key. */
  function LookupAfter(found: Option<Queue>, op: Op): Option<Queue> {
    match op
    case Get(key, _) => if found.None? then Some(Queue(key, [], 0, 0)) else found
    case Close(key) => if key > 0 then None else found
    case Write(_, mtype, text) => if found.None? then None else Some(Push(found.value, mtype, text).0)
    case Read(_, mtype, flags, len) => if found.None? then None else Some(Pull(found.value, mtype, flags, len).0)
  }

  /** What it replies, which depends on that queue alone. */
  function ReplyTo(found: Option<Queue>, op: Op): Reply {
    match op
    case Get(key, flags) => Reply(if found.Some? && key > 0 && flags == IPC_EXCL then FAIL else key, [])
    case Close(key) => Reply(if found.Some? && key >= 0 then SUCCESS else FAIL, [])
    case Write(_, mtype, text) => if found.None? then Reply(NOMSQ, []) else Reply(Push(found.value, mtype, text).1, [])
    case Read(_, mtype, flags, len) => if found.None? then Reply(NOMSQ, []) else Pull(found.value, mtype, flags, len).1
  }

  /** A request for a positive key that exists leaves everything as it is, and fails exactly if the
      flags are IPC_EXCL; any other request makes a new queue, at the end of the list. */
  lemma GetAnswers(sys: System, key: int, flags: Flags)
    ensures var (sys', reply) := DoGet(sys, key, flags);
      if Has(sys, key) && key > 0
      then sys' == sys && reply == Reply(if flags == 0xFDEF_0002 then -1 else key, [])
      else sys' == sys + [Queue(key, [], 0, 0)] && reply == Reply(key, [])
  {
  }

  /** What the library takes for a failed check: there is no such queue, or the key is negative. */
  lemma CheckFailsIff(sys: System, key: int)
    ensures Check(sys, key) < 0 <==> !Has(sys, key) || key < 0
    ensures Check(sys, key) > 0 <==> Has(sys, key) && key > 0
  {
  }

  /** Key isolation: a call on one key changes the queue under that key, as LookupAfter says, and
      the queue under no other key. */
  lemma ApplyLookup(sys: System, op: Op, key: int)
    requires PositiveUnique(sys)
    ensures Lookup(Apply(sys, op).0, key) ==
            if key == op.key then LookupAfter(Lookup(sys, key), op) else Lookup(sys, key)
    ensures Apply(sys, op).1 == ReplyTo(Lookup(sys, op.key), op)
  {
    var i := FindQueue(sys, op.key);
    match op
    case Get(k, flags) =>
      LookupAppend(sys, Queue(k, [], 0, 0), key);
    case Close(k) =>
      if Check(sys, k) > 0 { LookupCut(sys, i, key); }
    case Write(k, mtype, text) =>
      if i < |sys| { LookupUpdate(sys, i, Push(sys[i], mtype, text).0, key); }
    case Read(k, mtype, flags, len) =>
      if i < |sys| { LookupUpdate(sys, i, Pull(sys[i], mtype, flags, len).0, key); }
  }

  // ---------------------------------------------------------------- FIFO over runs

  /** What was accepted by, and delivered from, the queue with one key since it was created. */
  datatype Log = Log(sent: seq<Message>, received: seq<Message>)

  /** The messages now in the queue with this key, none if there is no such queue. */
  function Queued(sys: System, key: int): seq<Message> { MsgsOf(Lookup(sys, key)) }

  function MsgsOf(found: Option<Queue>): seq<Message> { if found.None? then [] else found.value.msgs }

  /** The log after one more call on this key, made when `found` is the queue under it. A delivered
      message is recorded as it was stored; ReadDelivers says what of it the caller got. */
  function Record(log: Log, found: Option<Queue>, op: Op): Log {
    var code := ReplyTo(found, op).code;
    match op
    case Get(_, _) => log
    case Close(key) => if code == SUCCESS && key > 0 then Log([], []) else log
    case Write(_, mtype, text) =>
      if code == SUCCESS then log.(sent := log.sent + [Message(|MsgsOf(found)| + 1, mtype, text)]) else log
    case Read(_, mtype, _, _) =>
      var mine := OfType(MsgsOf(found), mtype);
      if code >= 0 && mine != [] then log.(received := log.received + [mine[0]]) else log
  }

  function History(ops: seq<Op>, key: int): Log
    decreases |ops|
  {
    if ops == [] then Log([], [])
    else
      var log := History(Front(ops), key);
      if Last(ops).key == key then Record(log, Lookup(Run([], Front(ops)), key), Last(ops)) else log
  }

  predicate Balanced(log: Log, queued: seq<Message>, mtype: int) {
    OfType(log.sent, mtype) == OfType(log.received, mtype) + OfType(queued, mtype)
  }

  lemma PushBalanced(log: Log, q: Queue, m: Message, t: int)
    requires Balanced(log, q.msgs, t)
    ensures Balanced(log.(sent := log.sent + [m]), q.msgs + [m], t)
  {
    OfTypeConcat(log.sent, [m], t);
    OfTypeConcat(q.msgs, [m], t);
    Regroup(OfType(log.received, t), OfType(q.msgs, t), OfType([m], t));
  }

  lemma Regroup(a: seq<Message>, b: seq<Message>, c: seq<Message>)
    ensures (a + b) + c == a + (b + c)
  {
  }

  lemma PullBalanced(log: Log, q: Queue, mtype: int, flags: Flags, len: nat, t: int)
    requires Balanced(log, q.msgs, t) && Pull(q, mtype, flags, len).1.code >= 0
    ensures OfType(q.msgs, mtype) != []
    ensures Balanced(log.(received := log.received + [OfType(q.msgs, mtype)[0]]), Pull(q, mtype, flags, len).0.msgs, t)
  {
    ReadDelivers(q, mtype, flags, len);
    var m := OfType(q.msgs, mtype)[0];
    OfTypeAllOfType(q.msgs, mtype);
    OfTypeConcat(log.received, [m], t);
    OfTypeOne(m, t);
    Dequeued(OfType(log.received, t), OfType(q.msgs, t), t == mtype);
  }

  lemma Dequeued(a: seq<Message>, b: seq<Message>, taken: bool)
    ensures taken && b != [] ==> a + b == (a + [b[0]]) + b[1..]
    ensures a + b == (a + []) + b
  {
  }

  lemma {:induction false} OfTypeAllOfType(msgs: seq<Message>, mtype: int)
    ensures forall j :: 0 <= j < |OfType(msgs, mtype)| ==> OfType(msgs, mtype)[j].mtype == mtype
  {
    if msgs != [] { OfTypeAllOfType(Front(msgs), mtype); }
  }

  lemma WriteEffect(log: Log, found: Option<Queue>, op: Op)
    requires found.Some? && Accounted(found.value) && op.Write?
    ensures var q, m := found.value, Message(|MsgsOf(found)| + 1, op.mtype, op.text);
      if Push(q, op.mtype, op.text).1 == SUCCESS
      then Record(log, found, op) == log.(sent := log.sent + [m]) && MsgsOf(LookupAfter(found, op)) == q.msgs + [m]
      else Record(log, found, op) == log && LookupAfter(found, op) == found
  {
  }

  lemma RecordWrite(log: Log, found: Option<Queue>, op: Op, t: int)
    requires found.Some? && Accounted(found.value) && op.Write? && Balanced(log, MsgsOf(found), t)
    ensures Balanced(Record(log, found, op), MsgsOf(LookupAfter(found, op)), t)
  {
    WriteEffect(log, found, op);
    PushBalanced(log, found.value, Message(|MsgsOf(found)| + 1, op.mtype, op.text), t);
  }

  lemma ReadEffect(log: Log, found: Option<Queue>, op: Op)
    requires found.Some? && op.Read?
    ensures var q := found.value;
      if Pull(q, op.mtype, op.flags, op.len).1.code >= 0
      then OfType(q.msgs, op.mtype) != [] &&
           Record(log, found, op) == log.(received := log.received + [OfType(q.msgs, op.mtype)[0]])
      else Record(log, found, op) == log && LookupAfter(found, op) == found
  {
    ReadDelivers(found.value, op.mtype, op.flags, op.len);
  }

  lemma RecordRead(log: Log, found: Option<Queue>, op: Op, t: int)
    requires found.Some? && op.Read? && Balanced(log, MsgsOf(found), t)
    ensures Balanced(Record(log, found, op), MsgsOf(LookupAfter(found, op)), t)
  {
    var q := found.value;
    ReadEffect(log, found, op);
    if Pull(q, op.mtype, op.flags, op.len).1.code >= 0 {
      PullBalanced(log, q, op.mtype, op.flags, op.len, t);
    }
  }

  lemma RecordBalanced(log: Log, found: Option<Queue>, op: Op, t: int)
    requires found.Some? ==> Accounted(found.value)
    requires Balanced(log, MsgsOf(found), t)
    ensures Balanced(Record(log, found, op), MsgsOf(LookupAfter(found, op)), t)
  {
    if found.Some? && op.Write? {
      RecordWrite(log, found, op, t);
    } else if found.Some? && op.Read? {
      RecordRead(log, found, op, t);
    }
  }

  /** FIFO refinement: after any run, for every key and every type, the messages of that type that
      were sent are those that were received followed by those still queued, in order. The mixed
      list with first-match removal is a family of independent FIFOs. */
  lemma {:induction false} FifoPerType(ops: seq<Op>, key: int, mtype: int)
    ensures Balanced(History(ops, key), Queued(Run([], ops), key), mtype)
    decreases |ops|
  {
    if ops != [] {
      var sys := Run([], Front(ops));
      FifoPerType(Front(ops), key, mtype);
      RunAccounted(Front(ops));
      RunPositiveUnique(Front(ops));
      ApplyLookup(sys, Last(ops), key);
      assert Has(sys, key) ==> Accounted(Lookup(sys, key).value);
      RecordBalanced(History(Front(ops), key), Lookup(sys, key), Last(ops), mtype);
    }
  }

  /** A successful read: the length it offered and the reply it got. */
  datatype Delivery = Delivery(len: nat, reply: Reply)

  /** The successful reads of one type from the queue with this key, since it was created, by what
      the calls replied. */
  function Deliveries(ops: seq<Op>, key: int, mtype: int): seq<Delivery>
    decreases |ops|
  {
    if ops == [] then []
    else
      var before, op := Deliveries(Front(ops), key, mtype), Last(ops);
      var reply := Apply(Run([], Front(ops)), op).1;
      if op.key != key || reply.code < 0 then before
      else if op.Close? && key > 0 then []
      else if op.Read? && op.mtype == mtype then before + [Delivery(op.len, reply)]
      else before
  }

  /** The reply is the message, or as much of it as the caller offered room for. */
  predicate Delivers(d: Delivery, m: Message) {
    && d.reply.code == |d.reply.text| == (if d.len < |m.text| then d.len else |m.text|)
    && d.reply.text == m.text[..d.reply.code]
  }

  predicate AllDeliver(ds: seq<Delivery>, msgs: seq<Message>) {
    |ds| == |msgs| && forall k :: 0 <= k < |ds| ==> Delivers(ds[k], msgs[k])
  }

  /** One read more. */
  lemma ReadReply(log: Log, found: Option<Queue>, op: Op, ds: seq<Delivery>, mtype: int)
    requires found.Some? && op.Read? && ReplyTo(found, op).code >= 0
    requires AllDeliver(ds, OfType(log.received, mtype))
    ensures AllDeliver(if op.mtype == mtype then ds + [Delivery(op.len, ReplyTo(found, op))] else ds,
                       OfType(Record(log, found, op).received, mtype))
  {
    var q := found.value;
    ReadDelivers(q, op.mtype, op.flags, op.len);
    var m := OfType(q.msgs, op.mtype)[0];
    OfTypeAllOfType(q.msgs, op.mtype);
    OfTypeConcat(log.received, [m], mtype);
    OfTypeOne(m, mtype);
  }

  lemma {:induction false} RepliesAreReceived(ops: seq<Op>, key: int, mtype: int)
    ensures AllDeliver(Deliveries(ops, key, mtype), OfType(History(ops, key).received, mtype))
    decreases |ops|
  {
    if ops != [] {
      var sys, op := Run([], Front(ops)), Last(ops);
      RepliesAreReceived(Front(ops), key, mtype);
      RunPositiveUnique(Front(ops));
      ApplyLookup(sys, op, key);
      if op.key == key && op.Read? && ReplyTo(Lookup(sys, key), op).code >= 0 {
        ReadReply(History(Front(ops), key), Lookup(sys, key), op, Deliveries(Front(ops), key, mtype), mtype);
      }
    }
  }

  /** What callers see: the k-th successful read of a type replies with the k-th message of that
      type that was sent, or with as much of it as the caller offered room for. */
  lemma ReadsReplyInOrder(ops: seq<Op>, key: int, mtype: int, k: nat)
    requires k < |Deliveries(ops, key, mtype)|
    ensures |OfType(History(ops, key).sent, mtype)| ==
            |Deliveries(ops, key, mtype)| + |OfType(Queued(Run([], ops), key), mtype)|
    ensures Delivers(Deliveries(ops, key, mtype)[k], OfType(History(ops, key).sent, mtype)[k])
  {
    RepliesAreReceived(ops, key, mtype);
    FifoPerType(ops, key, mtype);
  }

  // ---------------------------------------------------------------- the keyed list as a map

  /** The abstract system: one queue per key. */
  type Directory = map<int, Queue>

  function DirApply(dir: Directory, op: Op): (Directory, Reply) {
    match op
    case Get(key, flags) =>
      if key in dir then (dir, Reply(if flags == IPC_EXCL then FAIL else key, []))
      else (dir[key := Queue(key, [], 0, 0)], Reply(key, []))
    case Close(key) =>
      if key in dir then (dir - {key}, Reply(SUCCESS, [])) else (dir, Reply(FAIL, []))
    case Write(key, mtype, text) =>
      if key !in dir then (dir, Reply(NOMSQ, []))
      else var (q, code) := Push(dir[key], mtype, text); (dir[key := q], Reply(code, []))
    case Read(key, mtype, flags, len) =>
      if key !in dir then (dir, Reply(NOMSQ, []))
      else var (q, reply) := Pull(dir[key], mtype, flags, len); (dir[key := q], reply)
  }

  /** The list and the directory give the same queue for every key. */
  ghost predicate Represents(sys: System, dir: Directory) {
    forall key :: Lookup(sys, key) == if key in dir then Some(dir[key]) else None
  }

  ghost predicate PositiveKeys(dir: Directory) { forall key :: key in dir ==> key > 0 }

  lemma ApplyRepresents(sys: System, dir: Directory, op: Op)
    requires PositiveUnique(sys) && Represents(sys, dir) && PositiveKeys(dir)
    requires op.Get? ==> op.key > 0
    ensures Represents(Apply(sys, op).0, DirApply(dir, op).0) && PositiveKeys(DirApply(dir, op).0)
    ensures Apply(sys, op).1 == DirApply(dir, op).1
  {
    var dir' := DirApply(dir, op).0;
    assert Lookup(sys, op.key) == if op.key in dir then Some(dir[op.key]) else None;
    forall key ensures Lookup(Apply(sys, op).0, key) == if key in dir' then Some(dir'[key]) else None {
      ApplyLookup(sys, op, key);
      assert Lookup(sys, key) == if key in dir then Some(dir[key]) else None;
    }
  }

  function DirRun(dir: Directory, ops: seq<Op>): Directory
    decreases |ops|
  {
    if ops == [] then dir else DirApply(DirRun(dir, Front(ops)), Last(ops)).0
  }

  function Replies(sys: System, ops: seq<Op>): seq<Reply>
    decreases |ops|
  {
    if ops == [] then [] else Replies(sys, Front(ops)) + [Apply(Run(sys, Front(ops)), Last(ops)).1]
  }

  function DirReplies(dir: Directory, ops: seq<Op>): seq<Reply>
    decreases |ops|
  {
    if ops == [] then [] else DirReplies(dir, Front(ops)) + [DirApply(DirRun(dir, Front(ops)), Last(ops)).1]
  }

  /** The keyed list refines a map: if queues are only asked for under positive keys, every run on
      the list gives the replies of the same run on the directory, and ends in the same queues. */
  lemma {:induction false} RunRefinesDirectory(ops: seq<Op>)
    requires forall op :: op in ops && op.Get? ==> op.key > 0
    ensures Represents(Run([], ops), DirRun(map[], ops)) && PositiveKeys(DirRun(map[], ops))
    ensures Replies([], ops) == DirReplies(map[], ops)
    decreases |ops|
  {
    if ops != [] {
      RunRefinesDirectory(Front(ops));
      RunPositiveUnique(Front(ops));
      assert Last(ops) in ops;
      ApplyRepresents(Run([], Front(ops)), DirRun(map[], Front(ops)), Last(ops));
    }
  }

  // ---------------------------------------------------------------- keys that are not positive

  function QueuesWith(sys: System, key: int): nat
    decreases |sys|
  {
    if sys == [] then 0 else QueuesWith(Front(sys), key) + if Last(sys).key == key then 1 else 0
  }

  function GetsOf(ops: seq<Op>, key: int): nat
    decreases |ops|
  {
    if ops == [] then 0 else GetsOf(Front(ops), key) + if Last(ops).Get? && Last(ops).key == key then 1 else 0
  }

  lemma {:induction false} QueuesWithConcat(a: System, b: System, key: int)
    ensures QueuesWith(a + b, key) == QueuesWith(a, key) + QueuesWith(b, key)
    decreases |b|
  {
    if b == [] {
      assert a + b == a;
    } else {
      assert Front(a + b) == a + Front(b);
      QueuesWithConcat(a, Front(b), key);
    }
  }

  lemma QueuesWithOne(q: Queue, key: int)
    ensures QueuesWith([q], key) == if q.key == key then 1 else 0
  {
    assert Front([q]) == [];
  }

  lemma QueuesWithUpdate(sys: System, i: nat, q: Queue, key: int)
    requires i < |sys| && q.key == sys[i].key
    ensures QueuesWith(sys[i := q], key) == QueuesWith(sys, key)
  {
    assert sys == sys[..i] + ([sys[i]] + sys[i + 1..]);
    assert sys[i := q] == sys[..i] + ([q] + sys[i + 1..]);
    QueuesWithConcat(sys[..i], [sys[i]] + sys[i + 1..], key);
    QueuesWithConcat(sys[..i], [q] + sys[i + 1..], key);
    QueuesWithConcat([sys[i]], sys[i + 1..], key);
    QueuesWithConcat([q], sys[i + 1..], key);
    QueuesWithOne(q, key);
    QueuesWithOne(sys[i], key);
  }

  lemma QueuesWithCut(sys: System, i: nat, key: int)
    requires i < |sys|
    ensures QueuesWith(Cut(sys, i), key) == QueuesWith(sys, key) - if sys[i].key == key then 1 else 0
  {
    CutParts(sys, i);
    QueuesWithConcat(sys[..i], [sys[i]] + sys[i + 1..], key);
    QueuesWithConcat([sys[i]], sys[i + 1..], key);
    QueuesWithConcat(sys[..i], sys[i + 1..], key);
    QueuesWithOne(sys[i], key);
  }

  /** A key that is not positive is never recognised: each request makes one more queue under it,
      and none of them is ever closed. */
  lemma {:induction false} NonPositiveKeysPileUp(ops: seq<Op>, key: int)
    requires key <= 0
    ensures QueuesWith(Run([], ops), key) == GetsOf(ops, key)
    decreases |ops|
  {
    if ops != [] {
      NonPositiveKeysPileUp(Front(ops), key);
      var sys, op := Run([], Front(ops)), Last(ops);
      var i := FindQueue(sys, op.key);
      match op
      case Get(k, _) =>
        QueuesWithConcat(sys, [Queue(k, [], 0, 0)], key);
        QueuesWithOne(Queue(k, [], 0, 0), key);
      case Close(k) => if Check(sys, k) > 0 { QueuesWithCut(sys, i, key); }
      case Write(_, mtype, text) => if i < |sys| { QueuesWithUpdate(sys, i, Push(sys[i], mtype, text).0, key); }
      case Read(_, mtype, flags, len) =>
        if i < |sys| { QueuesWithUpdate(sys, i, Pull(sys[i], mtype, flags, len).0, key); }
    }
  }

  lemma {:induction false} AtMostOnePositive(sys: System, key: int)
    requires PositiveUnique(sys) && key > 0
    ensures QueuesWith(sys, key) == if Has(sys, key) then 1 else 0
    decreases |sys|
  {
    if sys != [] {
      var front := Front(sys);
      assert forall j :: 0 <= j < |front| ==> front[j] == sys[j];
      AtMostOnePositive(front, key);
      assert sys == front + [Last(sys)];
      LookupAppend(front, Last(sys), key);
    }
  }

  ghost predicate KeysUnique(sys: System) { forall key :: QueuesWith(sys, key) <= 1 }

  /** No key that is not positive is asked for twice. */
  ghost predicate NoRepeats(ops: seq<Op>) { forall key :: key <= 0 ==> GetsOf(ops, key) <= 1 }

  /** No two queues share a key if and only if no key that is not positive is asked for twice. */
  lemma KeysUniqueIff(ops: seq<Op>)
    ensures KeysUnique(Run([], ops)) <==> NoRepeats(ops)
  {
    RunPositiveUnique(ops);
    var sys := Run([], ops);
    forall key
      ensures key <= 0 ==> QueuesWith(sys, key) == GetsOf(ops, key)
      ensures key > 0 ==> QueuesWith(sys, key) <= 1
    {
      if key <= 0 { NonPositiveKeysPileUp(ops, key); } else { AtMostOnePositive(sys, key); }
    }
  }

  /** A run in which the keys collide: key 0 asked for twice. */
  lemma KeyZeroCollides()
    ensures QueuesWith(Run([], [Get(0, 0), Get(0, 0)]), 0) == 2
  {
    NonPositiveKeysPileUp([Get(0, 0), Get(0, 0)], 0);
    assert Front([Get(0, 0), Get(0, 0)]) == [Get(0, 0)];
    assert Front([Get(0, 0)]) == [];
  }

  /** `ku_msgclose` reports success exactly for a key that exists and is not negative, but has
      closed the queue only if the key is positive: on key 0 it reports success and does nothing. */
  lemma CloseTellsTheTruthIff(ops: seq<Op>, key: int)
    ensures var sys := Run([], ops); var (sys', reply) := DoClose(sys, key);
      && (reply.code == 0 <==> Has(sys, key) && key >= 0)
      && (Has(sys, key) && !Has(sys', key) <==> Has(sys, key) && key > 0)
      && (reply.code == -1 || reply.code == 0)
  {
    RunPositiveUnique(ops);
    ApplyLookup(Run([], ops), Close(key), key);
  }

  /** A close that reports success and leaves the queue where it is. */
  lemma CloseOfKeyZero()
    ensures var sys := Run([], [Get(0, 0)]); DoClose(sys, 0) == (sys, Reply(SUCCESS, [])) && Has(sys, 0)
  {
    assert Front([Get(0, 0)]) == [];
    assert Run([], [Get(0, 0)]) == [Queue(0, [], 0, 0)];
  }

  // ---------------------------------------------------------------- refused calls

  /** A call that reports failure. The result of Get is its key, so there only a positive key
      tells a failure from a success. */
  predicate Refused(sys: System, op: Op) {
    var code := Apply(sys, op).1.code;
    if op.Get? then op.key > 0 && code == FAIL else code < 0
  }

  /** The refused calls are those that the source answers by an error code. */
  lemma RefusedIff(ops: seq<Op>, op: Op)
    ensures var sys := Run([], ops); var code := Apply(sys, op).1.code;
      Refused(sys, op) <==>
      match op
      case Get(key, flags) => Has(sys, key) && key > 0 && flags == 0xFDEF_0002
      case Close(key) => !Has(sys, key) || key < 0
      case Write(_, _, _) => code != 0
      case Read(_, _, _, _) => code < 0
  {
    var sys := Run([], ops);
    match op
    case Get(key, flags) => GetAnswers(sys, key, flags);
    case Close(key) => CloseTellsTheTruthIff(ops, key);
    case Write(key, mtype, text) => WriteRefusedIff(ops, key, mtype, text); WriteAcceptedIff(ops, key, mtype, text);
    case Read(_, _, _, _) =>
  }

  /** A refused call leaves every queue as it was. */
  lemma RefusedIsInvisible(sys: System, op: Op)
    requires Refused(sys, op)
    ensures Apply(sys, op).0 == sys
  {
  }

  function Erased(sys: System, ops: seq<Op>): seq<Op>
    decreases |ops|
  {
    if ops == [] then []
    else Erased(sys, Front(ops)) + if Refused(Run(sys, Front(ops)), Last(ops)) then [] else [Last(ops)]
  }

  function KeptReplies(sys: System, ops: seq<Op>): seq<Reply>
    decreases |ops|
  {
    if ops == [] then []
    else
      var before := Run(sys, Front(ops));
      KeptReplies(sys, Front(ops)) + if Refused(before, Last(ops)) then [] else [Apply(before, Last(ops)).1]
  }

  /** Any run ends as, and its successful calls reply as in, the run with its refused calls erased. */
  lemma {:induction false} RunEqualsErased(sys: System, ops: seq<Op>)
    ensures Run(sys, ops) == Run(sys, Erased(sys, ops))
    ensures KeptReplies(sys, ops) == Replies(sys, Erased(sys, ops))
    decreases |ops|
  {
    if ops != [] {
      RunEqualsErased(sys, Front(ops));
      var kept := Erased(sys, Front(ops));
      if Refused(Run(sys, Front(ops)), Last(ops)) {
        RefusedIsInvisible(Run(sys, Front(ops)), Last(ops));
        assert Erased(sys, ops) == kept;
      } else {
        assert Front(kept + [Last(ops)]) == kept;
      }
    }
  }
}
