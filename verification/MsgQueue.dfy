/**
 What one call into the message-queue driver (`ku_ipc.c.txt`) or its key-level library wrappers
 (`ku_ipc_lib.c.txt`) does to the list of queues, as functions on values.
 */
module MsgQueue {
  import opened Common

  // ---------------------------------------------------------------- ku_ipc.h.txt

  const MAXMSG: int := 10
  const MAXVOL: int := 135

  type Flags = bv32
  const IPC_EXCL: Flags := 0xFDEF_0002
  const IPC_NOWAIT: Flags := 0xF000_0000
  const MSG_NOERROR: Flags := 0x0F00_0000

  /** The result codes are unsigned 32-bit constants; returned as `int` they are negative. */
  const NOMSQ: int := 0xFDEF_CE01 - 0x1_0000_0000
  const NOMSG: int := 0xFDEF_CE02 - 0x1_0000_0000
  const NOVOL: int := 0xFDEF_CE03 - 0x1_0000_0000
  const FULLMSG: int := 0xFDEF_CE04 - 0x1_0000_0000
  const FULLVOL: int := 0xFDEF_CE05 - 0x1_0000_0000
  const SHORT: int := 0xFDEF_CE06 - 0x1_0000_0000

  const SUCCESS: int := 0
  const FAIL: int := -1

  predicate NoWait(flags: Flags) { flags & IPC_NOWAIT != 0 }
  predicate NoError(flags: Flags) { flags & MSG_NOERROR != 0 }

  // ---------------------------------------------------------------- the queues

  type Text = seq<bv8>

  /** `struct ku_ipc_msg`; `msgsz` is the length of the text. */
  datatype Message = Message(index: int, mtype: int, text: Text)

  /** `struct ku_ipc_msq`: its messages in list order, and the two counters it keeps of them. */
  datatype Queue = Queue(key: int, msgs: seq<Message>, size: int, vol: int)

  /** `my_msq`: the queues in list order. Nothing in the driver keeps their keys distinct. */
  type System = seq<Queue>

  /** `code` is the return value; `text` is what was copied to the caller's buffer. */
  datatype Reply = Reply(code: int, text: Text)

  /** A call by some process. Read and Write are one driver call; Get and Close are the whole
      library call, an existence check followed by a create or a close. */
  datatype Op =
    | Get(key: int, flags: Flags)
    | Close(key: int)
    | Write(key: int, mtype: int, text: Text)
    | Read(key: int, mtype: int, flags: Flags, len: nat)

  /** The position of the first queue with this key, or the number of queues. */
  function FindQueue(sys: System, key: int): (i: nat)
    ensures i <= |sys|
    ensures i < |sys| ==> sys[i].key == key
    ensures forall j :: 0 <= j < i ==> sys[j].key != key
  {
    QueueFrom(sys, key, 0)
  }

  function QueueFrom(sys: System, key: int, start: nat): (i: nat)
    requires start <= |sys|
    ensures start <= i <= |sys|
    ensures i < |sys| ==> sys[i].key == key
    ensures forall j :: start <= j < i ==> sys[j].key != key
    decreases |sys| - start
  {
    if start == |sys| || sys[start].key == key then start else QueueFrom(sys, key, start + 1)
  }

  predicate Has(sys: System, key: int) { FindQueue(sys, key) < |sys| }

  /** The position of the first message of this type, or the number of messages. */
  function FindType(msgs: seq<Message>, mtype: int): (i: nat)
    ensures i <= |msgs|
    ensures i < |msgs| ==> msgs[i].mtype == mtype
    ensures forall j :: 0 <= j < i ==> msgs[j].mtype != mtype
  {
    TypeFrom(msgs, mtype, 0)
  }

  function TypeFrom(msgs: seq<Message>, mtype: int, start: nat): (i: nat)
    requires start <= |msgs|
    ensures start <= i <= |msgs|
    ensures i < |msgs| ==> msgs[i].mtype == mtype
    ensures forall j :: start <= j < i ==> msgs[j].mtype != mtype
    decreases |msgs| - start
  {
    if start == |msgs| || msgs[start].mtype == mtype then start else TypeFrom(msgs, mtype, start + 1)
  }

  /** The sequence without its element at i. */
  function Cut<T>(s: seq<T>, i: nat): (r: seq<T>)
    requires i < |s|
    ensures |r| == |s| - 1
  {
    seq(|s| - 1, j requires 0 <= j < |s| - 1 => if j < i then s[j] else s[j + 1])
  }

  /** In other words, what is before it followed by what is after it. */
  lemma CutParts<T>(s: seq<T>, i: nat)
    requires i < |s|
    ensures Cut(s, i) == s[..i] + s[i + 1..]
    ensures s == s[..i] + ([s[i]] + s[i + 1..])
  {
  }

  lemma CutAt<T>(s: seq<T>, f: nat, j: nat)
    requires f < |s| && j < |s| - 1
    ensures Cut(s, f)[j] == s[if j < f then j else j + 1]
  {
  }

  /** IPC_IOCTL_MSQ_CHECK. */
  function Check(sys: System, key: int): int {
    if Has(sys, key) then key else NOMSQ
  }

  function DoGet(sys: System, key: int, flags: Flags): (System, Reply) {
    if Check(sys, key) > 0
    then (sys, Reply(if flags == IPC_EXCL then FAIL else key, []))
    else (sys + [Queue(key, [], 0, 0)], Reply(key, []))
  }

  function DoClose(sys: System, key: int): (System, Reply) {
    if Check(sys, key) > 0 then (Cut(sys, FindQueue(sys, key)), Reply(SUCCESS, []))
    else if Check(sys, key) < 0 then (sys, Reply(FAIL, []))
    else (sys, Reply(SUCCESS, []))
  }

  /** `ku_ipc_write` once the queue is found. */
  function Push(q: Queue, mtype: int, text: Text): (Queue, int) {
    if q.size + 1 > MAXMSG then (q, FULLMSG)
    else if q.vol + |text| > MAXVOL then (q, FULLVOL)
    else (q.(msgs := q.msgs + [Message(q.size + 1, mtype, text)], size := q.size + 1, vol := q.vol + |text|), SUCCESS)
  }

  /** `ku_ipc_read` once the queue is found. */
  function Pull(q: Queue, mtype: int, flags: Flags, len: nat): (Queue, Reply) {
    if q.size - 1 < 0 then (q, Reply(NOMSG, []))
    else if q.vol <= 0 then (q, Reply(NOVOL, []))
    else
      var i := FindType(q.msgs, mtype);
      if i == |q.msgs| then (q, Reply(NOMSG, []))
      else
        var text := q.msgs[i].text;
        if len < |text| && !NoError(flags) then (q, Reply(SHORT, []))
        else
          var n := if len >= |text| then |text| else len;
          (q.(msgs := Cut(q.msgs, i), size := q.size - 1, vol := q.vol - |text|), Reply(n, text[..n]))
  }

  function DoWrite(sys: System, key: int, mtype: int, text: Text): (System, Reply) {
    var i := FindQueue(sys, key);
    if i == |sys| then (sys, Reply(NOMSQ, []))
    else var (q, code) := Push(sys[i], mtype, text); (sys[i := q], Reply(code, []))
  }

  function DoRead(sys: System, key: int, mtype: int, flags: Flags, len: nat): (System, Reply) {
    var i := FindQueue(sys, key);
    if i == |sys| then (sys, Reply(NOMSQ, []))
    else var (q, reply) := Pull(sys[i], mtype, flags, len); (sys[i := q], reply)
  }

  function Apply(sys: System, op: Op): (System, Reply) {
    match op
    case Get(key, flags) => DoGet(sys, key, flags)
    case Close(key) => DoClose(sys, key)
    case Write(key, mtype, text) => DoWrite(sys, key, mtype, text)
    case Read(key, mtype, flags, len) => DoRead(sys, key, mtype, flags, len)
  }

  /** The queues after these calls, made one after the other. */
  function Run(sys: System, ops: seq<Op>): System
    decreases |ops|
  {
    if ops == [] then sys else Apply(Run(sys, Front(ops)), Last(ops)).0
  }
}
