/**
 The user-side library (`ku_ipc_lib.c.txt`): getting and closing queues, and sending and receiving
 with polling loops. Other processes run between any two driver calls of a polling loop: `env[n]`
 is what they do before poll n. The source polls for ever; here a call that is still polling when
 `env` ends reports StillPolling, so every contract below is about all finite stretches of it.
 */
module IpcLib {
  import opened Common
  import opened MsgQueue
  import opened MsgQueueLaws
  import opened IpcKernel

  datatype Outcome = Returned(code: int) | StillPolling

  /** All that the other processes do up to and including poll n - 1. */
  function Flat(env: seq<seq<Op>>): seq<Op>
    decreases |env|
  {
    if env == [] then [] else Flat(Front(env)) + Last(env)
  }

  /** The queues after the other processes' calls alone. */
  function Others(sys: System, env: seq<seq<Op>>, n: nat): System
    requires n <= |env|
  {
    Run(sys, Flat(env[..n]))
  }

  lemma {:induction false} RunConcat(sys: System, a: seq<Op>, b: seq<Op>)
    ensures Run(sys, a + b) == Run(Run(sys, a), b)
    decreases |b|
  {
    if b == [] {
      assert a + b == a;
    } else {
      assert Front(a + b) == a + Front(b) && Last(a + b) == Last(b);
      RunConcat(sys, a, Front(b));
    }
  }

  lemma OthersNone(sys: System, env: seq<seq<Op>>)
    ensures Others(sys, env, 0) == sys
  {
    assert env[..0] == [];
  }

  lemma OthersNext(sys: System, env: seq<seq<Op>>, n: nat)
    requires n < |env|
    ensures Others(sys, env, n + 1) == Run(Others(sys, env, n), env[n])
  {
    assert Front(env[..n + 1]) == env[..n] && Last(env[..n + 1]) == env[n];
    RunConcat(sys, Flat(env[..n]), env[n]);
  }

  /** `ku_ipc_msgget`. */
  method MsgGet(k: Kernel, key: int, msgflg: Flags) returns (id: int)
    requires k.Valid()
    modifies k.Repr
    ensures k.Valid() && (k.View(), Reply(id, [])) == DoGet(old(k.View()), key, msgflg)
    ensures fresh(k.Repr - old(k.Repr))
  {
    id := k.Check(key);
    if id > 0 {
      if msgflg == IPC_EXCL { id := FAIL; }
    } else {
      id := k.Create(key);
    }
  }

  /** `ku_msgclose`. */
  method MsgClose(k: Kernel, msqid: int) returns (code: int)
    requires k.Valid()
    modifies k.Repr
    ensures k.Valid() && (k.View(), Reply(code, [])) == DoClose(old(k.View()), msqid)
    ensures fresh(k.Repr - old(k.Repr))
  {
    var rtn := k.Check(msqid);
    if rtn > 0 {
      var _ := k.CloseQueue(msqid);
      rtn := 0;
    }
    code := if rtn < 0 then FAIL else SUCCESS;
  }

  /** One call of some process. */
  method Perform(k: Kernel, op: Op) returns (reply: Reply)
    requires k.Valid()
    modifies k.Repr
    ensures k.Valid() && (k.View(), reply) == Apply(old(k.View()), op)
    ensures fresh(k.Repr - old(k.Repr))
  {
    var code;
    var text := [];
    match op {
      case Get(key, flags) => code := MsgGet(k, key, flags);
      case Close(key) => code := MsgClose(k, key);
      case Write(key, mtype, body) => code := k.Write(key, mtype, body);
      case Read(key, mtype, flags, len) => code, text := k.Read(key, mtype, flags, len);
    }
    reply := Reply(code, text);
  }

  /** Other processes run. */
  method Interfere(k: Kernel, ops: seq<Op>)
    requires k.Valid()
    modifies k.Repr
    ensures k.Valid() && k.View() == Run(old(k.View()), ops)
    ensures fresh(k.Repr - old(k.Repr))
  {
    assert ops[..0] == [];
    for i := 0 to |ops|
      invariant k.Valid() && k.View() == Run(old(k.View()), ops[..i])
      invariant fresh(k.Repr - old(k.Repr))
    {
      assert Front(ops[..i + 1]) == ops[..i] && Last(ops[..i + 1]) == ops[i];
      var _ := Perform(k, ops[i]);
    }
    assert ops[..|ops|] == ops;
  }

  /** The result of one write attempt after n stretches of interference. */
  function WriteAt(sys: System, env: seq<seq<Op>>, n: nat, msqid: int, mtype: int, text: Text): (System, Reply)
    requires n <= |env|
  {
    DoWrite(Others(sys, env, n), msqid, mtype, text)
  }

  /** A refused write changes nothing, and says why. */
  lemma WriteRefused(sys: System, key: int, mtype: int, text: Text)
    ensures var (sys', reply) := DoWrite(sys, key, mtype, text);
      && (reply.code == 0 || reply.code == NOMSQ || reply.code == FULLMSG || reply.code == FULLVOL)
      && (reply.code != 0 ==> sys' == sys)
      && (reply.code == NOMSQ <==> !Has(sys, key))
  {
  }

  /** The other processes run, and then one write is attempted. */
  method TryWrite(k: Kernel, ghost sys: System, env: seq<seq<Op>>, n: nat, msqid: int, mtype: int, text: Text)
    returns (rtn: int)
    requires k.Valid() && n < |env| && k.View() == Others(sys, env, n)
    modifies k.Repr
    ensures k.Valid() && fresh(k.Repr - old(k.Repr))
    ensures Wrote(k, sys, env, n + 1, msqid, mtype, text, rtn)
  {
    OthersNext(sys, env, n);
    Interfere(k, env[n]);
    WriteRefused(k.View(), msqid, mtype, text);
    rtn := k.Write(msqid, mtype, text);
  }

  /** What write attempt number n left: accepted, or refused and then nothing is changed. */
  ghost predicate Wrote(k: Kernel, sys: System, env: seq<seq<Op>>, n: nat, msqid: int, mtype: int, text: Text, rtn: int)
    requires n <= |env|
    reads k
  {
    && WriteAt(sys, env, n, msqid, mtype, text) == (k.View(), Reply(rtn, []))
    && (rtn == 0 || rtn == NOMSQ || rtn == FULLMSG || rtn == FULLVOL)
    && (rtn != 0 ==> k.View() == Others(sys, env, n))
    && (rtn == NOMSQ <==> !Has(Others(sys, env, n), msqid))
  }

  lemma WroteCode(k: Kernel, sys: System, env: seq<seq<Op>>, n: nat, msqid: int, mtype: int, text: Text, rtn: int)
    requires n <= |env| && Wrote(k, sys, env, n, msqid, mtype, text, rtn)
    ensures WriteAt(sys, env, n, msqid, mtype, text).1.code == rtn
    ensures rtn == 0 || rtn == NOMSQ || rtn == FULLMSG || rtn == FULLVOL
    ensures rtn != 0 ==> k.View() == Others(sys, env, n)
  {
  }

  /** The polling loop of `ku_msgsnd`: it ends when an attempt is accepted or the queue is gone. */
  method PollWrite(k: Kernel, ghost sys: System, env: seq<seq<Op>>, first: int, msqid: int, mtype: int, text: Text)
    returns (rtn: int, polls: nat)
    requires k.Valid() && 1 <= |env| && Wrote(k, sys, env, 1, msqid, mtype, text, first)
    modifies k.Repr
    ensures k.Valid() && 1 <= polls <= |env| && Wrote(k, sys, env, polls, msqid, mtype, text, rtn)
    ensures rtn == FULLMSG || rtn == FULLVOL ==> polls == |env|
    ensures forall n :: 1 <= n < polls ==>
      var code := WriteAt(sys, env, n, msqid, mtype, text).1.code; code == FULLMSG || code == FULLVOL
  {
    hide WriteAt, Others, Wrote, Kernel.Valid;
    rtn, polls := first, 1;
    while rtn != 0 && rtn != NOMSQ && polls < |env|
      invariant k.Valid() && 1 <= polls <= |env| && Wrote(k, sys, env, polls, msqid, mtype, text, rtn)
      invariant fresh(k.Repr - old(k.Repr))
      invariant forall n :: 1 <= n < polls ==>
        var code := WriteAt(sys, env, n, msqid, mtype, text).1.code; code == FULLMSG || code == FULLVOL
      decreases |env| - polls
    {
      WroteCode(k, sys, env, polls, msqid, mtype, text, rtn);
      rtn := TryWrite(k, sys, env, polls, msqid, mtype, text);
      polls := polls + 1;
    }
    WroteCode(k, sys, env, polls, msqid, mtype, text, rtn);
  }

  /** `ku_msgsnd`. `polls` is the number of write attempts made. */
  method MsgSnd(k: Kernel, msqid: int, mtype: int, text: Text, msgflg: Flags, env: seq<seq<Op>>)
    returns (res: Outcome, polls: nat)
    requires k.Valid()
    modifies k.Repr
    ensures k.Valid() && polls <= |env|
    // it fails at once exactly when the queue is not recognised, and then has changed nothing
    ensures res == Returned(-1) && polls == 0 <==> !Has(old(k.View()), msqid) || msqid < 0
    ensures res == Returned(-1) && polls == 0 ==> k.View() == old(k.View())
    // a call that may wait succeeds exactly when its last attempt was accepted, the one append it made
    ensures msgflg & 0xF000_0000 == 0 ==>
      (res == Returned(0) <==> polls >= 1 && WriteAt(old(k.View()), env, polls, msqid, mtype, text).1.code == 0)
    ensures msgflg & 0xF000_0000 == 0 && res == Returned(0) ==>
      k.View() == WriteAt(old(k.View()), env, polls, msqid, mtype, text).0
    // having polled it fails exactly when the queue is gone
    ensures msgflg & 0xF000_0000 == 0 && polls >= 1 ==>
      (res == Returned(-1) <==> !Has(Others(old(k.View()), env, polls), msqid))
    // it goes on polling exactly while there is no room
    ensures polls >= 1 && msgflg & 0xF000_0000 == 0 ==>
      (res.StillPolling? <==>
        var code := WriteAt(old(k.View()), env, polls, msqid, mtype, text).1.code; code == FULLMSG || code == FULLVOL)
    ensures forall n :: 1 <= n < polls ==>
      var code := WriteAt(old(k.View()), env, n, msqid, mtype, text).1.code; code == FULLMSG || code == FULLVOL
    ensures res.StillPolling? ==> polls == |env|
    ensures res.StillPolling? || res == Returned(0) || res == Returned(-1)
    // unless it succeeds it has changed nothing
    ensures res != Returned(0) ==> k.View() == Others(old(k.View()), env, polls)
    // without waiting there is one attempt, accepted or not, and success is reported either way
    ensures msgflg & 0xF000_0000 != 0 && polls >= 1 ==> polls == 1 && res == Returned(0)
    ensures msgflg & 0xF000_0000 != 0 && polls == 1 ==>
      k.View() == WriteAt(old(k.View()), env, 1, msqid, mtype, text).0
  {
    hide WriteAt, Others;
    ghost var sys := k.View();
    OthersNone(sys, env);
    CheckFailsIff(sys, msqid);
    FlagBits(msgflg);
    hide NoWait, Check;
    var check := k.Check(msqid);
    if check < 0 { return Returned(FAIL), 0; }
    if |env| == 0 { return StillPolling, 0; }
    var rtn := TryWrite(k, sys, env, 0, msqid, mtype, text);
    polls := 1;
    if rtn != 0 {
      if !NoWait(msgflg) {
        rtn, polls := PollWrite(k, sys, env, rtn, msqid, mtype, text);
        if rtn != 0 && rtn != NOMSQ { return StillPolling, polls; }
        if rtn == NOMSQ { return Returned(FAIL), polls; } else { return Returned(SUCCESS), polls; }
      }
    }
    return Returned(SUCCESS), polls;
  }

  function ReadAt(sys: System, env: seq<seq<Op>>, n: nat, msqid: int, mtype: int, flags: Flags, len: nat)
    : (System, Reply)
    requires n <= |env|
  {
    DoRead(Others(sys, env, n), msqid, mtype, flags, len)
  }

  lemma ReadRefused(sys: System, key: int, mtype: int, flags: Flags, len: nat)
    ensures var (sys', reply) := DoRead(sys, key, mtype, flags, len);
      && (reply.code < 0 ==> sys' == sys && reply.text == [] && reply.code != FAIL)
      && (reply.code == NOMSQ <==> !Has(sys, key))
  {
  }

  /** The other processes run, and then one read is attempted. */
  method TryRead(k: Kernel, ghost sys: System, env: seq<seq<Op>>, n: nat,
                 msqid: int, mtype: int, flags: Flags, msgsz: nat)
    returns (len: int, out: Text)
    requires k.Valid() && n < |env| && k.View() == Others(sys, env, n)
    modifies k.Repr
    ensures k.Valid() && fresh(k.Repr - old(k.Repr))
    ensures Received(k, sys, env, n + 1, msqid, mtype, flags, msgsz, len, out)
  {
    OthersNext(sys, env, n);
    Interfere(k, env[n]);
    ReadRefused(k.View(), msqid, mtype, flags, msgsz);
    len, out := k.Read(msqid, mtype, flags, msgsz);
  }

  /** What read attempt number n left: a delivery, or a refusal and then nothing is changed. */
  ghost predicate Received(k: Kernel, sys: System, env: seq<seq<Op>>, n: nat,
                           msqid: int, mtype: int, flags: Flags, msgsz: nat,
                           len: int, out: Text)
    requires n <= |env|
    reads k
  {
    && ReadAt(sys, env, n, msqid, mtype, flags, msgsz) == (k.View(), Reply(len, out))
    && (len < 0 ==> k.View() == Others(sys, env, n))
  }

  lemma ReceivedCode(k: Kernel, sys: System, env: seq<seq<Op>>, n: nat,
                     msqid: int, mtype: int, flags: Flags, msgsz: nat, len: int, out: Text)
    requires n <= |env| && Received(k, sys, env, n, msqid, mtype, flags, msgsz, len, out)
    ensures ReadAt(sys, env, n, msqid, mtype, flags, msgsz).1.code == len
    ensures len < 0 ==> k.View() == Others(sys, env, n)
  {
  }

  /** The polling loop of `ku_msgrcv`. */
  method PollRead(k: Kernel, ghost sys: System, env: seq<seq<Op>>, first: int, got: Text,
                  msqid: int, mtype: int, flags: Flags, msgsz: nat)
    returns (len: int, out: Text, polls: nat)
    requires k.Valid() && 1 <= |env| && Received(k, sys, env, 1, msqid, mtype, flags, msgsz, first, got)
    modifies k.Repr
    ensures k.Valid() && 1 <= polls <= |env| && Received(k, sys, env, polls, msqid, mtype, flags, msgsz, len, out)
    ensures len < 0 && len != NOMSQ && len != SHORT ==> polls == |env|
    ensures forall n :: 1 <= n < polls ==>
      var code := ReadAt(sys, env, n, msqid, mtype, flags, msgsz).1.code; code < 0 && code != NOMSQ && code != SHORT
  {
    hide ReadAt, Others, Received, Kernel.Valid;
    len, out, polls := first, got, 1;
    while len < 0 && len != NOMSQ && len != SHORT && polls < |env|
      invariant k.Valid() && 1 <= polls <= |env| && Received(k, sys, env, polls, msqid, mtype, flags, msgsz, len, out)
      invariant fresh(k.Repr - old(k.Repr))
      invariant forall n :: 1 <= n < polls ==>
        var code := ReadAt(sys, env, n, msqid, mtype, flags, msgsz).1.code; code < 0 && code != NOMSQ && code != SHORT
      decreases |env| - polls
    {
      ReceivedCode(k, sys, env, polls, msqid, mtype, flags, msgsz, len, out);
      len, out := TryRead(k, sys, env, polls, msqid, mtype, flags, msgsz);
      polls := polls + 1;
    }
  }

  /** `ku_msgrcv`. `polls` is the number of read attempts made. */
  method MsgRcv(k: Kernel, msqid: int, msgsz: nat, mtype: int, msgflg: Flags, env: seq<seq<Op>>)
    returns (res: Outcome, out: Text, polls: nat)
    requires k.Valid()
    modifies k.Repr
    ensures k.Valid() && polls <= |env|
    // it fails at once exactly when the queue is not recognised
    ensures res == Returned(-1) && polls == 0 <==> !Has(old(k.View()), msqid) || msqid < 0
    // it returns n >= 0 exactly when its last attempt delivered, the one removal it made
    ensures res.Returned? && res.code >= 0 <==>
      polls >= 1 && ReadAt(old(k.View()), env, polls, msqid, mtype, msgflg, msgsz).1.code >= 0
    ensures res.Returned? && res.code >= 0 ==>
      ReadAt(old(k.View()), env, polls, msqid, mtype, msgflg, msgsz) == (k.View(), Reply(res.code, out))
    // anything else it returns is FAIL, and unless it delivers it has changed nothing
    ensures res.Returned? && res.code < 0 ==> res.code == -1
    ensures res.StillPolling? || res.code < 0 ==> k.View() == Others(old(k.View()), env, polls) && out == []
    // having polled, a call that may wait fails exactly when the queue is gone or the message does not fit
    ensures msgflg & 0xF000_0000 == 0 && polls >= 1 ==>
      (res == Returned(-1) <==>
        var code := ReadAt(old(k.View()), env, polls, msqid, mtype, msgflg, msgsz).1.code;
        code == NOMSQ || code == SHORT)
    // and it goes on polling exactly after any other refusal
    ensures msgflg & 0xF000_0000 == 0 && polls >= 1 ==>
      (res.StillPolling? <==>
        var code := ReadAt(old(k.View()), env, polls, msqid, mtype, msgflg, msgsz).1.code;
        code < 0 && code != NOMSQ && code != SHORT)
    ensures forall n :: 1 <= n < polls ==>
      var code := ReadAt(old(k.View()), env, n, msqid, mtype, msgflg, msgsz).1.code;
      code < 0 && code != NOMSQ && code != SHORT
    ensures res.StillPolling? ==> polls == |env|
    // a call that does not wait makes one attempt, and fails exactly when it is refused
    ensures msgflg & 0xF000_0000 != 0 && polls >= 1 ==> polls == 1 && res.Returned?
    ensures msgflg & 0xF000_0000 != 0 && polls == 1 ==>
      (res == Returned(-1) <==> ReadAt(old(k.View()), env, 1, msqid, mtype, msgflg, msgsz).1.code < 0)
  {
    hide ReadAt, Others;
    ghost var sys := k.View();
    OthersNone(sys, env);
    CheckFailsIff(sys, msqid);
    FlagBits(msgflg);
    hide NoWait, Check;
    var check := k.Check(msqid);
    if check < 0 { return Returned(FAIL), [], 0; }
    if |env| == 0 { return StillPolling, [], 0; }
    var len;
    len, out := TryRead(k, sys, env, 0, msqid, mtype, msgflg, msgsz);
    polls := 1;
    if len < 0 {
      if !NoWait(msgflg) {
        len, out, polls := PollRead(k, sys, env, len, out, msqid, mtype, msgflg, msgsz);
        if len == NOMSQ || len == SHORT { return Returned(FAIL), [], polls; }
        if len < 0 { return StillPolling, [], polls; }
      } else {
        return Returned(FAIL), [], polls;
      }
    }
    return Returned(len), out, polls;
  }
}
