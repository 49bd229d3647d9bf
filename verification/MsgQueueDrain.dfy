/**
 When can the receivers of a queue empty it? A read is refused with NOVOL while the queued bytes
 are zero, so empty messages can be stuck; this module says exactly when.
 */
module MsgQueueDrain {
  import opened Common
  import opened MsgQueue
  import opened MsgQueueLaws

  /** The parameters of one read. */
  datatype Request = Request(mtype: int, flags: Flags, len: nat)

  function PullOne(q: Queue, r: Request): (Queue, Reply) { Pull(q, r.mtype, r.flags, r.len) }

  /** The queue after these reads, made one after the other. */
  function PullAll(q: Queue, reqs: seq<Request>): Queue
    decreases |reqs|
  {
    if reqs == [] then q else PullAll(PullOne(q, reqs[0]).0, reqs[1..])
  }

  /** Every one of these reads delivers a message. */
  predicate AllDelivered(q: Queue, reqs: seq<Request>)
    decreases |reqs|
  {
    reqs == [] || (PullOne(q, reqs[0]).1.code >= 0 && AllDelivered(PullOne(q, reqs[0]).0, reqs[1..]))
  }

  /** There are reads, each of which delivers, that empty the queue. */
  ghost predicate Drainable(q: Queue) { exists reqs :: AllDelivered(q, reqs) && PullAll(q, reqs).msgs == [] }

  /** Message i is not empty and the newest of its type. */
  predicate Keeper(msgs: seq<Message>, i: nat) {
    i < |msgs| && msgs[i].text != [] && forall j :: i < j < |msgs| ==> msgs[j].mtype != msgs[i].mtype
  }

  /** The newest message of some type is not empty. */
  predicate SomeKeeper(msgs: seq<Message>) { exists i :: 0 <= i < |msgs| && Keeper(msgs, i) }

  lemma {:induction false} VolumePositive(msgs: seq<Message>)
    ensures Volume(msgs) > 0 <==> exists i :: 0 <= i < |msgs| && msgs[i].text != []
  {
    if msgs != [] {
      var front := Front(msgs);
      VolumePositive(front);
      assert forall i :: 0 <= i < |front| ==> front[i] == msgs[i];
      assert Last(msgs) == msgs[|msgs| - 1];
    }
  }

  // ---------------------------------------------------------------- non-empty messages

  /** Every message that these calls send is non-empty. */
  ghost predicate SendsNonEmpty(ops: seq<Op>) { forall op :: op in ops && op.Write? ==> op.text != [] }

  predicate NoneEmpty(msgs: seq<Message>) { forall i :: 0 <= i < |msgs| ==> msgs[i].text != [] }

  /** Then no message in any queue is empty. */
  lemma {:induction false} SentNonEmpty(ops: seq<Op>, key: int)
    requires SendsNonEmpty(ops)
    ensures NoneEmpty(Queued(Run([], ops), key))
    decreases |ops|
  {
    if ops != [] {
      var sys, op := Run([], Front(ops)), Last(ops);
      SentNonEmpty(Front(ops), key);
      RunPositiveUnique(Front(ops));
      ApplyLookup(sys, op, key);
      assert op in ops;
      if op.key == key && Has(sys, key) { StaysNonEmpty(Lookup(sys, key).value, op); }
    }
  }

  lemma StaysNonEmpty(q: Queue, op: Op)
    requires NoneEmpty(q.msgs) && (op.Write? ==> op.text != [])
    ensures NoneEmpty(MsgsOf(LookupAfter(Some(q), op)))
  {
    if op.Read? {
      var i := FindType(q.msgs, op.mtype);
      if i < |q.msgs| { forall j | 0 <= j < |q.msgs| - 1 { CutAt(q.msgs, i, j); } }
    }
  }

  /** Every queue that has messages has bytes, and NOVOL is never the answer. */
  lemma NonEmptyNeverNovol(ops: seq<Op>, key: int, mtype: int, flags: Flags, len: nat)
    requires SendsNonEmpty(ops)
    ensures Has(Run([], ops), key) ==> var q := Lookup(Run([], ops), key).value; q.size >= 1 <==> q.vol >= 1
    ensures DoRead(Run([], ops), key, mtype, flags, len).1.code != 0xFDEF_CE03 - 0x1_0000_0000
  {
    RunAccounted(ops);
    SentNonEmpty(ops, key);
    var sys := Run([], ops);
    if Has(sys, key) {
      var q := Lookup(sys, key).value;
      assert Accounted(q);
      VolumePositive(q.msgs);
      ReadRefusedIff(q, mtype, flags, len);
    }
  }

  // ---------------------------------------------------------------- any draining at all

  /** Reading message f, the first of its type, whole. */
  function Whole(m: Message): Request { Request(m.mtype, 0, |m.text|) }

  lemma PullWhole(q: Queue, f: nat)
    requires Accounted(q) && f < |q.msgs| && FindType(q.msgs, q.msgs[f].mtype) == f && Volume(q.msgs) > 0
    ensures var (q', reply) := PullOne(q, Whole(q.msgs[f]));
      reply.code >= 0 && q'.msgs == Cut(q.msgs, f) && Accounted(q')
  {
    PullAccounted(q, q.msgs[f].mtype, 0, |q.msgs[f].text|);
  }

  /** Another message than the keeper that can be read next. */
  lemma NextToPull(msgs: seq<Message>, i: nat) returns (f: nat, k: nat)
    requires Keeper(msgs, i) && |msgs| >= 2
    ensures f < |msgs| && f != i && FindType(msgs, msgs[f].mtype) == f
    ensures Keeper(Cut(msgs, f), k)
  {
    f := if i == 0 then 1 else 0;
    k := if i == 0 then 0 else i - 1;
    var rest := Cut(msgs, f);
    assert forall j :: 0 <= j < |rest| ==> rest[j] == msgs[if j < f then j else j + 1];
  }

  lemma {:induction false} KeeperDrains(q: Queue, i: nat) returns (reqs: seq<Request>)
    requires Accounted(q) && Keeper(q.msgs, i)
    ensures AllDelivered(q, reqs) && PullAll(q, reqs).msgs == [] && |reqs| == |q.msgs|
    ensures Accounted(PullAll(q, reqs))
    decreases |q.msgs|
  {
    VolumePositive(q.msgs);
    if |q.msgs| == 1 {
      PullWhole(q, 0);
      reqs := [Whole(q.msgs[0])];
    } else {
      var f, k := NextToPull(q.msgs, i);
      PullWhole(q, f);
      var r := Whole(q.msgs[f]);
      var rest := KeeperDrains(PullOne(q, r).0, k);
      reqs := [r] + rest;
      assert reqs[1..] == rest;
    }
  }

  /** A delivered message was not the last keeper, unless it was the last message. */
  lemma {:induction false} DrainNeedsKeeper(q: Queue, reqs: seq<Request>)
    requires Accounted(q) && AllDelivered(q, reqs) && PullAll(q, reqs).msgs == []
    ensures q.msgs == [] || SomeKeeper(q.msgs)
    decreases |reqs|
  {
    if reqs != [] && q.msgs != [] {
      var r := reqs[0];
      var q' := PullOne(q, r).0;
      var f := FindType(q.msgs, r.mtype);
      PullAccounted(q, r.mtype, r.flags, r.len);
      DrainNeedsKeeper(q', reqs[1..]);
      VolumePositive(q.msgs);
      if q'.msgs == [] {
        assert Keeper(q.msgs, 0);
      } else {
        var i' :| 0 <= i' < |q'.msgs| && Keeper(q'.msgs, i');
        KeeperBefore(q.msgs, f, i');
      }
    }
  }

  lemma KeeperBefore(msgs: seq<Message>, f: nat, i': nat)
    requires f < |msgs| && FindType(msgs, msgs[f].mtype) == f && Keeper(Cut(msgs, f), i')
    ensures SomeKeeper(msgs)
  {
    var rest := Cut(msgs, f);
    var i := if i' < f then i' else i' + 1;
    CutAt(msgs, f, i');
    forall j | i < j < |msgs| ensures msgs[j].mtype != msgs[i].mtype {
      if j != f {
        var k := if j < f then j else j - 1;
        CutAt(msgs, f, k);
        assert rest[k].mtype != rest[i'].mtype;
      }
    }
    assert Keeper(msgs, i);
  }

  /** Receivers can empty a queue if and only if it is empty or the newest message of some type is
      not empty. */
  lemma DrainableIff(q: Queue)
    requires Accounted(q)
    ensures Drainable(q) <==> q.msgs == [] || SomeKeeper(q.msgs)
  {
    if Drainable(q) {
      var reqs :| AllDelivered(q, reqs) && PullAll(q, reqs).msgs == [];
      DrainNeedsKeeper(q, reqs);
    }
    if q.msgs == [] {
      assert AllDelivered(q, []) && PullAll(q, []).msgs == [];
    } else if SomeKeeper(q.msgs) {
      var i :| 0 <= i < |q.msgs| && Keeper(q.msgs, i);
      var reqs := KeeperDrains(q, i);
    }
  }

  // ---------------------------------------------------------------- draining from the head

  /** Each request asks for the type of the message that is then at the head, and accepts a
      truncated text. */
  ghost predicate AsksForHeads(msgs: seq<Message>, reqs: seq<Request>) {
    && |reqs| == |msgs|
    && forall k :: 0 <= k < |msgs| ==> reqs[k].mtype == msgs[k].mtype && reqs[k].flags & 0x0F00_0000 != 0
  }

  lemma PullHead(q: Queue, r: Request)
    requires Accounted(q) && q.msgs != [] && r.mtype == q.msgs[0].mtype && r.flags & 0x0F00_0000 != 0
    ensures var (q', reply) := PullOne(q, r);
      if Volume(q.msgs) > 0 then reply.code >= 0 && q'.msgs == q.msgs[1..] && Accounted(q')
      else reply.code == NOVOL
  {
    PullAccounted(q, r.mtype, r.flags, r.len);
    assert FindType(q.msgs, r.mtype) == 0;
    assert Cut(q.msgs, 0) == q.msgs[1..];
  }

  /** Receives that ask for the head's type, whatever length they offer, all deliver if and only if
      the last message is not empty, and then they leave the queue empty. */
  lemma {:induction false} HeadDrainsIff(q: Queue, reqs: seq<Request>)
    requires Accounted(q) && AsksForHeads(q.msgs, reqs)
    ensures AllDelivered(q, reqs) <==> q.msgs == [] || Last(q.msgs).text != []
    ensures AllDelivered(q, reqs) ==> PullAll(q, reqs).msgs == [] && Accounted(PullAll(q, reqs))
    decreases |reqs|
  {
    if q.msgs != [] {
      VolumePositive(q.msgs);
      PullHead(q, reqs[0]);
      if Volume(q.msgs) > 0 {
        assert AsksForHeads(q.msgs[1..], reqs[1..]);
        HeadDrainsIff(PullOne(q, reqs[0]).0, reqs[1..]);
      }
    }
  }

  // ---------------------------------------------------------------- in the system

  function ReadOp(key: int, r: Request): Op { Read(key, r.mtype, r.flags, r.len) }

  function ReadOps(key: int, reqs: seq<Request>): seq<Op> {
    seq(|reqs|, i requires 0 <= i < |reqs| => ReadOp(key, reqs[i]))
  }

  lemma {:induction false} PullAllSnoc(q: Queue, reqs: seq<Request>)
    requires reqs != []
    ensures PullAll(q, reqs) == PullOne(PullAll(q, Front(reqs)), Last(reqs)).0
    decreases |reqs|
  {
    if |reqs| > 1 {
      assert Front(reqs)[1..] == Front(reqs[1..]);
      PullAllSnoc(PullOne(q, reqs[0]).0, reqs[1..]);
    }
  }

  lemma {:induction false} ReadsPull(sys: System, key: int, reqs: seq<Request>)
    requires PositiveUnique(sys) && Has(sys, key)
    ensures PositiveUnique(Run(sys, ReadOps(key, reqs)))
    ensures Lookup(Run(sys, ReadOps(key, reqs)), key) == Some(PullAll(Lookup(sys, key).value, reqs))
    decreases |reqs|
  {
    var ops := ReadOps(key, reqs);
    if reqs != [] {
      assert Front(ops) == ReadOps(key, Front(reqs));
      ReadsPull(sys, key, Front(reqs));
      PullAllSnoc(Lookup(sys, key).value, reqs);
      ApplyLookup(Run(sys, Front(ops)), Last(ops), key);
      ApplyPositiveUnique(Run(sys, Front(ops)), Last(ops));
    }
  }

  /** Drain progress: in any reachable system, if the newest message of some type in a queue is
      not empty, then as many reads as it has messages make room for any write of up to 135
      bytes. */
  lemma DrainThenWrite(ops: seq<Op>, key: int, mtype: int, text: Text) returns (reqs: seq<Request>)
    requires Has(Run([], ops), key) && |text| <= 135
    requires Queued(Run([], ops), key) == [] || SomeKeeper(Queued(Run([], ops), key))
    ensures |reqs| == |Queued(Run([], ops), key)|
    ensures AllDelivered(Lookup(Run([], ops), key).value, reqs)
    ensures DoWrite(Run(Run([], ops), ReadOps(key, reqs)), key, mtype, text).1.code == SUCCESS
  {
    var sys := Run([], ops);
    RunAccounted(ops);
    RunPositiveUnique(ops);
    var q := Lookup(sys, key).value;
    assert Accounted(q);
    if q.msgs == [] {
      reqs := [];
    } else {
      var i :| 0 <= i < |q.msgs| && Keeper(q.msgs, i);
      reqs := KeeperDrains(q, i);
    }
    ReadsPull(sys, key, reqs);
  }

  /** In any reachable system: receives that ask for the head's type empty a queue whose last
      message is not empty, and then any write of up to 135 bytes is accepted. */
  lemma HeadDrainThenWrite(ops: seq<Op>, key: int, reqs: seq<Request>, mtype: int, text: Text)
    requires Has(Run([], ops), key) && AsksForHeads(Queued(Run([], ops), key), reqs) && |text| <= 135
    requires Queued(Run([], ops), key) == [] || Last(Queued(Run([], ops), key)).text != []
    ensures AllDelivered(Lookup(Run([], ops), key).value, reqs)
    ensures DoWrite(Run(Run([], ops), ReadOps(key, reqs)), key, mtype, text).1.code == SUCCESS
  {
    var sys := Run([], ops);
    RunAccounted(ops);
    RunPositiveUnique(ops);
    var q := Lookup(sys, key).value;
    assert Accounted(q);
    HeadDrainsIff(q, reqs);
    ReadsPull(sys, key, reqs);
    EmptyAccepts(Run(sys, ReadOps(key, reqs)), key, mtype, text);
  }

  lemma EmptyAccepts(sys: System, key: int, mtype: int, text: Text)
    requires Has(sys, key) && Lookup(sys, key).value.msgs == [] && Accounted(Lookup(sys, key).value)
    requires |text| <= 135
    ensures DoWrite(sys, key, mtype, text).1.code == SUCCESS
  {
  }

  /** Drain progress: if every message sent is non-empty, then whatever was called before, as many
      receives as the queue has messages, each asking for the head's type, all deliver, and after
      them any write of up to 135 bytes is accepted. */
  lemma DrainProgress(ops: seq<Op>, key: int, reqs: seq<Request>, mtype: int, text: Text)
    requires SendsNonEmpty(ops) && |text| <= 135
    requires Has(Run([], ops), key) && AsksForHeads(Queued(Run([], ops), key), reqs)
    ensures AllDelivered(Lookup(Run([], ops), key).value, reqs)
    ensures DoWrite(Run(Run([], ops), ReadOps(key, reqs)), key, mtype, text).1.code == SUCCESS
  {
    SentNonEmpty(ops, key);
    HeadDrainThenWrite(ops, key, reqs, mtype, text);
  }

  // ---------------------------------------------------------------- wedged queues

  /** No read and no write of any kind succeeds. */
  ghost predicate Wedged(q: Queue) {
    && (forall mtype, flags, len: nat :: Pull(q, mtype, flags, len).1.code < 0)
    && (forall mtype, text :: Push(q, mtype, text).1 != SUCCESS)
  }

  /** A queue is beyond help exactly when it holds ten messages and all of them are empty. */
  lemma WedgedIff(q: Queue)
    requires Accounted(q)
    ensures Wedged(q) <==> |q.msgs| == 10 && forall i :: 0 <= i < |q.msgs| ==> q.msgs[i].text == []
  {
    VolumePositive(q.msgs);
    if Wedged(q) {
      assert Push(q, 0, []).1 != SUCCESS;
      var m := q.msgs[0];
      assert FindType(q.msgs, m.mtype) == 0;
      assert Pull(q, m.mtype, 0, |m.text|).1.code < 0;
    }
  }

  lemma WedgedStays(found: Option<Queue>, op: Op)
    requires found.Some? && Wedged(found.value) && !op.Close?
    ensures LookupAfter(found, op) == found
  {
    match op
    case Get(_, _) =>
    case Write(_, mtype, text) => assert Push(found.value, mtype, text).1 != SUCCESS;
    case Read(_, mtype, flags, len) => assert Pull(found.value, mtype, flags, len).1.code < 0;
  }

  /** And nothing but closing it helps: every other run leaves it as it is. */
  lemma {:induction false} WedgedForever(sys: System, ops: seq<Op>, key: int)
    requires PositiveUnique(sys) && Has(sys, key) && Wedged(Lookup(sys, key).value)
    requires forall op :: op in ops ==> op != Close(key)
    ensures PositiveUnique(Run(sys, ops)) && Lookup(Run(sys, ops), key) == Lookup(sys, key)
    decreases |ops|
  {
    if ops != [] {
      assert forall op :: op in Front(ops) ==> op in ops;
      WedgedForever(sys, Front(ops), key);
      assert Last(ops) in ops;
      hide Wedged;
      ApplyLookup(Run(sys, Front(ops)), Last(ops), key);
      if Last(ops).key == key { WedgedStays(Lookup(sys, key), Last(ops)); }
      ApplyPositiveUnique(Run(sys, Front(ops)), Last(ops));
    }
  }

  function EmptyWrites(key: int, n: nat): seq<Op> { seq(n, i => Write(key, 0, [])) }

  lemma {:induction false} EmptyWritesFill(key: int, n: nat)
    requires n <= 10 && key > 0
    ensures var sys := Run([], [Get(key, 0)] + EmptyWrites(key, n));
      Has(sys, key) && |Queued(sys, key)| == n
      && forall i :: 0 <= i < n ==> Queued(sys, key)[i].text == []
    decreases n
  {
    var ops := [Get(key, 0)] + EmptyWrites(key, n);
    RunAccounted(Front(ops));
    RunPositiveUnique(Front(ops));
    ApplyLookup(Run([], Front(ops)), Last(ops), key);
    if n == 0 {
      assert Front(ops) == [];
    } else {
      assert Front(ops) == [Get(key, 0)] + EmptyWrites(key, n - 1);
      EmptyWritesFill(key, n - 1);
      var q := Lookup(Run([], Front(ops)), key).value;
      assert Accounted(q);
      VolumePositive(q.msgs);
    }
  }

  /** Such a queue is reachable: create it and send ten empty messages. */
  lemma WedgedIsReachable(key: int)
    requires key > 0
    ensures var sys := Run([], [Get(key, 0)] + EmptyWrites(key, 10)); Has(sys, key) && Wedged(Lookup(sys, key).value)
  {
    var ops := [Get(key, 0)] + EmptyWrites(key, 10);
    EmptyWritesFill(key, 10);
    RunAccounted(ops);
    var q := Lookup(Run([], ops), key).value;
    assert Accounted(q);
    WedgedIff(q);
  }
}
