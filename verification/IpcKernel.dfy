/**
 The message-queue driver as it works on its state: queue objects whose counters and message
 lists change in place, and blocks of memory that are allocated and freed. Each method is proved
 against the value functions of MsgQueue, and the allocated blocks are at all times exactly those
 that the linked queues and messages own.
 */
module IpcKernel {
  import opened Common
  import opened MsgQueue

  type Addr = nat

  /** The four blocks of a message: ku_ipc_msg, its mybuf, that one's msgbuf, and the text. */
  type Blocks = b: seq<Addr> | |b| == 4 witness [0, 0, 0, 0]

  /** A linked message and where it is stored. */
  datatype Node = Node(msg: Message, blocks: Blocks)

  lemma Assoc(a: multiset<Addr>, b: multiset<Addr>, c: multiset<Addr>)
    ensures (a + b) + c == a + (b + c)
  {
  }

  /** a + (b + c) less b is a + c. */
  lemma Pick(a: multiset<Addr>, b: multiset<Addr>, c: multiset<Addr>)
    ensures a + (b + c) == (a + c) + b
  {
  }

  function NodeBlocks(node: Node): multiset<Addr> { multiset(node.blocks) }

  function ListBlocks(nodes: seq<Node>): multiset<Addr> {
    if nodes == [] then multiset{} else ListBlocks(Front(nodes)) + NodeBlocks(Last(nodes))
  }

  lemma {:induction false} ListBlocksConcat(a: seq<Node>, b: seq<Node>)
    ensures ListBlocks(a + b) == ListBlocks(a) + ListBlocks(b)
  {
    if b == [] {
      assert a + b == a;
    } else {
      assert Front(a + b) == a + Front(b) && Last(a + b) == Last(b);
      ListBlocksConcat(a, Front(b));
      Assoc(ListBlocks(a), ListBlocks(Front(b)), NodeBlocks(Last(b)));
    }
  }

  lemma ListBlocksAround(a: seq<Node>, node: Node, b: seq<Node>)
    ensures ListBlocks(a + ([node] + b)) == ListBlocks(a + b) + NodeBlocks(node)
  {
    ListBlocksConcat(a, [node] + b);
    ListBlocksConcat([node], b);
    ListBlocksConcat(a, b);
    ListBlocksOne(node);
    Pick(ListBlocks(a), NodeBlocks(node), ListBlocks(b));
  }

  lemma ListBlocksCut(nodes: seq<Node>, i: nat)
    requires i < |nodes|
    ensures ListBlocks(nodes) == ListBlocks(Cut(nodes, i)) + NodeBlocks(nodes[i])
  {
    CutParts(nodes, i);
    ListBlocksAround(nodes[..i], nodes[i], nodes[i + 1..]);
  }

  lemma ListBlocksOne(node: Node)
    ensures ListBlocks([node]) == NodeBlocks(node)
  {
    assert Front([node]) == [];
  }

  lemma {:induction false} ListBlocksPrefix(nodes: seq<Node>, i: nat)
    requires i <= |nodes|
    ensures ListBlocks(nodes[..i]) <= ListBlocks(nodes)
  {
    assert nodes == nodes[..i] + nodes[i..];
    ListBlocksConcat(nodes[..i], nodes[i..]);
  }

  /** Of blocks that are still to be freed, part is still allocated when the rest is freed. */
  lemma StillLeft(freed: multiset<Addr>, part: multiset<Addr>, left: multiset<Addr>, all: multiset<Addr>)
    requires left + freed == all && freed + part <= all
    ensures part <= left && (left - part) + (freed + part) == all
  {
    forall a ensures part[a] <= left[a] {
      assert (freed + part)[a] <= all[a];
      assert (left + freed)[a] == all[a];
    }
  }

  lemma NextBlocks(nodes: seq<Node>, i: nat, left: multiset<Addr>, all: multiset<Addr>)
    requires i < |nodes| && left + ListBlocks(nodes[..i]) == all && ListBlocks(nodes) <= all
    ensures NodeBlocks(nodes[i]) <= left
    ensures (left - NodeBlocks(nodes[i])) + ListBlocks(nodes[..i + 1]) == all
  {
    var upto := nodes[..i + 1];
    assert Front(upto) == nodes[..i] && Last(upto) == nodes[i];
    ListBlocksPrefix(nodes, i + 1);
    StillLeft(ListBlocks(nodes[..i]), NodeBlocks(nodes[i]), left, all);
  }

  /** The contents of a queue object. */
  datatype MsqRec = MsqRec(key: int, self: Addr, nodes: seq<Node>, size: int, vol: int)

  function RecBlocks(rec: MsqRec): multiset<Addr> { multiset{rec.self} + ListBlocks(rec.nodes) }

  function Messages(nodes: seq<Node>): seq<Message> {
    seq(|nodes|, i requires 0 <= i < |nodes| => nodes[i].msg)
  }

  function ValueOf(rec: MsqRec): Queue { Queue(rec.key, Messages(rec.nodes), rec.size, rec.vol) }

  function Values(recs: seq<MsqRec>): System {
    seq(|recs|, i requires 0 <= i < |recs| => ValueOf(recs[i]))
  }

  function Held(recs: seq<MsqRec>): multiset<Addr> {
    if recs == [] then multiset{} else Held(Front(recs)) + RecBlocks(Last(recs))
  }

  lemma {:induction false} HeldConcat(a: seq<MsqRec>, b: seq<MsqRec>)
    ensures Held(a + b) == Held(a) + Held(b)
  {
    if b == [] {
      assert a + b == a;
    } else {
      assert Front(a + b) == a + Front(b) && Last(a + b) == Last(b);
      HeldConcat(a, Front(b));
      Assoc(Held(a), Held(Front(b)), RecBlocks(Last(b)));
    }
  }

  lemma HeldOne(rec: MsqRec)
    ensures Held([rec]) == RecBlocks(rec)
  {
    assert Front([rec]) == [];
  }

  lemma HeldAround(a: seq<MsqRec>, rec: MsqRec, b: seq<MsqRec>)
    ensures Held(a + ([rec] + b)) == Held(a + b) + RecBlocks(rec)
  {
    HeldConcat(a, [rec] + b);
    HeldConcat([rec], b);
    HeldConcat(a, b);
    HeldOne(rec);
    Pick(Held(a), RecBlocks(rec), Held(b));
  }

  lemma HeldCut(recs: seq<MsqRec>, i: nat)
    requires i < |recs|
    ensures Held(recs) == Held(Cut(recs, i)) + RecBlocks(recs[i])
  {
    CutParts(recs, i);
    HeldAround(recs[..i], recs[i], recs[i + 1..]);
  }

  lemma HeldUpdate(recs: seq<MsqRec>, i: nat, rec: MsqRec)
    requires i < |recs|
    ensures Held(recs[i := rec]) + RecBlocks(recs[i]) == Held(recs) + RecBlocks(rec)
  {
    HeldCut(recs, i);
    HeldCut(recs[i := rec], i);
    CutUpdate(recs, i, rec);
    Exchange(Held(Cut(recs, i)), RecBlocks(rec), RecBlocks(recs[i]));
  }

  lemma CutUpdate<T>(s: seq<T>, i: nat, x: T)
    requires i < |s|
    ensures Cut(s[i := x], i) == Cut(s, i)
  {
  }

  lemma Exchange(c: multiset<Addr>, a: multiset<Addr>, b: multiset<Addr>)
    ensures (c + a) + b == (c + b) + a
  {
  }

  /** `struct ku_ipc_msq`. */
  class Msq {
    const key: int
    const self: Addr
    var nodes: seq<Node>
    var size: int
    var vol: int

    constructor (key: int, self: Addr)
      ensures Rec() == MsqRec(key, self, [], 0, 0)
    {
      this.key, this.self := key, self;
      nodes, size, vol := [], 0, 0;
    }

    function Rec(): MsqRec
      reads this
    {
      MsqRec(key, self, nodes, size, vol)
    }
  }

  /** The multisets of the first one, two and three blocks. */
  lemma FourParts(b: Blocks) returns (one: multiset<Addr>, two: multiset<Addr>, three: multiset<Addr>)
    ensures multiset{} + multiset{b[0]} == one
    ensures one + multiset{b[1]} == two && two + multiset{b[2]} == three
    ensures three + multiset{b[3]} == multiset(b)
  {
    one, two, three := multiset(b[..1]), multiset(b[..2]), multiset(b[..3]);
    assert b[..1] == [b[0]] && b[..2] == b[..1] + [b[1]] && b[..3] == b[..2] + [b[2]] && b == b[..3] + [b[3]];
  }

  lemma OneLess(live: multiset<Addr>, a: Addr, rest: multiset<Addr>)
    requires rest + multiset{a} <= live
    ensures a in live && rest <= live - multiset{a}
    ensures live - multiset{a} - rest == live - (rest + multiset{a})
  {
    assert (rest + multiset{a})[a] <= live[a];
    forall x ensures rest[x] <= (live - multiset{a})[x] {
      assert (rest + multiset{a})[x] <= live[x];
    }
  }

  /** The allocator, with the functions that create and delete whole messages and queues. */
  class Memory {
    var live: multiset<Addr>   // the blocks that are allocated

    /** No block is allocated twice. */
    ghost predicate Once()
      reads this
    {
      forall a :: live[a] <= 1
    }

    constructor ()
      ensures live == multiset{} && Once()
    {
      live := multiset{};
    }

    /** Any block that is not allocated now, one that was freed included. */
    method Kmalloc() returns (a: Addr)
      modifies this
      ensures a !in old(live) && live == old(live) + multiset{a}
      ensures old(Once()) ==> Once()
    {
      a := FreshAddress(set b | b in live, 0);
      live := live + multiset{a};
    }

    /** Freeing a block that is not allocated is an error. */
    method Kfree(a: Addr)
      requires a in live
      modifies this
      ensures live == old(live) - multiset{a}
      ensures old(Once()) ==> Once()
    {
      live := live - multiset{a};
    }

    /** `ku_ipc_msg_create`. */
    method MsgCreate(index: int, mtype: int, text: Text) returns (node: Node)
      modifies this
      ensures node.msg == Message(index, mtype, text)
      ensures old(Once()) ==> Once()
      ensures live == old(live) + NodeBlocks(node)
    {
      var self := Kmalloc();
      var buf := Kmalloc();
      var msgp := Kmalloc();
      var body := Kmalloc();
      node := Node(Message(index, mtype, text), [self, buf, msgp, body]);
    }

    /** `kfree` of one block while the rest is still to be freed. */
    method FreeOne(a: Addr, ghost rest: multiset<Addr>)
      requires rest + multiset{a} <= live
      modifies this
      ensures rest <= live && live - rest == old(live) - (rest + multiset{a})
      ensures old(Once()) ==> Once()
    {
      OneLess(live, a, rest);
      Kfree(a);
    }

    /** `ku_ipc_msg_delete`. */
    method MsgDelete(node: Node)
      requires NodeBlocks(node) <= live
      modifies this
      ensures live == old(live) - NodeBlocks(node)
      ensures old(Once()) ==> Once()
    {
      ghost var one, two, three := FourParts(node.blocks);
      FreeOne(node.blocks[3], three);
      FreeOne(node.blocks[2], two);
      FreeOne(node.blocks[1], one);
      FreeOne(node.blocks[0], multiset{});
    }

    /** `ku_ipc_msq_create`. */
    method MsqCreate(key: int) returns (q: Msq)
      modifies this
      ensures fresh(q) && q.Rec() == MsqRec(key, q.self, [], 0, 0)
      ensures old(Once()) ==> Once()
      ensures live == old(live) + multiset{q.self}
    {
      var self := Kmalloc();
      q := new Msq(key, self);
    }

    /** The loop of `ku_ipc_msq_delete`: every linked message is freed. */
    method FreeMessages(nodes: seq<Node>)
      requires ListBlocks(nodes) <= live
      modifies this
      ensures live + ListBlocks(nodes) == old(live)
      ensures old(Once()) ==> Once()
    {
      ghost var all := live;
      assert nodes[..0] == [];
      for i := 0 to |nodes|
        invariant live + ListBlocks(nodes[..i]) == all
        invariant old(Once()) ==> Once()
      {
        NextBlocks(nodes, i, live, all);
        MsgDelete(nodes[i]);
      }
      assert nodes[..|nodes|] == nodes;
    }

    /** `ku_ipc_msq_delete`: the messages and then the queue. */
    method MsqDelete(q: Msq)
      requires RecBlocks(q.Rec()) <= live
      modifies this
      ensures live + RecBlocks(q.Rec()) == old(live)
      ensures old(Once()) ==> Once()
    {
      ghost var all, mine := live, ListBlocks(q.nodes);
      assert mine + multiset{q.self} == RecBlocks(q.Rec());
      FreeMessages(q.nodes);
      StillLeft(mine, multiset{q.self}, live, all);
      Kfree(q.self);
    }
  }

  function Entry(queues: seq<Msq>, i: int): Msq
    requires 0 <= i < |queues|
  {
    queues[i]
  }

  /** No queue object is linked twice. */
  ghost predicate AllDistinct(queues: seq<Msq>) {
    forall i, j :: 0 <= i < j < |queues| ==> Entry(queues, i) != Entry(queues, j)
  }

  lemma OthersDiffer(queues: seq<Msq>, at: nat)
    requires AllDistinct(queues) && at < |queues|
    ensures forall j :: 0 <= j < |queues| && j != at ==> queues[j] != queues[at]
  {
    forall j | 0 <= j < |queues| && j != at ensures queues[j] != queues[at] {
      assert Entry(queues, j) != Entry(queues, at);
    }
  }

  lemma DistinctSnoc(queues: seq<Msq>, msq: Msq)
    requires AllDistinct(queues) && msq !in queues
    ensures AllDistinct(queues + [msq])
  {
    var all := queues + [msq];
    forall i, j | 0 <= i < j < |all| ensures Entry(all, i) != Entry(all, j) {
      if j < |queues| { assert Entry(queues, i) != Entry(queues, j); } else { assert all[i] in queues; }
    }
  }

  lemma DistinctCut(queues: seq<Msq>, at: nat)
    requires AllDistinct(queues) && at < |queues|
    ensures AllDistinct(Cut(queues, at))
  {
    var rest := Cut(queues, at);
    forall i, j | 0 <= i < j < |rest| ensures Entry(rest, i) != Entry(rest, j) {
      CutAt(queues, at, i);
      CutAt(queues, at, j);
      assert Entry(queues, if i < at then i else i + 1) != Entry(queues, if j < at then j else j + 1);
    }
  }

  /** A list without the queue that is found in it. */
  function Unlist(queues: seq<Msq>, msq: Msq, ghost at: nat): (rest: seq<Msq>)
    requires at < |queues| && queues[at] == msq && forall j :: 0 <= j < at ==> queues[j] != msq
    ensures rest == Cut(queues, at)
  {
    if queues[0] == msq then queues[1..]
    else
      [queues[0]] + Unlist(queues[1..], msq, at - 1)
  }

  lemma HeldOfNew(recs: seq<MsqRec>, rec: MsqRec)
    requires rec.nodes == []
    ensures Held(recs + [rec]) == Held(recs) + multiset{rec.self}
  {
    HeldConcat(recs, [rec]);
    HeldOne(rec);
    assert ListBlocks([]) == multiset{};
  }

  lemma NoMessages()
    ensures Messages([]) == []
  {
  }

  lemma ValuesAppend(recs: seq<MsqRec>, rec: MsqRec)
    ensures Values(recs + [rec]) == Values(recs) + [ValueOf(rec)]
  {
  }

  lemma ValuesCut(recs: seq<MsqRec>, i: nat)
    requires i < |recs|
    ensures Values(Cut(recs, i)) == Cut(Values(recs), i)
  {
  }

  lemma CancelRight(a: multiset<Addr>, b: multiset<Addr>, c: multiset<Addr>)
    requires a + c == b + c
    ensures a == b
  {
    assert (a + c) - c == a && (b + c) - c == b;
  }

  lemma ValuesUpdate(recs: seq<MsqRec>, at: nat, rec: MsqRec)
    requires at < |recs|
    ensures Values(recs[at := rec]) == Values(recs)[at := ValueOf(rec)]
  {
  }

  lemma MessagesAppend(nodes: seq<Node>, node: Node)
    ensures Messages(nodes + [node]) == Messages(nodes) + [node.msg]
  {
  }

  lemma MessagesCut(nodes: seq<Node>, i: nat)
    requires i < |nodes|
    ensures Messages(Cut(nodes, i)) == Cut(Messages(nodes), i)
  {
  }

  /** A record that gained one message. */
  lemma HeldGrows(recs: seq<MsqRec>, at: nat, rec': MsqRec, node: Node)
    requires at < |recs| && rec'.self == recs[at].self && rec'.nodes == recs[at].nodes + [node]
    ensures Held(recs[at := rec']) == Held(recs) + NodeBlocks(node)
  {
    HeldUpdate(recs, at, rec');
    ListBlocksConcat(recs[at].nodes, [node]);
    ListBlocksOne(node);
    Grown(Held(recs[at := rec']), recs[at].self, ListBlocks(recs[at].nodes), Held(recs), NodeBlocks(node));
  }

  lemma Part(all: multiset<Addr>, rest: multiset<Addr>, part: multiset<Addr>)
    requires all == rest + part
    ensures part <= all && all - part == rest
  {
  }

  /** From held' + (self + nodes) == held + (self + (nodes + extra)) to held' == held + extra. */
  lemma Grown(held': multiset<Addr>, self: Addr, nodes: multiset<Addr>, held: multiset<Addr>, extra: multiset<Addr>)
    requires held' + (multiset{self} + nodes) == held + (multiset{self} + (nodes + extra))
    ensures held' == held + extra
  {
    var rec := multiset{self} + nodes;
    Assoc(multiset{self}, nodes, extra);
    Pick(held, rec, extra);
    CancelRight(held', held + extra, rec);
  }

  /** A record that lost message i, whose blocks were allocated. */
  lemma HeldShrinks(recs: seq<MsqRec>, at: nat, i: nat, rec': MsqRec)
    requires at < |recs| && rec'.self == recs[at].self && i < |recs[at].nodes| && rec'.nodes == Cut(recs[at].nodes, i)
    ensures NodeBlocks(recs[at].nodes[i]) <= Held(recs)
    ensures Held(recs[at := rec']) == Held(recs) - NodeBlocks(recs[at].nodes[i])
  {
    var gone := NodeBlocks(recs[at].nodes[i]);
    HeldUpdate(recs, at, rec');
    ListBlocksCut(recs[at].nodes, i);
    Assoc(multiset{rec'.self}, ListBlocks(rec'.nodes), gone);
    Shrunk(Held(recs[at := rec']), RecBlocks(recs[at]), Held(recs), gone, RecBlocks(rec'));
  }

  lemma Shrunk(held': multiset<Addr>, rec: multiset<Addr>, held: multiset<Addr>, gone: multiset<Addr>,
               rec': multiset<Addr>)
    requires rec == rec' + gone && held' + rec == held + rec'
    ensures held' == held - gone && gone <= held
  {
    assert held' + rec == (held' + gone) + rec';
    CancelRight(held' + gone, held, rec');
  }

  /** The driver: the list `my_msq`, and the memory it has allocated. */
  class Kernel {
    const mem: Memory
    var queues: seq<Msq>
    ghost var recs: seq<MsqRec>   // the contents of the queues
    ghost var Repr: set<object>   // the objects the driver is made of

    /** The queues as values. */
    ghost function View(): System
      reads `recs
    {
      Values(recs)
    }

    ghost predicate Linked()
      reads `queues, `recs, queues
    {
      && |recs| == |queues|
      && (forall i :: 0 <= i < |queues| ==> recs[i] == queues[i].Rec())
      && AllDistinct(queues)
    }

    /** What is allocated is what the linked queues and messages own, each block by one owner. */
    ghost predicate Intact()
      reads `queues, `recs, queues, mem
    {
      Linked() && mem.Once() && mem.live == Held(recs)
    }

    ghost predicate Valid()
      reads this, Repr
    {
      Framed() && Intact()
    }

    ghost predicate Framed()
      reads this
    {
      this in Repr && mem in Repr && forall i :: 0 <= i < |queues| ==> queues[i] in Repr
    }

    constructor ()
      ensures Valid() && View() == [] && queues == [] && fresh(Repr)
    {
      mem := new Memory();
      queues, recs := [], [];
      new;
      Repr := {this, mem};
    }

    /** `ku_ipc_msq_get`: the first queue in the list with this key. */
    method MsqGet(msqid: int) returns (target: Msq?, ghost at: nat)
      requires Linked()
      ensures at == FindQueue(View(), msqid)
      ensures |View()| == |recs| == |queues|
      ensures target == if Has(View(), msqid) then queues[FindQueue(View(), msqid)] else null
      ensures at < |queues| ==> View()[at] == ValueOf(target.Rec()) && recs[at] == target.Rec()
    {
      target := null;
      at := |queues|;
      for i := 0 to |queues|
        invariant target == null && at == |queues|
        invariant forall j :: 0 <= j < i ==> View()[j].key != msqid
      {
        assert View()[i] == ValueOf(recs[i]);
        if queues[i].key == msqid { return queues[i], i; }
      }
    }

    /** IPC_IOCTL_MSQ_CHECK. */
    method Check(key: int) returns (rtn: int)
      requires Linked()
      ensures rtn == MsgQueue.Check(View(), key)
    {
      var msq, at := MsqGet(key);
      assert msq != null ==> View()[at] == ValueOf(recs[at]);
      rtn := if msq != null then msq.key else NOMSQ;
    }

    method NewNode(index: int, mtype: int, text: Text) returns (node: Node)
      requires Linked() && mem.Once()
      modifies mem
      ensures Linked() && mem.Once() && node.msg == Message(index, mtype, text)
      ensures mem.live == old(mem.live) + NodeBlocks(node)
    {
      node := mem.MsgCreate(index, mtype, text);
    }

    method FreeNode(node: Node)
      requires Linked() && mem.Once() && NodeBlocks(node) <= mem.live
      modifies mem
      ensures Linked() && mem.Once() && mem.live == old(mem.live) - NodeBlocks(node)
    {
      mem.MsgDelete(node);
    }

    method FreeQueue(msq: Msq)
      requires Linked() && mem.Once() && RecBlocks(msq.Rec()) <= mem.live
      modifies mem
      ensures Linked() && mem.Once() && mem.live + RecBlocks(msq.Rec()) == old(mem.live)
    {
      mem.MsqDelete(msq);
    }

    /** `list_add_tail` on the list of queues. */
    method Install(msq: Msq)
      requires Linked() && msq !in queues
      modifies this`queues, this`recs
      ensures Linked() && queues == old(queues) + [msq] && recs == old(recs) + [msq.Rec()]
    {
      DistinctSnoc(queues, msq);
      queues, recs := queues + [msq], recs + [msq.Rec()];
    }

    /** `list_del` on the list of queues. */
    method Uninstall(msq: Msq, ghost at: nat)
      requires Linked() && at < |queues| && queues[at] == msq
      modifies this`queues, this`recs
      ensures Linked() && queues == Cut(old(queues), at) && recs == Cut(old(recs), at)
    {
      OthersDiffer(queues, at);
      DistinctCut(queues, at);
      queues, recs := Unlist(queues, msq, at), Cut(recs, at);
      forall j | 0 <= j < |queues| ensures recs[j] == queues[j].Rec() {
        CutAt(old(queues), at, j);
        CutAt(old(recs), at, j);
      }
    }

    /** `list_add_tail` on the messages of a queue, and its counters. */
    method AppendNode(msq: Msq, ghost at: nat, node: Node)
      requires Linked() && at < |queues| && queues[at] == msq
      modifies msq`nodes, msq`size, msq`vol, this`recs
      ensures Linked() && recs == old(recs)[at := msq.Rec()]
      ensures msq.Rec() == MsqRec(msq.key, msq.self, old(msq.nodes) + [node], old(msq.size) + 1,
                                  old(msq.vol) + |node.msg.text|)
    {
      OthersDiffer(queues, at);
      msq.nodes := msq.nodes + [node];
      msq.size := msq.size + 1;
      msq.vol := msq.vol + |node.msg.text|;
      recs := recs[at := msq.Rec()];
    }

    /** `list_del` on the messages of a queue, and its counters. */
    method RemoveNode(msq: Msq, ghost at: nat, i: nat)
      requires Linked() && at < |queues| && queues[at] == msq && i < |msq.nodes|
      modifies msq`nodes, msq`size, msq`vol, this`recs
      ensures Linked() && recs == old(recs)[at := msq.Rec()]
      ensures msq.Rec() == MsqRec(msq.key, msq.self, Cut(old(msq.nodes), i), old(msq.size) - 1,
                                  old(msq.vol) - |old(msq.nodes)[i].msg.text|)
    {
      OthersDiffer(queues, at);
      msq.size := msq.size - 1;
      msq.vol := msq.vol - |msq.nodes[i].msg.text|;
      msq.nodes := Cut(msq.nodes, i);
      recs := recs[at := msq.Rec()];
    }

    method NewQueue(key: int) returns (msq: Msq)
      requires Linked() && mem.Once()
      modifies mem
      ensures Linked() && mem.Once() && fresh(msq) && msq.Rec() == MsqRec(key, msq.self, [], 0, 0)
      ensures mem.live == old(mem.live) + multiset{msq.self}
    {
      msq := mem.MsqCreate(key);
    }

    /** Creating a queue and putting it at the end of the list. */
    method Attach(key: int) returns (msq: Msq)
      requires Intact()
      modifies this`queues, this`recs, mem
      ensures Intact() && fresh(msq) && queues == old(queues) + [msq] && msq.key == key
      ensures recs == old(recs) + [MsqRec(key, msq.self, [], 0, 0)]
    {
      msq := NewQueue(key);
      Install(msq);
      HeldOfNew(old(recs), msq.Rec());
    }

    /** IPC_IOCTL_MSQ_CREATE: a new queue at the end of the list, whatever its key. */
    method Create(key: int) returns (rtn: int)
      requires Valid()
      modifies Repr
      ensures Valid() && rtn == key && fresh(Repr - old(Repr))
      ensures View() == old(View()) + [Queue(key, [], 0, 0)]
    {
      hide Intact;
      var msq := Attach(key);
      Repr := Repr + {msq};
      rtn := msq.key;
      ValuesAppend(old(recs), MsqRec(key, msq.self, [], 0, 0));
      NoMessages();
    }

    /** Unlinking and freeing a queue that was found. */
    method Destroy(msq: Msq, ghost at: nat)
      requires Intact() && at < |queues| && queues[at] == msq
      modifies this`queues, this`recs, mem
      ensures Intact() && queues == Cut(old(queues), at) && recs == Cut(old(recs), at)
    {
      hide Held, RecBlocks;
      ghost var rec, all := recs[at], mem.live;
      HeldCut(recs, at);
      Uninstall(msq, at);
      ghost var rest := Held(recs);
      assert rec == msq.Rec() && all == rest + RecBlocks(rec);
      Part(all, rest, RecBlocks(rec));
      FreeQueue(msq);
      CancelRight(mem.live, rest, RecBlocks(rec));
    }

    /** IPC_IOCTL_MSQ_CLOSE: the first queue with this key leaves the list, and all its memory is
        freed. A key that is not there would be a null dereference. */
    method CloseQueue(key: int) returns (rtn: int)
      requires Valid() && Has(View(), key)
      modifies Repr
      ensures Valid() && rtn == key && Repr == old(Repr)
      ensures View() == Cut(old(View()), FindQueue(old(View()), key))
    {
      var msq, at := MsqGet(key);
      assert View()[at] == ValueOf(recs[at]);
      rtn := msq.key;
      Destroy(msq, at);
      forall j | 0 <= j < |queues| ensures queues[j] in Repr {
        CutAt(old(queues), at, j);
      }
      ValuesCut(old(recs), at);
    }

    /** Allocating a message and linking it. */
    method Enqueue(msq: Msq, ghost at: nat, mtype: int, text: Text)
      requires Intact() && at < |queues| && queues[at] == msq
      modifies mem, this`recs, msq
      ensures Intact() && recs == old(recs)[at := msq.Rec()] && msq.nodes != []
      ensures msq.Rec() == MsqRec(msq.key, msq.self, old(msq.nodes) + [Last(msq.nodes)], old(msq.size) + 1,
                                  old(msq.vol) + |text|)
      ensures Last(msq.nodes).msg == Message(old(msq.size) + 1, mtype, text)
    {
      hide Held, NodeBlocks;
      var node := NewNode(msq.size + 1, mtype, text);
      AppendNode(msq, at, node);
      HeldGrows(old(recs), at, msq.Rec(), node);
    }

    /** `ku_ipc_write` once the queue is found. */
    method WriteTo(msq: Msq, ghost at: nat, mtype: int, text: Text) returns (code: int)
      requires Intact() && at < |queues| && queues[at] == msq
      modifies mem, this`recs, msq
      ensures Intact() && recs == old(recs)[at := msq.Rec()]
      ensures (ValueOf(msq.Rec()), code) == Push(ValueOf(old(msq.Rec())), mtype, text)
      ensures code != SUCCESS ==> msq.Rec() == old(msq.Rec()) && mem.live == old(mem.live)
    {
      assert recs[at] == msq.Rec();
      hide Intact;
      if msq.size + 1 > MAXMSG { return FULLMSG; }
      if msq.vol + |text| > MAXVOL { return FULLVOL; }
      Enqueue(msq, at, mtype, text);
      MessagesAppend(old(msq.nodes), Last(msq.nodes));
      code := SUCCESS;
    }

    /** `ku_ipc_write`: under the lock, one message more at the end of its queue, or a refusal that
        changes nothing. */
    method Write(key: int, mtype: int, text: Text) returns (code: int)
      requires Valid()
      modifies Repr
      ensures Valid() && queues == old(queues) && Repr == old(Repr)
      ensures (View(), Reply(code, [])) == DoWrite(old(View()), key, mtype, text)
      ensures code != SUCCESS ==> recs == old(recs) && mem.live == old(mem.live)
    {
      hide Push, Linked, Held, Values, ValueOf;
      var msq, at := MsqGet(key);
      if msq == null { return NOMSQ; }
      code := WriteTo(msq, at, mtype, text);
      ValuesUpdate(old(recs), at, msq.Rec());
    }

    /** The search loop of `ku_ipc_read`. */
    method FirstOfType(nodes: seq<Node>, mtype: int) returns (i: nat)
      ensures i == FindType(Messages(nodes), mtype)
    {
      for k := 0 to |nodes|
        invariant forall j :: 0 <= j < k ==> Messages(nodes)[j].mtype != mtype
      {
        assert Messages(nodes)[k] == nodes[k].msg;
        if nodes[k].msg.mtype == mtype { return k; }
      }
      return |nodes|;
    }

    /** Unlinking and freeing a message that was found. */
    method Dispose(msq: Msq, ghost at: nat, i: nat)
      requires Intact() && at < |queues| && queues[at] == msq && i < |msq.nodes|
      modifies mem, this`recs, msq
      ensures Intact() && recs == old(recs)[at := msq.Rec()]
      ensures msq.Rec() == MsqRec(msq.key, msq.self, Cut(old(msq.nodes), i), old(msq.size) - 1,
                                  old(msq.vol) - |old(msq.nodes)[i].msg.text|)
    {
      var node := msq.nodes[i];
      RemoveNode(msq, at, i);
      HeldShrinks(old(recs), at, i, msq.Rec());
      FreeNode(node);
    }

    /** `ku_ipc_read` once the queue is found. */
    method ReadFrom(msq: Msq, ghost at: nat, mtype: int, flags: Flags, len: nat) returns (code: int, out: Text)
      requires Intact() && at < |queues| && queues[at] == msq
      modifies mem, this`recs, msq
      ensures Intact() && recs == old(recs)[at := msq.Rec()]
      ensures (ValueOf(msq.Rec()), Reply(code, out)) == Pull(ValueOf(old(msq.Rec())), mtype, flags, len)
      ensures code < 0 ==> msq.Rec() == old(msq.Rec()) && mem.live == old(mem.live)
    {
      assert recs[at] == msq.Rec();
      hide Intact;
      if msq.size - 1 < 0 { return NOMSG, []; }
      if msq.vol <= 0 { return NOVOL, []; }
      var i := FirstOfType(msq.nodes, mtype);
      if i == |msq.nodes| { return NOMSG, []; }
      var node := msq.nodes[i];
      code := len;
      if code >= |node.msg.text| {
        code := |node.msg.text|;
      } else if !NoError(flags) {
        return SHORT, [];
      }
      out := node.msg.text[..code];
      Dispose(msq, at, i);
      MessagesCut(old(msq.nodes), i);
    }

    /** `ku_ipc_read`: under the lock, the first message of the type is copied out, unlinked and
        freed, or a refusal changes nothing. */
    method Read(key: int, mtype: int, flags: Flags, len: nat) returns (code: int, out: Text)
      requires Valid()
      modifies Repr
      ensures Valid() && queues == old(queues) && Repr == old(Repr)
      ensures (View(), Reply(code, out)) == DoRead(old(View()), key, mtype, flags, len)
      ensures code < 0 ==> recs == old(recs) && mem.live == old(mem.live)
    {
      hide Pull, Linked, Held, Values, ValueOf;
      var msq, at := MsqGet(key);
      if msq == null { return NOMSQ, []; }
      code, out := ReadFrom(msq, at, mtype, flags, len);
      ValuesUpdate(old(recs), at, msq.Rec());
    }
  }
}
