/**
 The routines of the RCU list driver as they are written: loops over the list and stores into it.
 Other threads run between any two of a routine's own accesses to shared memory: `env[k]` is what
 they try before access k. Every own access is checked against the transition system of module
 RcuList, so what was proved there about all runs holds of these routines.
 */
module RcuListDriver {
  import opened Common
  import opened RcuList
  import opened RcuListInvariant
  import opened RcuListProgress
  import opened RcuListRuns

  // ---------------------------------------------------------------- simple_rcu_init

  /** The memory after `list_add_tail_rcu` of a new entry. */
  function Added(heap: map<Addr, Cell>, a: Addr, id: nat): map<Addr, Cell>
    requires HEAD in heap && heap[HEAD].prev in heap && a !in heap
  {
    var last := heap[HEAD].prev;
    var h1 := heap[a := Cell(id, 100, HEAD, last)];
    var h2 := h1[last := h1[last].(next := a)];
    h2[HEAD := h2[HEAD].(prev := a)]
  }

  lemma EntryAllocated(heap: map<Addr, Cell>, entries: seq<Addr>, k: int)
    requires Built(heap, entries) && 0 <= k < |entries|
    ensures entries[k] in heap && entries[k] != HEAD
    ensures heap[entries[k]] == Cell(k + 1, 100, EntryAt(entries, k + 1), EntryAt(entries, k - 1))
  {
    assert entries[k] in heap.Keys;
  }

  lemma LastAllocated(heap: map<Addr, Cell>, entries: seq<Addr>)
    requires Built(heap, entries)
    ensures HEAD in heap && heap[HEAD].prev in heap && heap[HEAD].prev == EntryAt(entries, |entries| - 1)
    ensures heap[HEAD].next == EntryAt(entries, 0)
  {
    assert HEAD in heap.Keys;
    if entries != [] { EntryAllocated(heap, entries, |entries| - 1); }
  }

  lemma AddedCell(heap: map<Addr, Cell>, entries: seq<Addr>, a: Addr, k: int)
    requires Built(heap, entries) && a !in heap && HEAD in heap && heap[HEAD].prev in heap && 0 <= k < |entries|
    ensures var all, heap' := entries + [a], Added(heap, a, |entries| + 1);
      entries[k] in heap' && heap'[entries[k]] == Cell(k + 1, 100, EntryAt(all, k + 1), EntryAt(all, k - 1))
  {
    hide Built;
    EntryAllocated(heap, entries, k);
    LastAllocated(heap, entries);
    EntryAllocated(heap, entries, |entries| - 1);
    DifferAs(heap, entries, k, |entries| - 1);
  }

  lemma DifferAs(heap: map<Addr, Cell>, entries: seq<Addr>, i: int, j: int)
    requires Built(heap, entries) && 0 <= i < |entries| && 0 <= j < |entries|
    ensures entries[i] == entries[j] <==> i == j
  {
    Differ(entries, i, j);
  }

  lemma AddedHead(heap: map<Addr, Cell>, entries: seq<Addr>, a: Addr)
    requires Built(heap, entries) && a !in heap && HEAD in heap && heap[HEAD].prev in heap
    ensures var all, heap' := entries + [a], Added(heap, a, |entries| + 1);
      && heap'.Keys == {HEAD} + Elements(all)
      && heap'[HEAD].next == EntryAt(all, 0) && heap'[HEAD].prev == a
      && heap'[a] == Cell(|all|, 100, HEAD, EntryAt(entries, |entries| - 1))
  {
    LastAllocated(heap, entries);
    assert Elements(entries + [a]) == Elements(entries) + {a};
    assert Added(heap, a, |entries| + 1).Keys == heap.Keys + {a};
    if entries != [] { EntryAllocated(heap, entries, |entries| - 1); }
  }

  lemma DistinctSnoc(entries: seq<Addr>, a: Addr)
    requires Distinct(entries) && a !in entries
    ensures Distinct(entries + [a])
  {
    var all := entries + [a];
    forall i, j | 0 <= i < j < |all| ensures Entry(all, i) != Entry(all, j) {
      if j < |entries| { Differ(entries, i, j); }
    }
  }

  lemma AddedBuilt(heap: map<Addr, Cell>, entries: seq<Addr>, a: Addr)
    requires Built(heap, entries) && a !in heap && a != POISON
    ensures HEAD in heap && heap[HEAD].prev in heap
    ensures Built(Added(heap, a, |entries| + 1), entries + [a])
  {
    hide Added;
    var all, heap' := entries + [a], Added(heap, a, |entries| + 1);
    LastAllocated(heap, entries);
    forall k | 0 <= k < |entries| ensures entries[k] != a { EntryAllocated(heap, entries, k); }
    DistinctSnoc(entries, a);
    AddedHead(heap, entries, a);
    forall k | 0 <= k < |all|
      ensures all[k] in heap' && heap'[all[k]] == Cell(k + 1, 100, EntryAt(all, k + 1), EntryAt(all, k - 1))
    {
      if k < |entries| { AddedCell(heap, entries, a, k); } else { assert a in heap'.Keys; }
    }
  }

  /** The loop of `simple_rcu_init`, for n entries where the source has 5. */
  method BuildList(n: nat) returns (heap: map<Addr, Cell>, entries: seq<Addr>)
    ensures Built(heap, entries) && |entries| == n
  {
    heap, entries := map[HEAD := Cell(0, 0, HEAD, HEAD)], [];
    assert Elements([]) == {};
    for i := 0 to n
      invariant Built(heap, entries) && |entries| == i
    {
      var a := FreshAddress(heap.Keys, POISON + 1);
      AddedBuilt(heap, entries, a);
      var last := heap[HEAD].prev;
      heap := heap[a := Cell(i + 1, 100, HEAD, last)];
      heap := heap[last := heap[last].(next := a)];
      heap := heap[HEAD := heap[HEAD].(prev := a)];
      entries := entries + [a];
    }
  }

  // ---------------------------------------------------------------- interference

  /** Whose routine is running: a thread inside IOCTL_READ, the holder of the lock, or neither. */
  datatype Me = Reading(t: Tid) | Holding | Outside

  predicate Mine(me: Me, e: Event) {
    match me
    case Reading(t) => (e.ReadLock? || e.ReadStep?) && e.t == t
    case Holding => e.WriterStep?
    case Outside => false
  }

  predicate SameList(a: State, b: State) {
    && a.heap == b.heap && a.ring == b.ring && a.updates == b.updates && a.exiting == b.exiting
    && a.allocs == b.allocs && a.frees == b.frees
  }

  /** What the other threads' events leave alone. */
  predicate Kept(me: Me, s: State, s': State) {
    && s'.n == s.n && s'.word == s.word && (s.exiting ==> s'.exiting)
    && match me
       case Reading(t) => (t in s.readers <==> t in s'.readers) && (t in s.readers ==> s'.readers[t] == s.readers[t])
       case Holding =>
         !s.writer.Unlocked? ==> s'.writer == s.writer && SameList(s, s') && s'.waiting <= s.waiting
       case Outside => true
  }

  lemma OthersKeep(me: Me, s: State, e: Event, s': State)
    requires Step(s, e) == Ok(s') && !Mine(me, e)
    ensures Kept(me, s, s')
  {
    StepHistory(s, e, s');
    ExitingStays(s, e, s');
    if me.Reading? && me.t in s.readers { StepReaders(s, e, s', me.t); }
  }

  lemma ExitingStays(s: State, e: Event, s': State)
    requires Step(s, e) == Ok(s')
    ensures s.exiting ==> s'.exiting
  {
    if e.WriterStep? && s.writer.UpReplace? { assert StepReplace(s) == Ok(s'); }
  }

  lemma RunSnoc(run: seq<State>, es: seq<Event>, e: Event, s': State)
    requires IsRun(run, es) && Step(run[|run| - 1], e) == Ok(s')
    ensures IsRun(run + [s'], es + [e])
  {
    hide Step;
    hide Booted;
    var run', es' := run + [s'], es + [e];
    assert run'[0] == run[0];
    forall i | 0 <= i < |es'| ensures Step(run'[i], es'[i]) == Ok(run'[i + 1]) {
      if i < |es| { assert run'[i] == run[i] && run'[i + 1] == run[i + 1] && es'[i] == es[i]; }
    }
  }

  ghost predicate Extends(a: seq<State>, b: seq<State>) { a <= b }

  lemma SectionExtends(a: seq<State>, b: seq<State>, start: nat, t: Tid)
    requires a != [] && Extends(a, b) && InSection(a, start, |a| - 1, t)
    requires forall k :: |a| <= k < |b| ==> t in b[k].readers
    ensures InSection(b, start, |b| - 1, t) && b[start] == a[start]
  {
    forall k | start <= k < |b| ensures t in b[k].readers {
      if k < |a| { assert b[k] == a[k]; }
    }
  }

  // ---------------------------------------------------------------- stores

  /** `x->next = v` and `x->prev = v`. */
  function WithNext(heap: map<Addr, Cell>, x: Addr, v: Addr): map<Addr, Cell> {
    if x in heap then heap[x := heap[x].(next := v)] else heap
  }

  function WithPrev(heap: map<Addr, Cell>, x: Addr, v: Addr): map<Addr, Cell> {
    if x in heap then heap[x := heap[x].(prev := v)] else heap
  }

  /** The memory after `memcpy(new, old, ...)` and `new->data++`. */
  function Copied(heap: map<Addr, Cell>, old_: Addr, new_: Addr, word: WordSize): map<Addr, Cell> {
    if old_ in heap then heap[new_ := heap[old_].(data := (heap[old_].data + 1) % word)] else heap
  }

  /** The memory after `list_replace_rcu` by a copy, whose own links are already those of `old_`. */
  function ListReplaceRcu(heap: map<Addr, Cell>, old_: Addr, new_: Addr): map<Addr, Cell> {
    if new_ !in heap then heap
    else
      var h := WithNext(heap, heap[new_].prev, new_);
      WithPrev(WithPrev(h, h[new_].next, new_), old_, POISON)
  }

  /** The memory after `list_del_rcu`. */
  function ListDelRcu(heap: map<Addr, Cell>, entry: Addr): map<Addr, Cell> {
    if entry !in heap then heap
    else
      var h := WithPrev(heap, heap[entry].next, heap[entry].prev);
      WithPrev(WithNext(h, h[entry].prev, h[entry].next), entry, POISON)
  }

  /** The memory of an update that is over: the entry with this id was replaced by its successor in
      a fresh block, and freed. */
  ghost predicate Substituted(from: map<Addr, Cell>, to: map<Addr, Cell>, id: nat, word: WordSize,
                              old_: Addr, new_: Addr) {
    && old_ in from && from[old_].id == id && new_ !in from
    && to == ListReplaceRcu(Copied(from, old_, new_, word), old_, new_) - {old_}
  }

  /** Copying into a block does not depend on what was in it. */
  lemma CopyOver(heap: map<Addr, Cell>, old_: Addr, new_: Addr, junk: Cell, word: WordSize)
    requires old_ in heap && old_ != new_
    ensures Copied(heap[new_ := junk], old_, new_, word) == Copied(heap, old_, new_, word)
  {
  }

  // ---------------------------------------------------------------- the lock holder's steps

  /** Pending: `env` ended while the call was waiting for the lock or for a grace period. */
  datatype UpdateResult = Updated | NotListed | Pending

  lemma LinksCopied(s: State)
    requires Shared(s) && s.writer.UpReplace? && (s.writer.todo == SetNext || s.writer.todo == SetPrev)
    ensures var w := s.writer;
      && w.oldNode in s.heap && w.newNode in s.heap
      && s.heap[w.newNode].next == s.heap[w.oldNode].next && s.heap[w.newNode].prev == s.heap[w.oldNode].prev
  {
  }

  lemma ReportedData(s: State, a: Addr, rem: int)
    requires Shared(s) && s.writer == UpReport(a, rem) && rem >= 1
    ensures a in s.heap && 1 <= IdAt(s.n, rem) && s.heap[a].data == (100 + s.updates[IdAt(s.n, rem)]) % s.word
  {
    assert OnRing(s.ring, rem, a) && s.heap[s.ring[rem]].id == IdAt(s.n, rem);
  }

  /** Updates of `arg` published, blocks allocated, and blocks freed. */
  datatype Tally = Tally(arg: nat, updates: nat, allocs: nat, frees: nat)

  ghost predicate Counts(from: State, s: State, tally: Tally) {
    && s.allocs == from.allocs + tally.allocs && s.frees == from.frees + tally.frees
    && forall id :: s.updates[id] == from.updates[id] + if id == tally.arg then tally.updates else 0
  }

  /** What kmalloc returns in a step that does not call it. */
  const NOTHING: Cell := Cell(0, 0, 0, 0)

  /** The lock holder's next access is this store. */
  ghost predicate Stores(s: State, a: Addr, c: Cell, w': Writer) {
    && a in s.heap
    && StepWriter(s, 0, c) == Ok(s.(heap := s.heap[a := c], writer := w'))
  }

  lemma TwoAllocated(heap: map<Addr, Cell>, a: Addr, b: Addr)
    requires a in heap && b in heap && a != b
    ensures |heap| >= 2
  {
    var rest := heap.Keys - {a};
    assert b in rest;
    assert |heap.Keys| == |rest| + 1;
    assert |rest| >= 1;
  }

  lemma DeleteStores(s: State, w: Writer)
    requires Shared(s) && s.writer == w && w.ExDelete?
    ensures w.tmp in s.heap
    ensures var c := s.heap[w.tmp];
      && (w.step == SetBackDel ==>
            c.next in s.heap && Stores(s, c.next, s.heap[c.next].(prev := c.prev), w.(step := Unlink)))
      && (w.step == PoisonDel ==> Stores(s, w.tmp, c.(prev := POISON), w.(step := SyncDel)))
  {
    if w.step == SetBackDel { OnRingCell(s, |s.ring| - 1, w.tmp); }
  }

  lemma UnlinkStore(s: State, junk: Cell)
    requires s.writer.ExDelete? && s.writer.step == Unlink && !StepWriter(s, 0, junk).Fault?
    ensures var w := s.writer;
      && StepWriter(s, 0, junk).Ok? && w.tmp in s.heap && s.heap[w.tmp].prev in s.heap
      && var c := s.heap[w.tmp];
         StepWriter(s, 0, junk).s.heap == s.heap[c.prev := s.heap[c.prev].(next := c.next)]
  {
  }

  predicate Locks(e: Event, w: Writer) {
    || (e.UpdateLock? && w == UpFirst(e.arg))
    || (e == ExitLock && w == ExFirst)
  }

  lemma LockStep(s: State, e: Event, w: Writer)
    requires Locks(e, w) && s.writer.Unlocked?
    ensures Step(s, e).Ok? && Step(s, e).s.writer == w && (e == ExitLock ==> Step(s, e).s.exiting)
  {
  }

  /** The snapshot of a grace period. */
  predicate Starts(w: Writer, w': Writer) {
    || (w.UpReplace? && w.todo == SyncOld && w' == w.(todo := WaitOld))
    || (w.ExDelete? && w.step == SyncDel && w' == w.(step := WaitDel))
  }

  /** The end of a grace period and the free after it. */
  predicate Frees(w: Writer, w': Writer) {
    || (w.UpReplace? && w.todo == WaitOld && w' == UpReport(w.newNode, w.rem))
    || (w.ExDelete? && w.step == WaitDel && w' == ExAdvance(w.pos))
  }

  function Freed(w: Writer): Addr { if w.UpReplace? then w.oldNode else if w.ExDelete? then w.tmp else HEAD }

  lemma SnapshotStep(s: State, w': Writer)
    requires Starts(s.writer, w') && !StepWriter(s, 0, NOTHING).Fault?
    ensures StepWriter(s, 0, NOTHING) == Ok(s.(waiting := s.readers.Keys, writer := w'))
  {
  }

  lemma FreeStep(s: State, w': Writer)
    requires Frees(s.writer, w') && s.waiting == {} && !StepWriter(s, 0, NOTHING).Fault?
    ensures StepWriter(s, 0, NOTHING).Ok?
    ensures var s' := StepWriter(s, 0, NOTHING).s;
      && s'.writer == w' && s'.frees == s.frees + 1
      && s'.allocs == s.allocs && s'.updates == s.updates && s'.exiting == s.exiting
      && s'.heap == s.heap - {Freed(s.writer)}
  {
  }

  lemma CountsFreed(from: State, s: State, s': State, tally: Tally)
    requires Counts(from, s, tally)
    requires s'.frees == s.frees + 1 && s'.allocs == s.allocs && s'.updates == s.updates
    ensures Counts(from, s', tally.(frees := tally.frees + 1))
  {
  }

  lemma PublishStore(s: State, junk: Cell)
    requires s.writer.UpReplace? && s.writer.todo == Publish && !StepWriter(s, 0, junk).Fault?
    ensures var w := s.writer;
      && StepWriter(s, 0, junk).Ok? && w.newNode in s.heap && s.heap[w.newNode].prev in s.heap
      && var before := s.heap[w.newNode].prev;
         StepWriter(s, 0, junk).s.heap == s.heap[before := s.heap[before].(next := w.newNode)]
  {
  }

  lemma ReplaceStores(s: State, w: Writer)
    requires Shared(s) && s.writer == w && w.UpReplace?
    ensures w.oldNode in s.heap && w.newNode in s.heap
    ensures BeforePublish(w.todo) ==> w.oldNode != w.newNode
    ensures var o, c, a := s.heap[w.oldNode], s.heap[w.newNode], w.newNode;
      && (w.todo == Copy ==> Stores(s, a, o, w.(todo := Bump)))
      && (w.todo == Bump ==> Stores(s, a, c.(data := (c.data + 1) % s.word), w.(todo := SetNext)))
      && (w.todo == SetNext ==> Stores(s, a, c.(next := o.next), w.(todo := SetPrev)))
      && (w.todo == SetPrev ==> Stores(s, a, c.(prev := o.prev), w.(todo := Publish)))
      && (w.todo == SetBack ==>
            c.next in s.heap && Stores(s, c.next, s.heap[c.next].(prev := a), w.(todo := PoisonOld)))
      && (w.todo == PoisonOld ==> Stores(s, w.oldNode, o.(prev := POISON), w.(todo := SyncOld)))
  {
    if w.todo == SetBack { OnRingCell(s, w.rem, w.newNode); }
  }

  lemma InvShared(s: State)
    requires Inv(s)
    ensures Shared(s)
  {
  }

  class Driver {
    var s: State               // shared memory, and how far every thread has come
    ghost var run: seq<State>  // all states so far
    ghost var es: seq<Event>   // and the events between them

    ghost predicate Valid()
      reads this
    {
      IsRun(run, es) && run != [] && run[|run| - 1] == s
    }

    /** `simple_rcu_init`. */
    constructor (n: nat, word: WordSize)
      ensures Valid() && run == [s] && s.n == n && s.word == word
    {
      var heap, entries := BuildList(n);
      s := State(heap, map[], Unlocked, {}, word, n, RingOf(entries), 0, multiset{}, false, n, 0);
      new;
      run, es := [s], [];
      assert Booted(run[0], entries);
    }

    /** One event happens. */
    method Fire(e: Event)
      requires Valid() && Step(s, e).Ok?
      modifies this
      ensures Valid() && Ok(s) == Step(old(s), e) && run == old(run) + [s] && es == old(es) + [e]
    {
      hide Step;
      RunSnoc(run, es, e, Step(s, e).s);
      s := Step(s, e).s;
      run, es := run + [s], es + [e];
    }

    /** Other threads try these events; those that are blocked do not happen. */
    method Interfere(events: seq<Event>, me: Me)
      requires Valid()
      modifies this
      ensures Valid() && Extends(old(run), run) && Kept(me, old(s), s)
      ensures me.Reading? ==>
        forall k :: |old(run)| <= k < |run| ==> (me.t in run[k].readers <==> me.t in old(s.readers))
    {
      hide Step, IsRun;
      for i := 0 to |events|
        invariant Valid() && Extends(old(run), run) && Kept(me, old(s), s)
        invariant me.Reading? ==>
          forall k :: |old(run)| <= k < |run| ==> (me.t in run[k].readers <==> me.t in old(s.readers))
      {
        if !Mine(me, events[i]) && Step(s, events[i]).Ok? {
          OthersKeep(me, s, events[i], Step(s, events[i]).s);
          Fire(events[i]);
        }
      }
    }

    // -------------------------------------------------------------- IOCTL_READ

    /** Thread t has been in one read section since state `start`, where it had just begun, and
        its next access is `pc`. */
    ghost predicate Inside(start: nat, t: Tid, arg: nat, pc: ReaderPc)
      reads this
    {
      && Valid() && start < |run|
      && InSection(run, start, |run| - 1, t)
      && run[start].readers[t].pc.First?
      && s.readers[t].arg == arg && s.readers[t].pc == pc
    }

    /** The accesses that thread t has left, at most. */
    ghost function Left(t: Tid): nat
      reads this
    {
      if t in s.readers && StepsLeft(s.n, s.readers[t]) > 0 then StepsLeft(s.n, s.readers[t]) else 0
    }

    /** Other threads run before the next access of thread t. */
    method Turn(ghost start: nat, t: Tid, ghost arg: nat, ghost pc: ReaderPc, events: seq<Event>)
      requires Inside(start, t, arg, pc)
      modifies this
      ensures Inside(start, t, arg, pc) && StepReader(s, t).Ok?
      ensures Extends(old(run), run) && Left(t) == old(Left(t))
    {
      hide IsRun, StepReader, Inv, StepsLeft;
      ghost var before := run;
      Interfere(events, Reading(t));
      SectionExtends(before, run, start, t);
      RunInv(run, es, |run| - 1);
      StepReaderGood(s, t);
    }

    /** Thread t makes its access, and stays inside its section. */
    method Access(ghost start: nat, t: Tid, ghost arg: nat, ghost pc: ReaderPc, ghost next: ReaderPc)
      requires Inside(start, t, arg, pc) && StepReader(s, t).Ok? && t in StepReader(s, t).s.readers
      requires StepReader(s, t).s.readers[t].pc == next
      modifies this
      ensures Inside(start, t, arg, next) && Extends(old(run), run) && Left(t) < old(Left(t))
    {
      hide IsRun, StepReader, StepsLeft;
      ghost var before := run;
      RunInv(run, es, |run| - 1);
      OwnStepDescends(s, t);
      StepHistory(s, ReadStep(t), StepReader(s, t).s);
      StepReaders(s, ReadStep(t), StepReader(s, t).s, t);
      Fire(ReadStep(t));
      SectionExtends(before, run, start, t);
    }

    /** `pos = mylist.list.next`. */
    method LoadFirst(ghost start: nat, t: Tid, ghost arg: nat, events: seq<Event>) returns (pos: Addr)
      requires Inside(start, t, arg, First)
      modifies this
      ensures Inside(start, t, arg, Look(pos)) && Extends(old(run), run) && Left(t) < old(Left(t))
    {
      Turn(start, t, arg, First, events);
      pos := s.heap[HEAD].next;
      Access(start, t, arg, First, Look(pos));
    }

    /** `pos->id == arg`. */
    method LoadId(ghost start: nat, t: Tid, arg: nat, pos: Addr, events: seq<Event>) returns (equal: bool)
      requires Inside(start, t, arg, Look(pos)) && pos != HEAD
      modifies this
      ensures Inside(start, t, arg, if equal then Load(pos) else Advance(pos))
      ensures Extends(old(run), run) && Left(t) < old(Left(t))
    {
      Turn(start, t, arg, Look(pos), events);
      equal := s.heap[pos].id == arg;
      Access(start, t, arg, Look(pos), if equal then Load(pos) else Advance(pos));
    }

    /** `pos = pos->list.next`. */
    method LoadNext(ghost start: nat, t: Tid, ghost arg: nat, pos: Addr, events: seq<Event>) returns (next: Addr)
      requires Inside(start, t, arg, Advance(pos))
      modifies this
      ensures Inside(start, t, arg, Look(next)) && Extends(old(run), run) && Left(t) < old(Left(t))
    {
      Turn(start, t, arg, Advance(pos), events);
      next := s.heap[pos].next;
      Access(start, t, arg, Advance(pos), Look(next));
    }

    /** `pos->data`. */
    method LoadData(ghost start: nat, t: Tid, ghost arg: nat, pos: Addr, events: seq<Event>) returns (data: nat)
      requires Inside(start, t, arg, Load(pos))
      modifies this
      ensures Inside(start, t, arg, Leave(Some(data))) && Extends(old(run), run)
    {
      Turn(start, t, arg, Load(pos), events);
      data := s.heap[pos].data;
      Access(start, t, arg, Load(pos), Leave(Some(data)));
    }

    /** The cursor is back at the head. */
    method EndList(ghost start: nat, t: Tid, ghost arg: nat, events: seq<Event>)
      requires Inside(start, t, arg, Look(HEAD))
      modifies this
      ensures Inside(start, t, arg, Leave(None)) && Extends(old(run), run)
    {
      Turn(start, t, arg, Look(HEAD), events);
      Access(start, t, arg, Look(HEAD), Leave(None));
    }

    /** `rcu_read_lock`. */
    method BeginSection(t: Tid, arg: nat) returns (ghost start: nat)
      requires Valid() && t !in s.readers
      modifies this
      ensures Inside(start, t, arg, First) && Extends(old(run), run) && start == |old(run)|
    {
      Fire(ReadLock(t, arg));
      start := |run| - 1;
    }

    /** `rcu_read_unlock`, and what is known then of the result. */
    method EndSection(ghost start: nat, t: Tid, ghost arg: nat, found: Option<nat>, events: seq<Event>)
      requires Inside(start, t, arg, Leave(found))
      modifies this
      ensures Valid() && Extends(old(run), run) && t !in s.readers
      ensures found.Some? ==> exists k :: start <= k < |run| && Current(run[k], arg, found.value)
      ensures found.None? ==> exists k :: start <= k < |run| && Absent(run[k], arg)
      ensures found.Some? ==> 1 <= arg <= s.n
      ensures !s.exiting ==> (found.Some? <==> 1 <= arg <= s.n)
    {
      Turn(start, t, arg, Leave(found), events);
      ghost var before, last := run, |run| - 1;
      if found.Some? {
        LinearizableRead(run, es, start, last, t, found.value);
      } else {
        NotFoundWasAbsent(run, es, start, last, t);
      }
      FoundIffListed(run, es, last, t);
      Fire(ReadStep(t));
      assert forall k :: 0 <= k <= last ==> run[k] == before[k];
    }

    /** IOCTL_READ: the traversal ends whatever the others do; what it returns was the data of that
        id at some instant of the call, an id it does not find was off the list at some instant, and
        before exit it finds an id if and only if that is one of 1, ..., n. `env` is what the others
        do, in as many pieces as the call has pauses. */
    method Read(t: Tid, arg: nat, env: seq<seq<Event>>) returns (found: Option<nat>)
      requires Valid() && t !in s.readers
      modifies this
      ensures Valid() && Extends(old(run), run) && t !in s.readers
      ensures found.Some? ==> exists k :: |old(run)| <= k < |run| && Current(run[k], arg, found.value)
      ensures found.None? ==> exists k :: |old(run)| <= k < |run| && Absent(run[k], arg)
      ensures found.Some? ==> 1 <= arg <= s.n
      ensures !s.exiting ==> (found.Some? <==> 1 <= arg <= s.n)
    {
      hide Inside, Valid, Left, Current, Absent;
      ghost var start := BeginSection(t, arg);
      var turn := 1;
      var pos := LoadFirst(start, t, arg, Piece(env, 0));
      while pos != HEAD
        invariant Inside(start, t, arg, Look(pos)) && Extends(old(run), run)
        decreases Left(t)
      {
        var equal := LoadId(start, t, arg, pos, Piece(env, turn));
        if equal {
          var data := LoadData(start, t, arg, pos, Piece(env, turn + 1));
          EndSection(start, t, arg, Some(data), Piece(env, turn + 2));
          return Some(data);
        }
        pos := LoadNext(start, t, arg, pos, Piece(env, turn + 1));
        turn := turn + 2;
      }
      EndList(start, t, arg, Piece(env, turn));
      EndSection(start, t, arg, None, Piece(env, turn + 1));
      found := None;
    }

    // -------------------------------------------------------------- the lock holder

    /** This call has held the lock since state `at`, its next access is `w`, and `tally` is what
        it has done since then. */
    ghost predicate Locked(at: nat, w: Writer, tally: Tally)
      reads this
    {
      && Valid() && at < |run| && s.writer == w
      && s.n == run[at].n && s.word == run[at].word && s.exiting == run[at].exiting && Counts(run[at], s, tally)
    }

    /** Other threads run before the lock holder's next access. */
    method Pause(ghost at: nat, ghost w: Writer, ghost tally: Tally, events: seq<Event>)
      requires Locked(at, w, tally) && !w.Unlocked?
      modifies this
      ensures Locked(at, w, tally) && SameList(old(s), s) && s.writer == w && Shared(s)
      ensures s.waiting <= old(s.waiting) && s.word == old(s.word)
      ensures Extends(old(run), run) && forall a, junk :: !StepWriter(s, a, junk).Fault?
    {
      hide StepWriter, Inv, Shared;
      Interfere(events, Holding);
      RunInv(run, es, |run| - 1);
      forall a, junk ensures !StepWriter(s, a, junk).Fault? { StepWriterGood(s, a, junk); }
      InvShared(s);
    }

    /** The lock holder makes its access. */
    method Move(ghost at: nat, ghost w: Writer, ghost tally: Tally, a: Addr, junk: Cell,
                ghost w': Writer, ghost tally': Tally)
      requires Locked(at, w, tally) && StepWriter(s, a, junk).Ok?
      requires StepWriter(s, a, junk).s.writer == w' && Counts(run[at], StepWriter(s, a, junk).s, tally')
      requires StepWriter(s, a, junk).s.exiting == s.exiting
      modifies this
      ensures Locked(at, w', tally') && Ok(s) == StepWriter(old(s), a, junk) && Extends(old(run), run)
      ensures s.word == old(s.word)
    {
      hide StepWriter, Counts, IsRun;
      StepHistory(s, WriterStep(a, junk), StepWriter(s, a, junk).s);
      Fire(WriterStep(a, junk));
    }

    /** `pos = mylist.list.next`. */
    method WalkFirst(ghost at: nat, arg: nat, events: seq<Event>) returns (pos: Addr, ghost rem: int)
      requires Locked(at, UpFirst(arg), Tally(arg, 0, 0, 0))
      modifies this
      ensures Locked(at, UpLook(arg, pos, rem), Tally(arg, 0, 0, 0)) && Extends(old(run), run)
      ensures rem >= 0 && (!s.exiting ==> rem == s.n) && s.heap == old(s.heap)
    {
      Pause(at, UpFirst(arg), Tally(arg, 0, 0, 0), events);
      pos := s.heap[HEAD].next;
      rem := Top(s);
      Move(at, UpFirst(arg), Tally(arg, 0, 0, 0), 0, s.heap[HEAD], UpLook(arg, pos, rem), Tally(arg, 0, 0, 0));
    }

    /** `pos->id == arg`. */
    method WalkId(ghost at: nat, arg: nat, pos: Addr, ghost rem: int, events: seq<Event>) returns (equal: bool)
      requires Locked(at, UpLook(arg, pos, rem), Tally(arg, 0, 0, 0)) && pos != HEAD
      modifies this
      ensures Locked(at, if equal then UpAlloc(arg, pos, rem) else UpAdvance(arg, pos, rem), Tally(arg, 0, 0, 0))
      ensures Extends(old(run), run) && 1 <= rem <= s.n && (equal <==> arg == IdAt(s.n, rem))
      ensures s.n == old(s.n) && s.exiting == old(s.exiting) && s.heap == old(s.heap)
      ensures pos in s.heap && (equal ==> s.heap[pos].id == arg)
    {
      Pause(at, UpLook(arg, pos, rem), Tally(arg, 0, 0, 0), events);
      OnRingCell(s, rem, pos);
      equal := s.heap[pos].id == arg;
      Move(at, UpLook(arg, pos, rem), Tally(arg, 0, 0, 0), 0, s.heap[pos],
           if equal then UpAlloc(arg, pos, rem) else UpAdvance(arg, pos, rem), Tally(arg, 0, 0, 0));
    }

    /** `pos = pos->list.next`. */
    method WalkNext(ghost at: nat, arg: nat, pos: Addr, ghost rem: int, events: seq<Event>) returns (next: Addr)
      requires Locked(at, UpAdvance(arg, pos, rem), Tally(arg, 0, 0, 0))
      modifies this
      ensures Locked(at, UpLook(arg, next, rem - 1), Tally(arg, 0, 0, 0)) && rem >= 1 && Extends(old(run), run)
      ensures s.n == old(s.n) && s.exiting == old(s.exiting) && s.heap == old(s.heap)
    {
      Pause(at, UpAdvance(arg, pos, rem), Tally(arg, 0, 0, 0), events);
      next := s.heap[pos].next;
      Move(at, UpAdvance(arg, pos, rem), Tally(arg, 0, 0, 0), 0, s.heap[pos],
           UpLook(arg, next, rem - 1), Tally(arg, 0, 0, 0));
    }

    /** `kmalloc`. */
    method Alloc(ghost at: nat, arg: nat, pos: Addr, ghost rem: int, junk: Cell, events: seq<Event>) returns (a: Addr)
      requires Locked(at, UpAlloc(arg, pos, rem), Tally(arg, 0, 0, 0))
      modifies this
      ensures Locked(at, UpReplace(arg, pos, a, rem, Copy), Tally(arg, 0, 1, 0)) && Extends(old(run), run)
      ensures a !in old(s.heap) && s.heap == old(s.heap)[a := junk] && s.word == old(s.word)
    {
      Pause(at, UpAlloc(arg, pos, rem), Tally(arg, 0, 0, 0), events);
      a := FreshAddress(s.heap.Keys, POISON + 1);
      Move(at, UpAlloc(arg, pos, rem), Tally(arg, 0, 0, 0), a, junk,
           UpReplace(arg, pos, a, rem, Copy), Tally(arg, 0, 1, 0));
    }

    /** One store into allocated memory. */
    method Store(ghost at: nat, ghost w: Writer, ghost tally: Tally, a: Addr, c: Cell, ghost w': Writer)
      requires Locked(at, w, tally) && Stores(s, a, c, w')
      modifies this
      ensures Locked(at, w', tally) && Extends(old(run), run)
      ensures s.heap == old(s.heap)[a := c] && s.word == old(s.word)
    {
      hide StepWriter;
      Move(at, w, tally, 0, c, w', tally);
    }

    /** `memcpy` and `new->data++`. */
    method CopyEntry(ghost at: nat, arg: nat, pos: Addr, a: Addr, ghost rem: int, env: seq<seq<Event>>, turn: nat)
      requires Locked(at, UpReplace(arg, pos, a, rem, Copy), Tally(arg, 0, 1, 0))
      modifies this
      ensures Locked(at, UpReplace(arg, pos, a, rem, SetNext), Tally(arg, 0, 1, 0)) && Extends(old(run), run)
      ensures pos in old(s.heap) && pos != a && s.heap == Copied(old(s.heap), pos, a, s.word) && s.word == old(s.word)
    {
      hide Locked, Stores, Shared;
      ghost var tally := Tally(arg, 0, 1, 0);
      Pause(at, UpReplace(arg, pos, a, rem, Copy), tally, Piece(env, turn));
      ReplaceStores(s, UpReplace(arg, pos, a, rem, Copy));
      Store(at, UpReplace(arg, pos, a, rem, Copy), tally, a, s.heap[pos], UpReplace(arg, pos, a, rem, Bump));
      Pause(at, UpReplace(arg, pos, a, rem, Bump), tally, Piece(env, turn + 1));
      ReplaceStores(s, UpReplace(arg, pos, a, rem, Bump));
      Store(at, UpReplace(arg, pos, a, rem, Bump), tally, a, s.heap[a].(data := (s.heap[a].data + 1) % s.word),
            UpReplace(arg, pos, a, rem, SetNext));
    }

    /** The stores of `list_replace_rcu` into the new entry; the copy has these links already. */
    method CopyLinks(ghost at: nat, arg: nat, pos: Addr, a: Addr, ghost rem: int, env: seq<seq<Event>>, turn: nat)
      requires Locked(at, UpReplace(arg, pos, a, rem, SetNext), Tally(arg, 0, 1, 0))
      modifies this
      ensures Locked(at, UpReplace(arg, pos, a, rem, Publish), Tally(arg, 0, 1, 0)) && Extends(old(run), run)
      ensures s.heap == old(s.heap) && s.word == old(s.word)
    {
      hide Locked, Stores, Shared;
      ghost var tally := Tally(arg, 0, 1, 0);
      Pause(at, UpReplace(arg, pos, a, rem, SetNext), tally, Piece(env, turn));
      ReplaceStores(s, UpReplace(arg, pos, a, rem, SetNext));
      LinksCopied(s);
      Store(at, UpReplace(arg, pos, a, rem, SetNext), tally, a, s.heap[a].(next := s.heap[pos].next),
            UpReplace(arg, pos, a, rem, SetPrev));
      Pause(at, UpReplace(arg, pos, a, rem, SetPrev), tally, Piece(env, turn + 1));
      ReplaceStores(s, UpReplace(arg, pos, a, rem, SetPrev));
      LinksCopied(s);
      Store(at, UpReplace(arg, pos, a, rem, SetPrev), tally, a, s.heap[a].(prev := s.heap[pos].prev),
            UpReplace(arg, pos, a, rem, Publish));
    }

    /** The four stores into the new entry: it is the old one but for its data, and nothing else is
        written. */
    method Prepare(ghost at: nat, arg: nat, pos: Addr, a: Addr, ghost rem: int, env: seq<seq<Event>>, turn: nat)
      requires Locked(at, UpReplace(arg, pos, a, rem, Copy), Tally(arg, 0, 1, 0))
      modifies this
      ensures Locked(at, UpReplace(arg, pos, a, rem, Publish), Tally(arg, 0, 1, 0)) && Extends(old(run), run)
      ensures pos in old(s.heap) && pos != a && s.heap == Copied(old(s.heap), pos, a, s.word) && s.word == old(s.word)
    {
      hide Locked, Copied;
      CopyEntry(at, arg, pos, a, rem, env, turn);
      CopyLinks(at, arg, pos, a, rem, env, turn + 2);
    }

    /** The store of `list_replace_rcu` that makes the new entry visible. */
    method PublishNew(ghost at: nat, arg: nat, pos: Addr, a: Addr, ghost rem: int, events: seq<Event>)
      requires Locked(at, UpReplace(arg, pos, a, rem, Publish), Tally(arg, 0, 1, 0))
      modifies this
      ensures Locked(at, UpReplace(arg, pos, a, rem, SetBack), Tally(arg, 1, 1, 0)) && Extends(old(run), run)
      ensures a in old(s.heap) && s.heap == WithNext(old(s.heap), old(s.heap)[a].prev, a) && s.word == old(s.word)
    {
      Pause(at, UpReplace(arg, pos, a, rem, Publish), Tally(arg, 0, 1, 0), events);
      PublishStore(s, s.heap[pos]);
      Move(at, UpReplace(arg, pos, a, rem, Publish), Tally(arg, 0, 1, 0), 0, s.heap[pos],
           UpReplace(arg, pos, a, rem, SetBack), Tally(arg, 1, 1, 0));
    }

    /** The last two stores of `list_replace_rcu`. */
    method Finish(ghost at: nat, arg: nat, pos: Addr, a: Addr, ghost rem: int, env: seq<seq<Event>>, turn: nat)
      requires Locked(at, UpReplace(arg, pos, a, rem, SetBack), Tally(arg, 1, 1, 0))
      modifies this
      ensures Locked(at, UpReplace(arg, pos, a, rem, SyncOld), Tally(arg, 1, 1, 0)) && Extends(old(run), run)
      ensures a in old(s.heap) && s.heap == WithPrev(WithPrev(old(s.heap), old(s.heap)[a].next, a), pos, POISON)
      ensures s.word == old(s.word)
    {
      hide Locked, Stores, Shared;
      ghost var tally := Tally(arg, 1, 1, 0);
      Pause(at, UpReplace(arg, pos, a, rem, SetBack), tally, Piece(env, turn));
      ReplaceStores(s, UpReplace(arg, pos, a, rem, SetBack));
      var next := s.heap[a].next;
      Store(at, UpReplace(arg, pos, a, rem, SetBack), tally, next, s.heap[next].(prev := a),
            UpReplace(arg, pos, a, rem, PoisonOld));
      Pause(at, UpReplace(arg, pos, a, rem, PoisonOld), tally, Piece(env, turn + 1));
      ReplaceStores(s, UpReplace(arg, pos, a, rem, PoisonOld));
      Store(at, UpReplace(arg, pos, a, rem, PoisonOld), tally, pos, s.heap[pos].(prev := POISON),
            UpReplace(arg, pos, a, rem, SyncOld));
    }

    /** `synchronize_rcu` begins: the sections that are open now will be waited for. */
    method Snapshot(ghost at: nat, ghost w: Writer, ghost w': Writer, ghost tally: Tally, events: seq<Event>)
      requires Locked(at, w, tally) && Starts(w, w')
      modifies this
      ensures Locked(at, w', tally) && Extends(old(run), run)
      ensures s.waiting == s.readers.Keys && s.heap == old(s.heap) && s.word == old(s.word)
    {
      hide StepWriter;
      Pause(at, w, tally, events);
      SnapshotStep(s, w');
      Move(at, w, tally, 0, NOTHING, w', tally);
    }

    /** `synchronize_rcu` waits until none of them is open any more, for as long as `env` lasts. */
    method Await(ghost at: nat, ghost w: Writer, ghost tally: Tally, env: seq<seq<Event>>, turn: nat)
      returns (over: bool, next: nat)
      requires Locked(at, w, tally) && !w.Unlocked?
      modifies this
      ensures Locked(at, w, tally) && Extends(old(run), run) && (over <==> s.waiting == {})
      ensures s.heap == old(s.heap) && s.word == old(s.word)
    {
      hide Locked, Shared, StepWriter;
      next := turn;
      while s.waiting != {} && next < |env|
        invariant Locked(at, w, tally) && Extends(old(run), run) && s.heap == old(s.heap) && s.word == old(s.word)
        decreases |env| - next
      {
        Pause(at, w, tally, env[next]);
        next := next + 1;
      }
      over := s.waiting == {};
    }

    /** `kfree(old)`. */
    method Free(ghost at: nat, ghost w: Writer, ghost w': Writer, ghost tally: Tally, events: seq<Event>)
      requires Locked(at, w, tally) && s.waiting == {} && Frees(w, w')
      modifies this
      ensures Locked(at, w', tally.(frees := tally.frees + 1)) && Extends(old(run), run)
      ensures s.heap == old(s.heap) - {Freed(w)} && s.word == old(s.word)
    {
      hide StepWriter, Counts, IsRun, Inv, Shared;
      Pause(at, w, tally, events);
      FreeStep(s, w');
      CountsFreed(run[at], s, StepWriter(s, 0, NOTHING).s, tally);
      Move(at, w, tally, 0, NOTHING, w', tally.(frees := tally.frees + 1));
    }

    /** `spin_unlock_irqrestore`. */
    method Unlock(ghost at: nat, ghost w: Writer, ghost tally: Tally, events: seq<Event>)
      requires Locked(at, w, tally) && (w.UpUnlock? || w.ExUnlock?)
      modifies this
      ensures Locked(at, Unlocked, tally) && Extends(old(run), run)
      ensures s.heap == old(s.heap) && s.word == old(s.word) && s.n == old(s.n) && s.updates == old(s.updates)
    {
      Pause(at, w, tally, events);
      Move(at, w, tally, 0, NOTHING, Unlocked, tally);
    }

    /** The report of the new data, which counts all updates of the id so far. */
    method Report(ghost at: nat, ghost tally: Tally, a: Addr, ghost rem: int, events: seq<Event>) returns (data: nat)
      requires Locked(at, UpReport(a, rem), tally) && rem >= 1
      modifies this
      ensures Locked(at, UpUnlock, tally) && Extends(old(run), run)
      ensures s.heap == old(s.heap) && s.word == old(s.word) && s.n == old(s.n)
      ensures 1 <= IdAt(s.n, rem) && data == (100 + s.updates[IdAt(s.n, rem)]) % s.word
    {
      Pause(at, UpReport(a, rem), tally, events);
      assert !StepWriter(s, 0, NOTHING).Fault?;
      data := s.heap[a].data;
      ReportedData(s, a, rem);
      Move(at, UpReport(a, rem), tally, 0, NOTHING, UpUnlock, tally);
    }

    /** `spin_lock_irqsave`: polls for as long as `env` lasts. */
    method SpinLock(e: Event, ghost w: Writer, ghost arg: nat, env: seq<seq<Event>>)
      returns (got: bool, turn: nat, ghost at: nat)
      requires Valid() && Locks(e, w)
      modifies this
      ensures Valid() && Extends(old(run), run)
      ensures got ==> |old(run)| <= at < |run| && Locked(at, w, Tally(arg, 0, 0, 0)) && run[at] == s
      ensures got ==> at >= 1 && run[at - 1].writer == Unlocked && run[at].writer == w
      ensures got && e == ExitLock ==> run[at].exiting
      ensures !got ==> s.writer != Unlocked
    {
      hide Step, IsRun;
      turn := 0;
      while !s.writer.Unlocked? && turn < |env|
        invariant Valid() && Extends(old(run), run)
      {
        Interfere(env[turn], Outside);
        turn := turn + 1;
      }
      got, at := s.writer.Unlocked?, |run|;
      if got {
        LockStep(s, e, w);
        Fire(e);
      }
    }

    /** The walk of an updater comes back to the head. */
    method EndWalk(ghost at: nat, arg: nat, ghost rem: int, events: seq<Event>)
      requires Locked(at, UpLook(arg, HEAD, rem), Tally(arg, 0, 0, 0))
      modifies this
      ensures Locked(at, UpUnlock, Tally(arg, 0, 0, 0)) && Extends(old(run), run) && rem == 0 && s.heap == old(s.heap)
    {
      Pause(at, UpLook(arg, HEAD, rem), Tally(arg, 0, 0, 0), events);
      OnRingCell(s, rem, HEAD);
      Move(at, UpLook(arg, HEAD, rem), Tally(arg, 0, 0, 0), 0, NOTHING, UpUnlock, Tally(arg, 0, 0, 0));
    }

    /** Copying the entry that was found and publishing the copy. */
    method Publication(ghost at: nat, arg: nat, pos: Addr, ghost rem: int, junk: Cell, env: seq<seq<Event>>, turn: nat)
      returns (a: Addr)
      requires Locked(at, UpAlloc(arg, pos, rem), Tally(arg, 0, 0, 0))
      modifies this
      ensures Locked(at, UpReplace(arg, pos, a, rem, SyncOld), Tally(arg, 1, 1, 0)) && Extends(old(run), run)
      ensures a !in old(s.heap) && s.word == old(s.word)
      ensures s.heap == ListReplaceRcu(Copied(old(s.heap), pos, a, s.word), pos, a)
    {
      hide Locked, WithNext, WithPrev, Copied;
      a := Alloc(at, arg, pos, rem, junk, Piece(env, turn));
      Prepare(at, arg, pos, a, rem, env, turn + 1);
      CopyOver(old(s.heap), pos, a, junk, s.word);
      PublishNew(at, arg, pos, a, rem, Piece(env, turn + 5));
      Finish(at, arg, pos, a, rem, env, turn + 6);
    }

    /** IOCTL_UPDATE from the entry that was found: copy, publish, wait, free. */
    method Replace(ghost at: nat, arg: nat, pos: Addr, ghost rem: int, junk: Cell, env: seq<seq<Event>>, turn: nat)
      returns (over: bool, a: Addr, data: nat)
      requires Locked(at, UpAlloc(arg, pos, rem), Tally(arg, 0, 0, 0)) && rem >= 1
      modifies this
      ensures Extends(old(run), run) && a !in old(s.heap) && s.word == old(s.word)
      ensures over ==> Locked(at, Unlocked, Tally(arg, 1, 1, 1))
      ensures over ==> s.heap == ListReplaceRcu(Copied(old(s.heap), pos, a, s.word), pos, a) - {pos}
      ensures over ==> 1 <= IdAt(s.n, rem) && data == (100 + s.updates[IdAt(s.n, rem)]) % s.word
      ensures !over ==> Locked(at, UpReplace(arg, pos, a, rem, WaitOld), Tally(arg, 1, 1, 0)) && s.waiting != {}
    {
      hide Locked, ListReplaceRcu, Copied;
      a := Publication(at, arg, pos, rem, junk, env, turn);
      ghost var sync, wait := UpReplace(arg, pos, a, rem, SyncOld), UpReplace(arg, pos, a, rem, WaitOld);
      Snapshot(at, sync, wait, Tally(arg, 1, 1, 0), Piece(env, turn + 8));
      var next;
      over, next := Await(at, wait, Tally(arg, 1, 1, 0), env, turn + 9);
      if over {
        Free(at, wait, UpReport(a, rem), Tally(arg, 1, 1, 0), Piece(env, next));
        data := Report(at, Tally(arg, 1, 1, 1), a, rem, Piece(env, next + 1));
        Unlock(at, UpUnlock, Tally(arg, 1, 1, 1), Piece(env, next + 2));
      } else {
        data := 0;
      }
    }

    lemma EntryNow(id: nat)
      requires Valid() && !s.exiting && 1 <= id <= s.n
      ensures EntryIs(s, id, s.updates[id])
    {
      RunInv(run, es, |run| - 1);
      ListShape(s, id);
    }

    /** The branch of IOCTL_UPDATE that finds the id. */
    method Found(ghost at: nat, arg: nat, pos: Addr, ghost rem: int, junk: Cell, env: seq<seq<Event>>, turn: nat)
      returns (res: UpdateResult, data: nat, ghost a: Addr)
      requires Locked(at, UpAlloc(arg, pos, rem), Tally(arg, 0, 0, 0)) && 1 <= rem <= s.n && arg == IdAt(s.n, rem)
      requires pos in s.heap && s.heap[pos].id == arg
      modifies this
      ensures Valid() && Extends(old(run), run) && s.n == old(s.n) && (res == Updated || res == Pending)
      ensures res == Updated ==> at < |run| && s.writer == Unlocked && Counts(run[at], s, Tally(arg, 1, 1, 1))
      ensures res == Updated ==> Substituted(old(s.heap), s.heap, arg, s.word, pos, a)
      ensures res == Updated ==> data == (100 + s.updates[arg]) % s.word
      ensures res == Updated && !s.exiting ==> 1 <= arg <= s.n && EntryIs(s, arg, s.updates[arg])
      ensures res == Pending ==> s.writer != Unlocked
    {
      hide ListReplaceRcu, Copied, IsRun, Counts, EntryIs;
      var over;
      over, a, data := Replace(at, arg, pos, rem, junk, env, turn);
      if over && !s.exiting { EntryNow(arg); }
      res := if over then Updated else Pending;
    }

    /** The branch that does not. */
    method Missing(ghost at: nat, arg: nat, ghost rem: int, env: seq<seq<Event>>, turn: nat)
      requires Locked(at, UpLook(arg, HEAD, rem), Tally(arg, 0, 0, 0))
      requires !s.exiting ==> !(1 <= arg <= s.n - rem)
      modifies this
      ensures Valid() && Extends(old(run), run) && at < |run| && s.heap == old(s.heap)
      ensures s.writer == Unlocked && Counts(run[at], s, Tally(arg, 0, 0, 0)) && (!s.exiting ==> !(1 <= arg <= s.n))
    {
      EndWalk(at, arg, rem, Piece(env, turn));
      Unlock(at, UpUnlock, Tally(arg, 0, 0, 0), Piece(env, turn + 1));
    }

    /** IOCTL_UPDATE. When it returns, its call held the lock from state `at` on, and since then
        exactly one update of `arg` was published, one entry allocated and one freed, the entry with
        that id having been replaced by its successor, whose data it reports, or nothing was; before
        exit it updates if and only if the id is one of 1, ..., n. */
    method Update(arg: nat, junk: Cell, env: seq<seq<Event>>) returns (res: UpdateResult, data: nat, ghost at: nat)
      requires Valid()
      modifies this
      ensures Valid() && Extends(old(run), run)
      ensures res != Pending ==> |old(run)| <= at < |run| && run[at].writer == UpFirst(arg) && s.writer == Unlocked
      ensures res == Updated ==> Counts(run[at], s, Tally(arg, 1, 1, 1))
      ensures res == Updated ==> exists pos, a :: Substituted(run[at].heap, s.heap, arg, s.word, pos, a)
      ensures res == Updated && !s.exiting ==> 1 <= arg <= s.n && EntryIs(s, arg, s.updates[arg])
      ensures res == Updated ==> data == (100 + s.updates[arg]) % s.word
      ensures res == NotListed ==> Counts(run[at], s, Tally(arg, 0, 0, 0)) && s.heap == run[at].heap
      ensures res == NotListed && !s.exiting ==> !(1 <= arg <= s.n)
      ensures res == Pending ==> s.writer != Unlocked
    {
      hide Valid, Locked, Counts, EntryIs, Substituted;
      var got, turn;
      got, turn, at := SpinLock(UpdateLock(arg), UpFirst(arg), arg, env);
      data := 0;
      if !got { return Pending, 0, 0; }
      ghost var locked, heap := run, s.heap;
      var pos;
      ghost var rem;
      pos, rem := WalkFirst(at, arg, Piece(env, turn));
      while pos != HEAD
        invariant Locked(at, UpLook(arg, pos, rem), Tally(arg, 0, 0, 0)) && Extends(locked, run) && rem >= 0
        invariant !s.exiting ==> !(1 <= arg <= s.n - rem)
        invariant s.heap == heap
        decreases rem
      {
        var equal := WalkId(at, arg, pos, rem, Piece(env, turn + 1));
        if equal {
          ghost var a;
          res, data, a := Found(at, arg, pos, rem, junk, env, turn + 2);
          return;
        }
        pos := WalkNext(at, arg, pos, rem, Piece(env, turn + 2));
        rem := rem - 1;
        turn := turn + 2;
      }
      Missing(at, arg, rem, env, turn + 1);
      res := NotListed;
    }

    // -------------------------------------------------------------- simple_rcu_exit

    /** `tmp = mylist.list.next`. */
    method ExitFirst(ghost at: nat, events: seq<Event>) returns (tmp: Addr)
      requires Locked(at, ExFirst, Tally(0, 0, 0, 0))
      modifies this
      ensures Locked(at, ExSecond(tmp), Tally(0, 0, 0, 0)) && Extends(old(run), run)
    {
      Pause(at, ExFirst, Tally(0, 0, 0, 0), events);
      tmp := s.heap[HEAD].next;
      Move(at, ExFirst, Tally(0, 0, 0, 0), 0, NOTHING, ExSecond(tmp), Tally(0, 0, 0, 0));
    }

    /** `pos = tmp->list.next`. */
    method ExitSecond(ghost at: nat, tmp: Addr, events: seq<Event>) returns (pos: Addr)
      requires Locked(at, ExSecond(tmp), Tally(0, 0, 0, 0))
      modifies this
      ensures Locked(at, ExLook(tmp, pos), Tally(0, 0, 0, 0)) && Extends(old(run), run)
    {
      Pause(at, ExSecond(tmp), Tally(0, 0, 0, 0), events);
      assert !StepWriter(s, 0, NOTHING).Fault?;
      pos := s.heap[tmp].next;
      Move(at, ExSecond(tmp), Tally(0, 0, 0, 0), 0, NOTHING, ExLook(tmp, pos), Tally(0, 0, 0, 0));
    }

    /** The loop test of `list_for_each_entry_safe`. */
    method ExitTest(ghost at: nat, tmp: Addr, pos: Addr, ghost tally: Tally, events: seq<Event>)
      requires Locked(at, ExLook(tmp, pos), tally)
      modifies this
      ensures Locked(at, if tmp == HEAD then ExUnlock else ExDelete(tmp, pos, SetBackDel), tally)
      ensures Extends(old(run), run)
      ensures at < |run| && (tmp != HEAD ==> run[at].frees + tally.frees < run[at].allocs + tally.allocs)
    {
      Pause(at, ExLook(tmp, pos), tally, events);
      OnRingCell(s, |s.ring| - 1, tmp);
      OnRingCell(s, 0, HEAD);
      if tmp != HEAD { TwoAllocated(s.heap, HEAD, tmp); }
      Move(at, ExLook(tmp, pos), tally, 0, NOTHING,
           if tmp == HEAD then ExUnlock else ExDelete(tmp, pos, SetBackDel), tally);
    }

    /** `list_del_rcu`: unlink the entry from its successor and its predecessor, and poison it. */
    method ListDel(ghost at: nat, tmp: Addr, pos: Addr, ghost tally: Tally, env: seq<seq<Event>>, turn: nat)
      requires Locked(at, ExDelete(tmp, pos, SetBackDel), tally)
      modifies this
      ensures Locked(at, ExDelete(tmp, pos, SyncDel), tally) && Extends(old(run), run)
      ensures tmp in old(s.heap) && s.heap == ListDelRcu(old(s.heap), tmp)
    {
      hide Locked, Stores, Shared, Counts;
      Pause(at, ExDelete(tmp, pos, SetBackDel), tally, Piece(env, turn));
      DeleteStores(s, ExDelete(tmp, pos, SetBackDel));
      var next, prev := s.heap[tmp].next, s.heap[tmp].prev;
      Store(at, ExDelete(tmp, pos, SetBackDel), tally, next, s.heap[next].(prev := prev), ExDelete(tmp, pos, Unlink));
      Unlinked(at, tmp, pos, tally, Piece(env, turn + 1));
      Pause(at, ExDelete(tmp, pos, PoisonDel), tally, Piece(env, turn + 2));
      DeleteStores(s, ExDelete(tmp, pos, PoisonDel));
      Store(at, ExDelete(tmp, pos, PoisonDel), tally, tmp, s.heap[tmp].(prev := POISON), ExDelete(tmp, pos, SyncDel));
    }

    /** The store of `list_del_rcu` that takes the entry off the list. */
    method Unlinked(ghost at: nat, tmp: Addr, pos: Addr, ghost tally: Tally, events: seq<Event>)
      requires Locked(at, ExDelete(tmp, pos, Unlink), tally)
      modifies this
      ensures Locked(at, ExDelete(tmp, pos, PoisonDel), tally) && Extends(old(run), run)
      ensures tmp in old(s.heap)
      ensures s.heap == WithNext(old(s.heap), old(s.heap)[tmp].prev, old(s.heap)[tmp].next)
    {
      Pause(at, ExDelete(tmp, pos, Unlink), tally, events);
      UnlinkStore(s, NOTHING);
      Move(at, ExDelete(tmp, pos, Unlink), tally, 0, NOTHING, ExDelete(tmp, pos, PoisonDel), tally);
    }

    /** `tmp = pos, pos = pos->list.next`. */
    method ExitNext(ghost at: nat, pos: Addr, ghost tally: Tally, events: seq<Event>) returns (next: Addr)
      requires Locked(at, ExAdvance(pos), tally)
      modifies this
      ensures Locked(at, ExLook(pos, next), tally) && Extends(old(run), run) && s.heap == old(s.heap)
    {
      Pause(at, ExAdvance(pos), tally, events);
      assert !StepWriter(s, 0, NOTHING).Fault?;
      next := s.heap[pos].next;
      Move(at, ExAdvance(pos), tally, 0, NOTHING, ExLook(pos, next), tally);
    }

    /** One round of the loop of `simple_rcu_exit`: unlink, wait, free, go on. */
    method ExitRound(ghost at: nat, tmp: Addr, pos: Addr, ghost rounds: nat, env: seq<seq<Event>>, turn: nat)
      returns (over: bool, next: Addr, k: nat)
      requires Locked(at, ExDelete(tmp, pos, SetBackDel), Tally(0, 0, 0, rounds))
      modifies this
      ensures Extends(old(run), run)
      ensures over ==> Locked(at, ExLook(pos, next), Tally(0, 0, 0, rounds + 1))
      ensures over ==> s.heap == ListDelRcu(old(s.heap), tmp) - {tmp}
      ensures !over ==> Locked(at, ExDelete(tmp, pos, WaitDel), Tally(0, 0, 0, rounds)) && s.waiting != {}
    {
      hide Locked, ListDelRcu;
      ListDel(at, tmp, pos, Tally(0, 0, 0, rounds), env, turn);
      ghost var wait := ExDelete(tmp, pos, WaitDel);
      Snapshot(at, ExDelete(tmp, pos, SyncDel), wait, Tally(0, 0, 0, rounds), Piece(env, turn + 3));
      over, k := Await(at, wait, Tally(0, 0, 0, rounds), env, turn + 4);
      if over {
        Free(at, wait, ExAdvance(pos), Tally(0, 0, 0, rounds), Piece(env, k));
        next := ExitNext(at, pos, Tally(0, 0, 0, rounds + 1), Piece(env, k + 1));
        k := k + 2;
      } else {
        next := HEAD;
      }
    }

    /** The loop of `simple_rcu_exit`, one round for every entry of the list, and the unlock. */
    method ExitLoop(ghost at: nat, env: seq<seq<Event>>, turn: nat) returns (over: bool, ghost rounds: nat)
      requires Locked(at, ExFirst, Tally(0, 0, 0, 0)) && at < |run| && run[at] == s && s.exiting
      modifies this
      ensures Extends(old(run), run) && Valid()
      ensures over ==> Locked(at, Unlocked, Tally(0, 0, 0, rounds)) && rounds == |old(s.ring)| - 1
      ensures !over ==> s.writer != Unlocked
    {
      hide Locked, Counts, IsRun;
      LockedNow(at, ExFirst, Tally(0, 0, 0, 0));
      ghost var first := run;
      rounds := 0;
      var tmp := ExitFirst(at, Piece(env, turn));
      var pos := ExitSecond(at, tmp, Piece(env, turn + 1));
      ExitTest(at, tmp, pos, Tally(0, 0, 0, 0), Piece(env, turn + 2));
      var k: nat := turn + 3;
      while tmp != HEAD
        invariant Locked(at, if tmp == HEAD then ExUnlock else ExDelete(tmp, pos, SetBackDel), Tally(0, 0, 0, rounds))
        invariant Extends(first, run) && (tmp != HEAD ==> first[at].frees + rounds < first[at].allocs)
        decreases first[at].allocs - first[at].frees - rounds
      {
        var next;
        over, next, k := ExitRound(at, tmp, pos, rounds, env, k);
        if !over {
          LockedNow(at, ExDelete(tmp, pos, WaitDel), Tally(0, 0, 0, rounds));
          return;
        }
        tmp, pos, rounds := pos, next, rounds + 1;
        ExitTest(at, tmp, pos, Tally(0, 0, 0, rounds), Piece(env, k));
        k := k + 1;
      }
      Unlock(at, ExUnlock, Tally(0, 0, 0, rounds), Piece(env, k));
      LockedNow(at, Unlocked, Tally(0, 0, 0, rounds));
      RoundsMade(at, rounds);
      assert run[at] == first[at];
      over := true;
    }

    lemma RoundsMade(at: nat, rounds: nat)
      requires Locked(at, Unlocked, Tally(0, 0, 0, rounds)) && run[at].exiting && run[at].writer == ExFirst
      ensures rounds == |run[at].ring| - 1
    {
      RunInv(run, es, at);
      TeardownFreesAll(run, es, |run| - 1);
    }

    lemma LockedNow(at: nat, w: Writer, tally: Tally)
      requires Locked(at, w, tally)
      ensures Valid() && s.writer == w
    {
    }

    /** `simple_rcu_exit`: when it returns, the list is empty and every entry ever allocated has
        been freed. */
    method Teardown(env: seq<seq<Event>>) returns (over: bool)
      requires Valid()
      modifies this
      ensures Valid() && Extends(old(run), run)
      ensures over ==> s.writer == Unlocked && s.heap.Keys == {HEAD} && s.frees == s.allocs && s.heap[HEAD].next == HEAD
      ensures !over ==> s.writer != Unlocked
    {
      hide Counts, IsRun;
      var got, turn;
      ghost var at, rounds;
      got, turn, at := SpinLock(ExitLock, ExFirst, 0, env);
      if !got { return false; }
      over, rounds := ExitLoop(at, env, turn);
      if over { TeardownFreesAll(run, es, |run| - 1); }
    }
  }
}
