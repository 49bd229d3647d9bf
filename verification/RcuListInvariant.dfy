/**
 The inductive invariant of the RCU list, and the proof that every event keeps it and that no
 event touches memory that is not allocated.
 */
module RcuListInvariant {
  import opened Common
  import opened RcuList

  // ---------------------------------------------------------------- the invariant

  /** The position reached from r by following `next`: the ring is read downwards. */
  function Below(ring: seq<Addr>, r: int): int { if r == 0 then |ring| - 1 else r - 1 }
  /** The position reached from r by following `prev`. */
  function Above(ring: seq<Addr>, r: int): int { if r == |ring| - 1 then 0 else r + 1 }

  function Entry(ring: seq<Addr>, i: int): Addr
    requires 0 <= i < |ring|
  {
    ring[i]
  }

  ghost predicate Distinct(ring: seq<Addr>) {
    forall i, j :: 0 <= i < j < |ring| ==> Entry(ring, i) != Entry(ring, j)
  }

  lemma Differ(ring: seq<Addr>, i: int, j: int)
    requires Distinct(ring) && 0 <= i < |ring| && 0 <= j < |ring|
    ensures ring[i] == ring[j] <==> i == j
  {
    assert Entry(ring, i) == ring[i] && Entry(ring, j) == ring[j];
  }

  /** Following `next` from the head walks the ring. */
  ghost predicate NextLinked(heap: map<Addr, Cell>, ring: seq<Addr>) {
    && (forall r {:trigger ring[r] in heap} :: 0 <= r < |ring| ==> ring[r] in heap)
    && (forall r {:trigger heap[ring[r]]} :: 0 <= r < |ring| ==> heap[ring[r]].next == ring[Below(ring, r)])
  }

  /** The entries carry the remaining ids in order, each with the data its id must have. */
  ghost predicate Contents(heap: map<Addr, Cell>, ring: seq<Addr>, n: nat, updates: multiset<nat>, word: WordSize) {
    forall r {:trigger heap[ring[r]]} :: 1 <= r < |ring| ==>
      && ring[r] in heap
      && 1 <= IdAt(n, r)
      && heap[ring[r]].id == IdAt(n, r)
      && heap[ring[r]].data == (100 + updates[IdAt(n, r)]) % word
  }

  /** Where the back link of position r points: to its predecessor, but for the one entry whose
      `prev` lags while the lock holder is between two stores. */
  ghost function BackOf(ring: seq<Addr>, w: Writer, r: int): Addr
    requires 0 <= r < |ring|
  {
    match w
    case UpReplace(_, oldNode, _, rem, SetBack) => if r == rem - 1 then oldNode else ring[Above(ring, r)]
    case ExDelete(_, _, Unlink) => if r == |ring| - 2 then HEAD else ring[Above(ring, r)]
    case _ => ring[Above(ring, r)]
  }

  ghost predicate BackLinked(heap: map<Addr, Cell>, ring: seq<Addr>, w: Writer) {
    forall r {:trigger heap[ring[r]]} :: 0 <= r < |ring| && ring[r] in heap ==> heap[ring[r]].prev == BackOf(ring, w, r)
  }

  predicate BeforePublish(todo: Replace) {
    todo == Copy || todo == Bump || todo == SetNext || todo == SetPrev || todo == Publish
  }

  predicate BeforeUnlink(step: Delete) { step == SetBackDel || step == Unlink }

  /** The entry that is off the list but not freed, and the position it was taken from. */
  function Limbo(ring: seq<Addr>, w: Writer): Option<(Addr, int)> {
    match w
    case UpReplace(_, oldNode, _, rem, todo) => if BeforePublish(todo) then None else Some((oldNode, rem))
    case ExDelete(tmp, _, step) => if BeforeUnlink(step) then None else Some((tmp, |ring|))
    case _ => None
  }

  /** The allocated entry that is not on the list: an updater's unpublished copy, or limbo. */
  function Extra(w: Writer): Option<Addr> {
    match w
    case UpReplace(_, oldNode, newNode, _, todo) => Some(if BeforePublish(todo) then newNode else oldNode)
    case ExDelete(tmp, _, step) => if BeforeUnlink(step) then None else Some(tmp)
    case _ => None
  }

  /** The running or coming grace period must outlast the read section of t. */
  predicate AwaitedBy(w: Writer, waiting: set<Tid>, t: Tid) {
    match w
    case UpReplace(_, _, _, _, todo) => !BeforePublish(todo) && (todo == WaitOld ==> t in waiting)
    case ExDelete(_, _, step) => !BeforeUnlink(step) && (step == WaitDel ==> t in waiting)
    case _ => false
  }

  /** Nothing is allocated but the list and at most one more entry (see HeapExactly). */
  ghost predicate Owned(heap: map<Addr, Cell>, ring: seq<Addr>, w: Writer) {
    && (Extra(w).Some? ==> Extra(w).value in heap && Extra(w).value !in ring)
    && |heap| == |ring| + (if Extra(w).Some? then 1 else 0)
    && POISON !in heap
  }

  ghost predicate OnRing(ring: seq<Addr>, r: int, a: Addr) { 0 <= r < |ring| && ring[r] == a }

  ghost predicate ReplaceOk(heap: map<Addr, Cell>, ring: seq<Addr>, n: nat, word: WordSize, w: Writer)
    requires w.UpReplace?
  {
    && 1 <= w.rem && w.arg == IdAt(n, w.rem)
    && w.oldNode in heap && w.newNode in heap
    && if BeforePublish(w.todo) then
         && OnRing(ring, w.rem, w.oldNode)
         && (w.todo == Bump ==> heap[w.newNode] == heap[w.oldNode])
         && (w.todo == SetNext || w.todo == SetPrev || w.todo == Publish ==>
               heap[w.newNode] == heap[w.oldNode].(data := (heap[w.oldNode].data + 1) % word))
       else
         && OnRing(ring, w.rem, w.newNode)
         && heap[w.oldNode].next == ring[w.rem - 1]
         && heap[w.oldNode].id == IdAt(n, w.rem)
  }

  ghost predicate DeleteOk(heap: map<Addr, Cell>, ring: seq<Addr>, n: nat, w: Writer)
    requires w.ExDelete?
  {
    && w.tmp in heap
    && if BeforeUnlink(w.step) then
         |ring| >= 2 && ring[|ring| - 1] == w.tmp && ring[|ring| - 2] == w.pos
       else
         && 1 <= |ring| <= n
         && heap[w.tmp].next == ring[|ring| - 1] && ring[|ring| - 1] == w.pos
         && heap[w.tmp].id == IdAt(n, |ring|)
  }

  ghost predicate WriterOk(heap: map<Addr, Cell>, ring: seq<Addr>, n: nat, word: WordSize, w: Writer) {
    match w
    case Unlocked => true
    case UpFirst(_) => true
    case UpLook(_, pos, rem) => OnRing(ring, rem, pos)
    case UpAdvance(_, pos, rem) => rem >= 1 && OnRing(ring, rem, pos)
    case UpAlloc(arg, pos, rem) => rem >= 1 && OnRing(ring, rem, pos) && arg == IdAt(n, rem)
    case UpReplace(_, _, _, _, _) => ReplaceOk(heap, ring, n, word, w)
    case UpReport(c, rem) => OnRing(ring, rem, c)
    case UpUnlock => true
    case ExFirst => true
    case ExSecond(tmp) => OnRing(ring, |ring| - 1, tmp)
    case ExLook(tmp, pos) => OnRing(ring, |ring| - 1, tmp) && OnRing(ring, Below(ring, |ring| - 1), pos)
    case ExDelete(_, _, _) => DeleteOk(heap, ring, n, w)
    case ExAdvance(pos) => OnRing(ring, |ring| - 1, pos)
    case ExUnlock => |ring| == 1
  }

  predicate Exiting(w: Writer) {
    w.ExFirst? || w.ExSecond? || w.ExLook? || w.ExDelete? || w.ExAdvance? || w.ExUnlock?
  }

  /** The parts of the state that the invariant of a reader depends on. */
  datatype View = View(ring: seq<Addr>, w: Writer, waiting: set<Tid>, n: nat, pubs: nat, exiting: bool)

  function ViewOf(s: State): View { View(s.ring, s.writer, s.waiting, s.n, s.pubs, s.exiting) }

  /** The cursor p of a reader with rem positions left is on the list at that position, or is the
      entry that was just taken from there, and then the section began before it was taken. */
  ghost predicate CursorOk(v: View, rd: Reader, p: Addr) {
    && 0 <= rd.rem <= v.n
    && (OnRing(v.ring, rd.rem, p) || (Limbo(v.ring, v.w) == Some((p, rd.rem)) && rd.since < v.pubs))
  }

  /** Outside exit, `hops` entries have been visited and the ids beyond position r were not arg. */
  ghost predicate Passed(v: View, rd: Reader, r: int) {
    && rd.hops + rd.rem <= v.n + 1
    && (!v.exiting ==> rd.hops + rd.rem == v.n + 1 && !(1 <= rd.arg <= v.n - r))
  }

  ghost predicate ReaderOk(v: View, t: Tid, rd: Reader) {
    && rd.since <= v.pubs <= rd.since + 1
    && (rd.since < v.pubs ==> AwaitedBy(v.w, v.waiting, t))
    && match rd.pc
       case First => rd.hops == 0 && rd.rem == v.n + 1
       case Look(p) => CursorOk(v, rd, p) && Passed(v, rd, rd.rem)
       case Advance(p) =>
         CursorOk(v, rd, p) && rd.rem >= 1 && rd.arg != IdAt(v.n, rd.rem) && Passed(v, rd, rd.rem)
       case Load(p) => CursorOk(v, rd, p) && rd.rem >= 1 && rd.arg == IdAt(v.n, rd.rem) && Passed(v, rd, rd.rem)
       case Leave(None) => 0 <= rd.rem && rd.hops + rd.rem <= v.n + 1 && (!v.exiting ==> !(1 <= rd.arg <= v.n))
       case Leave(Some(_)) => 0 <= rd.rem && rd.hops + rd.rem <= v.n + 1 && 1 <= rd.arg <= v.n
  }

  ghost predicate ReadersOk(v: View, readers: map<Tid, Reader>) {
    forall t :: t in readers ==> ReaderOk(v, t, readers[t])
  }

  ghost predicate Sized(s: State) {
    && 1 <= |s.ring| <= s.n + 1 && s.ring[0] == HEAD && Distinct(s.ring)
    && (!s.exiting ==> |s.ring| == s.n + 1)
    && (Exiting(s.writer) ==> s.exiting)
    && (s.exiting && !Exiting(s.writer) ==> |s.ring| == 1)
    && |s.heap| + s.frees == 1 + s.allocs
  }

  ghost predicate Shared(s: State) {
    && Sized(s)
    && NextLinked(s.heap, s.ring)
    && Contents(s.heap, s.ring, s.n, s.updates, s.word)
    && BackLinked(s.heap, s.ring, s.writer)
    && Owned(s.heap, s.ring, s.writer)
    && WriterOk(s.heap, s.ring, s.n, s.word, s.writer)
  }

  ghost predicate Inv(s: State) {
    && Shared(s)
    && ReadersOk(ViewOf(s), s.readers)
    && s.waiting <= s.readers.Keys
  }

  /** The event did not touch unallocated memory and left the invariant in place. */
  ghost predicate Good(o: Outcome) { !o.Fault? && (o.Ok? ==> Inv(o.s)) }

  // ---------------------------------------------------------------- readers

  /** A cursor that CursorOk allows is allocated, and its `next` is the position below. */
  lemma CursorAllocated(s: State, rd: Reader, p: Addr)
    requires Shared(s) && CursorOk(ViewOf(s), rd, p)
    ensures p in s.heap
    ensures p == HEAD <==> rd.rem == 0
    ensures rd.rem >= 1 ==> s.heap[p].id == IdAt(s.n, rd.rem)
    ensures rd.rem >= 1 ==> OnRing(s.ring, rd.rem - 1, s.heap[p].next)
  {
    if OnRing(s.ring, rd.rem, p) {
      Differ(s.ring, 0, rd.rem);
    } else {
      assert Extra(s.writer) == Some(p);
      assert s.ring[0] == HEAD;
    }
  }

  lemma ReaderChanged(s: State, t: Tid, rd: Reader)
    requires Inv(s) && ReaderOk(ViewOf(s), t, rd)
    ensures Inv(SetReader(s, t, rd))
  {
  }

  lemma ReadLockGood(s: State, t: Tid, arg: nat)
    requires Inv(s)
    ensures Good(BeginRead(s, t, arg))
  {
    if t !in s.readers { ReaderChanged(s, t, Reader(arg, First, s.pubs, s.n + 1, 0)); }
  }

  lemma LeaveGood(s: State, t: Tid)
    requires Inv(s) && t in s.readers && s.readers[t].pc.Leave?
    ensures Good(StepReader(s, t))
  {
    var s' := StepReader(s, t).s;
    forall u | u in s'.readers ensures ReaderOk(ViewOf(s'), u, s'.readers[u]) {
      assert ReaderOk(ViewOf(s), u, s.readers[u]);
    }
  }

  lemma LookGood(s: State, t: Tid)
    requires Inv(s) && t in s.readers && s.readers[t].pc.Look?
    ensures StepReader(s, t).Ok? && Inv(StepReader(s, t).s)
  {
    var rd := s.readers[t];
    assert ReaderOk(ViewOf(s), t, rd);
    CursorAllocated(s, rd, rd.pc.pos);
    var rd' := rd.(pc := if rd.pc.pos == HEAD then Leave(None)
                         else if s.heap[rd.pc.pos].id == rd.arg then Load(rd.pc.pos) else Advance(rd.pc.pos));
    ReaderChanged(s, t, rd');
  }

  lemma AdvanceGood(s: State, t: Tid)
    requires Inv(s) && t in s.readers && s.readers[t].pc.Advance?
    ensures StepReader(s, t).Ok? && Inv(StepReader(s, t).s)
  {
    var rd := s.readers[t];
    assert ReaderOk(ViewOf(s), t, rd);
    CursorAllocated(s, rd, rd.pc.pos);
    var rd' := rd.(pc := Look(s.heap[rd.pc.pos].next), rem := rd.rem - 1, hops := rd.hops + 1);
    ReaderChanged(s, t, rd');
  }

  lemma FirstOrLoadGood(s: State, t: Tid)
    requires Inv(s) && t in s.readers && (s.readers[t].pc.First? || s.readers[t].pc.Load?)
    ensures StepReader(s, t).Ok? && Inv(StepReader(s, t).s)
  {
    var rd := s.readers[t];
    assert ReaderOk(ViewOf(s), t, rd);
    if rd.pc.First? {
      ReaderChanged(s, t, rd.(pc := Look(s.heap[HEAD].next), rem := Top(s), hops := 1));
    } else {
      CursorAllocated(s, rd, rd.pc.pos);
      ReaderChanged(s, t, rd.(pc := Leave(Some(s.heap[rd.pc.pos].data))));
    }
  }

  /** A reader's step is never blocked and never faults, whatever the lock holder is doing. */
  lemma StepReaderGood(s: State, t: Tid)
    requires Inv(s)
    ensures Good(StepReader(s, t))
    ensures t in s.readers ==> StepReader(s, t).Ok?
  {
    if t in s.readers {
      match s.readers[t].pc
      case First => FirstOrLoadGood(s, t);
      case Look(_) => LookGood(s, t);
      case Advance(_) => AdvanceGood(s, t);
      case Load(_) => FirstOrLoadGood(s, t);
      case Leave(_) => LeaveGood(s, t);
    }
  }

  // ---------------------------------------------------------------- the lock holder

  /** Readers do not notice a step that keeps the list, the limbo entry and what is awaited. */
  lemma ReadersKeep(v: View, v': View, readers: map<Tid, Reader>)
    requires ReadersOk(v, readers)
    requires v'.ring == v.ring && v'.pubs == v.pubs && v'.n == v.n && (v.exiting ==> v'.exiting)
    requires Limbo(v'.ring, v'.w) == Limbo(v.ring, v.w) || Limbo(v.ring, v.w) == None
    requires forall t :: t in readers && AwaitedBy(v.w, v.waiting, t) ==> AwaitedBy(v'.w, v'.waiting, t)
    ensures ReadersOk(v', readers)
  {
    forall t | t in readers ensures ReaderOk(v', t, readers[t]) {
      assert ReaderOk(v, t, readers[t]);
    }
  }

  predicate Quiet(w: Writer) { !w.UpReplace? && !w.ExDelete? }

  /** A step of the lock holder that only moves its program counter. */
  lemma MoveGood(s: State, w: Writer, exiting: bool)
    requires Inv(s) && Quiet(s.writer) && Quiet(w) && WriterOk(s.heap, s.ring, s.n, s.word, w)
    requires (s.exiting ==> exiting) && (Exiting(w) ==> exiting)
    requires exiting && !Exiting(w) ==> |s.ring| == 1
    ensures Inv(s.(writer := w, exiting := exiting))
  {
    ReadersKeep(ViewOf(s), ViewOf(s.(writer := w, exiting := exiting)), s.readers);
  }

  lemma LockGood(s: State, arg: nat)
    requires Inv(s)
    ensures Good(Step(s, ExitLock)) && Good(Step(s, UpdateLock(arg)))
  {
    if s.writer.Unlocked? {
      MoveGood(s, UpFirst(arg), s.exiting);
      MoveGood(s, ExFirst, true);
    }
  }

  /** Along the ring a cursor is allocated, carries the id of its position, and leads below. */
  lemma OnRingCell(s: State, r: int, p: Addr)
    requires Shared(s) && OnRing(s.ring, r, p)
    ensures p in s.heap && OnRing(s.ring, Below(s.ring, r), s.heap[p].next)
    ensures r >= 1 ==> s.heap[p].id == IdAt(s.n, r) && p != HEAD
    ensures p == HEAD ==> r == 0
  {
    Differ(s.ring, 0, r);
  }

  lemma WalkGood(s: State, a: Addr, junk: Cell)
    requires Inv(s) && (s.writer.UpFirst? || s.writer.UpLook? || s.writer.UpAdvance?)
    ensures Good(StepWriter(s, a, junk))
  {
    match s.writer
    case UpFirst(arg) =>
      OnRingCell(s, 0, HEAD);
      MoveGood(s, UpLook(arg, s.heap[HEAD].next, Top(s)), s.exiting);
    case UpLook(arg, pos, rem) =>
      OnRingCell(s, rem, pos);
      MoveGood(s, if pos == HEAD then UpUnlock
                  else if s.heap[pos].id == arg then UpAlloc(arg, pos, rem)
                  else UpAdvance(arg, pos, rem), s.exiting);
    case UpAdvance(arg, pos, rem) =>
      OnRingCell(s, rem, pos);
      MoveGood(s, UpLook(arg, s.heap[pos].next, rem - 1), s.exiting);
  }

  lemma ExitWalkGood(s: State, a: Addr, junk: Cell)
    requires Inv(s) && (s.writer.ExFirst? || s.writer.ExSecond? || s.writer.ExAdvance?)
    ensures Good(StepWriter(s, a, junk))
  {
    match s.writer
    case ExFirst =>
      OnRingCell(s, 0, HEAD);
      MoveGood(s, ExSecond(s.heap[HEAD].next), s.exiting);
    case ExSecond(tmp) =>
      OnRingCell(s, Top(s), tmp);
      MoveGood(s, ExLook(tmp, s.heap[tmp].next), s.exiting);
    case ExAdvance(pos) =>
      OnRingCell(s, Top(s), pos);
      MoveGood(s, ExLook(pos, s.heap[pos].next), s.exiting);
  }

  lemma ReportGood(s: State, a: Addr, junk: Cell)
    requires Inv(s) && (s.writer.UpReport? || s.writer.UpUnlock? || s.writer.ExUnlock?)
    ensures Good(StepWriter(s, a, junk))
  {
    match s.writer
    case UpReport(c, _) => MoveGood(s, UpUnlock, s.exiting);
    case UpUnlock => MoveGood(s, Unlocked, s.exiting);
    case ExUnlock => MoveGood(s, Unlocked, s.exiting);
  }

  /** Both memories hold the same entries on the ring. */
  ghost predicate Agree(heap: map<Addr, Cell>, heap': map<Addr, Cell>, ring: seq<Addr>) {
    && (forall r {:trigger ring[r] in heap'} :: 0 <= r < |ring| ==> ring[r] in heap')
    && (forall r {:trigger heap'[ring[r]]} :: 0 <= r < |ring| && ring[r] in heap && ring[r] in heap' ==>
          heap'[ring[r]] == heap[ring[r]])
  }

  lemma AgreeNext(heap: map<Addr, Cell>, heap': map<Addr, Cell>, ring: seq<Addr>)
    requires NextLinked(heap, ring) && Agree(heap, heap', ring)
    ensures NextLinked(heap', ring)
  {
    forall r | 0 <= r < |ring| ensures ring[r] in heap' && heap'[ring[r]].next == ring[Below(ring, r)] {
      assert ring[r] in heap && heap[ring[r]].next == ring[Below(ring, r)];
    }
  }

  lemma AgreeContents(heap: map<Addr, Cell>, heap': map<Addr, Cell>, ring: seq<Addr>, n: nat, updates: multiset<nat>,
                      word: WordSize)
    requires Contents(heap, ring, n, updates, word) && Agree(heap, heap', ring) && NextLinked(heap, ring)
    ensures Contents(heap', ring, n, updates, word)
  {
    forall r | 1 <= r < |ring|
      ensures ring[r] in heap' && heap'[ring[r]] == heap[ring[r]]
    {
      assert ring[r] in heap;
    }
  }

  lemma AgreeBack(heap: map<Addr, Cell>, heap': map<Addr, Cell>, ring: seq<Addr>, w: Writer)
    requires BackLinked(heap, ring, w) && Agree(heap, heap', ring) && NextLinked(heap, ring)
    ensures BackLinked(heap', ring, w)
  {
    forall r | 0 <= r < |ring| ensures ring[r] in heap' && heap'[ring[r]].prev == BackOf(ring, w, r) {
      assert ring[r] in heap && heap[ring[r]].prev == BackOf(ring, w, r);
    }
  }

  /** Writing an entry that is not on the ring does not disturb the ring. */
  lemma OffRing(s: State, b: Addr, c: Cell)
    requires Shared(s) && b !in s.ring
    ensures var h := s.heap[b := c];
      NextLinked(h, s.ring) && Contents(h, s.ring, s.n, s.updates, s.word) && BackLinked(h, s.ring, s.writer)
  {
    StoreAgrees(s.heap, s.ring, b, c);
    hide NextLinked, Contents, BackLinked, Agree;
    AgreeNext(s.heap, s.heap[b := c], s.ring);
    AgreeContents(s.heap, s.heap[b := c], s.ring, s.n, s.updates, s.word);
    AgreeBack(s.heap, s.heap[b := c], s.ring, s.writer);
  }

  lemma StoreAgrees(heap: map<Addr, Cell>, ring: seq<Addr>, b: Addr, c: Cell)
    requires NextLinked(heap, ring) && b !in ring
    ensures Agree(heap, heap[b := c], ring)
  {
    forall r | 0 <= r < |ring| ensures ring[r] in heap[b := c] && ring[r] != b {
      assert ring[r] in ring && ring[r] in heap;
    }
  }

  lemma AllocGood(s: State, a: Addr, junk: Cell)
    requires Inv(s) && s.writer.UpAlloc?
    ensures Good(StepWriter(s, a, junk))
  {
    if a !in s.heap && a != POISON {
      var w := UpReplace(s.writer.arg, s.writer.pos, a, s.writer.rem, Copy);
      var s' := s.(heap := s.heap[a := junk], allocs := s.allocs + 1, writer := w);
      OffRing(s, a, junk);
      OnRingCell(s, s.writer.rem, s.writer.pos);
      assert Shared(s');
      ReadersKeep(ViewOf(s), ViewOf(s'), s.readers);
      assert StepWriter(s, a, junk) == Ok(s');
    }
  }

  lemma BackUnpublished(heap: map<Addr, Cell>, ring: seq<Addr>, w: Writer, w': Writer)
    requires BackLinked(heap, ring, w) && w.UpReplace? && w'.UpReplace? && w.todo != SetBack && w'.todo != SetBack
    ensures BackLinked(heap, ring, w')
  {
    forall r {:trigger heap[ring[r]]} | 0 <= r < |ring| && ring[r] in heap
      ensures heap[ring[r]].prev == BackOf(ring, w', r)
    {
      assert BackOf(ring, w, r) == BackOf(ring, w', r);
    }
  }

  lemma CopyShared(s: State)
    requires Shared(s) && s.writer.UpReplace? && BeforePublish(s.writer.todo) && s.writer.todo != Publish
    ensures StepReplace(s).Ok? && Shared(StepReplace(s).s)
  {
    var w, s' := s.writer, StepReplace(s).s;
    assert w.newNode !in s.ring;
    OffRing(s, w.newNode, s'.heap[w.newNode]);
    BackUnpublished(s'.heap, s.ring, w, s'.writer);
    hide NextLinked, Contents, BackLinked, Distinct;
    assert s'.heap.Keys == s.heap.Keys;
    SameCount(s.heap, s'.heap);
  }

  lemma SameCount(heap: map<Addr, Cell>, heap': map<Addr, Cell>)
    requires heap'.Keys == heap.Keys
    ensures |heap'| == |heap|
  {
    assert |heap'.Keys| == |heap.Keys|;
  }

  lemma CopyView(s: State)
    requires Shared(s) && s.writer.UpReplace? && BeforePublish(s.writer.todo) && s.writer.todo != Publish
    ensures StepReplace(s).Ok?
    ensures var s' := StepReplace(s).s;
      && s'.readers == s.readers && s'.waiting == s.waiting
      && exists todo :: BeforePublish(todo) && ViewOf(s') == ViewOf(s).(w := s.writer.(todo := todo))
  {
    var todo := match s.writer.todo
      case Copy => Bump
      case Bump => SetNext
      case SetNext => SetPrev
      case _ => Publish;
    assert BeforePublish(todo);
  }

  lemma CopyGood(s: State)
    requires Inv(s) && s.writer.UpReplace? && BeforePublish(s.writer.todo) && s.writer.todo != Publish
    ensures Good(StepReplace(s))
  {
    CopyShared(s);
    CopyView(s);
    hide Shared, StepReplace;
    ReadersKeep(ViewOf(s), ViewOf(StepReplace(s).s), s.readers);
  }

  /** Wrapping: adding one after reducing is adding one before. */
  lemma WrapOnce(x: nat, w: WordSize)
    ensures (x % w + 1) % w == (x + 1) % w
  {
    var q, r := x / w, x % w;
    assert x == q * w + r;
    if r + 1 == w {
      assert x + 1 == (q + 1) * w;
      WrapZero(q + 1, w);
    } else {
      assert x + 1 == q * w + (r + 1);
      WrapRest(q, r + 1, w);
    }
  }

  lemma WrapZero(q: nat, w: WordSize)
    ensures (q * w) % w == 0
  {
    WrapRest(q, 0, w);
  }

  lemma WrapRest(q: nat, r: nat, w: WordSize)
    requires r < w
    ensures (q * w + r) % w == r
  {
    var y := q * w + r;
    assert y == (y / w) * w + y % w;
    if y / w < q {
      assert (y / w + 1) * w <= q * w by { MulMono(y / w + 1, q, w); }
    } else if y / w > q {
      assert (q + 1) * w <= (y / w) * w by { MulMono(q + 1, y / w, w); }
    }
  }

  lemma MulMono(a: nat, b: nat, w: nat)
    requires a <= b
    ensures a * w <= b * w
  {
  }

  lemma PublishRing(ring: seq<Addr>, ring': seq<Addr>, r: int, a: Addr)
    requires Distinct(ring) && 0 <= r < |ring| && a !in ring && ring' == ring[r := a]
    ensures Distinct(ring') && ring[r] !in ring'
  {
    forall i, j | 0 <= i < j < |ring'| ensures Entry(ring', i) != Entry(ring', j) {
      Differ(ring, i, j);
    }
    forall i | 0 <= i < |ring'| ensures ring'[i] != ring[r] {
      Differ(ring, i, r);
    }
  }

  /** The heap after the publishing store `new->prev->next = new`. */
  function Published(heap: map<Addr, Cell>, a: Addr): map<Addr, Cell>
    requires a in heap && heap[a].prev in heap
  {
    var p := heap[a].prev;
    heap[p := heap[p].(next := a)]
  }

  /** What holds just before the publishing store. */
  ghost predicate ReadyToPublish(heap: map<Addr, Cell>, ring: seq<Addr>, n: nat, word: WordSize, w: Writer) {
    && |ring| >= 2 && ring[0] == HEAD && Distinct(ring)
    && NextLinked(heap, ring) && BackLinked(heap, ring, w)
    && w.UpReplace? && w.todo == Publish && ReplaceOk(heap, ring, n, word, w)
    && w.newNode !in ring
  }

  lemma PublishAbove(heap: map<Addr, Cell>, ring: seq<Addr>, n: nat, word: WordSize, w: Writer)
    requires ReadyToPublish(heap, ring, n, word, w)
    ensures var above := Above(ring, w.rem);
      0 <= above < |ring| && above != w.rem && ring[above] in heap && heap[w.newNode].prev == ring[above]
  {
    assert heap[ring[w.rem]].prev == BackOf(ring, w, w.rem);
    assert ring[Above(ring, w.rem)] in heap;
  }

  lemma PublishNext(heap: map<Addr, Cell>, ring: seq<Addr>, n: nat, word: WordSize, w: Writer)
    requires ReadyToPublish(heap, ring, n, word, w)
    ensures heap[w.newNode].prev in heap
    ensures NextLinked(Published(heap, w.newNode), ring[w.rem := w.newNode])
  {
    PublishAbove(heap, ring, n, word, w);
    var above, ring', heap' := Above(ring, w.rem), ring[w.rem := w.newNode], Published(heap, w.newNode);
    forall i | 0 <= i < |ring'|
      ensures ring'[i] in heap' && heap'[ring'[i]].next == ring'[Below(ring', i)]
    {
      Differ(ring, i, above);
      assert ring[i] in heap && heap[ring[i]].next == ring[Below(ring, i)];
    }
  }

  /** The back links around the position that is replaced. */
  lemma BackBefore(heap: map<Addr, Cell>, ring: seq<Addr>, n: nat, word: WordSize, w: Writer, i: int)
    requires ReadyToPublish(heap, ring, n, word, w) && 0 <= i < |ring|
    ensures 1 <= w.rem < |ring| && ring[w.rem] == w.oldNode
    ensures ring[i] in heap && heap[ring[i]].prev == ring[Above(ring, i)]
    ensures w.newNode in heap && heap[w.newNode].prev == ring[Above(ring, w.rem)]
  {
    assert ring[i] in heap && heap[ring[i]].prev == BackOf(ring, w, i);
    assert ring[w.rem] in heap && heap[ring[w.rem]].prev == BackOf(ring, w, w.rem);
  }

  lemma PublishBackAt(heap: map<Addr, Cell>, ring: seq<Addr>, w: Writer, i: int)
    requires w.UpReplace? && 1 <= w.rem < |ring| && ring[w.rem] == w.oldNode && 0 <= i < |ring|
    requires ring[i] in heap && heap[ring[i]].prev == ring[Above(ring, i)]
    requires w.newNode in heap && heap[w.newNode].prev == ring[Above(ring, w.rem)] && heap[w.newNode].prev in heap
    ensures var ring', heap' := ring[w.rem := w.newNode], Published(heap, w.newNode);
      ring'[i] in heap' && heap'[ring'[i]].prev == BackOf(ring', w.(todo := SetBack), i)
  {
  }

  lemma PublishBack(heap: map<Addr, Cell>, ring: seq<Addr>, n: nat, word: WordSize, w: Writer)
    requires ReadyToPublish(heap, ring, n, word, w)
    ensures heap[w.newNode].prev in heap
    ensures BackLinked(Published(heap, w.newNode), ring[w.rem := w.newNode], w.(todo := SetBack))
  {
    PublishAbove(heap, ring, n, word, w);
    BackBefore(heap, ring, n, word, w, 0);
    hide ReadyToPublish, NextLinked, ReplaceOk, Published, BackOf;
    var ring', heap' := ring[w.rem := w.newNode], Published(heap, w.newNode);
    forall i | 0 <= i < |ring'|
      ensures ring'[i] in heap' && heap'[ring'[i]].prev == BackOf(ring', w.(todo := SetBack), i)
    {
      BackBefore(heap, ring, n, word, w, i);
      PublishBackAt(heap, ring, w, i);
    }
  }

  lemma PublishContents(heap: map<Addr, Cell>, ring: seq<Addr>, n: nat, updates: multiset<nat>, word: WordSize,
                        w: Writer)
    requires ReadyToPublish(heap, ring, n, word, w) && Contents(heap, ring, n, updates, word)
    ensures heap[w.newNode].prev in heap
    ensures Contents(Published(heap, w.newNode), ring[w.rem := w.newNode], n, updates[w.arg := updates[w.arg] + 1], word)
  {
    PublishAbove(heap, ring, n, word, w);
    var ring', heap' := ring[w.rem := w.newNode], Published(heap, w.newNode);
    forall i | 1 <= i < |ring'|
      ensures ring'[i] in heap' && heap'[ring'[i]].id == IdAt(n, i) && 1 <= IdAt(n, i)
      ensures heap'[ring'[i]].data == (100 + updates[w.arg := updates[w.arg] + 1][IdAt(n, i)]) % word
    {
      assert ring[i] in heap && heap[ring[i]].id == IdAt(n, i);
      if i == w.rem { WrapOnce(100 + updates[w.arg], word); }
    }
  }

  /** The state after the publishing store: in one step the list, the data of the id and the
      limbo entry change together. */
  ghost function AfterPublish(s: State): State
    requires s.writer.UpReplace? && 0 <= s.writer.rem < |s.ring|
    requires s.writer.newNode in s.heap && s.heap[s.writer.newNode].prev in s.heap
  {
    var w := s.writer;
    s.(ring := s.ring[w.rem := w.newNode], pubs := s.pubs + 1,
       updates := s.updates[w.arg := s.updates[w.arg] + 1],
       heap := Published(s.heap, w.newNode), writer := w.(todo := SetBack))
  }

  lemma PublishStep(s: State)
    requires Shared(s) && s.writer.UpReplace? && s.writer.todo == Publish
    ensures ReadyToPublish(s.heap, s.ring, s.n, s.word, s.writer)
    ensures s.heap[s.writer.newNode].prev in s.heap
    ensures StepReplace(s) == Ok(AfterPublish(s))
  {
    PublishAbove(s.heap, s.ring, s.n, s.word, s.writer);
  }

  lemma PublishReplaceOk(s: State)
    requires Shared(s) && s.writer.UpReplace? && s.writer.todo == Publish
    requires s.heap[s.writer.newNode].prev in s.heap
    ensures var s' := AfterPublish(s); ReplaceOk(s'.heap, s'.ring, s'.n, s'.word, s'.writer)
  {
    var w := s.writer;
    Differ(s.ring, 0, w.rem);
    assert s.ring[w.rem] == w.oldNode;
    assert s.heap[w.oldNode].next == s.ring[w.rem - 1];
  }

  lemma PublishShared(s: State)
    requires Shared(s) && s.writer.UpReplace? && s.writer.todo == Publish
    ensures s.heap[s.writer.newNode].prev in s.heap && Shared(AfterPublish(s))
  {
    var w := s.writer;
    PublishStep(s);
    PublishReplaceOk(s);
    PublishNext(s.heap, s.ring, s.n, s.word, w);
    PublishBack(s.heap, s.ring, s.n, s.word, w);
    PublishContents(s.heap, s.ring, s.n, s.updates, s.word, w);
    PublishRing(s.ring, s.ring[w.rem := w.newNode], w.rem, w.newNode);
  }

  lemma PublishGood(s: State)
    requires Inv(s) && s.writer.UpReplace? && s.writer.todo == Publish
    ensures Good(StepReplace(s))
  {
    PublishStep(s);
    PublishShared(s);
    var s' := AfterPublish(s);
    forall t | t in s'.readers ensures ReaderOk(ViewOf(s'), t, s'.readers[t]) {
      RetiredByPublish(ViewOf(s), ViewOf(s'), t, s.readers[t]);
    }
  }

  /** A reader on the entry that is being replaced is from now on on the limbo entry. */
  lemma RetiredByPublish(v: View, v': View, t: Tid, rd: Reader)
    requires ReaderOk(v, t, rd) && v.w.UpReplace? && v.w.todo == Publish && OnRing(v.ring, v.w.rem, v.w.oldNode)
    requires v' == v.(ring := v.ring[v.w.rem := v.w.newNode], w := v.w.(todo := SetBack), pubs := v.pubs + 1)
    ensures ReaderOk(v', t, rd)
  {
  }

  /** The heap after storing b into the back link of a. */
  function WithBack(heap: map<Addr, Cell>, a: Addr, b: Addr): map<Addr, Cell>
    requires a in heap
  {
    heap[a := heap[a].(prev := b)]
  }

  /** Storing a back link leaves all forward links and data alone. */
  lemma BackStoredNext(heap: map<Addr, Cell>, ring: seq<Addr>, a: Addr, b: Addr)
    requires NextLinked(heap, ring) && a in heap
    ensures NextLinked(WithBack(heap, a, b), ring)
  {
    var h := WithBack(heap, a, b);
    forall i | 0 <= i < |ring| ensures ring[i] in h && h[ring[i]].next == heap[ring[i]].next {
      assert ring[i] in heap;
    }
  }

  lemma BackStoredContents(heap: map<Addr, Cell>, ring: seq<Addr>, n: nat, updates: multiset<nat>, word: WordSize,
                           a: Addr, b: Addr)
    requires Contents(heap, ring, n, updates, word) && NextLinked(heap, ring) && a in heap
    ensures Contents(WithBack(heap, a, b), ring, n, updates, word)
  {
    var h := WithBack(heap, a, b);
    forall i | 1 <= i < |ring|
      ensures ring[i] in h && h[ring[i]].id == heap[ring[i]].id && h[ring[i]].data == heap[ring[i]].data
    {
      assert ring[i] in heap;
    }
  }

  /** Of the back links on the ring it changes the one at position r only. */
  lemma BackStoredBack(heap: map<Addr, Cell>, ring: seq<Addr>, w: Writer, w': Writer, r: int, b: Addr)
    requires BackLinked(heap, ring, w) && NextLinked(heap, ring) && Distinct(ring) && 0 <= r < |ring|
    requires BackOf(ring, w', r) == b
    requires forall i :: 0 <= i < |ring| && i != r ==> BackOf(ring, w', i) == BackOf(ring, w, i)
    ensures ring[r] in heap && BackLinked(WithBack(heap, ring[r], b), ring, w')
  {
    assert ring[r] in heap;
    var h := WithBack(heap, ring[r], b);
    forall i | 0 <= i < |ring| ensures ring[i] in h && h[ring[i]].prev == BackOf(ring, w', i) {
      Differ(ring, i, r);
      assert ring[i] in heap;
    }
  }

  lemma BackStored(s: State, r: int, b: Addr, w': Writer)
    requires Shared(s) && 0 <= r < |s.ring| && BackOf(s.ring, w', r) == b
    requires forall i :: 0 <= i < |s.ring| && i != r ==> BackOf(s.ring, w', i) == BackOf(s.ring, s.writer, i)
    ensures s.ring[r] in s.heap
    ensures var h := WithBack(s.heap, s.ring[r], b);
      NextLinked(h, s.ring) && Contents(h, s.ring, s.n, s.updates, s.word) && BackLinked(h, s.ring, w')
  {
    BackStoredBack(s.heap, s.ring, s.writer, w', r, b);
    BackStoredNext(s.heap, s.ring, s.ring[r], b);
    BackStoredContents(s.heap, s.ring, s.n, s.updates, s.word, s.ring[r], b);
  }

  /** `new->next->prev = new`: the one lagging back link is repaired. */
  lemma SetBackGood(s: State)
    requires Inv(s) && s.writer.UpReplace? && s.writer.todo == SetBack
    ensures Good(StepReplace(s))
  {
    var w := s.writer;
    var w' := w.(todo := PoisonOld);
    BackStored(s, w.rem - 1, w.newNode, w');
    OnRingCell(s, w.rem, w.newNode);
    var p := s.ring[w.rem - 1];
    var s' := s.(heap := s.heap[p := s.heap[p].(prev := w.newNode)], writer := w');
    assert StepReplace(s) == Ok(s');
    SetBackReplaceOk(s, p, w');
    ReadersKeep(ViewOf(s), ViewOf(s'), s.readers);
  }

  lemma SetBackReplaceOk(s: State, p: Addr, w': Writer)
    requires Shared(s) && s.writer.UpReplace? && s.writer.todo == SetBack && w' == s.writer.(todo := PoisonOld)
    requires OnRing(s.ring, s.writer.rem - 1, p) && p in s.heap
    ensures ReplaceOk(s.heap[p := s.heap[p].(prev := s.writer.newNode)], s.ring, s.n, s.word, w')
  {
  }

  lemma PoisonOldGood(s: State)
    requires Inv(s) && s.writer.UpReplace? && s.writer.todo == PoisonOld
    ensures Good(StepReplace(s))
  {
    var w := s.writer;
    var c := s.heap[w.oldNode].(prev := POISON);
    OffRing(s, w.oldNode, c);
    var s' := s.(heap := s.heap[w.oldNode := c], writer := w.(todo := SyncOld));
    assert StepReplace(s) == Ok(s');
    assert Shared(s');
    ReadersKeep(ViewOf(s), ViewOf(s'), s.readers);
  }

  /** `synchronize_rcu` snapshots every read section that is open: all that may hold limbo. */
  lemma SyncOldGood(s: State)
    requires Inv(s) && s.writer.UpReplace? && s.writer.todo == SyncOld
    ensures Good(StepReplace(s))
  {
    var s' := s.(waiting := s.readers.Keys, writer := s.writer.(todo := WaitOld));
    assert StepReplace(s) == Ok(s');
    assert Shared(s');
    ReadersKeep(ViewOf(s), ViewOf(s'), s.readers);
  }

  /** Freeing an entry that is not on the ring. */
  lemma FreeOffRing(s: State, b: Addr)
    requires Shared(s) && b in s.heap && b !in s.ring
    ensures var h := s.heap - {b};
      && NextLinked(h, s.ring) && Contents(h, s.ring, s.n, s.updates, s.word)
      && BackLinked(h, s.ring, s.writer) && |h| == |s.heap| - 1
  {
    FreeAgrees(s.heap, s.ring, b);
    FreeCount(s.heap, b);
    hide NextLinked, Contents, BackLinked, Agree;
    AgreeNext(s.heap, s.heap - {b}, s.ring);
    AgreeContents(s.heap, s.heap - {b}, s.ring, s.n, s.updates, s.word);
    AgreeBack(s.heap, s.heap - {b}, s.ring, s.writer);
  }

  lemma FreeAgrees(heap: map<Addr, Cell>, ring: seq<Addr>, b: Addr)
    requires NextLinked(heap, ring) && b !in ring
    ensures Agree(heap, heap - {b}, ring)
  {
    forall r | 0 <= r < |ring| ensures ring[r] in heap - {b} {
      assert ring[r] in ring && ring[r] in heap;
    }
  }

  lemma FreeCount(heap: map<Addr, Cell>, b: Addr)
    requires b in heap
    ensures |heap - {b}| == |heap| - 1
  {
    assert (heap - {b}).Keys == heap.Keys - {b};
    assert |(heap - {b}).Keys| == |heap.Keys| - 1;
  }

  /** When the grace period is over no reader holds the limbo entry, nor began before it was taken. */
  lemma NobodyWaits(v: View, v': View, readers: map<Tid, Reader>)
    requires ReadersOk(v, readers) && v.waiting == {}
    requires (v.w.UpReplace? && v.w.todo == WaitOld) || (v.w.ExDelete? && v.w.step == WaitDel)
    requires v' == v.(w := v'.w)
    ensures ReadersOk(v', readers)
  {
    forall t | t in readers ensures ReaderOk(v', t, readers[t]) {
      assert ReaderOk(v, t, readers[t]);
    }
  }

  lemma WaitOldShared(s: State)
    requires Shared(s) && s.writer.UpReplace? && s.writer.todo == WaitOld
    ensures var w := s.writer;
      Shared(s.(heap := s.heap - {w.oldNode}, frees := s.frees + 1, writer := UpReport(w.newNode, w.rem)))
  {
    FreeOffRing(s, s.writer.oldNode);
  }

  lemma WaitOldGood(s: State)
    requires Inv(s) && s.writer.UpReplace? && s.writer.todo == WaitOld
    ensures Good(StepReplace(s))
  {
    if s.waiting == {} {
      var w := s.writer;
      var s' := s.(heap := s.heap - {w.oldNode}, frees := s.frees + 1, writer := UpReport(w.newNode, w.rem));
      assert StepReplace(s) == Ok(s');
      WaitOldShared(s);
      NobodyWaits(ViewOf(s), ViewOf(s'), s.readers);
    }
  }

  lemma StepReplaceGood(s: State)
    requires Inv(s) && s.writer.UpReplace?
    ensures Good(StepReplace(s))
  {
    match s.writer.todo
    case Publish => PublishGood(s);
    case SetBack => SetBackGood(s);
    case PoisonOld => PoisonOldGood(s);
    case SyncOld => SyncOldGood(s);
    case WaitOld => WaitOldGood(s);
    case _ => CopyGood(s);
  }

  // ---------------------------------------------------------------- deletion by the exit routine

  lemma ExLookGood(s: State, a: Addr, junk: Cell)
    requires Inv(s) && s.writer.ExLook?
    ensures Good(StepWriter(s, a, junk))
  {
    var w := s.writer;
    if w.tmp == HEAD {
      Differ(s.ring, 0, Top(s));
      MoveGood(s, ExUnlock, s.exiting);
    } else {
      var s' := s.(writer := ExDelete(w.tmp, w.pos, SetBackDel));
      OnRingCell(s, Top(s), w.tmp);
      assert StepWriter(s, a, junk) == Ok(s');
      assert Shared(s');
      ReadersKeep(ViewOf(s), ViewOf(s'), s.readers);
    }
  }

  /** The first entry: its predecessor is the head, its successor the position below. */
  lemma FirstEntry(s: State)
    requires Shared(s) && s.writer.ExDelete? && BeforeUnlink(s.writer.step)
    ensures var c := s.heap[s.writer.tmp]; c.prev == HEAD && c.next == s.ring[Top(s) - 1]
    ensures HEAD in s.heap && s.ring[Top(s) - 1] in s.heap
  {
    assert s.heap[s.ring[Top(s)]].prev == BackOf(s.ring, s.writer, Top(s));
    assert s.ring[0] in s.heap;
  }

  lemma SetBackDelGood(s: State)
    requires Inv(s) && s.writer.ExDelete? && s.writer.step == SetBackDel
    ensures Good(StepDelete(s))
  {
    FirstEntry(s);
    var w := s.writer;
    var below := Top(s) - 1;
    var p := s.ring[below];
    var s' := s.(heap := s.heap[p := s.heap[p].(prev := HEAD)], writer := w.(step := Unlink));
    assert StepDelete(s) == Ok(s');
    BackStored(s, below, HEAD, s'.writer);
    assert Shared(s');
    ReadersKeep(ViewOf(s), ViewOf(s'), s.readers);
  }

  /** The state after `prev->next = next` took the first entry off the list. */
  ghost function AfterUnlink(s: State): State
    requires s.writer.ExDelete? && |s.ring| >= 2 && HEAD in s.heap
  {
    s.(ring := s.ring[..|s.ring| - 1], pubs := s.pubs + 1,
       heap := s.heap[HEAD := s.heap[HEAD].(next := s.ring[|s.ring| - 2])],
       writer := s.writer.(step := PoisonDel))
  }

  lemma UnlinkRing(s: State)
    requires Shared(s) && s.writer.ExDelete? && s.writer.step == Unlink && HEAD in s.heap
    ensures var s' := AfterUnlink(s);
      Distinct(s'.ring) && NextLinked(s'.heap, s'.ring) && BackLinked(s'.heap, s'.ring, s'.writer)
      && s.writer.tmp !in s'.ring
  {
    var s' := AfterUnlink(s);
    FirstEntry(s);
    forall i, j | 0 <= i < j < |s'.ring| ensures Entry(s'.ring, i) != Entry(s'.ring, j) {
      Differ(s.ring, i, j);
    }
    forall i | 0 <= i < |s'.ring|
      ensures s'.ring[i] in s'.heap && s'.ring[i] != s.writer.tmp
      ensures s'.heap[s'.ring[i]].next == s'.ring[Below(s'.ring, i)]
      ensures s'.heap[s'.ring[i]].prev == BackOf(s'.ring, s'.writer, i)
    {
      Differ(s.ring, 0, i);
      Differ(s.ring, Top(s), i);
      assert s.ring[i] in s.heap;
      assert s.heap[s.ring[i]].prev == BackOf(s.ring, s.writer, i);
    }
  }

  lemma UnlinkContents(heap: map<Addr, Cell>, ring: seq<Addr>, n: nat, updates: multiset<nat>, word: WordSize, c: Cell)
    requires |ring| >= 2 && ring[0] == HEAD && Distinct(ring)
    requires NextLinked(heap, ring) && Contents(heap, ring, n, updates, word)
    ensures Contents(heap[HEAD := c], ring[..|ring| - 1], n, updates, word)
  {
    var h, ring' := heap[HEAD := c], ring[..|ring| - 1];
    forall i | 1 <= i < |ring'|
      ensures ring'[i] in h && 1 <= IdAt(n, i) && h[ring'[i]].id == IdAt(n, i)
      ensures h[ring'[i]].data == (100 + updates[IdAt(n, i)]) % word
    {
      Differ(ring, 0, i);
      assert ring[i] in heap && heap[ring[i]].id == IdAt(n, i);
    }
  }

  lemma UnlinkDeleteOk(s: State)
    requires Shared(s) && s.writer.ExDelete? && s.writer.step == Unlink && HEAD in s.heap
    ensures var s' := AfterUnlink(s); DeleteOk(s'.heap, s'.ring, s'.n, s'.writer)
  {
    FirstEntry(s);
    Differ(s.ring, 0, Top(s));
    OnRingCell(s, Top(s), s.writer.tmp);
  }

  lemma UnlinkShared(s: State)
    requires Shared(s) && s.writer.ExDelete? && s.writer.step == Unlink
    ensures HEAD in s.heap && StepDelete(s) == Ok(AfterUnlink(s)) && Shared(AfterUnlink(s))
  {
    FirstEntry(s);
    UnlinkRing(s);
    UnlinkDeleteOk(s);
    UnlinkContents(s.heap, s.ring, s.n, s.updates, s.word, AfterUnlink(s).heap[HEAD]);
  }

  lemma UnlinkGood(s: State)
    requires Inv(s) && s.writer.ExDelete? && s.writer.step == Unlink
    ensures Good(StepDelete(s))
  {
    UnlinkShared(s);
    var s' := AfterUnlink(s);
    forall t | t in s'.readers ensures ReaderOk(ViewOf(s'), t, s'.readers[t]) {
      RetiredByUnlink(ViewOf(s), ViewOf(s'), t, s.readers[t]);
    }
  }

  lemma RetiredByUnlink(v: View, v': View, t: Tid, rd: Reader)
    requires ReaderOk(v, t, rd) && v.w.ExDelete? && v.w.step == Unlink && v.exiting
    requires |v.ring| >= 2 && v.ring[|v.ring| - 1] == v.w.tmp
    requires v' == v.(ring := v.ring[..|v.ring| - 1], w := v.w.(step := PoisonDel), pubs := v.pubs + 1)
    ensures ReaderOk(v', t, rd)
  {
  }

  lemma PoisonDelGood(s: State)
    requires Inv(s) && s.writer.ExDelete? && s.writer.step == PoisonDel
    ensures Good(StepDelete(s))
  {
    var w := s.writer;
    var c := s.heap[w.tmp].(prev := POISON);
    OffRing(s, w.tmp, c);
    var s' := s.(heap := s.heap[w.tmp := c], writer := w.(step := SyncDel));
    assert StepDelete(s) == Ok(s');
    assert Shared(s');
    ReadersKeep(ViewOf(s), ViewOf(s'), s.readers);
  }

  lemma SyncDelGood(s: State)
    requires Inv(s) && s.writer.ExDelete? && s.writer.step == SyncDel
    ensures Good(StepDelete(s))
  {
    var s' := s.(waiting := s.readers.Keys, writer := s.writer.(step := WaitDel));
    assert StepDelete(s) == Ok(s');
    assert Shared(s');
    ReadersKeep(ViewOf(s), ViewOf(s'), s.readers);
  }

  lemma WaitDelGood(s: State)
    requires Inv(s) && s.writer.ExDelete? && s.writer.step == WaitDel
    ensures Good(StepDelete(s))
  {
    if s.waiting == {} {
      var w := s.writer;
      var s' := s.(heap := s.heap - {w.tmp}, frees := s.frees + 1, writer := ExAdvance(w.pos));
      assert StepDelete(s) == Ok(s');
      FreeOffRing(s, w.tmp);
      assert Shared(s');
      NobodyWaits(ViewOf(s), ViewOf(s'), s.readers);
    }
  }

  lemma StepDeleteGood(s: State)
    requires Inv(s) && s.writer.ExDelete?
    ensures Good(StepDelete(s))
  {
    match s.writer.step
    case SetBackDel => SetBackDelGood(s);
    case Unlink => UnlinkGood(s);
    case PoisonDel => PoisonDelGood(s);
    case SyncDel => SyncDelGood(s);
    case WaitDel => WaitDelGood(s);
  }

  lemma StepWriterGood(s: State, a: Addr, junk: Cell)
    requires Inv(s)
    ensures Good(StepWriter(s, a, junk))
  {
    match s.writer
    case Unlocked =>
    case UpFirst(_) => WalkGood(s, a, junk);
    case UpLook(_, _, _) => WalkGood(s, a, junk);
    case UpAdvance(_, _, _) => WalkGood(s, a, junk);
    case UpAlloc(_, _, _) => AllocGood(s, a, junk);
    case UpReplace(_, _, _, _, _) => StepReplaceGood(s);
    case UpReport(_, _) => ReportGood(s, a, junk);
    case UpUnlock => ReportGood(s, a, junk);
    case ExFirst => ExitWalkGood(s, a, junk);
    case ExSecond(_) => ExitWalkGood(s, a, junk);
    case ExLook(_, _) => ExLookGood(s, a, junk);
    case ExDelete(_, _, _) => StepDeleteGood(s);
    case ExAdvance(_) => ExitWalkGood(s, a, junk);
    case ExUnlock => ReportGood(s, a, junk);
  }

  /** No use after free, one step: from a state that satisfies the invariant no event of any
      thread touches unallocated memory, and the invariant holds again. */
  lemma StepGood(s: State, e: Event)
    requires Inv(s)
    ensures Good(Step(s, e))
  {
    match e
    case ReadLock(t, arg) => ReadLockGood(s, t, arg);
    case ReadStep(t) => StepReaderGood(s, t);
    case UpdateLock(arg) => LockGood(s, arg);
    case ExitLock => LockGood(s, 0);
    case WriterStep(a, junk) => StepWriterGood(s, a, junk);
  }
}
