/**
 The two cell drivers (Lab11/simple_rcu/simple_rcu.c and Lab11/simple_rwlock/simple_rwlock.c) as one
 transition system, from the end of the init routine to the start of the exit routine. The drivers
 run the same steps on the same cell and differ in what `my_lock` is and in when the old block may
 be freed, so the state says which of the two it belongs to. Both implement the register of module
 Register.
 */
module Cell {
  import opened Common
  import opened Register

  /** Rcu: `my_lock` is a spinlock that serialises writers; readers take no lock, and the old block
      is freed after a grace period. ReadWrite: readers share `my_lock`, and a writer has it alone. */
  datatype Lock = Rcu | ReadWrite

  /** The writer that holds `my_lock`, by what it does next. */
  datatype Writer =
    | Unlocked
    | Alloc(arg: nat)                            // kmalloc
    | Fill(arg: nat, new_: Addr)                 // *new = arg
    | LoadOld(arg: nat, new_: Addr)              // old = my_data
    | Publish(arg: nat, new_: Addr, prev: Addr)  // my_data = new
    | Sync(prev: Addr)                           // Rcu only: synchronize_rcu takes its snapshot
    | Retire(prev: Addr)                         // ... and waits; kfree(old)
    | Unlock

  /** `written` is history: 0 and then every value published. */
  datatype State = State(
    lock: Lock,
    heap: map<Addr, nat>,
    ptr: Addr,
    readers: map<Tid, Reader>,
    writer: Writer,
    waiting: set<Tid>,
    written: seq<nat>,
    allocs: nat,
    frees: nat)

  datatype Event =
    | ReadLock(t: Tid)
    | ReadStep(t: Tid)
    | WriteLock(arg: nat)
    | WriterStep(a: Addr, junk: nat)   // what kmalloc returns, if this step calls it

  datatype Outcome = Ok(s: State) | Blocked | Fault

  function StepReader(s: State, t: Tid): Outcome {
    if t !in s.readers then Blocked
    else
      match StepPc(s.heap, s.ptr, s.readers[t].pc)
      case To(pc) => Ok(s.(readers := s.readers[t := Reader(pc, s.readers[t].since)]))
      case Done => Ok(s.(readers := s.readers - {t}, waiting := s.waiting - {t}))
      case Bad => Fault
  }

  function StepWriter(s: State, a: Addr, junk: nat): Outcome {
    match s.writer
    case Unlocked => Blocked
    case Alloc(arg) =>
      // any address that is not allocated now, a freed one included
      if a in s.heap then Blocked
      else Ok(s.(heap := s.heap[a := junk], allocs := s.allocs + 1, writer := Fill(arg, a)))
    case Fill(arg, p) =>
      if p !in s.heap then Fault else Ok(s.(heap := s.heap[p := arg], writer := LoadOld(arg, p)))
    case LoadOld(arg, p) => Ok(s.(writer := Publish(arg, p, s.ptr)))
    case Publish(arg, p, prev) =>
      Ok(s.(ptr := p, written := s.written + [arg], writer := if s.lock.Rcu? then Sync(prev) else Retire(prev)))
    case Sync(prev) => Ok(s.(waiting := s.readers.Keys, writer := Retire(prev)))
    case Retire(prev) =>
      if s.lock.Rcu? && s.waiting != {} then Blocked
      else if prev !in s.heap then Fault
      else Ok(s.(heap := s.heap - {prev}, frees := s.frees + 1, writer := Unlock))
    case Unlock => Ok(s.(writer := Unlocked))
  }

  /** What `my_lock` keeps out. */
  predicate ReaderMayEnter(s: State) { s.lock.Rcu? || s.writer.Unlocked? }
  predicate WriterMayEnter(s: State) { s.writer.Unlocked? && (s.lock.Rcu? || s.readers == map[]) }

  function Step(s: State, e: Event): Outcome {
    match e
    case ReadLock(t) =>
      if t in s.readers || !ReaderMayEnter(s) then Blocked
      else Ok(s.(readers := s.readers[t := Reader(Deref, |s.written|)]))
    case ReadStep(t) => StepReader(s, t)
    case WriteLock(arg) => if WriterMayEnter(s) then Ok(s.(writer := Alloc(arg))) else Blocked
    case WriterStep(a, junk) => StepWriter(s, a, junk)
  }

  /** Two states that differ in history variables only. */
  ghost predicate SameButHistory(a: State, b: State) {
    && a.lock == b.lock && a.heap == b.heap && a.ptr == b.ptr && a.writer == b.writer && a.waiting == b.waiting
    && SameReaders(a.readers, b.readers)
  }

  /** The history variables are idle: no event's outcome depends on them. */
  lemma HistoryDoesNotSteer(a: State, b: State, e: Event)
    requires SameButHistory(a, b)
    ensures Step(a, e).Ok? <==> Step(b, e).Ok?
    ensures Step(a, e).Fault? <==> Step(b, e).Fault?
    ensures Step(a, e).Ok? ==> SameButHistory(Step(a, e).s, Step(b, e).s)
  {
    match e
    case ReadLock(t) => SameReadersSet(a.readers, b.readers, t, Deref, |a.written|, |b.written|);
    case ReadStep(t) =>
      if t in a.readers {
        var move := StepPc(a.heap, a.ptr, a.readers[t].pc);
        var pc := if move.To? then move.pc else Deref;
        SameReadersSet(a.readers, b.readers, t, pc, a.readers[t].since, b.readers[t].since);
      }
    case _ =>
  }

  // ---------------------------------------------------------------- the invariant

  /** The block that is allocated but not current: a new one, or one in limbo. */
  function Extra(w: Writer): Option<Addr> {
    match w
    case Fill(_, p) => Some(p)
    case LoadOld(_, p) => Some(p)
    case Publish(_, p, _) => Some(p)
    case Sync(prev) => Some(prev)
    case Retire(prev) => Some(prev)
    case _ => None
  }

  function Limbo(w: Writer): Option<Addr> {
    match w
    case Sync(prev) => Some(prev)
    case Retire(prev) => Some(prev)
    case _ => None
  }

  /** The running or coming grace period must outlast the section of t. */
  predicate AwaitedBy(w: Writer, waiting: set<Tid>, t: Tid) {
    Limbo(w).Some? && (w.Retire? ==> t in waiting)
  }

  /** Two blocks are allocated. */
  ghost predicate Only(heap: map<Addr, nat>, a: Addr, b: Addr) { a != b && heap.Keys == {a, b} }

  ghost predicate MemoryOk(s: State) {
    && s.written != []
    && s.ptr in s.heap && s.heap[s.ptr] == Last(s.written)
    && (if Extra(s.writer).Some? then Only(s.heap, s.ptr, Extra(s.writer).value) else s.heap.Keys == {s.ptr})
    && s.allocs == s.frees + (if Extra(s.writer).Some? then 2 else 1)
    && match s.writer
       case LoadOld(arg, p) => s.heap[p] == arg
       case Publish(arg, p, prev) => s.heap[p] == arg && prev == s.ptr
       case Sync(prev) => |s.written| >= 2 && s.heap[prev] == s.written[|s.written| - 2]
       case Retire(prev) => |s.written| >= 2 && s.heap[prev] == s.written[|s.written| - 2]
       case _ => true
  }

  /** In the ReadWrite driver readers and writers keep each other out. */
  ghost predicate Exclusive(s: State) {
    s.lock.ReadWrite? ==> (s.writer.Unlocked? || s.readers == map[]) && !s.writer.Sync?
  }

  /** `since` counts `written` at the start of the section: nothing was published since then, or
      one value was and its writer is still waiting for this section. A value shown was current
      at some instant of the section. */
  ghost predicate ReaderOk(s: State, t: Tid, rd: Reader) {
    && (rd.since == |s.written| ||
        (rd.since + 1 == |s.written| && s.lock.Rcu? && AwaitedBy(s.writer, s.waiting, t)))
    && rd.since >= 1
    && Sound(s.heap, rd.pc)
    && match rd.pc
       case Deref => true
       case Print(p) => FromSection(s, rd, p)
       case Reprint(p, _) => FromSection(s, rd, p)
       case Leave(first, _) => first == Last(s.written) || (rd.since < |s.written| && first == s.written[rd.since - 1])
  }

  ghost predicate FromSection(s: State, rd: Reader, p: Addr) {
    p == s.ptr || (rd.since < |s.written| && Limbo(s.writer) == Some(p))
  }

  ghost predicate Inv(s: State) {
    && MemoryOk(s) && Exclusive(s)
    && (forall t :: t in s.readers ==> ReaderOk(s, t, s.readers[t]))
    && s.waiting <= s.readers.Keys
  }

  predicate Booted(s: State) {
    && s.heap == map[s.ptr := 0] && s.readers == map[] && s.writer == Unlocked && s.waiting == {}
    && s.written == [0] && s.allocs == 1 && s.frees == 0
  }

  function AbsOf(s: State): Reg { Abs(s.heap, s.ptr, s.readers) }

  function Label(s: State, e: Event): Action {
    match e
    case ReadLock(t) => Call(t)
    case ReadStep(t) => if t in s.readers then ActionOf(t, s.readers[t].pc) else Internal
    case WriteLock(_) => Internal
    case WriterStep(_, _) => if s.writer.Publish? then Put(s.writer.arg) else Internal
  }

  /** No fault, the invariant is kept, and the step is the register's. */
  ghost predicate Good(s: State, e: Event) {
    match Step(s, e)
    case Fault => false
    case Blocked => true
    case Ok(s') => Inv(s') && RegStep(AbsOf(s), Label(s, e)) == Some(AbsOf(s'))
  }

  lemma ReadLockGood(s: State, t: Tid)
    requires Inv(s)
    ensures Good(s, ReadLock(t))
  {
    if t !in s.readers { BeginRefines(s.heap, s.ptr, s.readers, t, |s.written|); }
  }

  lemma ReadStepGood(s: State, t: Tid)
    requires Inv(s)
    ensures Good(s, ReadStep(t))
  {
    if t in s.readers {
      assert ReaderOk(s, t, s.readers[t]);
      StepPcRefines(s.heap, s.ptr, s.readers, t);
    }
  }

  lemma WriterMemory(s: State, a: Addr, junk: nat)
    requires MemoryOk(s) && StepWriter(s, a, junk).Ok?
    ensures MemoryOk(StepWriter(s, a, junk).s)
  {
  }

  lemma WriterReader(s: State, a: Addr, junk: nat, t: Tid)
    requires MemoryOk(s) && Exclusive(s) && StepWriter(s, a, junk).Ok?
    requires t in s.readers && ReaderOk(s, t, s.readers[t])
    ensures ReaderOk(StepWriter(s, a, junk).s, t, s.readers[t])
  {
  }

  lemma WriterHeld(s: State, a: Addr, junk: nat, t: Tid)
    requires MemoryOk(s) && Exclusive(s) && StepWriter(s, a, junk).Ok?
    requires t in s.readers && ReaderOk(s, t, s.readers[t])
    ensures var heap', pc := StepWriter(s, a, junk).s.heap, s.readers[t].pc; Captured(heap', pc) == Captured(s.heap, pc)
  {
  }

  /** Only the publication changes the register. */
  lemma WriterRefines(s: State, a: Addr, junk: nat)
    requires Inv(s) && StepWriter(s, a, junk).Ok?
    ensures RegStep(AbsOf(s), Label(s, WriterStep(a, junk))) == Some(AbsOf(StepWriter(s, a, junk).s))
  {
    var s' := StepWriter(s, a, junk).s;
    WriterMemory(s, a, junk);
    forall t | t in s.readers ensures Captured(s'.heap, s.readers[t].pc) == Captured(s.heap, s.readers[t].pc) {
      WriterHeld(s, a, junk, t);
    }
    SameAbs(s.heap, s.ptr, s'.heap, s'.ptr, s.readers);
  }

  lemma WriterStepGood(s: State, a: Addr, junk: nat)
    requires Inv(s)
    ensures Good(s, WriterStep(a, junk))
  {
    if StepWriter(s, a, junk).Ok? {
      var s' := StepWriter(s, a, junk).s;
      WriterMemory(s, a, junk);
      WriterRefines(s, a, junk);
      forall t | t in s.readers ensures ReaderOk(s', t, s.readers[t]) { WriterReader(s, a, junk, t); }
      assert s'.readers == s.readers;
    }
  }

  lemma StepGood(s: State, e: Event)
    requires Inv(s)
    ensures Good(s, e)
  {
    match e
    case ReadLock(t) => ReadLockGood(s, t);
    case ReadStep(t) => ReadStepGood(s, t);
    case WriteLock(_) =>
    case WriterStep(a, junk) => WriterStepGood(s, a, junk);
  }
}
