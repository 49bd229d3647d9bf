/**
 The RCU-protected list driver (Lab11/simple_rculist/simple_rculist.c) as a transition system.

 Any number of reader threads walk the list without a lock; updaters and the exit routine are
 serialised by `my_lock`, so only the thread that holds it has a program counter of its own.
 Every event is one atomic load, one atomic store, or one call of `kmalloc`, `kfree`,
 `synchronize_rcu`, lock or unlock. An access to memory that is not allocated is a `Fault`.
 */
module RcuList {
  import opened Common

  type Addr = nat
  type Tid = nat

  /** `&mylist.list`, the statically allocated list head. */
  const HEAD: Addr := 0
  /** `LIST_POISON2`, written to the `prev` field of an unlinked entry; never allocated. */
  const POISON: Addr := 1

  /** Values of `unsigned long` wrap at `word`, whatever its width is on the target. */
  type WordSize = x: nat | x > 100 witness 101

  /** `struct test_list`; for the head only the two links are meaningful. */
  datatype Cell = Cell(id: nat, data: nat, next: Addr, prev: Addr)

  /** What a thread inside IOCTL_READ does next. */
  datatype ReaderPc =
    | First                          // load mylist.list.next
    | Look(pos: Addr)                // end of list? pos->id == arg?
    | Advance(pos: Addr)             // load pos->list.next
    | Load(pos: Addr)                // load pos->data
    | Leave(found: Option<nat>)      // rcu_read_unlock

  /** A thread between rcu_read_lock and rcu_read_unlock. The last three fields are history:
      publications made before the section began, list positions left to visit from the cursor,
      and pointer loads done. No step reads them to decide what to do. */
  datatype Reader = Reader(arg: nat, pc: ReaderPc, since: nat, rem: int, hops: nat)

  /** The stores of `list_replace_rcu` and the grace period after it, in program order. */
  datatype Replace = Copy | Bump | SetNext | SetPrev | Publish | SetBack | PoisonOld | SyncOld | WaitOld
  /** The stores of `list_del_rcu` and the grace period after it. */
  datatype Delete = SetBackDel | Unlink | PoisonDel | SyncDel | WaitDel

  /** The holder of `my_lock`. `rem` is history, as in Reader. */
  datatype Writer =
    | Unlocked
    | UpFirst(arg: nat)
    | UpLook(arg: nat, pos: Addr, rem: int)
    | UpAdvance(arg: nat, pos: Addr, rem: int)
    | UpAlloc(arg: nat, pos: Addr, rem: int)
    | UpReplace(arg: nat, oldNode: Addr, newNode: Addr, rem: int, todo: Replace)
    | UpReport(newNode: Addr, rem: int)
    | UpUnlock
    | ExFirst
    | ExSecond(tmp: Addr)
    | ExLook(tmp: Addr, pos: Addr)
    | ExDelete(tmp: Addr, pos: Addr, step: Delete)
    | ExAdvance(pos: Addr)
    | ExUnlock

  /** Shared memory, the threads, the read sections that a running `synchronize_rcu` still waits
      for, and history variables that no step branches on.
      `ring` is the current list from its end to its start: ring[0] is the head, ring[1] the last
      entry, so ring[r] is the entry with r positions left to visit. */
  datatype State = State(
    heap: map<Addr, Cell>,
    readers: map<Tid, Reader>,
    writer: Writer,
    waiting: set<Tid>,
    word: WordSize,
    n: nat,
    ring: seq<Addr>,
    pubs: nat,
    updates: multiset<nat>,
    exiting: bool,
    allocs: nat,
    frees: nat)

  datatype Event =
    | ReadLock(t: Tid, arg: nat)
    | ReadStep(t: Tid)
    | UpdateLock(arg: nat)
    | ExitLock
    | WriterStep(a: Addr, junk: Cell)   // a, junk: what kmalloc returns, if this step calls it

  /** Blocked: the event is not enabled (lock held, grace period not over, no such thread). */
  datatype Outcome = Ok(s: State) | Blocked | Fault

  /** The id of the entry with r positions left: the list holds ids 1, 2, ..., n in order. */
  function IdAt(n: nat, r: int): int { n - r + 1 }

  /** The positions left at the head's successor. */
  function Top(s: State): int { |s.ring| - 1 }

  // ---------------------------------------------------------------- readers

  function SetReader(s: State, t: Tid, rd: Reader): State {
    s.(readers := s.readers[t := rd])
  }

  function BeginRead(s: State, t: Tid, arg: nat): Outcome {
    if t in s.readers then Blocked
    else Ok(SetReader(s, t, Reader(arg, First, s.pubs, s.n + 1, 0)))
  }

  function StepReader(s: State, t: Tid): Outcome {
    if t !in s.readers then Blocked
    else
      var rd := s.readers[t];
      match rd.pc
      case First =>
        if HEAD !in s.heap then Fault
        else Ok(SetReader(s, t, rd.(pc := Look(s.heap[HEAD].next), rem := Top(s), hops := 1)))
      case Look(pos) =>
        if pos == HEAD then Ok(SetReader(s, t, rd.(pc := Leave(None))))
        else if pos !in s.heap then Fault
        else if s.heap[pos].id == rd.arg then Ok(SetReader(s, t, rd.(pc := Load(pos))))
        else Ok(SetReader(s, t, rd.(pc := Advance(pos))))
      case Advance(pos) =>
        if pos !in s.heap then Fault
        else Ok(SetReader(s, t, rd.(pc := Look(s.heap[pos].next), rem := rd.rem - 1, hops := rd.hops + 1)))
      case Load(pos) =>
        if pos !in s.heap then Fault
        else Ok(SetReader(s, t, rd.(pc := Leave(Some(s.heap[pos].data)))))
      case Leave(_) =>
        Ok(s.(readers := s.readers - {t}, waiting := s.waiting - {t}))
  }

  // ---------------------------------------------------------------- the lock holder

  function At(s: State, w: Writer): Outcome { Ok(s.(writer := w)) }

  function Store(s: State, a: Addr, c: Cell, w: Writer): Outcome {
    if a !in s.heap then Fault else Ok(s.(heap := s.heap[a := c], writer := w))
  }

  function Kfree(s: State, a: Addr, w: Writer): Outcome {
    if a !in s.heap then Fault else Ok(s.(heap := s.heap - {a}, frees := s.frees + 1, writer := w))
  }

  function StepUpdate(s: State, a: Addr, junk: Cell): Outcome
    requires s.writer.UpFirst? || s.writer.UpLook? || s.writer.UpAdvance? || s.writer.UpAlloc?
  {
    match s.writer
    case UpFirst(arg) =>
      if HEAD !in s.heap then Fault else At(s, UpLook(arg, s.heap[HEAD].next, Top(s)))
    case UpLook(arg, pos, rem) =>
      if pos == HEAD then At(s, UpUnlock)
      else if pos !in s.heap then Fault
      else if s.heap[pos].id == arg then At(s, UpAlloc(arg, pos, rem))
      else At(s, UpAdvance(arg, pos, rem))
    case UpAdvance(arg, pos, rem) =>
      if pos !in s.heap then Fault else At(s, UpLook(arg, s.heap[pos].next, rem - 1))
    case UpAlloc(arg, pos, rem) =>
      // kmalloc may return any address that is not allocated now, a freed one included
      if a in s.heap || a == POISON then Blocked
      else Ok(s.(heap := s.heap[a := junk], allocs := s.allocs + 1,
                 writer := UpReplace(arg, pos, a, rem, Copy)))
  }

  function StepReplace(s: State): Outcome
    requires s.writer.UpReplace?
  {
    var w := s.writer;
    if w.oldNode !in s.heap || w.newNode !in s.heap then Fault
    else
      var o, c := s.heap[w.oldNode], s.heap[w.newNode];
      match w.todo
      case Copy => Store(s, w.newNode, o, w.(todo := Bump))
      case Bump => Store(s, w.newNode, c.(data := (c.data + 1) % s.word), w.(todo := SetNext))
      case SetNext => Store(s, w.newNode, c.(next := o.next), w.(todo := SetPrev))
      case SetPrev => Store(s, w.newNode, c.(prev := o.prev), w.(todo := Publish))
      case Publish =>
        if c.prev !in s.heap then Fault
        else
          var r := if 0 <= w.rem < |s.ring| then s.ring[w.rem := w.newNode] else s.ring;
          Store(s.(ring := r, pubs := s.pubs + 1, updates := s.updates[w.arg := s.updates[w.arg] + 1]),
                c.prev, s.heap[c.prev].(next := w.newNode), w.(todo := SetBack))
      case SetBack =>
        if c.next !in s.heap then Fault
        else Store(s, c.next, s.heap[c.next].(prev := w.newNode), w.(todo := PoisonOld))
      case PoisonOld => Store(s, w.oldNode, o.(prev := POISON), w.(todo := SyncOld))
      case SyncOld => At(s.(waiting := s.readers.Keys), w.(todo := WaitOld))
      case WaitOld =>
        if s.waiting != {} then Blocked else Kfree(s, w.oldNode, UpReport(w.newNode, w.rem))
  }

  function StepDelete(s: State): Outcome
    requires s.writer.ExDelete?
  {
    var w := s.writer;
    if w.tmp !in s.heap then Fault
    else
      var c := s.heap[w.tmp];
      match w.step
      case SetBackDel =>
        if c.next !in s.heap then Fault
        else Store(s, c.next, s.heap[c.next].(prev := c.prev), w.(step := Unlink))
      case Unlink =>
        if c.prev !in s.heap then Fault
        else
          var r := if |s.ring| > 0 then s.ring[..|s.ring| - 1] else s.ring;
          Store(s.(ring := r, pubs := s.pubs + 1),
                c.prev, s.heap[c.prev].(next := c.next), w.(step := PoisonDel))
      case PoisonDel => Store(s, w.tmp, c.(prev := POISON), w.(step := SyncDel))
      case SyncDel => At(s.(waiting := s.readers.Keys), w.(step := WaitDel))
      case WaitDel =>
        if s.waiting != {} then Blocked else Kfree(s, w.tmp, ExAdvance(w.pos))
  }

  function StepExit(s: State): Outcome
    requires s.writer.ExFirst? || s.writer.ExSecond? || s.writer.ExLook? || s.writer.ExAdvance?
  {
    match s.writer
    case ExFirst =>
      if HEAD !in s.heap then Fault else At(s, ExSecond(s.heap[HEAD].next))
    case ExSecond(tmp) =>
      if tmp !in s.heap then Fault else At(s, ExLook(tmp, s.heap[tmp].next))
    case ExLook(tmp, pos) =>
      if tmp == HEAD then At(s, ExUnlock) else At(s, ExDelete(tmp, pos, SetBackDel))
    case ExAdvance(pos) =>
      if pos !in s.heap then Fault else At(s, ExLook(pos, s.heap[pos].next))
  }

  function StepWriter(s: State, a: Addr, junk: Cell): Outcome {
    match s.writer
    case Unlocked => Blocked
    case UpFirst(_) => StepUpdate(s, a, junk)
    case UpLook(_, _, _) => StepUpdate(s, a, junk)
    case UpAdvance(_, _, _) => StepUpdate(s, a, junk)
    case UpAlloc(_, _, _) => StepUpdate(s, a, junk)
    case UpReplace(_, _, _, _, _) => StepReplace(s)
    case UpReport(c, _) => if c !in s.heap then Fault else At(s, UpUnlock)
    case UpUnlock => At(s, Unlocked)
    case ExFirst => StepExit(s)
    case ExSecond(_) => StepExit(s)
    case ExLook(_, _) => StepExit(s)
    case ExDelete(_, _, _) => StepDelete(s)
    case ExAdvance(_) => StepExit(s)
    case ExUnlock => At(s, Unlocked)
  }

  function Step(s: State, e: Event): Outcome {
    match e
    case ReadLock(t, arg) => BeginRead(s, t, arg)
    case ReadStep(t) => StepReader(s, t)
    case UpdateLock(arg) => if s.writer.Unlocked? then At(s, UpFirst(arg)) else Blocked
    case ExitLock => if s.writer.Unlocked? then At(s.(exiting := true), ExFirst) else Blocked
    case WriterStep(a, junk) => StepWriter(s, a, junk)
  }
}
