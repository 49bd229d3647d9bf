/**
 The states of module RcuList carry history variables, which the proofs speak about. This module
 shows that they are only that: no event's outcome depends on them.
 */
module RcuListHistory {
  import opened RcuList

  /** The lock holder without its history. */
  function Bare(w: Writer): Writer {
    match w
    case UpLook(arg, pos, _) => UpLook(arg, pos, 0)
    case UpAdvance(arg, pos, _) => UpAdvance(arg, pos, 0)
    case UpAlloc(arg, pos, _) => UpAlloc(arg, pos, 0)
    case UpReplace(arg, oldNode, newNode, _, todo) => UpReplace(arg, oldNode, newNode, 0, todo)
    case UpReport(newNode, _) => UpReport(newNode, 0)
    case _ => w
  }

  ghost predicate SameReaders(a: map<Tid, Reader>, b: map<Tid, Reader>) {
    forall t :: t in a ==> t in b && a[t].arg == b[t].arg && a[t].pc == b[t].pc
  }

  /** Two states that differ in history variables only. */
  ghost predicate SameButHistory(a: State, b: State) {
    && a.heap == b.heap && a.waiting == b.waiting && a.word == b.word && Bare(a.writer) == Bare(b.writer)
    && a.readers.Keys == b.readers.Keys && SameReaders(a.readers, b.readers)
  }

  ghost predicate SameOutcome(a: Outcome, b: Outcome) {
    match a
    case Ok(s) => b.Ok? && SameButHistory(s, b.s)
    case Blocked => b.Blocked?
    case Fault => b.Fault?
  }

  /** Both do the same store, and go on alike. */
  lemma SameStore(a: State, b: State, x: Addr, c: Cell, w: Writer, w': Writer)
    requires SameButHistory(a, b) && Bare(w) == Bare(w')
    ensures SameOutcome(Store(a, x, c, w), Store(b, x, c, w'))
  {
  }

  lemma HistoryOfPublish(a: State, b: State)
    requires SameButHistory(a, b) && a.writer.UpReplace? && b.writer.UpReplace? && a.writer.todo == Publish
    ensures SameOutcome(StepReplace(a), StepReplace(b))
  {
    hide SameReaders;
  }

  lemma HistoryOfWait(a: State, b: State)
    requires SameButHistory(a, b) && a.writer.UpReplace? && b.writer.UpReplace? && a.writer.todo == WaitOld
    ensures SameOutcome(StepReplace(a), StepReplace(b))
  {
    hide SameReaders;
  }

  lemma HistoryOfReplace(a: State, b: State)
    requires SameButHistory(a, b) && a.writer.UpReplace?
    ensures b.writer.UpReplace? && SameOutcome(StepReplace(a), StepReplace(b))
  {
    hide SameReaders;
    var w, v := a.writer, b.writer;
    assert v.UpReplace? && w.todo == v.todo && w.oldNode == v.oldNode && w.newNode == v.newNode;
    if w.oldNode in a.heap && w.newNode in a.heap {
      var o, c := a.heap[w.oldNode], a.heap[w.newNode];
      match w.todo
      case Copy => SameStore(a, b, w.newNode, o, w.(todo := Bump), v.(todo := Bump));
      case Bump =>
        SameStore(a, b, w.newNode, c.(data := (c.data + 1) % a.word), w.(todo := SetNext), v.(todo := SetNext));
      case SetNext => SameStore(a, b, w.newNode, c.(next := o.next), w.(todo := SetPrev), v.(todo := SetPrev));
      case SetPrev => SameStore(a, b, w.newNode, c.(prev := o.prev), w.(todo := Publish), v.(todo := Publish));
      case Publish => HistoryOfPublish(a, b);
      case SetBack =>
        if c.next in a.heap {
          SameStore(a, b, c.next, a.heap[c.next].(prev := w.newNode), w.(todo := PoisonOld), v.(todo := PoisonOld));
        }
      case PoisonOld => SameStore(a, b, w.oldNode, o.(prev := POISON), w.(todo := SyncOld), v.(todo := SyncOld));
      case SyncOld =>
      case WaitOld => HistoryOfWait(a, b);
    }
  }

  lemma SameSet(a: State, b: State, t: Tid, rd: Reader, rd': Reader)
    requires SameButHistory(a, b) && rd.arg == rd'.arg && rd.pc == rd'.pc
    ensures SameButHistory(SetReader(a, t, rd), SetReader(b, t, rd'))
  {
    hide Bare;
  }

  lemma SameLeave(a: State, b: State, t: Tid)
    requires SameButHistory(a, b)
    ensures SameButHistory(a.(readers := a.readers - {t}, waiting := a.waiting - {t}),
                           b.(readers := b.readers - {t}, waiting := b.waiting - {t}))
  {
    hide Bare;
  }

  lemma HistoryOfReader(a: State, b: State, t: Tid)
    requires SameButHistory(a, b)
    ensures SameOutcome(StepReader(a, t), StepReader(b, t))
  {
    if t in a.readers {
      var rd, rd' := a.readers[t], b.readers[t];
      assert rd.arg == rd'.arg && rd.pc == rd'.pc;
      if rd.pc.Leave? {
        SameLeave(a, b, t);
      } else if StepReader(a, t).Ok? {
        SameNext(a, b, t);
        SameSet(a, b, t, StepReader(a, t).s.readers[t], StepReader(b, t).s.readers[t]);
      }
    }
  }

  lemma SameNext(a: State, b: State, t: Tid)
    requires a.heap == b.heap && t in a.readers && t in b.readers && !a.readers[t].pc.Leave? && StepReader(a, t).Ok?
    requires a.readers[t].arg == b.readers[t].arg && a.readers[t].pc == b.readers[t].pc
    ensures StepReader(b, t).Ok? && t in StepReader(a, t).s.readers && t in StepReader(b, t).s.readers
    ensures var rd, rd' := StepReader(a, t).s.readers[t], StepReader(b, t).s.readers[t];
      && rd.arg == rd'.arg && rd.pc == rd'.pc
      && StepReader(a, t) == Ok(SetReader(a, t, rd)) && StepReader(b, t) == Ok(SetReader(b, t, rd'))
  {
  }

  lemma HistoryOfDelete(a: State, b: State)
    requires SameButHistory(a, b) && a.writer.ExDelete?
    ensures b.writer == a.writer && SameOutcome(StepDelete(a), StepDelete(b))
  {
    hide SameReaders;
    var w := a.writer;
    if w.tmp in a.heap {
      var c := a.heap[w.tmp];
      match w.step
      case SetBackDel =>
        if c.next in a.heap {
          SameStore(a, b, c.next, a.heap[c.next].(prev := c.prev), w.(step := Unlink), w.(step := Unlink));
        }
      case PoisonDel => SameStore(a, b, w.tmp, c.(prev := POISON), w.(step := SyncDel), w.(step := SyncDel));
      case _ =>
    }
  }

  lemma HistoryOfUpdate(a: State, b: State, x: Addr, junk: Cell)
    requires SameButHistory(a, b)
    requires a.writer.UpFirst? || a.writer.UpLook? || a.writer.UpAdvance? || a.writer.UpAlloc?
    ensures SameOutcome(StepWriter(a, x, junk), StepWriter(b, x, junk))
  {
    hide SameReaders;
  }

  lemma HistoryOfExit(a: State, b: State, x: Addr, junk: Cell)
    requires SameButHistory(a, b)
    requires a.writer.ExFirst? || a.writer.ExSecond? || a.writer.ExLook? || a.writer.ExAdvance?
    ensures SameOutcome(StepWriter(a, x, junk), StepWriter(b, x, junk))
  {
    hide SameReaders;
  }

  lemma HistoryOfWriter(a: State, b: State, x: Addr, junk: Cell)
    requires SameButHistory(a, b)
    ensures SameOutcome(StepWriter(a, x, junk), StepWriter(b, x, junk))
  {
    hide SameReaders;
    match a.writer
    case UpReplace(_, _, _, _, _) => HistoryOfReplace(a, b);
    case ExDelete(_, _, _) => HistoryOfDelete(a, b);
    case Unlocked =>
    case UpReport(_, _) =>
    case UpUnlock =>
    case ExUnlock =>
    case UpFirst(_) => HistoryOfUpdate(a, b, x, junk);
    case UpLook(_, _, _) => HistoryOfUpdate(a, b, x, junk);
    case UpAdvance(_, _, _) => HistoryOfUpdate(a, b, x, junk);
    case UpAlloc(_, _, _) => HistoryOfUpdate(a, b, x, junk);
    case _ => HistoryOfExit(a, b, x, junk);
  }

  /** The history variables are idle: no event's outcome depends on them. */
  lemma HistoryDoesNotSteer(a: State, b: State, e: Event)
    requires SameButHistory(a, b)
    ensures SameOutcome(Step(a, e), Step(b, e))
  {
    match e
    case ReadLock(_, _) =>
    case ReadStep(t) => HistoryOfReader(a, b, t);
    case UpdateLock(_) => hide SameReaders;
    case ExitLock => hide SameReaders;
    case WriterStep(x, junk) => HistoryOfWriter(a, b, x, junk);
  }
}
