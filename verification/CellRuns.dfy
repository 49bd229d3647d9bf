/**
 What the two cell drivers guarantee over every run: any interleaving of any number of readers and
 writers between init and exit.
 */
module CellRuns {
  import opened Common
  import opened Register
  import opened Cell

  ghost predicate IsRun(run: seq<State>, es: seq<Event>) {
    && |run| == |es| + 1 && Booted(run[0])
    && forall i :: 0 <= i < |es| ==> Step(run[i], es[i]) == Ok(run[i + 1])
  }

  lemma {:induction false} RunInv(run: seq<State>, es: seq<Event>, j: nat)
    requires IsRun(run, es) && j < |run|
    ensures Inv(run[j])
  {
    if j > 0 {
      RunInv(run, es, j - 1);
      StepGood(run[j - 1], es[j - 1]);
    }
  }

  /** No thread ever touches memory that is not allocated, nothing is freed twice, and a reader that
      is inside is never blocked. */
  lemma NoUseAfterFree(run: seq<State>, es: seq<Event>, j: nat, e: Event)
    requires IsRun(run, es) && j < |run|
    ensures !Step(run[j], e).Fault?
    ensures e.ReadStep? && e.t in run[j].readers ==> Step(run[j], e).Ok?
  {
    RunInv(run, es, j);
    StepGood(run[j], e);
  }

  /** The register actions of the first j events. */
  function Labels(run: seq<State>, es: seq<Event>, j: nat): seq<Action>
    requires j <= |es| < |run|
  {
    seq(j, k requires 0 <= k < j => Label(run[k], es[k]))
  }

  /** Refinement: the actions of every run are those of one atomic register, whose value is what
      the pointer leads to and whose pending reads are the threads inside IOCTL_READ. */
  lemma {:induction false} RefinesRegister(run: seq<State>, es: seq<Event>, j: nat)
    requires IsRun(run, es) && j < |run|
    ensures RegRun(Labels(run, es, j)) == Some(AbsOf(run[j]))
  {
    var acts := Labels(run, es, j);
    if j > 0 {
      RefinesRegister(run, es, j - 1);
      assert Front(acts) == Labels(run, es, j - 1);
      RunInv(run, es, j - 1);
      StepGood(run[j - 1], es[j - 1]);
    } else {
      assert AbsOf(run[0]) == RegInit();
    }
  }

  function Current(s: State): nat { AbsOf(s).value }

  lemma RegisterValue(run: seq<State>, es: seq<Event>, j: nat, k: nat)
    requires IsRun(run, es) && k < j < |run|
    ensures IsRegRun(Labels(run, es, j)) && ValueBefore(Labels(run, es, j), k) == Current(run[k])
  {
    RefinesRegister(run, es, j);
    RefinesRegister(run, es, k);
    assert Labels(run, es, j)[..k] == Labels(run, es, k);
  }

  /** Linearizable reads: the two values a READ prints are equal, and they are what the cell held
      at one instant k of its section, which began at i. */
  lemma ReadsAreLinearizable(run: seq<State>, es: seq<Event>, j: nat, t: Tid) returns (i: nat, k: nat)
    requires IsRun(run, es) && j < |es| && es[j] == ReadStep(t)
    requires t in run[j].readers && run[j].readers[t].pc.Leave?
    ensures i < k < j && es[i] == ReadLock(t) && es[k] == ReadStep(t)
    ensures forall m :: i < m <= j ==> t in run[m].readers
    ensures var pc := run[j].readers[t].pc; pc.first == pc.second == Current(run[k])
  {
    var pc := run[j].readers[t].pc;
    var acts := Labels(run, es, j + 1);
    RefinesRegister(run, es, j + 1);
    assert Last(acts) == Return(t, pc.first, pc.second) && Front(acts) == Labels(run, es, j);
    i, k := ReadsAreAtomic(acts, t, pc.first, pc.second);
    RegisterValue(run, es, j + 1, k);
    assert acts[i] == Label(run[i], es[i]) && acts[k] == Label(run[k], es[k]);
    SectionLasts(run, es, i, j, t);
  }

  lemma {:induction false} SectionLasts(run: seq<State>, es: seq<Event>, i: nat, j: nat, t: Tid)
    requires IsRun(run, es) && i < j < |run| && es[i] == ReadLock(t)
    requires NoReturn(Labels(run, es, j), i, t)
    ensures forall m :: i < m <= j ==> t in run[m].readers
  {
    if j > i + 1 {
      assert Labels(run, es, j - 1) == Labels(run, es, j)[..j - 1];
      SectionLasts(run, es, i, j - 1, t);
      assert !Labels(run, es, j)[j - 1].Return? || Labels(run, es, j)[j - 1].t != t;
      StepReaders(run[j - 1], es[j - 1], run[j], t);
    }
  }

  /** A thread leaves its section by its own last step only, and `since` never changes. */
  lemma StepReaders(s: State, e: Event, s': State, t: Tid)
    requires Step(s, e) == Ok(s') && t in s.readers
    ensures e != ReadStep(t) ==> t in s'.readers && s'.readers[t] == s.readers[t]
    ensures t !in s'.readers ==> s.readers[t].pc.Leave?
    ensures t in s'.readers ==> s'.readers[t].since == s.readers[t].since
    ensures |s.written| <= |s'.written|
  {
  }

  /** What the second of the two reads shows is what the first showed, from memory that was not
      freed in between, and it is the current value or the one immediately before it. */
  lemma SecondReadIsRecent(run: seq<State>, es: seq<Event>, j: nat, t: Tid)
    requires IsRun(run, es) && j < |run| && t in run[j].readers && run[j].readers[t].pc.Reprint?
    ensures var s, pc := run[j], run[j].readers[t].pc;
      && pc.p in s.heap && s.heap[pc.p] == pc.first
      && s.written != [] && Current(s) == Last(s.written)
      && (pc.first == Last(s.written) || (|s.written| >= 2 && pc.first == s.written[|s.written| - 2]))
  {
    RunInv(run, es, j);
    assert ReaderOk(run[j], t, run[j].readers[t]);
  }

  function Puts(acts: seq<Action>): seq<nat>
    decreases |acts|
  {
    if acts == [] then [] else Puts(Front(acts)) + PutOf(Last(acts))
  }

  function PutOf(act: Action): seq<nat> { if act.Put? then [act.v] else [] }

  lemma WrittenStep(s: State, e: Event, s': State)
    requires Step(s, e) == Ok(s')
    ensures s'.written == s.written + PutOf(Label(s, e))
  {
  }

  /** The history variable: 0 and then the values published, in order. */
  lemma {:induction false} WrittenIsHistory(run: seq<State>, es: seq<Event>, j: nat)
    requires IsRun(run, es) && j < |run|
    ensures run[j].written == [0] + Puts(Labels(run, es, j))
  {
    hide Label;
    hide Step;
    var acts := Labels(run, es, j);
    if j > 0 {
      WrittenIsHistory(run, es, j - 1);
      assert Front(acts) == Labels(run, es, j - 1) && Last(acts) == Label(run[j - 1], es[j - 1]);
      WrittenStep(run[j - 1], es[j - 1], run[j]);
    }
  }

  /** Thread t is in one and the same section in all states i..j. */
  ghost predicate InSection(run: seq<State>, i: nat, j: nat, t: Tid) {
    i <= j < |run| && forall k :: i <= k <= j ==> t in run[k].readers
  }

  lemma {:induction false} SectionStart(run: seq<State>, es: seq<Event>, i: nat, j: nat, t: Tid)
    requires IsRun(run, es) && InSection(run, i, j, t)
    ensures run[j].readers[t].since == run[i].readers[t].since
    ensures |run[i].written| <= |run[j].written|
  {
    if j > i {
      SectionStart(run, es, i, j - 1, t);
      StepReaders(run[j - 1], es[j - 1], run[j], t);
    }
  }

  /** At most one value is published during any one read section. */
  lemma OneWritePerSection(run: seq<State>, es: seq<Event>, i: nat, j: nat, t: Tid)
    requires IsRun(run, es) && InSection(run, i, j, t)
    ensures |run[i].written| <= |run[j].written| <= |run[i].written| + 1
  {
    RunInv(run, es, i);
    RunInv(run, es, j);
    SectionStart(run, es, i, j, t);
    assert ReaderOk(run[i], t, run[i].readers[t]) && ReaderOk(run[j], t, run[j].readers[t]);
  }

  /** Conservation: what was allocated and not freed is the current block and at most one more,
      and while nobody writes it is the current block alone. */
  lemma AllocationConserved(run: seq<State>, es: seq<Event>, j: nat)
    requires IsRun(run, es) && j < |run|
    ensures run[j].frees + |run[j].heap| == run[j].allocs && |run[j].heap| <= 2
    ensures run[j].writer.Unlocked? ==> run[j].heap.Keys == {run[j].ptr}
  {
    RunInv(run, es, j);
    var s := run[j];
    if Extra(s.writer).Some? {
      assert s.heap.Keys == {s.ptr} + {Extra(s.writer).value};
    }
    assert |s.heap| == |s.heap.Keys|;
  }

  // ---------------------------------------------------------------- how current a second print is

  lemma PublishingMoves(s: State, e: Event, s': State)
    requires Inv(s) && Step(s, e) == Ok(s')
    ensures s.written <= s'.written
    ensures if |s'.written| == |s.written| then s'.ptr == s.ptr else s'.ptr != s.ptr
  {
  }

  /** From the load of `my_data` on, a reader keeps the pointer it loaded. */
  lemma PointerHeld(s: State, e: Event, s': State, t: Tid)
    requires Step(s, e) == Ok(s') && t in s.readers && t in s'.readers && s.readers[t].pc != Deref
    ensures s'.readers[t].pc != Deref
    ensures HoldsAddr(s'.readers[t].pc).Some? ==> HoldsAddr(s'.readers[t].pc) == HoldsAddr(s.readers[t].pc)
  {
  }

  /** Thread t loads `my_data` in event i, and is in the same section until state j. */
  ghost predicate LoadedAt(run: seq<State>, es: seq<Event>, i: nat, j: nat, t: Tid) {
    && IsRun(run, es) && i < j < |run| && InSection(run, i, j, t)
    && es[i] == ReadStep(t) && run[i].readers[t].pc == Deref
  }

  lemma {:induction false} SinceLoad(run: seq<State>, es: seq<Event>, i: nat, j: nat, t: Tid)
    requires LoadedAt(run, es, i, j, t)
    ensures var pc := run[j].readers[t].pc;
      pc != Deref && (HoldsAddr(pc).Some? ==> HoldsAddr(pc) == Some(run[i].ptr))
    ensures run[i].written <= run[j].written
    ensures run[j].ptr == run[i].ptr <==> |run[j].written| == |run[i].written|
  {
    RunInv(run, es, j - 1);
    PublishingMoves(run[j - 1], es[j - 1], run[j]);
    OneWritePerSection(run, es, i, j, t);
    if j > i + 1 {
      SinceLoad(run, es, i, j - 1, t);
      PointerHeld(run[j - 1], es[j - 1], run[j], t);
    }
  }

  /** The pointer that a reader holds is the current one if and only if nothing was published since
      it was loaded. */
  lemma PointerCurrentIff(run: seq<State>, es: seq<Event>, i: nat, j: nat, t: Tid)
    requires LoadedAt(run, es, i, j, t) && HoldsAddr(run[j].readers[t].pc).Some?
    ensures HoldsAddr(run[j].readers[t].pc) == Some(run[j].ptr) <==> |run[j].written| == |run[i].written|
  {
    SinceLoad(run, es, i, j, t);
  }

  /** So the second print shows the current value if and only if nothing was published since the
      pointer was loaded, or the one value that was is the same; otherwise it shows the value
      immediately before. */
  lemma SecondPrintCurrentIff(run: seq<State>, es: seq<Event>, i: nat, j: nat, t: Tid)
    requires LoadedAt(run, es, i, j, t) && run[j].readers[t].pc.Reprint?
    ensures var atLoad, now, p := run[i].written, run[j].written, run[j].readers[t].pc.p;
      && atLoad != [] && now != [] && p in run[j].heap
      && run[j].heap[p] == Last(atLoad) == Current(run[i])
      && (run[j].heap[p] == Current(run[j]) <==> |now| == |atLoad| || Last(now) == Last(atLoad))
      && (|now| != |atLoad| ==> now == atLoad + [Current(run[j])])
  {
    SinceLoad(run, es, i, j, t);
    OneWritePerSection(run, es, i, j, t);
    RunInv(run, es, i);
    SecondReadIsRecent(run, es, j, t);
    RunInv(run, es, j);
    assert ReaderOk(run[j], t, run[j].readers[t]);
  }

  /** A reader prints once, and then a writer publishes v. */
  function StaleEvent(t: Tid, v: nat, k: nat): Event {
    match k
    case 0 => ReadLock(t)
    case 1 => ReadStep(t)
    case 2 => ReadStep(t)
    case 3 => WriteLock(v)
    case _ => WriterStep(1, 0)
  }

  function StaleState(t: Tid, v: nat, k: nat): State {
    var pc := if k <= 1 then Deref else if k == 2 then Print(0) else Reprint(0, 0);
    var heap := if k <= 4 then map[0 := 0] else map[0 := 0, 1 := if k == 5 then 0 else v];
    var writer :=
      match k
      case 4 => Alloc(v)
      case 5 => Fill(v, 1)
      case 6 => LoadOld(v, 1)
      case 7 => Publish(v, 1, 0)
      case 8 => Sync(0)
      case _ => Unlocked;
    State(Rcu, heap, if k == 8 then 1 else 0, if k == 0 then map[] else map[t := Reader(pc, 1)], writer, {},
          if k == 8 then [0, v] else [0], if k <= 4 then 1 else 2, 0)
  }

  lemma StaleStep(t: Tid, v: nat, k: nat)
    requires k < 8
    ensures Step(StaleState(t, v, k), StaleEvent(t, v, k)) == Ok(StaleState(t, v, k + 1))
  {
    var s, s' := StaleState(t, v, k), StaleState(t, v, k + 1);
    if k == 4 {
      assert s.heap[1 := 0] == s'.heap;
    } else if k == 5 {
      assert s.heap[1 := v] == s'.heap;
    }
  }

  /** The bound is sharp: a reader can be about to show a value that has been replaced. */
  lemma StaleReadIsPossible(t: Tid, v: nat) returns (run: seq<State>, es: seq<Event>)
    ensures IsRun(run, es) && |run| == 9
    ensures run[8].readers == map[t := Reader(Reprint(0, 0), 1)] && Current(run[8]) == v
  {
    run, es := seq(9, (k: nat) => StaleState(t, v, k)), seq(8, (k: nat) => StaleEvent(t, v, k));
    forall k | 0 <= k < 8 ensures Step(run[k], es[k]) == Ok(run[k + 1]) { StaleStep(t, v, k); }
  }

  // ---------------------------------------------------------------- the ReadWrite driver

  /** Stronger than the register asks: all the time from its load of the pointer to its unlock, a
      reader's pointer is the current one and its value the current value. */
  lemma ValueStaysCurrent(run: seq<State>, es: seq<Event>, j: nat, t: Tid)
    requires IsRun(run, es) && j < |run| && run[j].lock.ReadWrite? && t in run[j].readers
    ensures var s, pc := run[j], run[j].readers[t].pc;
      && (pc != Deref ==> Captured(s.heap, pc) == Current(s))
      && (HoldsAddr(pc).Some? ==> HoldsAddr(pc) == Some(s.ptr) && s.ptr in s.heap)
      && (pc.Leave? ==> pc.second == pc.first)
  {
    RunInv(run, es, j);
    assert ReaderOk(run[j], t, run[j].readers[t]);
  }

  /** Because while any reader is inside, no event publishes, frees or allocates. */
  lemma ReadersExcludeWriters(run: seq<State>, es: seq<Event>, j: nat)
    requires IsRun(run, es) && j < |es| && run[j].lock.ReadWrite? && run[j].readers != map[]
    ensures run[j + 1].heap == run[j].heap && run[j + 1].ptr == run[j].ptr && run[j + 1].written == run[j].written
  {
    RunInv(run, es, j);
  }
}
