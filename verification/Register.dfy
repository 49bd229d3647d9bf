/**
 One atomic register, the specification of both cell drivers (Lab11/simple_rcu and
 Lab11/simple_rwlock), and the part of their code that is the same: what a thread inside
 IOCTL_READ does between its lock and its unlock.
 */
module Register {
  import opened Common

  type Addr = nat
  type Tid = nat

  // ---------------------------------------------------------------- the specification

  /** The current value, the reads that were called but have not taken effect, and the reads that
      have taken effect but have not returned, each with the value it got. */
  datatype Reg = Reg(value: nat, called: set<Tid>, taken: map<Tid, nat>)

  /** A read takes effect in one instant between its call and its return. It shows its value
      twice, and both must be the value it got in that instant. */
  datatype Action =
    | Internal
    | Call(t: Tid)
    | Take(t: Tid)
    | Return(t: Tid, first: nat, second: nat)
    | Put(v: nat)

  function RegInit(): Reg { Reg(0, {}, map[]) }

  function RegStep(reg: Reg, a: Action): Option<Reg> {
    match a
    case Internal => Some(reg)
    case Call(t) =>
      if t in reg.called || t in reg.taken then None else Some(reg.(called := reg.called + {t}))
    case Take(t) =>
      if t !in reg.called then None
      else Some(reg.(called := reg.called - {t}, taken := reg.taken[t := reg.value]))
    case Return(t, first, second) =>
      if t !in reg.taken || first != reg.taken[t] || second != reg.taken[t] then None
      else Some(reg.(taken := reg.taken - {t}))
    case Put(v) => Some(reg.(value := v))
  }

  /** The register after these actions; None if one of them is not a register's. */
  function RegRun(acts: seq<Action>): Option<Reg>
    decreases |acts|
  {
    if acts == [] then Some(RegInit())
    else
      match RegRun(Front(acts))
      case None => None
      case Some(reg) => RegStep(reg, Last(acts))
  }

  predicate IsRegRun(acts: seq<Action>) { RegRun(acts).Some? }

  lemma {:induction false} PrefixRuns(acts: seq<Action>, k: nat)
    requires IsRegRun(acts) && k <= |acts|
    ensures IsRegRun(acts[..k])
    decreases |acts|
  {
    if k == |acts| {
      assert acts[..k] == acts;
    } else {
      assert acts[..k] == Front(acts)[..k];
      PrefixRuns(Front(acts), k);
    }
  }

  /** The register's value just before action k. */
  function ValueBefore(acts: seq<Action>, k: nat): nat
    requires IsRegRun(acts) && k < |acts|
  {
    PrefixRuns(acts, k);
    RegRun(acts[..k]).value.value
  }

  /** Thread t returns nothing from action i on. */
  predicate NoReturn(acts: seq<Action>, i: nat, t: Tid) {
    forall k :: i <= k < |acts| ==> !(acts[k].Return? && acts[k].t == t)
  }

  /** Reads called but not effective were called, and effective ones took the value that was
      current at an instant after their call. */
  lemma {:induction false} CalledBefore(acts: seq<Action>, t: Tid) returns (i: nat)
    requires IsRegRun(acts) && t in RegRun(acts).value.called
    ensures i < |acts| && acts[i] == Call(t) && NoReturn(acts, i, t)
    decreases |acts|
  {
    var front, last := Front(acts), Last(acts);
    var reg := RegRun(front).value;
    if last == Call(t) {
      i := |acts| - 1;
    } else {
      i := CalledBefore(front, t);
      CalledNotTaken(front, t);
      assert forall k :: 0 <= k < |front| ==> front[k] == acts[k];
    }
  }

  lemma {:induction false} CalledNotTaken(acts: seq<Action>, t: Tid)
    requires IsRegRun(acts) && t in RegRun(acts).value.called
    ensures t !in RegRun(acts).value.taken
    decreases |acts|
  {
    var front := Front(acts);
    if t in RegRun(front).value.called { CalledNotTaken(front, t); }
  }

  lemma {:induction false} TakenBefore(acts: seq<Action>, t: Tid) returns (i: nat, k: nat)
    requires IsRegRun(acts) && t in RegRun(acts).value.taken
    ensures i < k < |acts| && acts[i] == Call(t) && acts[k] == Take(t) && NoReturn(acts, i, t)
    ensures RegRun(acts).value.taken[t] == ValueBefore(acts, k)
    decreases |acts|
  {
    var front, last := Front(acts), Last(acts);
    if last == Take(t) {
      k := |acts| - 1;
      i := CalledBefore(front, t);
    } else {
      i, k := TakenBefore(front, t);
      assert front[..k] == acts[..k];
    }
    assert forall j :: 0 <= j < |front| ==> front[j] == acts[j];
  }

  /** Whatever a read of the register shows, first and second time, is the value that was current
      at one instant after its call. */
  lemma ReadsAreAtomic(acts: seq<Action>, t: Tid, first: nat, second: nat) returns (i: nat, k: nat)
    requires acts != [] && IsRegRun(acts) && Last(acts) == Return(t, first, second)
    ensures i < k < |acts| - 1 && acts[i] == Call(t) && acts[k] == Take(t) && NoReturn(Front(acts), i, t)
    ensures first == second == ValueBefore(acts, k)
  {
    i, k := TakenBefore(Front(acts), t);
    assert Front(acts)[..k] == acts[..k];
  }

  // ---------------------------------------------------------------- IOCTL_READ

  /** What the thread does next: load `my_data`, read through the pointer and print, read through
      it and print again, unlock. */
  datatype ReaderPc =
    | Deref
    | Print(p: Addr)
    | Reprint(p: Addr, first: nat)
    | Leave(first: nat, second: nat)

  /** A thread between its lock and its unlock. `since` is history: how many values
      had been published when the section began. */
  datatype Reader = Reader(pc: ReaderPc, since: nat)

  datatype Move = To(pc: ReaderPc) | Done | Bad

  /** One step of the thread; Bad is a read of memory that is not allocated. */
  function StepPc(heap: map<Addr, nat>, ptr: Addr, pc: ReaderPc): Move {
    match pc
    case Deref => To(Print(ptr))
    case Print(p) => if p !in heap then Bad else To(Reprint(p, heap[p]))
    case Reprint(p, first) => if p !in heap then Bad else To(Leave(first, heap[p]))
    case Leave(_, _) => Done
  }

  function ActionOf(t: Tid, pc: ReaderPc): Action {
    match pc
    case Deref => Take(t)
    case Print(_) => Internal
    case Reprint(_, _) => Internal
    case Leave(first, second) => Return(t, first, second)
  }

  function HoldsAddr(pc: ReaderPc): Option<Addr> {
    match pc
    case Print(p) => Some(p)
    case Reprint(p, _) => Some(p)
    case _ => None
  }

  // ---------------------------------------------------------------- abstraction

  /** The value a read that has taken effect will show. */
  function Captured(heap: map<Addr, nat>, pc: ReaderPc): nat {
    match pc
    case Deref => 0
    case Print(p) => if p in heap then heap[p] else 0
    case Reprint(_, first) => first
    case Leave(first, _) => first
  }

  function CalledReads(readers: map<Tid, Reader>): set<Tid> {
    set t | t in readers && readers[t].pc == Deref
  }

  function TakenReads(heap: map<Addr, nat>, readers: map<Tid, Reader>): map<Tid, nat> {
    map t | t in readers && readers[t].pc != Deref :: Captured(heap, readers[t].pc)
  }

  /** The register that shared memory and the threads inside IOCTL_READ implement. */
  function Abs(heap: map<Addr, nat>, ptr: Addr, readers: map<Tid, Reader>): Reg {
    Reg(if ptr in heap then heap[ptr] else 0, CalledReads(readers), TakenReads(heap, readers))
  }

  /** The pointer a reader holds is allocated, and what it has shown is what the memory holds. */
  predicate Sound(heap: map<Addr, nat>, pc: ReaderPc) {
    match pc
    case Deref => true
    case Print(p) => p in heap
    case Reprint(p, first) => p in heap && heap[p] == first
    case Leave(first, second) => first == second
  }

  /** A new section is a call. */
  lemma BeginRefines(heap: map<Addr, nat>, ptr: Addr, readers: map<Tid, Reader>, t: Tid, since: nat)
    requires t !in readers
    ensures RegStep(Abs(heap, ptr, readers), Call(t)) == Some(Abs(heap, ptr, readers[t := Reader(Deref, since)]))
  {
    var readers' := readers[t := Reader(Deref, since)];
    assert CalledReads(readers') == CalledReads(readers) + {t};
    assert TakenReads(heap, readers') == TakenReads(heap, readers);
  }

  /** A step inside the section is the action that ActionOf says. */
  lemma StepPcRefines(heap: map<Addr, nat>, ptr: Addr, readers: map<Tid, Reader>, t: Tid)
    requires t in readers && Sound(heap, readers[t].pc) && ptr in heap
    ensures !StepPc(heap, ptr, readers[t].pc).Bad?
    ensures var act, move := ActionOf(t, readers[t].pc), StepPc(heap, ptr, readers[t].pc);
      && (move.To? ==> RegStep(Abs(heap, ptr, readers), act) ==
                       Some(Abs(heap, ptr, readers[t := Reader(move.pc, readers[t].since)])))
      && (move.Done? ==> RegStep(Abs(heap, ptr, readers), act) == Some(Abs(heap, ptr, readers - {t})))
  {
    var move := StepPc(heap, ptr, readers[t].pc);
    var readers' := if move.To? then readers[t := Reader(move.pc, readers[t].since)] else readers - {t};
    var reg := Abs(heap, ptr, readers);
    match readers[t].pc
    case Deref =>
      assert CalledReads(readers') == reg.called - {t};
      assert TakenReads(heap, readers') == reg.taken[t := reg.value];
    case Print(_) =>
      assert CalledReads(readers') == reg.called && TakenReads(heap, readers') == reg.taken;
    case Reprint(_, _) =>
      assert CalledReads(readers') == reg.called && TakenReads(heap, readers') == reg.taken;
    case Leave(_, _) =>
      assert CalledReads(readers') == reg.called && TakenReads(heap, readers') == reg.taken - {t};
  }

  /** What readers hold is the same in both memories. */
  ghost predicate SameHeld(heap: map<Addr, nat>, heap': map<Addr, nat>, readers: map<Tid, Reader>) {
    forall t :: t in readers && readers[t].pc.Print? ==>
      Captured(heap', readers[t].pc) == Captured(heap, readers[t].pc)
  }

  lemma SameAbs(heap: map<Addr, nat>, ptr: Addr, heap': map<Addr, nat>, ptr': Addr, readers: map<Tid, Reader>)
    requires ptr in heap && ptr' in heap' && SameHeld(heap, heap', readers)
    ensures Abs(heap', ptr', readers) == Abs(heap, ptr, readers).(value := heap'[ptr'])
  {
    assert TakenReads(heap', readers) == TakenReads(heap, readers);
  }

  /** The same threads, about to do the same. */
  ghost predicate SameReaders(a: map<Tid, Reader>, b: map<Tid, Reader>) {
    a.Keys == b.Keys && forall t :: t in a ==> a[t].pc == b[t].pc
  }

  lemma SameReadersSet(a: map<Tid, Reader>, b: map<Tid, Reader>, t: Tid, pc: ReaderPc, i: nat, j: nat)
    requires SameReaders(a, b)
    ensures SameReaders(a[t := Reader(pc, i)], b[t := Reader(pc, j)]) && SameReaders(a - {t}, b - {t})
  {
  }
}
