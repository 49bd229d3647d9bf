/**
 Progress of the RCU list over every run: readers finish, nobody deadlocks, and grace periods end.
 */
module RcuListProgress {
  import opened Common
  import opened RcuList
  import opened RcuListInvariant
  import opened RcuListRuns

  // ---------------------------------------------------------------- readers finish

  /** An upper bound on the steps a reader has left. */
  function StepsLeft(n: nat, rd: Reader): int {
    match rd.pc
    case First => 2 * n + 3
    case Look(_) => 2 * rd.rem + 2
    case Advance(_) => 2 * rd.rem + 1
    case Load(_) => 2
    case Leave(_) => 1
  }

  function OwnSteps(es: seq<Event>, i: nat, j: nat, t: Tid): nat
    requires i <= j <= |es|
  {
    if i == j then 0 else OwnSteps(es, i, j - 1, t) + if es[j - 1] == ReadStep(t) then 1 else 0
  }

  lemma OwnStepDescends(s: State, t: Tid)
    requires Inv(s) && t in s.readers
    ensures StepReader(s, t).Ok? && StepsLeft(s.n, s.readers[t]) >= 1
    ensures var s' := StepReader(s, t).s;
      t in s'.readers ==> StepsLeft(s.n, s'.readers[t]) < StepsLeft(s.n, s.readers[t])
  {
    var rd := s.readers[t];
    StepReaderGood(s, t);
    assert ReaderOk(ViewOf(s), t, rd);
    if rd.pc.Look? { CursorAllocated(s, rd, rd.pc.pos); }
  }

  lemma StepsDescend(s: State, e: Event, s': State, t: Tid)
    requires Inv(s) && Step(s, e) == Ok(s') && t in s.readers && t in s'.readers
    ensures (if e == ReadStep(t) then 1 else 0) + StepsLeft(s'.n, s'.readers[t]) <= StepsLeft(s.n, s.readers[t])
  {
    StepHistory(s, e, s');
    if e == ReadStep(t) { OwnStepDescends(s, t); } else { StepReaders(s, e, s', t); }
  }

  ghost predicate DescendsAt(run: seq<State>, es: seq<Event>, k: nat, t: Tid)
    requires k < |es| < |run| && t in run[k].readers && t in run[k + 1].readers
  {
    (if es[k] == ReadStep(t) then 1 else 0) + StepsLeft(run[k + 1].n, run[k + 1].readers[t])
      <= StepsLeft(run[k].n, run[k].readers[t])
  }

  lemma {:induction false} StepsTelescope(run: seq<State>, es: seq<Event>, i: nat, j: nat, t: Tid)
    requires |run| == |es| + 1 && InSection(run, i, j, t)
    requires forall k :: i <= k < j ==> DescendsAt(run, es, k, t)
    ensures OwnSteps(es, i, j, t) + StepsLeft(run[j].n, run[j].readers[t]) <= StepsLeft(run[i].n, run[i].readers[t])
  {
    if j > i {
      StepsTelescope(run, es, i, j - 1, t);
      assert DescendsAt(run, es, j - 1, t);
    }
  }

  lemma StepsBounded(run: seq<State>, es: seq<Event>, i: nat, j: nat, t: Tid)
    requires IsRun(run, es) && InSection(run, i, j, t)
    ensures OwnSteps(es, i, j, t) + StepsLeft(run[j].n, run[j].readers[t]) <= StepsLeft(run[i].n, run[i].readers[t])
  {
    forall k | i <= k < j ensures DescendsAt(run, es, k, t) {
      RunInv(run, es, k);
      StepsDescend(run[k], es[k], run[k + 1], t);
    }
    StepsTelescope(run, es, i, j, t);
  }

  /** Wait-freedom: a READ is over after at most 2n+3 of its own steps, whatever the others do,
      and its next step is never blocked. */
  lemma ReadersFinish(run: seq<State>, es: seq<Event>, i: nat, j: nat, t: Tid)
    requires IsRun(run, es) && InSection(run, i, j, t) && run[i].readers[t].pc.First?
    ensures OwnSteps(es, i, j, t) < 2 * run[i].n + 3
    ensures StepReader(run[j], t).Ok?
  {
    StepsBounded(run, es, i, j, t);
    RunInv(run, es, j);
    OwnStepDescends(run[j], t);
  }

  /** Readers never miss: before exit, the k-th pointer a traversal loads leads to the entry with
      id k, and the one after the last leads to the head; never more than n + 1 are loaded. */
  lemma VisitsInOrder(run: seq<State>, es: seq<Event>, j: nat, t: Tid)
    requires IsRun(run, es) && j < |run| && t in run[j].readers && run[j].readers[t].pc.Look?
    ensures var s, rd := run[j], run[j].readers[t];
      && rd.hops <= s.n + 1
      && rd.pc.pos in s.heap
      && (!s.exiting ==> if rd.hops == s.n + 1 then rd.pc.pos == HEAD
                         else rd.pc.pos != HEAD && s.heap[rd.pc.pos].id == rd.hops)
  {
    RunInv(run, es, j);
    var s, rd := run[j], run[j].readers[t];
    assert ReaderOk(ViewOf(s), t, rd);
    CursorAllocated(s, rd, rd.pc.pos);
  }

  // ---------------------------------------------------------------- progress

  /** No deadlock: while the lock is held, either its holder can take its next step with any
      fresh address, or it is in a grace period and every section it waits for can take a step,
      of which that section has at most 2n+3. */
  lemma HolderOrReaderMoves(run: seq<State>, es: seq<Event>, j: nat, a: Addr, junk: Cell)
    requires IsRun(run, es) && j < |run| && !run[j].writer.Unlocked?
    requires a !in run[j].heap && a != POISON
    ensures var s := run[j];
      || StepWriter(s, a, junk).Ok?
      || (s.waiting != {} && forall t :: t in s.waiting ==> t in s.readers && StepReader(s, t).Ok?)
  {
    var s := run[j];
    RunInv(run, es, j);
    StepWriterGood(s, a, junk);
    forall t | t in s.waiting ensures t in s.readers && StepReader(s, t).Ok? {
      StepReaderGood(s, t);
    }
  }

  /** A running grace period is never prolonged: no event makes its waiting set grow. */
  lemma GraceShrinks(s: State, e: Event, s': State)
    requires Step(s, e) == Ok(s')
    requires (s.writer.UpReplace? && s.writer.todo == WaitOld) || (s.writer.ExDelete? && s.writer.step == WaitDel)
    ensures s'.waiting <= s.waiting
  {
  }

  // ---------------------------------------------------------------- the length of a grace period

  /** The sum of f over w. */
  ghost function Sum(w: set<Tid>, f: map<Tid, nat>): nat
    requires w <= f.Keys
  {
    if w == {} then 0 else var t :| t in w; f[t] + Sum(w - {t}, f)
  }

  lemma {:induction false} SumOut(w: set<Tid>, f: map<Tid, nat>, t: Tid)
    requires w <= f.Keys && t in w
    ensures Sum(w, f) == f[t] + Sum(w - {t}, f)
    decreases w
  {
    var u :| u in w && Sum(w, f) == f[u] + Sum(w - {u}, f);
    if u != t {
      SumOut(w - {u}, f, t);
      SumOut(w - {t}, f, u);
      assert w - {u} - {t} == w - {t} - {u};
    }
  }

  lemma {:induction false} SumAtMost(w: set<Tid>, f: map<Tid, nat>, g: map<Tid, nat>)
    requires w <= f.Keys && w <= g.Keys && forall t :: t in w ==> f[t] <= g[t]
    ensures Sum(w, f) <= Sum(w, g)
    decreases w
  {
    if w != {} {
      var t :| t in w;
      SumOut(w, f, t);
      SumOut(w, g, t);
      SumAtMost(w - {t}, f, g);
    }
  }

  lemma {:induction false} SumBounded(w: set<Tid>, f: map<Tid, nat>, bound: nat)
    requires w <= f.Keys && forall t :: t in w ==> 1 <= f[t] <= bound
    ensures |w| <= Sum(w, f) <= bound * |w|
    decreases w
  {
    if w != {} {
      var t :| t in w;
      SumOut(w, f, t);
      SumBounded(w - {t}, f, bound);
      assert |w| == |w - {t}| + 1;
      OneMore(bound, |w - {t}|);
    }
  }

  lemma OneMore(bound: int, n: int)
    ensures bound * (n + 1) == bound * n + bound
  {
  }

  predicate InGrace(w: Writer) {
    (w.UpReplace? && w.todo == WaitOld) || (w.ExDelete? && w.step == WaitDel)
  }

  /** What the readers have left to do, at most. */
  ghost function Work(s: State): map<Tid, nat> { map t | t in s.readers :: WorkOf(s.n, s.readers[t]) }

  ghost function WorkOf(n: nat, rd: Reader): nat { if StepsLeft(n, rd) > 0 then StepsLeft(n, rd) else 0 }

  lemma WorkBounds(s: State, t: Tid)
    requires Inv(s) && t in s.readers
    ensures 1 <= WorkOf(s.n, s.readers[t]) == StepsLeft(s.n, s.readers[t]) <= 2 * s.n + 3
  {
    OwnStepDescends(s, t);
    assert ReaderOk(ViewOf(s), t, s.readers[t]);
  }

  /** The steps that the sections a grace period waits for have left, at most. */
  ghost function GraceLeft(s: State): nat { Sum(s.waiting * s.readers.Keys, Work(s)) }

  /** A step of a section that is waited for. */
  predicate AwaitedStep(s: State, e: Event) { e.ReadStep? && e.t in s.waiting }

  /** The lock holder's next step ends the grace period. */
  lemma GraceEnds(s: State, a: Addr, junk: Cell)
    requires InGrace(s.writer) && StepWriter(s, a, junk).Ok?
    ensures !InGrace(StepWriter(s, a, junk).s.writer)
  {
  }

  lemma GraceReader(s: State, t: Tid)
    requires t in s.readers && StepReader(s, t).Ok?
    ensures var s' := StepReader(s, t).s;
      s'.waiting == s.waiting || (t in s.waiting && t !in s'.readers && s'.waiting == s.waiting - {t})
  {
  }

  lemma GraceWaiting(s: State, e: Event, s': State)
    requires Step(s, e) == Ok(s') && InGrace(s.writer) && InGrace(s'.writer)
    ensures s'.waiting == s.waiting || (AwaitedStep(s, e) && s'.waiting == s.waiting - {e.t})
  {
    hide StepReader, StepWriter;
    match e
    case ReadStep(t) => if t in s.readers { GraceReader(s, t); } else { NoSuchReader(s, t); }
    case WriterStep(a, junk) => GraceEnds(s, a, junk);
    case _ =>
  }

  lemma NoSuchReader(s: State, t: Tid)
    requires t !in s.readers
    ensures StepReader(s, t).Blocked?
  {
  }

  /** Each such step makes a grace period shorter, and no event makes it longer. */
  lemma GraceDescends(s: State, e: Event, s': State)
    requires Inv(s) && Inv(s') && Step(s, e) == Ok(s') && InGrace(s.writer) && InGrace(s'.writer)
    ensures GraceLeft(s') + (if AwaitedStep(s, e) then 1 else 0) <= GraceLeft(s)
  {
    hide Step, StepsLeft, Inv, InGrace, WorkOf;
    GraceWaiting(s, e, s');
    InvWaiting(s);
    InvWaiting(s');
    var f, g, w, w' := Work(s), Work(s'), s.waiting, s'.waiting;
    forall t | t in w' ensures g[t] + (if e == ReadStep(t) then 1 else 0) <= f[t] { WorkDescends(s, e, s', t); }
    if AwaitedStep(s, e) { WorkBounds(s, e.t); }
    hide Work;
    assert w * s.readers.Keys == w && w' * s'.readers.Keys == w';
    SumShrinks(w, w', f, g, AwaitedStep(s, e), if e.ReadStep? then e.t else 0);
  }

  lemma WorkDescends(s: State, e: Event, s': State, t: Tid)
    requires Inv(s) && Inv(s') && Step(s, e) == Ok(s') && t in s'.waiting && InGrace(s.writer) && InGrace(s'.writer)
    ensures t in s.readers && t in s'.readers
    ensures WorkOf(s'.n, s'.readers[t]) + (if e == ReadStep(t) then 1 else 0) <= WorkOf(s.n, s.readers[t])
  {
    GraceWaiting(s, e, s');
    InvWaiting(s);
    InvWaiting(s');
    WorkBounds(s, t);
    WorkBounds(s', t);
    StepsDescend(s, e, s', t);
  }

  lemma InvWaiting(s: State)
    requires Inv(s)
    ensures s.waiting <= s.readers.Keys
  {
  }

  /** A sum shrinks when no summand grows, and by one at least when summand t does or is left out. */
  lemma SumShrinks(w: set<Tid>, w': set<Tid>, f: map<Tid, nat>, g: map<Tid, nat>, strictly: bool, t: Tid)
    requires w <= f.Keys && w' <= g.Keys && (w' == w || (strictly && w' == w - {t}))
    requires forall u :: u in w' ==> g[u] <= f[u]
    requires strictly ==> t in w && f[t] >= 1 && (t in w' ==> g[t] + 1 <= f[t])
    ensures Sum(w', g) + (if strictly then 1 else 0) <= Sum(w, f)
  {
    if strictly {
      SumOut(w, f, t);
      if t in w' { SumOut(w', g, t); }
      SumAtMost(w - {t}, g, f);
    } else {
      SumAtMost(w, g, f);
    }
  }

  /** One and the same grace period runs in all states i..j. */
  ghost predicate GraceRuns(run: seq<State>, i: nat, j: nat) {
    i <= j < |run| && forall k :: i <= k <= j ==> InGrace(run[k].writer)
  }

  function AwaitedSteps(run: seq<State>, es: seq<Event>, i: nat, j: nat): nat
    requires i <= j <= |es| < |run|
  {
    if i == j then 0 else AwaitedSteps(run, es, i, j - 1) + if AwaitedStep(run[j - 1], es[j - 1]) then 1 else 0
  }

  ghost predicate GraceDescendsAt(run: seq<State>, es: seq<Event>, k: nat)
    requires k < |es| < |run|
  {
    GraceLeft(run[k + 1]) + (if AwaitedStep(run[k], es[k]) then 1 else 0) <= GraceLeft(run[k])
  }

  lemma {:induction false} GraceTelescopes(run: seq<State>, es: seq<Event>, i: nat, j: nat)
    requires |run| == |es| + 1 && i <= j < |run| && forall k :: i <= k < j ==> GraceDescendsAt(run, es, k)
    ensures GraceLeft(run[j]) + AwaitedSteps(run, es, i, j) <= GraceLeft(run[i])
  {
    hide GraceLeft, AwaitedStep;
    if j > i {
      GraceTelescopes(run, es, i, j - 1);
      assert GraceDescendsAt(run, es, j - 1);
    }
  }

  lemma GraceStep(run: seq<State>, es: seq<Event>, i: nat, j: nat, k: nat)
    requires IsRun(run, es) && GraceRuns(run, i, j) && i <= k < j
    ensures GraceDescendsAt(run, es, k)
  {
    hide Inv, Step, InGrace, GraceLeft, AwaitedStep;
    RunInv(run, es, k);
    RunInv(run, es, k + 1);
    GraceDescends(run[k], es[k], run[k + 1]);
  }

  lemma GraceSteps(run: seq<State>, es: seq<Event>, i: nat, j: nat)
    requires IsRun(run, es) && GraceRuns(run, i, j)
    ensures forall k :: i <= k < j ==> GraceDescendsAt(run, es, k)
  {
    hide GraceDescendsAt, Step, Booted;
    forall k | i <= k < j ensures GraceDescendsAt(run, es, k) { GraceStep(run, es, i, j, k); }
  }

  /** What this many sections can do at most. */
  function Bound(n: nat, sections: nat): nat { (2 * n + 3) * sections }

  /** Every section that is waited for has a step left, and at most 2n+3. */
  lemma GraceBounds(s: State)
    requires Inv(s)
    ensures |s.waiting| <= GraceLeft(s) <= Bound(s.n, |s.waiting|)
  {
    hide StepsLeft, Inv, WorkOf;
    InvWaiting(s);
    var w, f, n := s.waiting, Work(s), s.n;
    forall t | t in w ensures 1 <= f[t] <= 2 * n + 3 { WorkBounds(s, t); }
    hide Work;
    assert w * s.readers.Keys == w;
    SumBounded(w, f, 2 * n + 3);
  }

  /** A grace period is over after at most 2n+3 steps of each section that it waits for: those made
      and the sections still open are never more than that together. */
  lemma GraceIsBounded(run: seq<State>, es: seq<Event>, i: nat, j: nat)
    requires IsRun(run, es) && GraceRuns(run, i, j)
    ensures AwaitedSteps(run, es, i, j) + |run[j].waiting| <= Bound(run[i].n, |run[i].waiting|)
  {
    hide Inv, Step, GraceLeft, AwaitedSteps, AwaitedStep, Bound, Booted, InGrace;
    RunInv(run, es, i);
    RunInv(run, es, j);
    GraceBounds(run[i]);
    GraceBounds(run[j]);
    GraceSteps(run, es, i, j);
    GraceTelescopes(run, es, i, j);
  }
}
