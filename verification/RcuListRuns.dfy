/**
 What the RCU list guarantees over every run: any interleaving of any number of readers,
 updaters and the exit routine, starting from the list that the init routine builds.
 */
module RcuListRuns {
  import opened Common
  import opened RcuList
  import opened RcuListInvariant

  // ---------------------------------------------------------------- runs

  /** The list that `simple_rcu_init` builds: entries with ids 1, 2, ... and data 100, linked in that
      order. `entries` are the addresses kmalloc returned. */
  ghost predicate Built(heap: map<Addr, Cell>, entries: seq<Addr>) {
    && Distinct(entries) && HEAD !in entries && POISON !in entries
    && heap.Keys == {HEAD} + Elements(entries)
    && (forall k {:trigger heap[entries[k]]} :: 0 <= k < |entries| ==>
          heap[entries[k]] == Cell(k + 1, 100, EntryAt(entries, k + 1), EntryAt(entries, k - 1)))
    && heap[HEAD].next == EntryAt(entries, 0) && heap[HEAD].prev == EntryAt(entries, |entries| - 1)
  }

  /** The state that it leaves: n entries, and nobody inside the driver. */
  ghost predicate Booted(s: State, entries: seq<Addr>) {
    && |entries| == s.n && Built(s.heap, entries)
    && s.ring == RingOf(entries)
    && s.readers == map[] && s.writer == Unlocked && s.waiting == {}
    && s.pubs == 0 && s.updates == multiset{} && !s.exiting && s.allocs == s.n && s.frees == 0
  }

  function EntryAt(entries: seq<Addr>, k: int): Addr { if 0 <= k < |entries| then entries[k] else HEAD }

  /** The history variable `ring` for a list with these entries: the head, then last to first. */
  function RingOf(entries: seq<Addr>): (ring: seq<Addr>)
    ensures |ring| == |entries| + 1 && ring[0] == HEAD
    ensures forall r :: 1 <= r < |ring| ==> ring[r] == entries[|entries| - r]
  {
    [HEAD] + seq(|entries|, i requires 0 <= i < |entries| => entries[|entries| - 1 - i])
  }

  ghost predicate IsRun(run: seq<State>, es: seq<Event>) {
    && |run| == |es| + 1
    && (exists entries :: Booted(run[0], entries))
    && forall i :: 0 <= i < |es| ==> Step(run[i], es[i]) == Ok(run[i + 1])
  }

  /** Thread t is in one and the same read section in all states i..j. */
  ghost predicate InSection(run: seq<State>, i: nat, j: nat, t: Tid) {
    i <= j < |run| && forall k :: i <= k <= j ==> t in run[k].readers
  }

  /** A list entry with this id and this data is linked into the list. */
  ghost predicate Current(s: State, id: nat, v: nat) {
    exists r :: 1 <= r < |s.ring| && Holds(s, r, id, v)
  }

  ghost predicate Holds(s: State, r: int, id: nat, v: nat)
    requires 0 <= r < |s.ring|
  {
    s.ring[r] in s.heap && s.heap[s.ring[r]].id == id && s.heap[s.ring[r]].data == v
  }

  /** The store that changes the list: a replacement or a deletion becomes visible. */
  predicate Publishes(s: State, e: Event) {
    && e.WriterStep?
    && ((s.writer.UpReplace? && s.writer.todo == Publish) || (s.writer.ExDelete? && s.writer.step == Unlink))
  }

  /** The store that publishes an update of this id. */
  predicate PublishesUpdate(s: State, e: Event, id: nat) {
    e.WriterStep? && s.writer.UpReplace? && s.writer.todo == Publish && s.writer.arg == id
  }

  lemma ReplaceFrame(s: State)
    requires s.writer.UpReplace? && StepReplace(s).Ok?
    ensures var s' := StepReplace(s).s;
      && s'.readers == s.readers && s'.n == s.n && s'.word == s.word
      && (s.writer.todo != Publish ==> s'.pubs == s.pubs && s'.updates == s.updates)
      && (s.writer.todo == Publish ==>
            s'.pubs == s.pubs + 1 && s'.updates == s.updates[s.writer.arg := s.updates[s.writer.arg] + 1])
  {
  }

  lemma DeleteFrame(s: State)
    requires s.writer.ExDelete? && StepDelete(s).Ok?
    ensures var s' := StepDelete(s).s;
      && s'.readers == s.readers && s'.n == s.n && s'.word == s.word && s'.updates == s.updates
      && s'.pubs == s.pubs + (if s.writer.step == Unlink then 1 else 0)
  {
  }

  lemma OtherFrame(s: State, a: Addr, junk: Cell)
    requires Quiet(s.writer) && StepWriter(s, a, junk).Ok?
    ensures var s' := StepWriter(s, a, junk).s;
      && s'.readers == s.readers && s'.n == s.n && s'.word == s.word && s'.updates == s.updates && s'.pubs == s.pubs
  {
  }

  /** What no event changes, and what the history variables record. */
  lemma StepHistory(s: State, e: Event, s': State)
    requires Step(s, e) == Ok(s')
    ensures s'.n == s.n && s'.word == s.word
    ensures s'.pubs == s.pubs + (if Publishes(s, e) then 1 else 0)
    ensures forall id :: s'.updates[id] == s.updates[id] + (if PublishesUpdate(s, e, id) then 1 else 0)
    ensures e.WriterStep? ==> s'.readers == s.readers
  {
    if e.WriterStep? {
      if s.writer.UpReplace? { ReplaceFrame(s); }
      else if s.writer.ExDelete? { DeleteFrame(s); }
      else { OtherFrame(s, e.a, e.junk); }
    }
  }

  /** An event of another thread does not change a reader. */
  lemma StepReaders(s: State, e: Event, s': State, t: Tid)
    requires Step(s, e) == Ok(s') && t in s.readers
    ensures e != ReadStep(t) ==> t in s'.readers && s'.readers[t] == s.readers[t]
    ensures t in s'.readers ==> s'.readers[t].arg == s.readers[t].arg && s'.readers[t].since == s.readers[t].since
  {
    if e.WriterStep? { StepHistory(s, e, s'); }
  }

  // ---------------------------------------------------------------- the invariant over runs

  ghost function Elements(ring: seq<Addr>): set<Addr> { set a | a in ring }

  lemma {:induction false} ElementsCount(ring: seq<Addr>)
    requires Distinct(ring)
    ensures |Elements(ring)| == |ring|
  {
    if ring == [] {
      assert Elements(ring) == {};
    } else {
      var front, last := ring[..|ring| - 1], ring[|ring| - 1];
      forall i, j | 0 <= i < j < |front| ensures Entry(front, i) != Entry(front, j) { Differ(ring, i, j); }
      ElementsCount(front);
      forall i | 0 <= i < |front| ensures front[i] != last { Differ(ring, i, |ring| - 1); }
      assert ring == front + [last];
      assert Elements(ring) == Elements(front) + {last};
      assert last !in Elements(front);
    }
  }

  lemma BootedRing(s: State, entries: seq<Addr>)
    requires Booted(s, entries)
    ensures Distinct(s.ring) && |s.heap| == |s.ring|
    ensures forall r {:trigger s.ring[r] in s.heap} :: 0 <= r < |s.ring| ==> s.ring[r] in s.heap
  {
    var n, ring := s.n, s.ring;
    forall i, j | 0 <= i < j < |ring| ensures Entry(ring, i) != Entry(ring, j) {
      if i > 0 { Differ(entries, n - i, n - j); } else { assert ring[j] in entries; }
    }
    ElementsCount(ring);
    assert s.heap.Keys == Elements(ring) by {
      forall a | a in entries ensures a in ring {
        var k :| 0 <= k < n && entries[k] == a;
        assert ring[n - k] == a;
      }
    }
    forall r | 0 <= r < |ring| ensures ring[r] in s.heap { assert ring[r] in s.heap.Keys; }
  }

  lemma BootedCell(s: State, entries: seq<Addr>, r: int)
    requires Booted(s, entries) && 0 <= r < |s.ring|
    ensures s.ring[r] in s.heap
    ensures s.heap[s.ring[r]].next == s.ring[Below(s.ring, r)]
    ensures s.heap[s.ring[r]].prev == s.ring[Above(s.ring, r)]
    ensures r >= 1 ==> s.heap[s.ring[r]].id == IdAt(s.n, r) && s.heap[s.ring[r]].data == 100
  {
    BootedRing(s, entries);
    if r >= 1 { assert s.ring[r] == entries[s.n - r]; }
  }

  lemma BootedNext(s: State, entries: seq<Addr>)
    requires Booted(s, entries)
    ensures NextLinked(s.heap, s.ring)
  {
    forall r | 0 <= r < |s.ring|
      ensures s.ring[r] in s.heap && s.heap[s.ring[r]].next == s.ring[Below(s.ring, r)]
    { BootedCell(s, entries, r); }
  }

  lemma BootedBack(s: State, entries: seq<Addr>)
    requires Booted(s, entries)
    ensures BackLinked(s.heap, s.ring, Unlocked)
  {
    forall r | 0 <= r < |s.ring|
      ensures s.ring[r] in s.heap && s.heap[s.ring[r]].prev == s.ring[Above(s.ring, r)]
    { BootedCell(s, entries, r); }
  }

  lemma BootedContents(s: State, entries: seq<Addr>)
    requires Booted(s, entries)
    ensures Contents(s.heap, s.ring, s.n, multiset{}, s.word)
  {
    assert 100 % s.word == 100;
    forall r | 1 <= r < |s.ring|
      ensures s.ring[r] in s.heap && s.heap[s.ring[r]].id == IdAt(s.n, r) && s.heap[s.ring[r]].data == 100
    { BootedCell(s, entries, r); }
  }

  /** The list that init builds satisfies the invariant. */
  lemma BootedInv(s: State, entries: seq<Addr>)
    requires Booted(s, entries)
    ensures Inv(s)
  {
    BootedRing(s, entries);
    BootedNext(s, entries);
    BootedBack(s, entries);
    BootedContents(s, entries);
  }

  lemma {:induction false} RunInv(run: seq<State>, es: seq<Event>, i: nat)
    requires IsRun(run, es) && i < |run|
    ensures Inv(run[i])
  {
    if i == 0 {
      var entries :| Booted(run[0], entries);
      BootedInv(run[0], entries);
    } else {
      RunInv(run, es, i - 1);
      StepGood(run[i - 1], es[i - 1]);
      assert Step(run[i - 1], es[i - 1]) == Ok(run[i]);
    }
  }

  /** No use after free and no double free: at no point of any run, the exit teardown included,
      does any event of any thread touch memory that is not allocated. */
  lemma NoUseAfterFree(run: seq<State>, es: seq<Event>, i: nat)
    requires IsRun(run, es) && i < |run|
    ensures forall e: Event :: !Step(run[i], e).Fault?
  {
    RunInv(run, es, i);
    forall e: Event ensures !Step(run[i], e).Fault? { StepGood(run[i], e); }
  }

  /** Every cursor a reader may dereference is the head or an allocated entry. */
  lemma CursorsAllocated(run: seq<State>, es: seq<Event>, i: nat, t: Tid)
    requires IsRun(run, es) && i < |run| && t in run[i].readers
    ensures var pc := run[i].readers[t].pc;
      pc.Look? || pc.Advance? || pc.Load? ==> pc.pos in run[i].heap
  {
    RunInv(run, es, i);
    var s := run[i];
    var rd := s.readers[t];
    assert ReaderOk(ViewOf(s), t, rd);
    if rd.pc.Look? || rd.pc.Advance? || rd.pc.Load? { CursorAllocated(s, rd, rd.pc.pos); }
  }

  // ---------------------------------------------------------------- one change per section

  lemma {:induction false} SectionStart(run: seq<State>, es: seq<Event>, i: nat, j: nat, t: Tid)
    requires IsRun(run, es) && InSection(run, i, j, t)
    ensures run[j].readers[t].since == run[i].readers[t].since
    ensures run[j].readers[t].arg == run[i].readers[t].arg
  {
    if j > i {
      SectionStart(run, es, i, j - 1, t);
      StepReaders(run[j - 1], es[j - 1], run[j], t);
    }
  }

  /** At most one replacement or deletion is published during any one read section. */
  lemma OneChangePerSection(run: seq<State>, es: seq<Event>, i: nat, j: nat, t: Tid)
    requires IsRun(run, es) && InSection(run, i, j, t)
    ensures run[i].pubs <= run[j].pubs <= run[i].pubs + 1
  {
    RunInv(run, es, i);
    RunInv(run, es, j);
    SectionStart(run, es, i, j, t);
    assert ReaderOk(ViewOf(run[i]), t, run[i].readers[t]);
    assert ReaderOk(ViewOf(run[j]), t, run[j].readers[t]);
    PubsGrow(run, es, i, j);
  }

  lemma {:induction false} PubsGrow(run: seq<State>, es: seq<Event>, i: nat, j: nat)
    requires IsRun(run, es) && i <= j < |run|
    ensures run[i].pubs <= run[j].pubs
  {
    if j > i {
      PubsGrow(run, es, i, j - 1);
      StepHistory(run[j - 1], es[j - 1], run[j]);
    }
  }

  function PublishedBy(run: seq<State>, es: seq<Event>, j: nat): nat
    requires j <= |es| < |run|
  {
    if j == 0 then 0
    else PublishedBy(run, es, j - 1) + if Publishes(run[j - 1], es[j - 1]) then 1 else 0
  }

  function UpdatesBy(run: seq<State>, es: seq<Event>, id: nat, j: nat): nat
    requires j <= |es| < |run|
  {
    if j == 0 then 0
    else UpdatesBy(run, es, id, j - 1) + if PublishesUpdate(run[j - 1], es[j - 1], id) then 1 else 0
  }

  /** The history variables count what happened. */
  lemma {:induction false} HistoryCounts(run: seq<State>, es: seq<Event>, id: nat, j: nat)
    requires IsRun(run, es) && j < |run|
    ensures run[j].pubs == PublishedBy(run, es, j)
    ensures run[j].updates[id] == UpdatesBy(run, es, id, j)
    ensures run[j].n == run[0].n && run[j].word == run[0].word
  {
    hide Step, Publishes, PublishesUpdate;
    if j > 0 {
      HistoryCounts(run, es, id, j - 1);
      StepHistory(run[j - 1], es[j - 1], run[j]);
    }
  }

  // ---------------------------------------------------------------- linearizable reads

  lemma DataStableReplace(s: State, p: Addr)
    requires s.writer.UpReplace? && StepReplace(s).Ok? && p in s.heap && p in StepReplace(s).s.heap
    requires BeforePublish(s.writer.todo) ==> p != s.writer.newNode
    ensures var h := StepReplace(s).s.heap; h[p].id == s.heap[p].id && h[p].data == s.heap[p].data
  {
  }

  lemma DataStableDelete(s: State, p: Addr)
    requires s.writer.ExDelete? && StepDelete(s).Ok? && p in s.heap && p in StepDelete(s).s.heap
    ensures var h := StepDelete(s).s.heap; h[p].id == s.heap[p].id && h[p].data == s.heap[p].data
  {
  }

  /** No step writes the data of an entry but that of an updater's unpublished copy. */
  lemma DataStable(s: State, e: Event, s': State, p: Addr)
    requires Step(s, e) == Ok(s') && p in s.heap && p in s'.heap
    requires s.writer.UpReplace? && BeforePublish(s.writer.todo) ==> p != s.writer.newNode
    ensures s'.heap[p].id == s.heap[p].id && s'.heap[p].data == s.heap[p].data
  {
    if e.WriterStep? {
      if s.writer.UpReplace? { DataStableReplace(s, p); }
      else if s.writer.ExDelete? { DataStableDelete(s, p); }
      else { assert StepWriter(s, e.a, e.junk) == Ok(s'); }
    }
  }

  lemma CursorIsNoCopy(s: State, rd: Reader, p: Addr)
    requires Shared(s) && CursorOk(ViewOf(s), rd, p)
    ensures s.writer.UpReplace? && BeforePublish(s.writer.todo) ==> p != s.writer.newNode
  {
  }

  /** What a reader's cursor or result shows is among the pairs of id and data in `seen`. */
  ghost predicate Backed(s: State, rd: Reader, seen: iset<(nat, nat)>) {
    match rd.pc
    case First => true
    case Look(p) => rd.rem >= 1 ==> p in s.heap && (s.heap[p].id, s.heap[p].data) in seen
    case Advance(p) => p in s.heap && (s.heap[p].id, s.heap[p].data) in seen
    case Load(p) => p in s.heap && (rd.arg, s.heap[p].data) in seen
    case Leave(None) => true
    case Leave(Some(v)) => (rd.arg, v) in seen
  }

  /** Another thread's step keeps what a reader holds backed. */
  lemma BackedByOthers(s: State, e: Event, s': State, t: Tid, seen: iset<(nat, nat)>)
    requires Inv(s) && Inv(s') && Step(s, e) == Ok(s') && t in s.readers && e != ReadStep(t)
    requires Backed(s, s.readers[t], seen)
    ensures t in s'.readers && Backed(s', s'.readers[t], seen)
  {
    var rd := s.readers[t];
    StepReaders(s, e, s', t);
    assert ReaderOk(ViewOf(s), t, rd) && ReaderOk(ViewOf(s'), t, rd);
    if rd.pc.Look? || rd.pc.Advance? || rd.pc.Load? {
      CursorAllocated(s, rd, rd.pc.pos);
      CursorAllocated(s', rd, rd.pc.pos);
      CursorIsNoCopy(s, rd, rd.pc.pos);
      DataStable(s, e, s', rd.pc.pos);
    }
  }

  /** A cursor that is loaded now is on the list now. */
  lemma LoadedNow(s: State, r: int, p: Addr)
    requires Shared(s) && OnRing(s.ring, r, p) && r >= 1
    ensures p in s.heap && Current(s, s.heap[p].id, s.heap[p].data)
  {
    OnRingCell(s, r, p);
    assert Holds(s, r, s.heap[p].id, s.heap[p].data);
  }

  /** A pointer loaded from the head or from an entry that may be held leads to the list. */
  lemma LoadsCurrent(s: State, t: Tid)
    requires Inv(s) && t in s.readers && (s.readers[t].pc.First? || s.readers[t].pc.Advance?)
    ensures StepReader(s, t).Ok? && t in StepReader(s, t).s.readers && StepReader(s, t).s.heap == s.heap
    ensures var rd' := StepReader(s, t).s.readers[t];
      rd'.pc.Look? && (rd'.rem >= 1 ==> OnRing(s.ring, rd'.rem, rd'.pc.pos))
  {
    var rd := s.readers[t];
    StepReaderGood(s, t);
    assert ReaderOk(ViewOf(s), t, rd);
    if rd.pc.First? { OnRingCell(s, 0, HEAD); } else { CursorAllocated(s, rd, rd.pc.pos); }
  }

  lemma BackedByLoad(s: State, t: Tid, s': State, seen: iset<(nat, nat)>)
    requires Inv(s) && t in s.readers && StepReader(s, t) == Ok(s')
    requires s.readers[t].pc.First? || s.readers[t].pc.Advance?
    requires forall id: nat, v: nat :: Current(s, id, v) ==> (id, v) in seen
    ensures t in s'.readers && Backed(s', s'.readers[t], seen)
  {
    LoadsCurrent(s, t);
    hide StepReader, Current, ReadersOk, Shared;
    var rd' := s'.readers[t];
    if rd'.rem >= 1 { LoadedNow(s, rd'.rem, rd'.pc.pos); }
  }

  /** So does the reader's own step, when `seen` holds all that is current. */
  lemma BackedByOwnStep(s: State, t: Tid, s': State, seen: iset<(nat, nat)>)
    requires Inv(s) && t in s.readers && StepReader(s, t) == Ok(s') && t in s'.readers
    requires Backed(s, s.readers[t], seen)
    requires forall id: nat, v: nat :: Current(s, id, v) ==> (id, v) in seen
    ensures Backed(s', s'.readers[t], seen)
  {
    var rd := s.readers[t];
    match rd.pc
    case First => BackedByLoad(s, t, s', seen);
    case Look(p) =>
      assert ReaderOk(ViewOf(s), t, rd);
      CursorAllocated(s, rd, p);
    case Advance(p) => BackedByLoad(s, t, s', seen);
    case Load(p) =>
    case Leave(_) =>
  }

  /** All pairs of id and data that were on the list in one of the states i..j. */
  ghost function Seen(run: seq<State>, i: nat, j: nat): iset<(nat, nat)>
    requires j < |run|
  {
    iset id: nat, v: nat | exists k :: i <= k <= j && Current(run[k], id, v) :: (id, v)
  }

  lemma BackedMore(s: State, rd: Reader, seen: iset<(nat, nat)>, more: iset<(nat, nat)>)
    requires Backed(s, rd, seen) && seen <= more
    ensures Backed(s, rd, more)
  {
  }

  lemma BackedStep(run: seq<State>, es: seq<Event>, j: nat, t: Tid, seen: iset<(nat, nat)>)
    requires IsRun(run, es) && j < |es| && t in run[j].readers && t in run[j + 1].readers
    requires Backed(run[j], run[j].readers[t], seen)
    requires forall id: nat, v: nat :: Current(run[j], id, v) ==> (id, v) in seen
    ensures Backed(run[j + 1], run[j + 1].readers[t], seen)
  {
    RunInv(run, es, j);
    RunInv(run, es, j + 1);
    if es[j] == ReadStep(t) {
      assert StepReader(run[j], t) == Ok(run[j + 1]);
      BackedByOwnStep(run[j], t, run[j + 1], seen);
    } else {
      BackedByOthers(run[j], es[j], run[j + 1], t, seen);
    }
  }

  lemma {:induction false} SectionBacked(run: seq<State>, es: seq<Event>, i: nat, j: nat, t: Tid)
    requires IsRun(run, es) && InSection(run, i, j, t) && run[i].readers[t].pc.First?
    ensures Backed(run[j], run[j].readers[t], Seen(run, i, j))
  {
    if j > i {
      SectionBacked(run, es, i, j - 1, t);
      var seen := Seen(run, i, j);
      BackedMore(run[j - 1], run[j - 1].readers[t], Seen(run, i, j - 1), seen);
      BackedStep(run, es, j - 1, t, seen);
    }
  }

  /** Linearizability: the value that a READ returns was the value of that id on the list at some
      instant between its rcu_read_lock (state i) and its rcu_read_unlock (state j). */
  lemma LinearizableRead(run: seq<State>, es: seq<Event>, i: nat, j: nat, t: Tid, v: nat)
    requires IsRun(run, es) && InSection(run, i, j, t) && run[i].readers[t].pc.First?
    requires run[j].readers[t].pc == Leave(Some(v))
    ensures exists k :: i <= k <= j && Current(run[k], run[j].readers[t].arg, v)
  {
    SectionBacked(run, es, i, j, t);
  }

  /** Before exit a READ finds its id exactly when the id is one of 1, ..., n. */
  lemma FoundIffListed(run: seq<State>, es: seq<Event>, j: nat, t: Tid)
    requires IsRun(run, es) && j < |run| && t in run[j].readers && run[j].readers[t].pc.Leave?
    ensures var rd := run[j].readers[t];
      && (rd.pc.found.Some? ==> 1 <= rd.arg <= run[j].n)
      && (!run[j].exiting ==> (rd.pc.found.Some? <==> 1 <= rd.arg <= run[j].n))
  {
    RunInv(run, es, j);
    assert ReaderOk(ViewOf(run[j]), t, run[j].readers[t]);
  }

  // ---------------------------------------------------------------- reads that find nothing

  /** The reader's id is not among those that it passed since its first load, when the list had
      `top` entries. */
  predicate PassedOver(n: nat, top: int, rd: Reader) {
    match rd.pc
    case Look(_) => !(n - top < rd.arg <= n - rd.rem)
    case Advance(_) => !(n - top < rd.arg <= n - rd.rem)
    case Leave(None) => !(n - top < rd.arg <= n)
    case _ => true
  }

  lemma FirstLoadPasses(s: State, t: Tid)
    requires t in s.readers && s.readers[t].pc.First? && StepReader(s, t).Ok?
    ensures var s' := StepReader(s, t).s; t in s'.readers && PassedOver(s.n, Top(s), s'.readers[t])
  {
  }

  lemma OwnStepPasses(s: State, t: Tid, top: int)
    requires Inv(s) && t in s.readers && !s.readers[t].pc.First? && PassedOver(s.n, top, s.readers[t])
    requires StepReader(s, t).Ok?
    ensures var s' := StepReader(s, t).s; t in s'.readers ==> PassedOver(s.n, top, s'.readers[t])
  {
    var rd := s.readers[t];
    assert ReaderOk(ViewOf(s), t, rd);
    if rd.pc.Look? { CursorAllocated(s, rd, rd.pc.pos); }
  }

  /** The state in which the reader made its first load. */
  lemma {:induction false} FirstLoad(run: seq<State>, es: seq<Event>, i: nat, j: nat, t: Tid) returns (k: nat)
    requires IsRun(run, es) && InSection(run, i, j, t) && run[i].readers[t].pc.First? && !run[j].readers[t].pc.First?
    ensures i <= k < j && PassedOver(run[j].n, Top(run[k]), run[j].readers[t])
    decreases j
  {
    var s, s' := run[j - 1], run[j];
    RunInv(run, es, j - 1);
    StepHistory(s, es[j - 1], s');
    hide Inv, Booted, StepReader, PassedOver;
    if s.readers[t].pc.First? {
      k := j - 1;
      if es[j - 1] != ReadStep(t) { StepReaders(s, es[j - 1], s', t); } else { FirstLoadPasses(s, t); }
    } else {
      k := FirstLoad(run, es, i, j - 1, t);
      if es[j - 1] != ReadStep(t) { StepReaders(s, es[j - 1], s', t); } else { OwnStepPasses(s, t, Top(run[k])); }
    }
  }

  /** No entry with this id is on the list. */
  ghost predicate Absent(s: State, id: nat) { forall v: nat :: !Current(s, id, v) }

  lemma OffList(s: State, id: nat)
    requires Shared(s) && !(s.n - Top(s) < id <= s.n)
    ensures Absent(s, id)
  {
    forall r, v: nat | 1 <= r < |s.ring| ensures !Holds(s, r, id, v) {
      OnRingCell(s, r, s.ring[r]);
    }
  }

  /** Linearizability of the other result: a READ that reports not found, during exit or at any
      other time, had an id that was not on the list at some instant of its section. */
  lemma NotFoundWasAbsent(run: seq<State>, es: seq<Event>, i: nat, j: nat, t: Tid)
    requires IsRun(run, es) && InSection(run, i, j, t) && run[i].readers[t].pc.First?
    requires run[j].readers[t].pc == Leave(None)
    ensures exists k :: i <= k <= j && Absent(run[k], run[j].readers[t].arg)
  {
    var k := FirstLoad(run, es, i, j, t);
    RunInv(run, es, k);
    SameSize(run, es, k, j);
    OffList(run[k], run[j].readers[t].arg);
  }

  lemma {:induction false} SameSize(run: seq<State>, es: seq<Event>, i: nat, j: nat)
    requires IsRun(run, es) && i <= j < |run|
    ensures run[j].n == run[i].n
  {
    if j > i {
      SameSize(run, es, i, j - 1);
      StepHistory(run[j - 1], es[j - 1], run[j]);
    }
  }

  // ---------------------------------------------------------------- the list

  /** The address reached from the head by following `next` k times; None off allocated memory. */
  function Follow(heap: map<Addr, Cell>, k: nat): Option<Addr> {
    if k == 0 then Some(HEAD)
    else
      match Follow(heap, k - 1)
      case None => None
      case Some(p) => if p in heap then Some(heap[p].next) else None
  }

  lemma {:induction false} FollowRing(s: State, k: nat)
    requires Shared(s) && 1 <= k <= |s.ring|
    ensures Follow(s.heap, k) == Some(s.ring[|s.ring| - k])
  {
    if k == 1 {
      assert Follow(s.heap, 0) == Some(HEAD);
      OnRingCell(s, 0, HEAD);
    } else {
      FollowRing(s, k - 1);
      OnRingCell(s, |s.ring| - k + 1, s.ring[|s.ring| - k + 1]);
    }
  }

  /** Following `next` k times from the head leads to an entry with this id and this data. */
  ghost predicate Reached(heap: map<Addr, Cell>, k: nat, id: nat, v: nat) {
    var p := Follow(heap, k);
    p.Some? && p.value != HEAD && p.value in heap && heap[p.value].id == id && heap[p.value].data == v
  }

  lemma {:induction false} FollowStaysOnRing(s: State, k: nat) returns (r: int)
    requires Shared(s)
    ensures 0 <= r < |s.ring| && Follow(s.heap, k) == Some(s.ring[r])
  {
    if k == 0 {
      r := 0;
    } else {
      var before := FollowStaysOnRing(s, k - 1);
      OnRingCell(s, before, s.ring[before]);
      r := Below(s.ring, before);
    }
  }

  /** What Current says of the list is what a walk along `next` in memory finds. */
  lemma CurrentIff(run: seq<State>, es: seq<Event>, i: nat, id: nat, v: nat)
    requires IsRun(run, es) && i < |run|
    ensures Current(run[i], id, v) <==> exists k: nat :: Reached(run[i].heap, k, id, v)
  {
    RunInv(run, es, i);
    var s := run[i];
    if Current(s, id, v) {
      var r :| 1 <= r < |s.ring| && Holds(s, r, id, v);
      FollowRing(s, |s.ring| - r);
      OnRingCell(s, r, s.ring[r]);
      assert Reached(s.heap, |s.ring| - r, id, v);
    }
    if exists k: nat :: Reached(s.heap, k, id, v) {
      var k: nat :| Reached(s.heap, k, id, v);
      var r := FollowStaysOnRing(s, k);
      assert r != 0;
      assert Holds(s, r, id, v);
    }
  }

  /** Following `next` k times leads to an entry with id k whose data is 100 plus `count`,
      wrapped; n + 1 times leads back to the head. */
  ghost predicate EntryIs(s: State, k: nat, count: nat) {
    var p := Follow(s.heap, k);
    p.Some? && p.value in s.heap &&
    if k == s.n + 1 then p.value == HEAD
    else s.heap[p.value].id == k && s.heap[p.value].data == (100 + count) % s.word
  }

  lemma ListShape(s: State, k: nat)
    requires Shared(s) && !s.exiting && 1 <= k <= s.n + 1
    ensures EntryIs(s, k, s.updates[k])
  {
    FollowRing(s, k);
    OnRingCell(s, |s.ring| - k, s.ring[|s.ring| - k]);
  }

  /** List refinement: before exit the list that a walk along `next` sees is the ids 1, ..., n in
      order, each with 100 plus the number of updates of it that were published so far. */
  lemma ListRefines(run: seq<State>, es: seq<Event>, j: nat, k: nat)
    requires IsRun(run, es) && j < |run| && !run[j].exiting && 1 <= k <= run[j].n + 1
    ensures EntryIs(run[j], k, UpdatesBy(run, es, k, j))
  {
    RunInv(run, es, j);
    HistoryCounts(run, es, k, j);
    ListShape(run[j], k);
  }

  // ---------------------------------------------------------------- allocation

  /** The heap holds the list and the entry that Extra names, and nothing else. */
  lemma HeapExactly(s: State)
    requires Shared(s)
    ensures s.heap.Keys == Elements(s.ring) + (if Extra(s.writer).Some? then {Extra(s.writer).value} else {})
  {
    var extra := if Extra(s.writer).Some? then {Extra(s.writer).value} else {};
    var known := Elements(s.ring) + extra;
    ElementsCount(s.ring);
    forall a | a in s.ring ensures a in s.heap {
      var r :| 0 <= r < |s.ring| && s.ring[r] == a;
      assert s.ring[r] in s.heap;
    }
    assert known <= s.heap.Keys;
    assert |known| == |s.heap.Keys|;
    SubsetOfSameSize(known, s.heap.Keys);
  }

  lemma SubsetOfSameSize(a: set<Addr>, b: set<Addr>)
    requires a <= b && |a| == |b|
    ensures a == b
  {
    assert |b - a| == |b| - |a|;
    assert b == a + (b - a);
  }

  /** Conservation: what was allocated and not freed is the list and at most one entry more, an
      unpublished copy or the one entry in limbo, whose `next` leads back into the list. */
  lemma AllocationConserved(run: seq<State>, es: seq<Event>, j: nat)
    requires IsRun(run, es) && j < |run|
    ensures var s := run[j];
      && s.frees + |s.heap| == s.allocs + 1
      && s.heap.Keys >= Elements(s.ring)
      && |s.heap.Keys - Elements(s.ring)| <= 1
      && (Quiet(s.writer) ==> s.heap.Keys == Elements(s.ring))
      && (Limbo(s.ring, s.writer).Some? ==>
            var o := Limbo(s.ring, s.writer).value.0; o in s.heap && o !in s.ring && s.heap[o].next in s.ring)
  {
    RunInv(run, es, j);
    var s := run[j];
    HeapExactly(s);
    if Extra(s.writer).Some? {
      assert s.heap.Keys - Elements(s.ring) == {Extra(s.writer).value};
    } else {
      assert s.heap.Keys - Elements(s.ring) == {};
    }
  }

  /** Once the exit routine has dropped the lock, every entry ever allocated has been freed, and
      since no free ever faults, freed once; later reads and updates find an empty list. */
  lemma TeardownFreesAll(run: seq<State>, es: seq<Event>, j: nat)
    requires IsRun(run, es) && j < |run| && run[j].exiting && run[j].writer.Unlocked?
    ensures run[j].heap.Keys == {HEAD} && run[j].frees == run[j].allocs
    ensures run[j].heap[HEAD].next == HEAD
  {
    RunInv(run, es, j);
    var s := run[j];
    HeapExactly(s);
    OnRingCell(s, 0, HEAD);
    assert Elements(s.ring) == {HEAD};
  }
}
