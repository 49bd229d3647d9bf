/**
 The two ioctls of the cell drivers as they are written. Other threads run between any two of a
 call's own accesses: `env[k]` is what they try before access k. Every own access is checked against
 the transition system of module Cell.
 */
module CellDriver {
  import opened Common
  import opened Register
  import opened Cell
  import opened CellRuns

  /** Whose call is running: a thread inside IOCTL_READ, the writer with the lock, or neither. */
  datatype Me = Reading(t: Tid) | Holding | Outside

  predicate Mine(me: Me, e: Event) {
    match me
    case Reading(t) => (e.ReadLock? || e.ReadStep?) && e.t == t
    case Holding => e.WriterStep?
    case Outside => false
  }

  predicate SameCell(a: State, b: State) {
    a.heap == b.heap && a.ptr == b.ptr && a.written == b.written && a.allocs == b.allocs && a.frees == b.frees
  }

  /** What the other threads' events leave alone. */
  predicate Kept(me: Me, s: State, s': State) {
    && s'.lock == s.lock
    && match me
       case Reading(t) => (t in s.readers <==> t in s'.readers) && (t in s.readers ==> s'.readers[t] == s.readers[t])
       case Holding =>
         !s.writer.Unlocked? ==> s'.writer == s.writer && SameCell(s, s') && s'.waiting <= s.waiting
       case Outside => true
  }

  lemma OthersKeep(me: Me, s: State, e: Event, s': State)
    requires Step(s, e) == Ok(s') && !Mine(me, e)
    ensures Kept(me, s, s')
  {
  }

  lemma RunSnoc(run: seq<State>, es: seq<Event>, e: Event, s': State)
    requires IsRun(run, es) && Step(run[|run| - 1], e) == Ok(s')
    ensures IsRun(run + [s'], es + [e])
  {
    hide Step;
    hide Booted;
    var run', es' := run + [s'], es + [e];
    assert run'[0] == run[0];
    forall i | 0 <= i < |es'| ensures Step(run'[i], es'[i]) == Ok(run'[i + 1]) {
      if i < |es| { assert run'[i] == run[i] && run'[i + 1] == run[i + 1] && es'[i] == es[i]; }
    }
  }

  class Driver {
    var s: State               // shared memory, and how far every thread has come
    ghost var run: seq<State>  // all states so far
    ghost var es: seq<Event>   // and the events between them

    ghost predicate Valid()
      reads this
    {
      IsRun(run, es) && run != [] && Last(run) == s
    }

    /** `simple_rcu_init`. */
    constructor (lock: Lock, ptr: Addr)
      ensures Valid() && run == [s] && s.lock == lock && s.ptr == ptr
    {
      s := State(lock, map[ptr := 0], ptr, map[], Unlocked, {}, [0], 1, 0);
      new;
      run, es := [s], [];
    }

    /** One event happens. */
    method Fire(e: Event)
      requires Valid() && Step(s, e).Ok?
      modifies this
      ensures Valid() && Ok(s) == Step(old(s), e) && run == old(run) + [s] && es == old(es) + [e]
    {
      hide Step;
      RunSnoc(run, es, e, Step(s, e).s);
      s := Step(s, e).s;
      run, es := run + [s], es + [e];
    }

    /** Other threads try these events; those that are blocked do not happen. */
    method Interfere(events: seq<Event>, me: Me)
      requires Valid()
      modifies this
      ensures Valid() && old(run) <= run && Kept(me, old(s), s)
    {
      hide Step, IsRun;
      for i := 0 to |events|
        invariant Valid() && old(run) <= run && Kept(me, old(s), s)
      {
        if !Mine(me, events[i]) && Step(s, events[i]).Ok? {
          OthersKeep(me, s, events[i], Step(s, events[i]).s);
          Fire(events[i]);
        }
      }
    }

    // -------------------------------------------------------------- IOCTL_READ

    /** Thread t is inside its section, and its next access is `pc`. */
    ghost predicate Inside(t: Tid, pc: ReaderPc)
      reads this
    {
      Valid() && t in s.readers && s.readers[t].pc == pc
    }

    /** Other threads run, and then thread t's next access cannot fail. */
    method Turn(t: Tid, ghost pc: ReaderPc, events: seq<Event>)
      requires Inside(t, pc)
      modifies this
      ensures Inside(t, pc) && old(run) <= run && s.lock == old(s.lock)
      ensures HoldsAddr(pc).Some? ==> HoldsAddr(pc).value in s.heap
    {
      hide IsRun, Inv, Good;
      Interfere(events, Reading(t));
      NoUseAfterFree(run, es, |run| - 1, ReadStep(t));
    }

    /** The access, after which thread t is still inside. */
    method Access(t: Tid, ghost pc: ReaderPc, ghost next: ReaderPc)
      requires Inside(t, pc) && StepPc(s.heap, s.ptr, pc) == To(next)
      modifies this
      ensures Inside(t, next) && old(run) <= run && s.lock == old(s.lock)
    {
      hide IsRun;
      Fire(ReadStep(t));
    }

    /** `rcu_read_lock`, or `read_lock_irqsave`, which polls for as long as `env` lasts. */
    method BeginSection(t: Tid, env: seq<seq<Event>>) returns (got: bool, turn: nat, ghost start: nat)
      requires Valid() && t !in s.readers
      modifies this
      ensures Valid() && old(run) <= run && s.lock == old(s.lock)
      ensures got ==> Inside(t, Deref) && 1 <= |old(run)| <= start == |run| - 1 && t !in run[start - 1].readers
      ensures !got ==> !ReaderMayEnter(s) && t !in s.readers
    {
      hide IsRun;
      turn := 0;
      while !ReaderMayEnter(s) && turn < |env|
        invariant Valid() && old(run) <= run && t !in s.readers && s.lock == old(s.lock)
      {
        Interfere(env[turn], Reading(t));
        turn := turn + 1;
      }
      got, start := ReaderMayEnter(s), |run|;
      if got { Fire(ReadLock(t)); }
    }

    /** `rcu_read_unlock` or `read_unlock_irqrestore`. */
    method EndSection(t: Tid, ghost first: nat, ghost second: nat, ghost start: nat)
      requires Inside(t, Leave(first, second)) && 1 <= start < |run| && t !in run[start - 1].readers
      modifies this
      ensures Valid() && old(run) <= run && t !in s.readers && s.lock == old(s.lock)
      ensures first == second && exists k :: start <= k < |run| && Current(run[k]) == first
      ensures s.lock.ReadWrite? ==> first == Current(s)
    {
      hide Captured, TakenReads, CalledReads;
      ghost var j := |run| - 1;
      if s.lock.ReadWrite? { StillCurrent(t, first, second); }
      Fire(ReadStep(t));
      assert Current(s) == Current(old(s));
      ghost var i, k := ReadsAreLinearizable(run, es, j, t);
      assert run[start - 1] == old(run)[start - 1];
      assert i >= start - 1;
    }

    lemma StillCurrent(t: Tid, first: nat, second: nat)
      requires Inside(t, Leave(first, second)) && s.lock.ReadWrite?
      ensures first == Current(s)
    {
      ValueStaysCurrent(run, es, |run| - 1, t);
    }

    /** IOCTL_READ: both values it prints are what the cell held at one and the same instant of the
        call, and in the ReadWrite driver what it holds still when the call returns. */
    method Read(t: Tid, env: seq<seq<Event>>) returns (got: bool, first: nat, second: nat)
      requires Valid() && t !in s.readers
      modifies this
      ensures Valid() && old(run) <= run && t !in s.readers
      ensures got ==> first == second && exists k :: |old(run)| <= k < |run| && Current(run[k]) == first
      ensures got && s.lock.ReadWrite? ==> first == Current(s)
      ensures !got ==> s.lock.ReadWrite? && s.writer != Unlocked
    {
      hide Valid, Inside, Current;
      var turn;
      ghost var start;
      got, turn, start := BeginSection(t, env);
      if !got { return false, 0, 0; }
      Turn(t, Deref, Piece(env, turn));
      var p := s.ptr;
      Access(t, Deref, Print(p));
      Turn(t, Print(p), Piece(env, turn + 1));
      first := s.heap[p];
      Access(t, Print(p), Reprint(p, first));
      Turn(t, Reprint(p, first), Piece(env, turn + 2));
      second := s.heap[p];
      Access(t, Reprint(p, first), Leave(first, second));
      Turn(t, Leave(first, second), Piece(env, turn + 3));
      EndSection(t, first, second, start);
    }

    // -------------------------------------------------------------- IOCTL_WRITE

    /** This call has held the lock since state `at`, its next access is `w`, and since then it has
        published `puts` and allocated and freed so many blocks. */
    ghost predicate Locked(at: nat, w: Writer, puts: seq<nat>, allocs: nat, frees: nat)
      reads this
    {
      && Valid() && at < |run| && s.writer == w && s.written == run[at].written + puts
      && s.allocs == run[at].allocs + allocs && s.frees == run[at].frees + frees
    }

    /** Other threads run before the writer's next access. */
    method Pause(ghost at: nat, ghost w: Writer, ghost puts: seq<nat>, ghost allocs: nat, ghost frees: nat,
                 events: seq<Event>)
      requires Locked(at, w, puts, allocs, frees) && !w.Unlocked?
      modifies this
      ensures Locked(at, w, puts, allocs, frees) && SameCell(old(s), s) && s.waiting <= old(s.waiting)
      ensures old(run) <= run && s.lock == old(s.lock)
    {
      hide IsRun;
      Interfere(events, Holding);
    }

    /** The writer makes its access, which cannot fail. */
    method Go(a: Addr, junk: nat)
      requires Valid() && !StepWriter(s, a, junk).Blocked?
      modifies this
      ensures Valid() && Ok(s) == StepWriter(old(s), a, junk) && run == old(run) + [s]
    {
      hide StepWriter, Inv, Good, IsRun;
      NoUseAfterFree(run, es, |run| - 1, WriterStep(a, junk));
      Fire(WriterStep(a, junk));
    }

    /** `spin_lock_irqsave` or `write_lock_irqsave`: polls for as long as `env` lasts. */
    method Acquire(arg: nat, env: seq<seq<Event>>) returns (got: bool, turn: nat, ghost at: nat)
      requires Valid()
      modifies this
      ensures Valid() && old(run) <= run && s.lock == old(s.lock) && (!got ==> !WriterMayEnter(s))
      ensures got ==> |old(run)| <= at < |run| && Locked(at, Alloc(arg), [], 0, 0) && WriterMayEnter(run[at - 1])
    {
      hide IsRun;
      turn := 0;
      while !WriterMayEnter(s) && turn < |env|
        invariant Valid() && old(run) <= run && s.lock == old(s.lock)
      {
        Interfere(env[turn], Outside);
        turn := turn + 1;
      }
      got, at := WriterMayEnter(s), |run|;
      if got { Fire(WriteLock(arg)); }
    }

    /** `new = kmalloc(...); *new = arg; old = my_data`: a block of its own, filled before anybody
        can see it. */
    method Prepare(ghost at: nat, arg: nat, junk: nat, env: seq<seq<Event>>, turn: nat) returns (p: Addr, prev: Addr)
      requires Locked(at, Alloc(arg), [], 0, 0)
      modifies this
      ensures Locked(at, Publish(arg, p, prev), [], 1, 0) && old(run) <= run && s.lock == old(s.lock)
      ensures p in s.heap && s.heap[p] == arg && prev == s.ptr != p
    {
      hide IsRun;
      Pause(at, Alloc(arg), [], 0, 0, Piece(env, turn));
      p := FreshAddress(s.heap.Keys, 0);
      PtrAllocated();
      Go(p, junk);
      Pause(at, Fill(arg, p), [], 1, 0, Piece(env, turn + 1));
      Go(0, 0);
      Pause(at, LoadOld(arg, p), [], 1, 0, Piece(env, turn + 2));
      prev := s.ptr;
      Go(0, 0);
    }

    lemma PtrAllocated()
      requires Valid()
      ensures s.ptr in s.heap
    {
      RunInv(run, es, |run| - 1);
    }

    /** `my_data = new`: the pointer leads to the filled block. */
    method Put(ghost at: nat, arg: nat, p: Addr, prev: Addr, events: seq<Event>)
      requires Locked(at, Publish(arg, p, prev), [], 1, 0) && p in s.heap && s.heap[p] == arg
      modifies this
      ensures Locked(at, if s.lock.Rcu? then Sync(prev) else Retire(prev), [arg], 1, 0)
      ensures s.ptr == p && p in s.heap && s.heap[p] == arg && old(run) <= run && s.lock == old(s.lock)
    {
      hide IsRun;
      Pause(at, Publish(arg, p, prev), [], 1, 0, events);
      Go(0, 0);
    }

    /** `synchronize_rcu` begins: the sections that are open are waited for. */
    method Snapshot(ghost at: nat, arg: nat, prev: Addr, events: seq<Event>)
      requires Locked(at, Sync(prev), [arg], 1, 0)
      modifies this
      ensures Locked(at, Retire(prev), [arg], 1, 0) && s.waiting == s.readers.Keys
      ensures old(run) <= run && s.lock == old(s.lock)
    {
      hide IsRun;
      Pause(at, Sync(prev), [arg], 1, 0, events);
      Go(0, 0);
    }

    /** And is over when none of them is open any more; it waits for as long as `env` lasts. */
    method Await(ghost at: nat, arg: nat, prev: Addr, env: seq<seq<Event>>, turn: nat) returns (over: bool, next: nat)
      requires Locked(at, Retire(prev), [arg], 1, 0)
      modifies this
      ensures Locked(at, Retire(prev), [arg], 1, 0) && (over <==> s.waiting == {})
      ensures old(run) <= run && s.lock == old(s.lock)
    {
      hide IsRun;
      next := turn;
      while s.waiting != {} && next < |env|
        invariant Locked(at, Retire(prev), [arg], 1, 0) && old(run) <= run && s.lock == old(s.lock)
        decreases |env| - next
      {
        Pause(at, Retire(prev), [arg], 1, 0, env[next]);
        next := next + 1;
      }
      over := s.waiting == {};
    }

    /** `kfree(old)`, and after another pause the unlock. */
    method Release(ghost at: nat, arg: nat, prev: Addr, env: seq<seq<Event>>, turn: nat)
      requires Locked(at, Retire(prev), [arg], 1, 0) && (s.lock.Rcu? ==> s.waiting == {})
      modifies this
      ensures Locked(at, Unlocked, [arg], 1, 1) && old(run) <= run && s.lock == old(s.lock)
    {
      hide IsRun;
      Pause(at, Retire(prev), [arg], 1, 0, Piece(env, turn));
      Go(0, 0);
      Pause(at, Unlock, [arg], 1, 1, Piece(env, turn + 1));
      Go(0, 0);
    }

    /** IOCTL_WRITE: when it returns, its call held the lock from state `at` on, and since then it
        alone published, it published `arg`, and it freed the block it replaced. If `env` ends before,
        it waits for the lock or for a grace period. */
    method Write(arg: nat, junk: nat, env: seq<seq<Event>>) returns (over: bool, ghost at: nat)
      requires Valid()
      modifies this
      ensures Valid() && old(run) <= run
      ensures over ==> |old(run)| <= at < |run| && s.writer == Unlocked && WriterMayEnter(run[at - 1])
      ensures over ==> s.written == run[at].written + [arg] && Current(s) == arg && s.heap.Keys == {s.ptr}
      ensures over ==> s.allocs == run[at].allocs + 1 && s.frees == run[at].frees + 1
      ensures !over ==> !WriterMayEnter(s)
    {
      hide IsRun;
      var got, turn;
      got, turn, at := Acquire(arg, env);
      if !got { return false, 0; }
      ghost var before := run;
      var p, prev := Prepare(at, arg, junk, env, turn);
      Put(at, arg, p, prev, Piece(env, turn + 3));
      turn := turn + 4;
      if s.lock.Rcu? {
        Snapshot(at, arg, prev, Piece(env, turn));
        over, turn := Await(at, arg, prev, env, turn + 1);
        if !over { return; }
      }
      Release(at, arg, prev, env, turn);
      over := true;
      Released(at, arg);
      assert run[at - 1] == before[at - 1];
    }

    lemma Released(at: nat, arg: nat)
      requires Locked(at, Unlocked, [arg], 1, 1)
      ensures Current(s) == arg && s.heap.Keys == {s.ptr}
    {
      RunInv(run, es, |run| - 1);
    }
  }
}
