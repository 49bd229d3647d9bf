/**
 What the stepper-motor driver (ku_SnA.c) makes the motor and the speaker do, as functions on
 values: coil patterns, walks of half-steps, angles, and sweeps with their notes.
 */
module Sweep {
  import opened Common

  const ONEROUND: int := 512

  /** The levels of PIN1 ... PIN4. */
  datatype Coils = Coils(p1: int, p2: int, p3: int, p4: int)

  const BLUE: seq<int> := [1, 1, 0, 0, 0, 0, 0, 1]
  const PINK: seq<int> := [0, 1, 1, 1, 0, 0, 0, 0]
  const YELLOW: seq<int> := [0, 0, 0, 1, 1, 1, 0, 0]
  const ORANGE: seq<int> := [0, 0, 0, 0, 0, 1, 1, 1]
  const NOTES: seq<int> := [1911, 1702, 1516, 1431, 1275, 1136, 1012, 955]

  /** All pins low, as the init routine requests them. */
  const LOW: Coils := Coils(0, 0, 0, 0)

  /** Column c of the four tables. */
  function Column(c: int): Coils
    requires 0 <= c < 8
  {
    Coils(BLUE[c], PINK[c], YELLOW[c], ORANGE[c])
  }

  /** The pattern that holds the motor at this position, a signed count of half-steps. */
  function Pattern(pos: int): Coils { Column(pos % 8) }

  /** The number of coils whose level differs. */
  function Changed(a: Coils, b: Coils): nat {
    (if a.p1 == b.p1 then 0 else 1) + (if a.p2 == b.p2 then 0 else 1) +
    (if a.p3 == b.p3 then 0 else 1) + (if a.p4 == b.p4 then 0 else 1)
  }

  /** The levels after each of the four writes of `setstep`. */
  function Writes(a: Coils, b: Coils): (writes: seq<Coils>)
    ensures |writes| == 4
  {
    [Coils(b.p1, a.p2, a.p3, a.p4), Coils(b.p1, b.p2, a.p3, a.p4), Coils(b.p1, b.p2, b.p3, a.p4), b]
  }

  // ---------------------------------------------------------------- walks

  function Reversed<T>(s: seq<T>): (r: seq<T>)
    ensures |r| == |s| && forall k :: 0 <= k < |s| ==> r[k] == s[|s| - 1 - k]
  {
    seq(|s|, k requires 0 <= k < |s| => s[|s| - 1 - k])
  }

  predicate Beside(a: int, b: int) { b == a + 1 || b == a - 1 }

  /** A walk starts at 0 and moves by half-steps. */
  ghost predicate IsWalk(path: seq<int>) {
    path != [] && path[0] == 0 && forall k :: 1 <= k < |path| ==> Beside(path[k - 1], path[k])
  }

  /** n positions after `from`, upwards for d = 1 and downwards for d = -1. */
  function Leg(from: int, n: nat, d: int): (leg: seq<int>)
    ensures |leg| == n && forall k :: 0 <= k < n ==> leg[k] == from + d * (k + 1)
  {
    seq(n, k => from + d * (k + 1))
  }

  function Pos(path: seq<int>): int { if path == [] then 0 else Last(path) }

  /** The path continued by n half-steps in direction d. */
  function Onward(path: seq<int>, n: nat, d: int): seq<int> { path + Leg(Pos(path), n, d) }

  lemma OnwardNone(path: seq<int>, d: int)
    ensures Onward(path, 0, d) == path
  {
  }

  lemma LegOne(from: int, n: nat, d: int)
    ensures Leg(from, n + 1, d) == Leg(from, n, d) + [from + d * (n + 1)]
  {
  }

  lemma LegMore(from: int, m: nat, n: nat, d: int)
    ensures Leg(from, m, d) + Leg(from + d * m, n, d) == Leg(from, m + n, d)
  {
    var next, all := Leg(from + d * m, n, d), Leg(from, m + n, d);
    forall k | 0 <= k < n ensures next[k] == all[m + k] { Distribute(d, m, k + 1); }
  }

  lemma Distribute(d: int, m: int, n: int)
    ensures d * m + d * n == d * (m + n)
  {
  }

  lemma OnwardOne(path: seq<int>, n: nat, d: int)
    ensures Onward(path, n + 1, d) == Onward(path, n, d) + [Pos(Onward(path, n, d)) + d]
  {
    hide Leg, Pos;
    OnwardEnds(path, n, d);
    LegOne(Pos(path), n, d);
    Distribute(d, n, 1);
  }

  lemma OnwardEnds(path: seq<int>, n: nat, d: int)
    ensures Pos(Onward(path, n, d)) == Pos(path) + d * n
  {
  }

  lemma OnwardMore(path: seq<int>, m: nat, n: nat, d: int)
    ensures Onward(Onward(path, m, d), n, d) == Onward(path, m + n, d)
  {
    hide Leg, Pos;
    OnwardEnds(path, m, d);
    LegMore(Pos(path), m, n, d);
  }

  /** The patterns shown along a walk, one for every half-step. */
  function Shown(path: seq<int>): (shown: seq<Coils>)
    requires path != []
    ensures |shown| == |path| - 1
  {
    seq(|path| - 1, k requires 0 <= k < |path| - 1 => Pattern(path[k + 1]))
  }

  /** The levels of the pins after every single write along a walk. */
  function Lines(path: seq<int>): (lines: seq<Coils>)
    requires path != []
    ensures |lines| == 4 * (|path| - 1)
    decreases |path|
  {
    if |path| == 1 then [] else Lines(Front(path)) + Writes(Held(Front(path)), Pattern(Last(path)))
  }

  /** The levels at the end of a walk. */
  function Held(path: seq<int>): Coils
    requires path != []
  {
    if |path| == 1 then LOW else Pattern(Last(path))
  }

  lemma {:induction false} WalkOn(path: seq<int>, n: nat, d: int)
    requires IsWalk(path) && (d == 1 || d == -1)
    ensures IsWalk(Onward(path, n, d))
  {
    var all := Onward(path, n, d);
    forall k | 1 <= k < |all| ensures Beside(all[k - 1], all[k]) {
      if k < |path| { assert Beside(path[k - 1], path[k]); }
    }
  }

  /** Which coils a position energises: pins 1, 2, 3 and 4 at the positions 0, 2, 4 and 6 modulo 8 and
      at the positions beside them. */
  lemma CoilsAt(pos: int)
    ensures var c, r := Pattern(pos), pos % 8;
      && c.p1 == (if r == 7 || r == 0 || r == 1 then 1 else 0)
      && c.p2 == (if r == 1 || r == 2 || r == 3 then 1 else 0)
      && c.p3 == (if r == 3 || r == 4 || r == 5 then 1 else 0)
      && c.p4 == (if r == 5 || r == 6 || r == 7 then 1 else 0)
  {
  }

  lemma NextColumnOneCoil(c: int)
    requires 0 <= c < 8
    ensures Changed(Column(c), Column(if c == 7 then 0 else c + 1)) == 1
  {
  }

  lemma OneCoil(a: int, b: int)
    requires Beside(a, b)
    ensures Changed(Pattern(a), Pattern(b)) == 1
  {
    hide Column;
    var low := if a < b then a else b;
    NextColumn(low);
    NextColumnOneCoil(low % 8);
  }

  lemma NextColumn(pos: int)
    ensures (pos + 1) % 8 == if pos % 8 == 7 then 0 else pos % 8 + 1
  {
  }

  /** Along every walk, changes of direction included, consecutive patterns differ in exactly one
      coil. */
  lemma OneCoilPerStep(path: seq<int>, k: nat)
    requires IsWalk(path) && 1 <= k < |path| - 1
    ensures Changed(Shown(path)[k - 1], Shown(path)[k]) == 1
  {
    assert Beside(path[k], path[k + 1]);
    OneCoil(path[k], path[k + 1]);
  }

  lemma WritesOneCoil(a: Coils, b: Coils, k: nat)
    requires Changed(a, b) == 1 && k < 4
    ensures Writes(a, b)[k] == a || Writes(a, b)[k] == b
  {
  }

  /** The first half-step starts with all pins low, not from a pattern. */
  lemma WritesFromLow(pos: int, k: nat)
    requires Beside(0, pos) && k < 4
    ensures Writes(LOW, Pattern(pos))[k] == Pattern(0) || Writes(LOW, Pattern(pos))[k] == Pattern(pos)
  {
    assert pos % 8 == 1 || pos % 8 == 7;
  }

  /** No glitches: although `setstep` writes the four pins one after the other, no write ever makes
      the pins show anything but the pattern of the position before and that of the position after. */
  lemma {:induction false} NoGlitch(path: seq<int>, m: nat)
    requires IsWalk(path) && m < 4 * (|path| - 1)
    ensures Lines(path)[m] == Pattern(path[m / 4]) || Lines(path)[m] == Pattern(path[m / 4 + 1])
    decreases |path|
  {
    hide Pattern, Writes, Changed;
    var front := Front(path);
    if m < 4 * (|front| - 1) {
      assert forall k :: 0 <= k < |front| ==> front[k] == path[k];
      NoGlitch(front, m);
    } else {
      var k := |path| - 1;
      assert m / 4 == k - 1;
      assert Beside(path[k - 1], path[k]);
      if k == 1 {
        WritesFromLow(path[1], m);
      } else {
        OneCoil(path[k - 1], path[k]);
        WritesOneCoil(Pattern(path[k - 1]), Pattern(path[k]), m - 4 * (k - 1));
      }
    }
  }

  // ---------------------------------------------------------------- angles

  function Max0(x: int): nat { if x > 0 then x else 0 }

  /** The half-steps of `forward` and `backward`. */
  function HalfSteps(round: int, step: int): nat { ONEROUND * (Max0(round) * Max0(step)) }

  /** 512 times `step` a round, and nothing if either argument is not positive. */
  lemma HalfStepsOf(round: int, step: int)
    ensures round > 0 && step > 0 ==> HalfSteps(round, step) == 512 * round * step
    ensures round <= 0 || step <= 0 ==> HalfSteps(round, step) == 0
  {
  }

  /** A `backward` right after a `forward` with the same arguments passes through the same positions
      in reverse order, and so ends where the `forward` began. */
  lemma BackwardUndoesForward(path: seq<int>, round: int, step: int)
    requires path != []
    ensures var n := HalfSteps(round, step);
      var out := Onward(path, n, 1);
      && Onward(out, n, -1) == out + Reversed(out[|path| - 1..|out| - 1])
      && Pos(Onward(out, n, -1)) == Pos(path)
  {
    var n := HalfSteps(round, step);
    var out := Onward(path, n, 1);
    OnwardEnds(path, n, 1);
    OnwardEnds(out, n, -1);
    var back := Reversed(out[|path| - 1..|out| - 1]);
    forall k | 0 <= k < n ensures Leg(Pos(out), n, -1)[k] == back[k] {
      assert out[|out| - 2 - k] == if k == n - 1 then Pos(path) else Leg(Pos(path), n, 1)[n - 2 - k];
    }
  }

  /** C division: towards zero. */
  function Truncated(a: int, b: int): int
    requires b > 0
  {
    if a >= 0 then a / b else -((-a) / b)
  }

  /** The half-steps of one `moveDegree`. */
  function HalfStepsFor(degree: int): nat { HalfSteps(1, Truncated(degree, 45)) }

  /** C division, by what it means: the remainder is smaller than the divisor and has the sign of the
      dividend. */
  lemma TruncatedIff(a: int, b: int, q: int)
    requires b > 0
    ensures q == Truncated(a, b) <==> -b < a - b * q < b && (a >= 0 ==> a - b * q >= 0) && (a <= 0 ==> a - b * q <= 0)
  {
    if a >= 0 { QuotientIff(a, b, q); } else { QuotientIff(-a, b, -q); }
  }

  lemma QuotientIff(a: int, b: int, q: int)
    requires b > 0 && a >= 0
    ensures q == a / b <==> 0 <= a - b * q < b
  {
    var d := a / b;
    assert a == b * d + a % b;
    if q > d { assert b * q >= b * (d + 1); }
    if q < d { assert b * (q + 1) <= b * d; }
  }

  /** A move makes 512 half-steps for every whole 45 degrees, and none for a negative angle. */
  lemma MoveOf(degree: int)
    ensures HalfStepsFor(degree) == if degree < 45 then 0 else 512 * (degree / 45)
  {
  }

  function Total(xs: seq<int>): int {
    if xs == [] then 0 else Total(Front(xs)) + Last(xs)
  }

  /** The half-steps of one move after another. */
  function HalfStepsOfAll(degrees: seq<int>): nat {
    if degrees == [] then 0 else HalfStepsOfAll(Front(degrees)) + HalfStepsFor(Last(degrees))
  }

  /** The degrees that truncation drops from each move. */
  function Dropped(degrees: seq<int>): nat {
    if degrees == [] then 0 else Dropped(Front(degrees)) + Last(degrees) % 45
  }

  ghost predicate NonNegative(degrees: seq<int>) { forall k :: 0 <= k < |degrees| ==> degrees[k] >= 0 }

  /** The whole multiples of 45 degrees in each move. */
  function Eighths(degrees: seq<int>): nat
    requires NonNegative(degrees)
  {
    if degrees == [] then 0 else Eighths(Front(degrees)) + Last(degrees) / 45
  }

  /** An exact account of the angle moved, 512 half-steps being 45 degrees. */
  lemma {:induction false} AngleMoved(degrees: seq<int>)
    requires NonNegative(degrees)
    ensures HalfStepsOfAll(degrees) == ONEROUND * Eighths(degrees)
    ensures Total(degrees) == 45 * Eighths(degrees) + Dropped(degrees)
    ensures Dropped(degrees) <= 44 * |degrees|
    decreases |degrees|
  {
    if degrees != [] {
      AngleMoved(Front(degrees));
      var a := Last(degrees);
      assert a == 45 * (a / 45) + a % 45;
    }
  }

  /** Moves undershoot their total angle, by less than 45 degrees each. */
  lemma UndershootBounded(degrees: seq<int>)
    requires NonNegative(degrees) && degrees != []
    ensures 45 * HalfStepsOfAll(degrees) <= ONEROUND * Total(degrees)
    ensures 45 * HalfStepsOfAll(degrees) > ONEROUND * (Total(degrees) - 45 * |degrees|)
  {
    AngleMoved(degrees);
  }

  /** They do as well as one combined move if and only if the angles dropped are less than 45
      degrees together; otherwise they fall short of it. */
  lemma SplitMoveIff(degrees: seq<int>)
    requires NonNegative(degrees)
    ensures HalfStepsOfAll(degrees) <= HalfStepsFor(Total(degrees))
    ensures HalfStepsOfAll(degrees) == HalfStepsFor(Total(degrees)) <==> Dropped(degrees) < 45
  {
    AngleMoved(degrees);
    Divided(Eighths(degrees), Dropped(degrees));
  }

  /** Two moves of 30 degrees make no half-step; one of 60 degrees makes 512. */
  lemma SplitMoveFallsShort()
    ensures HalfStepsOfAll([30, 30]) == 0 && HalfStepsFor(Total([30, 30])) == 512
  {
    assert Front([30, 30]) == [30] && Front([30]) == [];
  }

  lemma Divided(whole: nat, rest: nat)
    ensures (45 * whole + rest) / 45 == whole + rest / 45
  {
  }

  /** In particular when every angle is a multiple of 45. */
  lemma {:induction false} MultiplesAddUp(degrees: seq<int>)
    requires NonNegative(degrees) && forall k :: 0 <= k < |degrees| ==> degrees[k] % 45 == 0
    ensures HalfStepsOfAll(degrees) == HalfStepsFor(Total(degrees))
  {
    NoneDropped(degrees);
    SplitMoveIff(degrees);
  }

  lemma {:induction false} NoneDropped(degrees: seq<int>)
    requires forall k :: 0 <= k < |degrees| ==> degrees[k] % 45 == 0
    ensures Dropped(degrees) == 0
    decreases |degrees|
  {
    if degrees != [] { NoneDropped(Front(degrees)); }
  }

  // ---------------------------------------------------------------- sweeps

  datatype Command = RunCommand | EndCommand | OtherCommand

  datatype Event = Ioctl(cmd: Command) | Interrupt

  /** A note, by its half period, and the position at which it sounds. */
  datatype Sounded = Sounded(period: int, pos: int)

  /** The sweep up: 4096 half-steps, note i after every 512. */
  function UpTune(): seq<Sounded> { seq(8, i requires 0 <= i < 8 => Sounded(NOTES[i], 512 * (i + 1))) }
  /** The sweep down: note i at 512 i, from note 7 to note 0. */
  function DownTune(): seq<Sounded> { seq(8, k requires 0 <= k < 8 => Sounded(NOTES[7 - k], 512 * (7 - k))) }

  /** The whole of what a sweep from this state does. */
  function SweepLeg(state: int): seq<int> { if state == 0 then Leg(0, 4096, 1) else Leg(4096, 4096, -1) }
  function SweepTune(state: int): seq<Sounded> { if state == 0 then UpTune() else DownTune() }

  /** What the last command that is not refused was. */
  predicate Enabled(events: seq<Event>) {
    if events == [] then false
    else
      match Last(events)
      case Ioctl(RunCommand) => true
      case Ioctl(EndCommand) => false
      case _ => Enabled(Front(events))
  }

  predicate Sweeps(events: seq<Event>) { events != [] && Last(events).Interrupt? && Enabled(Front(events)) }

  /** The number of interrupts that found the application running. */
  function SweepsOf(events: seq<Event>): nat {
    if events == [] then 0 else SweepsOf(Front(events)) + if Sweeps(events) then 1 else 0
  }

  /** The positions and the notes of n sweeps. */
  function PathOf(n: nat): seq<int> { if n == 0 then [0] else PathOf(n - 1) + SweepLeg((n - 1) % 2) }
  function TuneOf(n: nat): seq<Sounded> { if n == 0 then [] else TuneOf(n - 1) + SweepTune((n - 1) % 2) }

  /** Between interrupts the motor is at 4096 times the parity of the sweeps made, and it never
      leaves [0, 4096]. */
  lemma {:induction false} PathStaysInRange(n: nat)
    ensures IsWalk(PathOf(n)) && |PathOf(n)| == 4096 * n + 1 && Last(PathOf(n)) == 4096 * (n % 2)
    ensures forall k :: 0 <= k < |PathOf(n)| ==> 0 <= PathOf(n)[k] <= 4096
  {
    if n > 0 {
      PathStaysInRange(n - 1);
      var d := if (n - 1) % 2 == 0 then 1 else -1;
      assert PathOf(n) == Onward(PathOf(n - 1), 4096, d);
      WalkOn(PathOf(n - 1), 4096, d);
    }
  }

  lemma {:induction false} NoteOfRun(n: nat, k: nat)
    requires k < 8 * n
    ensures |TuneOf(n)| == 8 * n && TuneOf(n)[k] == NoteAt(k / 8, k % 8)
  {
    hide SweepTune, NoteAt;
    TuneLength(n);
    TuneLength(n - 1);
    if k < 8 * (n - 1) {
      NoteOfRun(n - 1, k);
    } else {
      Rows(k, n - 1);
      SweepTuneAt(n - 1, k - 8 * (n - 1));
    }
  }

  /** Note number i of sweep number m. */
  function NoteAt(m: nat, i: nat): Sounded
    requires i < 8
  {
    if m % 2 == 0 then Sounded(NOTES[i], 512 * (i + 1)) else Sounded(NOTES[7 - i], 512 * (7 - i))
  }

  /** The half periods of the notes fall, so the tune rises on the way up and falls on the way down;
      the first and the last are an octave apart to within a hundredth. */
  lemma TuneRises(i: nat, j: nat)
    requires i < j < 8
    ensures NOTES[j] < NOTES[i]
    ensures UpTune()[j].period < UpTune()[i].period && DownTune()[j].period > DownTune()[i].period
    ensures NOTES[0] == 1911 && NOTES[7] == 955 && 100 * NOTES[0] <= 201 * NOTES[7] && 100 * NOTES[0] >= 199 * NOTES[7]
  {
  }

  lemma SweepTuneAt(m: nat, i: nat)
    requires i < 8
    ensures |SweepTune(m % 2)| == 8 && SweepTune(m % 2)[i] == NoteAt(m, i)
  {
  }

  lemma Rows(k: nat, m: nat)
    requires 8 * m <= k < 8 * m + 8
    ensures k / 8 == m && k % 8 == k - 8 * m
  {
  }

  lemma {:induction false} TuneLength(n: nat)
    ensures |TuneOf(n)| == 8 * n
  {
    if n > 0 { TuneLength(n - 1); }
  }

  /** Note number k of a run: in even sweeps the notes go up and note i sounds at 512 (i + 1), in
      odd sweeps they go down and note i sounds at 512 i. */
  lemma NotesAtPositions(n: nat, k: nat)
    requires k < 8 * n
    ensures |TuneOf(n)| == 8 * n
    ensures var i := if k / 8 % 2 == 0 then k % 8 else 7 - k % 8;
      TuneOf(n)[k] == Sounded(NOTES[i], 512 * (if k / 8 % 2 == 0 then i + 1 else i))
  {
    NoteOfRun(n, k);
  }
}
