/**
 The stepper-motor driver (ku_SnA.c) as it works on its variables: nested loops that turn the
 motor by half-steps, the sweep that a switch interrupt starts, and the two commands. Ghost fields
 record where the motor has been, what the pins showed, and the notes.
 */
module Stepper {
  import opened Common
  import opened Sweep

  lemma WalkSnoc(before: seq<int>, d: int)
    requires IsWalk(before) && (d == 1 || d == -1)
    ensures IsWalk(before + [Pos(before) + d])
  {
  }

  /** One half-step more is one more pattern, the next or the previous column of the tables. */
  lemma Stepped(before: seq<int>, pos: int)
    requires before != []
    ensures var path := before + [pos];
      && Shown(path) == Shown(before) + [Pattern(pos)] && Held(path) == Pattern(pos)
      && Lines(path) == Lines(before) + Writes(Held(before), Pattern(pos))
  {
    hide Column;
    assert Front(before + [pos]) == before;
  }

  lemma UpTuneNext(i: nat)
    requires i < 8
    ensures UpTune()[..i + 1] == UpTune()[..i] + [Sounded(NOTES[i], 512 * (i + 1))]
    ensures UpTune()[..8] == UpTune()
  {
  }

  lemma DownTuneNext(k: nat)
    requires k < 8
    ensures DownTune()[..k + 1] == DownTune()[..k] + [Sounded(NOTES[7 - k], 512 * (7 - k))]
    ensures DownTune()[..8] == DownTune()
  {
  }

  lemma SweepEnds(path: seq<int>)
    ensures Pos(path) == 0 ==> Onward(path, 4096, 1) == path + SweepLeg(0)
    ensures Pos(path) == 4096 ==> Onward(path, 4096, -1) == path + SweepLeg(1)
  {
  }

  lemma NextRow(i: int, row: int)
    ensures (i + 1) * row == i * row + row
  {
  }

  lemma Repeated(round: int, step: int)
    ensures Max0(ONEROUND * round) * Max0(step) == HalfSteps(round, step)
  {
  }

  /** 8 divides 512, so a call leaves the counter where it was. */
  lemma FullTurns(pos: int, round: int, step: int, d: int)
    requires d == 1 || d == -1
    ensures (pos + d * HalfSteps(round, step)) % 8 == pos % 8
  {
    var turns := 64 * (Max0(round) * Max0(step));
    assert HalfSteps(round, step) == 8 * turns;
    if d == 1 { assert (pos + 8 * turns) % 8 == pos % 8; } else { assert (pos - 8 * turns) % 8 == pos % 8; }
  }

  class Driver {
    var state: int
    var appState: int
    var cStep: int
    var pins: Coils
    ghost var path: seq<int>        // positions, counted in half-steps from the start
    ghost var shown: seq<Coils>     // the patterns passed to SetStep
    ghost var lines: seq<Coils>     // the levels of the pins after every write
    ghost var tune: seq<Sounded>

    /** The motor is where the counter says, and every pattern was the one for its position. */
    ghost predicate Turning()
      reads `cStep, `pins, `path, `shown, `lines
    {
      && IsWalk(path)
      && 0 <= cStep < 8 && cStep == Pos(path) % 8
      && shown == Shown(path) && lines == Lines(path) && pins == Held(path)
    }

    constructor ()
      ensures Swept(0) && appState == 0
    {
      state, appState, cStep, pins := 0, 0, 0, LOW;
      path, shown, lines, tune := [0], [], [], [];
    }

    /** `setstep`: four writes, one pin after the other. */
    method SetStep(p1: int, p2: int, p3: int, p4: int)
      modifies `pins, `shown, `lines
      ensures pins == Coils(p1, p2, p3, p4)
      ensures shown == old(shown) + [pins] && lines == old(lines) + Writes(old(pins), pins)
    {
      pins := pins.(p1 := p1);
      lines := lines + [pins];
      pins := pins.(p2 := p2);
      lines := lines + [pins];
      pins := pins.(p3 := p3);
      lines := lines + [pins];
      pins := pins.(p4 := p4);
      lines := lines + [pins];
      shown := shown + [pins];
    }

    /** The call of `setstep` in both loops. */
    method ShowColumn()
      requires 0 <= cStep < 8
      modifies `pins, `shown, `lines
      ensures pins == Column(cStep)
      ensures shown == old(shown) + [pins] && lines == old(lines) + Writes(old(pins), pins)
    {
      SetStep(BLUE[cStep], PINK[cStep], YELLOW[cStep], ORANGE[cStep]);
    }

    /** The body of the loops of `forward`. */
    method ForwardOnce()
      requires Turning()
      modifies `cStep, `pins, `path, `shown, `lines
      ensures Turning() && cStep == Pos(path) % 8
      ensures path == old(path) + [Pos(old(path)) + 1]
      ensures var r := Pos(path) % 8;
        && pins.p1 == (if r == 7 || r == 0 || r == 1 then 1 else 0)
        && pins.p2 == (if r == 1 || r == 2 || r == 3 then 1 else 0)
        && pins.p3 == (if r == 3 || r == 4 || r == 5 then 1 else 0)
        && pins.p4 == (if r == 5 || r == 6 || r == 7 then 1 else 0)
    {
      hide Column, Lines, Shown, IsWalk, Writes, Held;
      cStep := cStep + 1;
      if cStep > 7 { cStep := 0; }
      path := path + [Pos(path) + 1];
      ShowColumn();
      WalkSnoc(old(path), 1);
      Stepped(old(path), Pos(path));
      NextColumn(Pos(old(path)));
      CoilsAt(Pos(path));
    }

    /** The inner loop of `forward`. */
    method ForwardRow(step: int)
      requires Turning()
      modifies `cStep, `pins, `path, `shown, `lines
      ensures Turning() && path == Onward(old(path), Max0(step), 1)
    {
      hide Turning, Onward, Pos;
      ghost var done := 0;
      OnwardNone(path, 1);
      var j := step;
      while j > 0
        invariant j <= Max0(step) && (j >= 0 || j == step) && done == Max0(step) - Max0(j)
        invariant Turning() && path == Onward(old(path), done, 1)
      {
        OnwardOne(old(path), done, 1);
        ForwardOnce();
        done := done + 1;
        j := j - 1;
      }
    }

    /** `forward`: 512 times a round, a row of half-steps. */
    method Forward(round: int, step: int)
      requires Turning()
      modifies `cStep, `pins, `path, `shown, `lines
      ensures Turning() && cStep == old(cStep)
      ensures path == Onward(old(path), HalfSteps(round, step), 1)
    {
      ghost var start, row := path, Max0(step);
      OnwardNone(start, 1);
      var i := 0;
      while i < ONEROUND * round
        invariant 0 <= i <= Max0(ONEROUND * round)
        invariant Turning() && path == Onward(start, i * row, 1)
      {
        hide Turning, Onward;
        OnwardMore(start, i * row, row, 1);
        ForwardRow(step);
        NextRow(i, row);
        i := i + 1;
      }
      Repeated(round, step);
      OnwardEnds(start, HalfSteps(round, step), 1);
      FullTurns(Pos(start), round, step, 1);
    }

    /** The body of the loops of `backward`. */
    method BackwardOnce()
      requires Turning()
      modifies `cStep, `pins, `path, `shown, `lines
      ensures Turning() && cStep == Pos(path) % 8
      ensures path == old(path) + [Pos(old(path)) - 1]
      ensures var r := Pos(path) % 8;
        && pins.p1 == (if r == 7 || r == 0 || r == 1 then 1 else 0)
        && pins.p2 == (if r == 1 || r == 2 || r == 3 then 1 else 0)
        && pins.p3 == (if r == 3 || r == 4 || r == 5 then 1 else 0)
        && pins.p4 == (if r == 5 || r == 6 || r == 7 then 1 else 0)
    {
      hide Column, Lines, Shown, IsWalk, Writes, Held;
      cStep := cStep - 1;
      if cStep < 0 { cStep := 7; }
      path := path + [Pos(path) - 1];
      ShowColumn();
      WalkSnoc(old(path), -1);
      Stepped(old(path), Pos(path));
      NextColumn(Pos(path));
      CoilsAt(Pos(path));
    }

    /** The inner loop of `backward`. */
    method BackwardRow(step: int)
      requires Turning()
      modifies `cStep, `pins, `path, `shown, `lines
      ensures Turning() && path == Onward(old(path), Max0(step), -1)
    {
      hide Turning, Onward, Pos;
      ghost var done := 0;
      OnwardNone(path, -1);
      var j := step;
      while j > 0
        invariant j <= Max0(step) && (j >= 0 || j == step) && done == Max0(step) - Max0(j)
        invariant Turning() && path == Onward(old(path), done, -1)
      {
        OnwardOne(old(path), done, -1);
        BackwardOnce();
        done := done + 1;
        j := j - 1;
      }
    }

    /** `backward`: 512 times a round, a row of half-steps. */
    method Backward(round: int, step: int)
      requires Turning()
      modifies `cStep, `pins, `path, `shown, `lines
      ensures Turning() && cStep == old(cStep)
      ensures path == Onward(old(path), HalfSteps(round, step), -1)
    {
      ghost var start, row := path, Max0(step);
      OnwardNone(start, -1);
      var i := 0;
      while i < ONEROUND * round
        invariant 0 <= i <= Max0(ONEROUND * round)
        invariant Turning() && path == Onward(start, i * row, -1)
      {
        hide Turning, Onward;
        OnwardMore(start, i * row, row, -1);
        BackwardRow(step);
        NextRow(i, row);
        i := i + 1;
      }
      Repeated(round, step);
      OnwardEnds(start, HalfSteps(round, step), -1);
      FullTurns(Pos(start), round, step, -1);
    }

    /** `moveDegree`: direction 0 is forward, 1 is backward, anything else no move. */
    method MoveDegree(degree: int, direction: int)
      requires Turning()
      modifies `cStep, `pins, `path, `shown, `lines
      ensures Turning() && cStep == old(cStep)
      ensures direction == 0 ==> path == Onward(old(path), HalfStepsFor(degree), 1)
      ensures direction == 1 ==> path == Onward(old(path), HalfStepsFor(degree), -1)
      ensures direction != 0 && direction != 1 ==> path == old(path)
    {
      var step := Truncated(degree, 45);
      if direction == 0 {
        Forward(1, step);
      } else if direction == 1 {
        Backward(1, step);
      }
    }

    /** `spk`. */
    method Spk(note: int)
      requires 0 <= note < 8
      modifies `tune
      ensures tune == old(tune) + [Sounded(NOTES[note], Pos(path))]
    {
      var period := NOTES[note];
      tune := tune + [Sounded(period, Pos(path))];
    }

    /** Between interrupts: the motor is at the end that `state` names. */
    ghost predicate Parked()
      reads `state, `cStep, `pins, `path, `shown, `lines
    {
      Turning() && (state == 0 || state == 1) && Pos(path) == 4096 * state
    }

    /** `func`: a sweep up with its notes, or a sweep down. */
    method Func()
      requires Parked()
      modifies `state, `cStep, `pins, `path, `shown, `lines, `tune
      ensures Parked() && state == 1 - old(state)
      ensures path == old(path) + SweepLeg(old(state)) && tune == old(tune) + SweepTune(old(state))
    {
      if state == 0 {
        SweepUp();
        state := 1;
      } else {
        SweepDown();
        state := 0;
      }
    }

    /** The loop of `func` that goes up. */
    method SweepUp()
      requires Turning() && Pos(path) == 0
      modifies `cStep, `pins, `path, `shown, `lines, `tune
      ensures Turning() && Pos(path) == 4096
      ensures path == old(path) + SweepLeg(0) && tune == old(tune) + SweepTune(0)
    {
      hide Turning, Onward, UpTune;
      ghost var start := path;
      OnwardNone(start, 1);
      assert UpTune()[..0] == [];
      for i := 0 to 8
        invariant Turning() && path == Onward(start, 512 * i, 1)
        invariant tune == old(tune) + UpTune()[..i]
      {
        MoveDegree(45, 0);
        OnwardMore(start, 512 * i, 512, 1);
        OnwardEnds(start, 512 * (i + 1), 1);
        Spk(i);
        UpTuneNext(i);
      }
      OnwardEnds(start, 4096, 1);
      SweepEnds(start);
    }

    /** The loop of `func` that goes down. */
    method SweepDown()
      requires Turning() && Pos(path) == 4096
      modifies `cStep, `pins, `path, `shown, `lines, `tune
      ensures Turning() && Pos(path) == 0
      ensures path == old(path) + SweepLeg(1) && tune == old(tune) + SweepTune(1)
    {
      hide Turning, Onward, DownTune;
      ghost var start := path;
      OnwardNone(start, -1);
      assert DownTune()[..0] == [];
      for i := 8 downto 0
        invariant Turning() && path == Onward(start, 512 * (8 - i), -1)
        invariant tune == old(tune) + DownTune()[..8 - i]
      {
        MoveDegree(45, 1);
        OnwardMore(start, 512 * (7 - i), 512, -1);
        OnwardEnds(start, 512 * (8 - i), -1);
        Spk(i);
        DownTuneNext(7 - i);
      }
      OnwardEnds(start, 4096, -1);
      SweepEnds(start);
    }

    /** `switch_irq_isr`. */
    method SwitchIrqIsr()
      requires Parked()
      modifies `state, `cStep, `pins, `path, `shown, `lines, `tune
      ensures Parked()
      ensures appState == 1 ==> state == 1 - old(state)
      ensures appState == 1 ==> path == old(path) + SweepLeg(old(state)) && tune == old(tune) + SweepTune(old(state))
      ensures appState != 1 ==> state == old(state) && path == old(path) && tune == old(tune)
    {
      if appState == 1 { Func(); }
    }

    /** `ku_ioctl`. */
    method KuIoctl(cmd: Command) returns (rtn: int)
      modifies `appState
      ensures rtn == if cmd.OtherCommand? then -1 else 0
      ensures appState == if cmd.RunCommand? then 1 else if cmd.EndCommand? then 0 else old(appState)
    {
      match cmd {
        case RunCommand => appState := 1;
        case EndCommand => appState := 0;
        case OtherCommand => return -1;
      }
      return 0;
    }

    /** n sweeps were made, and the motor is where they end. */
    ghost predicate Swept(n: nat)
      reads `state, `cStep, `pins, `path, `shown, `lines, `tune
    {
      Parked() && state == n % 2 && path == PathOf(n) && tune == TuneOf(n)
    }

    method Handle(event: Event, ghost n: nat)
      requires Swept(n) && (appState == 0 || appState == 1)
      modifies this
      ensures Swept(if event.Interrupt? && old(appState) == 1 then n + 1 else n)
      ensures appState ==
              if event == Ioctl(RunCommand) then 1 else if event == Ioctl(EndCommand) then 0 else old(appState)
    {
      hide SweepLeg, SweepTune, Turning;
      match event {
        case Ioctl(cmd) => var _ := KuIoctl(cmd);
        case Interrupt => SwitchIrqIsr();
      }
    }

    /** A whole life of the driver: any commands and interrupts, one after the other. */
    method Serve(events: seq<Event>)
      requires Swept(0) && appState == 0
      modifies this
      ensures Swept(SweepsOf(events)) && (appState == 0 || appState == 1) && (appState == 1 <==> Enabled(events))
    {
      hide Swept;
      assert events[..0] == [];
      for i := 0 to |events|
        invariant Swept(SweepsOf(events[..i])) && (appState == 0 || appState == 1)
        invariant appState == 1 <==> Enabled(events[..i])
      {
        assert Front(events[..i + 1]) == events[..i] && Last(events[..i + 1]) == events[i];
        Handle(events[i], SweepsOf(events[..i]));
      }
      assert events[..|events|] == events;
    }
  }
}
