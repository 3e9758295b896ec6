/** Play-time measurement. The game keeps a free-running clock, restarts it
    when a game starts and when a paused game resumes, and while playing
    copies the clock's reading into the elapsed time that results are saved
    with. Because the resume restarts the very clock the elapsed time is read
    from, every pause throws away the time played before it. WrittenStep
    models that; CorrectedStep accumulates the time played instead, and is the
    clock the rest of the model uses. Time is counted in whole units. */
module Timing {

  /** What the clock sees: a game starting, the game pausing or resuming, and
      dt units of time passing. */
  datatype ClockEvent = Start | Pause | Resume | Tick(dt: nat)

  /** Whether play time accrues after the events: the last of Start, Pause
      and Resume was a Start or a Resume. */
  function Running(events: seq<ClockEvent>): bool
    decreases |events|
  {
    if |events| == 0 then false
    else match events[|events| - 1]
      case Start => true
      case Resume => true
      case Pause => false
      case Tick(_) => Running(events[..|events| - 1])
  }

  /** The time actually played in the current game: the units that passed
      after the last Start while the clock was running. */
  function PlayTime(events: seq<ClockEvent>): nat
    decreases |events|
  {
    if |events| == 0 then 0
    else
      var before := events[..|events| - 1];
      match events[|events| - 1]
      case Start => 0
      case Tick(dt) => PlayTime(before) + (if Running(before) then dt else 0)
      case _ => PlayTime(before)
  }

  // ---------------------------------------------------------------------
  // As written

  /** The free-running clock's reading since its last restart, the elapsed
      time last copied from it, and whether play is on. */
  datatype WrittenClock = WrittenClock(sinceRestart: nat, elapsed: nat, active: bool)

  function WrittenStep(c: WrittenClock, e: ClockEvent): WrittenClock {
    match e
    case Start => WrittenClock(0, 0, true)
    case Pause => c.(active := false)
    case Resume => c.(active := true, sinceRestart := 0)
    case Tick(dt) =>
      var reading := c.sinceRestart + dt;
      c.(sinceRestart := reading, elapsed := if c.active then reading else c.elapsed)
  }

  function WrittenRun(events: seq<ClockEvent>): WrittenClock
    decreases |events|
  {
    if |events| == 0 then WrittenClock(0, 0, false)
    else WrittenStep(WrittenRun(events[..|events| - 1]), events[|events| - 1])
  }

  /** Five units of play, a pause of three, a resume and one more unit: six
      units were played, but the elapsed time reads one, less than it read
      before the pause. */
  lemma WrittenClockLosesPlayTime()
    ensures var events := [Start, Tick(5), Pause, Tick(3), Resume, Tick(1)];
      && PlayTime(events) == 6
      && WrittenRun(events).elapsed == 1
      && WrittenRun(events[..2]).elapsed == 5
  {
    var events := [Start, Tick(5), Pause, Tick(3), Resume, Tick(1)];
    var e1, e2, e3, e4, e5 := [Start], [Start, Tick(5)], [Start, Tick(5), Pause],
      [Start, Tick(5), Pause, Tick(3)], [Start, Tick(5), Pause, Tick(3), Resume];
    assert e1[..0] == [] && e2[..1] == e1 && e3[..2] == e2 && e4[..3] == e3 && e5[..4] == e4;
    assert events[..5] == e5 && events[..2] == e2;
    assert WrittenRun(e1) == WrittenClock(0, 0, true);
    assert WrittenRun(e2) == WrittenClock(5, 5, true);
    assert WrittenRun(e3) == WrittenClock(5, 5, false);
    assert WrittenRun(e4) == WrittenClock(8, 5, false);
    assert WrittenRun(e5) == WrittenClock(0, 5, true);
    assert Running(e1) && Running(e2) && !Running(e3) && !Running(e4) && Running(e5);
    assert PlayTime(e1) == 0 && PlayTime(e2) == 5 && PlayTime(e3) == 5;
    assert PlayTime(e4) == 5 && PlayTime(e5) == 5;
  }

  // ---------------------------------------------------------------------
  // Corrected

  /** Time accrues only while play is on. */
  function Accrue(elapsed: nat, dt: nat, running: bool): (r: nat)
    ensures running ==> r == elapsed + dt
    ensures !running ==> r == elapsed
  {
    if running then elapsed + dt else elapsed
  }

  datatype Clock = Clock(elapsed: nat, active: bool)

  function CorrectedStep(c: Clock, e: ClockEvent): Clock {
    match e
    case Start => Clock(0, true)
    case Pause => c.(active := false)
    case Resume => c.(active := true)
    case Tick(dt) => c.(elapsed := Accrue(c.elapsed, dt, c.active))
  }

  function CorrectedRun(events: seq<ClockEvent>): Clock
    decreases |events|
  {
    if |events| == 0 then Clock(0, false)
    else CorrectedStep(CorrectedRun(events[..|events| - 1]), events[|events| - 1])
  }

  /** The corrected clock's elapsed time is exactly the time played since the
      last Start, whatever pauses and resumes came in between. */
  lemma {:induction false} CorrectedClockCountsPlayTime(events: seq<ClockEvent>)
    ensures CorrectedRun(events).elapsed == PlayTime(events)
    ensures CorrectedRun(events).active == Running(events)
    decreases |events|
  {
    if |events| > 0 {
      CorrectedClockCountsPlayTime(events[..|events| - 1]);
    }
  }

  /** Only a new game sets the corrected elapsed time back. */
  lemma CorrectedClockMonotonic(c: Clock, e: ClockEvent)
    requires e != Start
    ensures CorrectedStep(c, e).elapsed >= c.elapsed
  {
  }
}
