/** The clinical-station screen (components/ECOSModule.tsx): a seven-minute
    countdown shown as `m:ss`, ticked once a second while it runs, and the
    handlers that start and reset it. Timing is not modelled: one call of
    `Tick` stands for one step of the timer effect (see `TickStep`). */
module EcosModule {
  import opened Text
  import opened Wrappers

  /** Length of a station, in seconds. */
  const StationSeconds := 420

  /** `formatTime`: whole minutes, a colon, and the remaining seconds padded
      to two digits. */
  function FormatTime(seconds: nat): (r: string)
    ensures |r| >= 4 && r[|r| - 3] == ':'
    ensures AllDigits(r[..|r| - 3]) && AllDigits(r[|r| - 2..])
    ensures r[..|r| - 3] == NatToString(seconds / 60)
  {
    var secs := seconds % 60;
    var pad := if secs < 10 then "0" else "";
    assert secs >= 10 ==> |NatToString(secs)| == 2 by {
      if secs >= 10 {
        assert NatToString(secs) == NatToString(secs / 10) + [DigitChar(secs % 10)];
      }
    }
    var r := NatToString(seconds / 60) + ":" + pad + NatToString(secs);
    assert r[..|r| - 3] == NatToString(seconds / 60);
    assert r[|r| - 2..] == pad + NatToString(secs);
    r
  }

  /** Reading the two fields of `FormatTime(s)` back as decimal numbers
      gives the minutes and a seconds field below 60 that add up to `s`. */
  lemma FormatTimeReadsBack(seconds: nat)
    ensures var r := FormatTime(seconds);
      && DigitsValue(r[|r| - 2..]) < 60
      && DigitsValue(r[..|r| - 3]) * 60 + DigitsValue(r[|r| - 2..]) == seconds
  {
    var r := FormatTime(seconds);
    var mins, secs := seconds / 60, seconds % 60;
    var m, s := NatToString(mins), NatToString(secs);
    var pad := if secs < 10 then "0" else "";
    assert r == m + ":" + pad + s;
    assert r[..|r| - 3] == m by {
      if secs >= 10 {
        assert s == NatToString(secs / 10) + [DigitChar(secs % 10)];
      }
    }
    DigitsValueOfNatToString(mins);
    DigitsValueOfNatToString(secs);
    if secs < 10 {
      var t := r[|r| - 2..];
      assert t == "0" + s;
      assert t[..1] == "0" && t[..1][..0] == [];
      assert DigitsValue(t[..1]) == 0;
      assert s[..0] == [];
      assert DigitsValue(t) == DigitValue(s[0]) == DigitsValue(s);
    } else {
      assert s == NatToString(secs / 10) + [DigitChar(secs % 10)];
      assert r[|r| - 2..] == s;
    }
  }

  lemma FormatTimeOfFullStation()
    ensures FormatTime(StationSeconds) == "7:00"
  {
    assert NatToString(7) == "7";
    assert NatToString(0) == "0";
  }

  /** The countdown state the tick and the handlers touch. */
  datatype Clock = Clock(timer: int, timerActive: bool, simulationActive: bool)

  /** One step of the timer effect. An active clock above zero loses one
      second: the interval the effect set fires once, and the effect re-runs
      on the new value. A clock at zero is switched off by the effect's own
      run, with no firing. Anything else is left as it is. */
  function TickStep(c: Clock): (r: Clock)
    ensures r.simulationActive == c.simulationActive
    ensures c.timerActive && c.timer > 0 ==> r.timer == c.timer - 1 && r.timerActive
    ensures !(c.timerActive && c.timer > 0) ==> r.timer == c.timer
    ensures c.timer == 0 ==> !r.timerActive
    ensures !c.timerActive ==> r == c
  {
    if c.timerActive && c.timer > 0 then c.(timer := c.timer - 1)
    else if c.timer == 0 then c.(timerActive := false)
    else c
  }

  /** `n` steps of the timer effect. */
  function Ticks(c: Clock, n: nat): Clock
    decreases n
  {
    if n == 0 then c else Ticks(TickStep(c), n - 1)
  }

  /** However many steps are taken, the countdown stays between 0 and where
      it started. */
  lemma {:induction false} TicksStayInRange(c: Clock, n: nat)
    requires 0 <= c.timer
    ensures 0 <= Ticks(c, n).timer <= c.timer
    decreases n
  {
    if n > 0 {
      TicksStayInRange(TickStep(c), n - 1);
    }
  }

  /** A running countdown from `t` seconds reaches zero after `t` firings of
      the interval, and the effect's next run switches it off: `t + 1` steps
      in all. The simulation flag is untouched. */
  lemma {:induction false} CountdownEnds(c: Clock)
    requires c.timerActive && 0 <= c.timer
    ensures Ticks(c, c.timer + 1) == c.(timer := 0, timerActive := false)
    decreases c.timer
  {
    if c.timer > 0 {
      CountdownEnds(TickStep(c));
    } else {
      assert Ticks(c, 1) == Ticks(TickStep(c), 0);
    }
  }

  /** A stopped countdown does not move. */
  lemma {:induction false} StoppedClockIsFrozen(c: Clock, n: nat)
    requires !c.timerActive
    ensures Ticks(c, n) == c
    decreases n
  {
    if n > 0 {
      StoppedClockIsFrozen(TickStep(c), n - 1);
    }
  }

  /** Which half of the station sheet is shown. */
  datatype ViewMode = Candidate | Examiner

  /** A generated station; only the title decides whether it is kept. */
  datatype Station = Station(title: string, context: string, instruction: string)

  /** The screen's state. */
  class EcosSession {
    var timer: int
    var timerActive: bool
    var simulationActive: bool
    var viewMode: ViewMode
    var station: Option<Station>

    /** The countdown part of the state. */
    function ClockState(): (c: Clock)
      reads this
      ensures c.timer == timer && c.timerActive == timerActive && c.simulationActive == simulationActive
    {
      Clock(timer, timerActive, simulationActive)
    }

    /** The countdown is within one station. */
    ghost predicate Valid()
      reads this
    {
      0 <= timer <= StationSeconds
    }

    /** The screen as first shown. */
    constructor ()
      ensures Valid()
      ensures ClockState() == Clock(StationSeconds, false, false)
      ensures viewMode == Candidate && station.None?
    {
      timer := StationSeconds;
      timerActive := false;
      simulationActive := false;
      viewMode := Candidate;
      station := None;
    }

    /** One step of the timer effect. */
    method Tick()
      requires Valid()
      modifies this
      ensures Valid()
      ensures ClockState() == TickStep(old(ClockState()))
      ensures viewMode == old(viewMode) && station == old(station)
    {
      if timerActive && timer > 0 {
        timer := timer - 1;
      } else if timer == 0 {
        timerActive := false;
      }
    }

    /** `startSimulation`: the countdown and the simulation both run. */
    method StartSimulation()
      requires Valid()
      modifies this
      ensures Valid()
      ensures ClockState() == Clock(old(timer), true, true)
      ensures viewMode == old(viewMode) && station == old(station)
    {
      timerActive := true;
      simulationActive := true;
    }

    /** The reset button: a full, stopped countdown and no simulation. */
    method Reset()
      modifies this
      ensures Valid()
      ensures ClockState() == Clock(StationSeconds, false, false)
      ensures viewMode == old(viewMode) && station == old(station)
    {
      timer := StationSeconds;
      timerActive := false;
      simulationActive := false;
    }

    /** `generateStation`: the screen is reset as by the reset button, the
        candidate view is shown and the old station dropped; the station the
        generator returned is kept only when it has a non-empty title. A
        failed call is `None`. */
    method GenerateStation(reply: Option<Station>)
      modifies this
      ensures Valid()
      ensures ClockState() == Clock(StationSeconds, false, false)
      ensures viewMode == Candidate
      ensures station == (if reply.Some? && reply.value.title != "" then reply else None)
    {
      station := None;
      timer := StationSeconds;
      timerActive := false;
      viewMode := Candidate;
      simulationActive := false;
      if reply.Some? && reply.value.title != "" {
        station := reply;
      }
    }

    /** The examiner / candidate switch. */
    method SetViewMode(mode: ViewMode)
      modifies this
      ensures viewMode == mode
      ensures ClockState() == old(ClockState()) && station == old(station)
    {
      viewMode := mode;
    }
  }
}
