/** The client-side Timer component: a start/stop/tick machine over its
    state hooks, and the `HH:MM:SS` display. */
module TimerComponent {
  import opened Base
  import opened Decimal

  const AlreadyRunning: string := "Timer is already running"
  const NothingToStop: string := "No active timer to stop"

  /** The session handed to `onTimerStop`; `duration` counts elapsed ticks (seconds). */
  datatype TimerReport = TimerReport(startTime: Time, endTime: Time, duration: nat)

  /** The component's state: `isRunning`, `time` (ticks since start),
      `startTime` (null until the first start) and `error`. */
  class Timer {
    var isRunning: bool
    var time: nat
    var startTime: Option<Time>
    var error: string

    /** A running timer always has a start time. */
    ghost predicate Valid()
      reads this
    {
      isRunning ==> startTime.Some?
    }

    /** The initial hook values. */
    constructor ()
      ensures Valid()
      ensures !isRunning && time == 0 && startTime == None && error == ""
    {
      isRunning := false;
      time := 0;
      startTime := None;
      error := "";
    }

    /** `startTimer`, with `now` the value of `new Date()`. */
    method StartTimer(now: Time)
      requires Valid()
      modifies this
      ensures Valid() && isRunning
      ensures old(isRunning) ==>
                error == AlreadyRunning && time == old(time) && startTime == old(startTime)
      ensures !old(isRunning) ==> error == "" && time == 0 && startTime == Some(now)
    {
      if isRunning {
        error := AlreadyRunning;
        return;
      }
      error := "";
      isRunning := true;
      startTime := Some(now);
      time := 0;
    }

    /** One firing of the one-second interval, which exists only while running. */
    method Tick()
      requires Valid()
      modifies this
      ensures Valid()
      ensures time == if old(isRunning) then old(time) + 1 else old(time)
      ensures isRunning == old(isRunning) && startTime == old(startTime) && error == old(error)
    {
      if isRunning {
        time := time + 1;
      }
    }

    /** `stopTimer`, with `now` the value of `new Date()`; the result is the
        session passed to `onTimerStop`, or `None` when nothing is reported. */
    method StopTimer(now: Time) returns (report: Option<TimerReport>)
      requires Valid()
      modifies this
      ensures Valid() && !isRunning && time == old(time) && startTime == old(startTime)
      ensures !old(isRunning) ==> report == None && error == NothingToStop
      ensures old(isRunning) ==>
                error == "" && report == Some(TimerReport(old(startTime).GetOr(now), now, old(time)))
    {
      if !isRunning {
        error := NothingToStop;
        return None;
      }
      error := "";
      isRunning := false;
      var started := startTime.GetOr(now);
      report := Some(TimerReport(started, now, time));
    }
  }

  /** A full run: start at `t0`, `n` ticks, stop at `t1`. The reported
      duration is exactly the number of ticks. */
  method RunFor(n: nat, t0: Time, t1: Time) returns (report: Option<TimerReport>)
    ensures report == Some(TimerReport(t0, t1, n))
  {
    var timer := new Timer();
    timer.StartTimer(t0);
    var k := 0;
    while k < n
      invariant 0 <= k <= n
      invariant timer.Valid() && timer.isRunning
      invariant timer.time == k && timer.startTime == Some(t0)
    {
      timer.Tick();
      k := k + 1;
    }
    report := timer.StopTimer(t1);
  }

  /** Both refusals: a second start while running keeps the first start and
      the count so far and sets its message; a stop of a stopped timer reports
      nothing, keeps the count and sets its message. */
  method Refusals(t0: Time, t1: Time, t2: Time, t3: Time)
    returns (second: string, first: Option<TimerReport>, report: Option<TimerReport>, afterStop: string, shown: nat)
    ensures second == AlreadyRunning
    ensures first == Some(TimerReport(t0, t2, 1))
    ensures report == None && afterStop == NothingToStop && shown == 1
  {
    var timer := new Timer();
    timer.StartTimer(t0);
    timer.Tick();
    timer.StartTimer(t1);
    second := timer.error;
    first := timer.StopTimer(t2);
    report := timer.StopTimer(t3);
    afterStop := timer.error;
    shown := timer.time;
  }

  /** The `hours`, `minutes` and `remainingSeconds` of `formatTime`. */
  function ClockFields(seconds: nat): (f: (nat, nat, nat))
    ensures f.0 * 3600 + f.1 * 60 + f.2 == seconds
    ensures f.1 < 60 && f.2 < 60
  {
    (seconds / 3600, (seconds % 3600) / 60, seconds % 60)
  }

  /** Quotient and remainder are determined by `a == q * b + r` with `0 <= r < b`. */
  lemma DivModUnique(a: nat, b: nat, q: nat, r: nat)
    requires 0 < b && a == q * b + r && r < b
    ensures a / b == q && a % b == r
  {
    var q', r' := a / b, a % b;
    var d := q - q';
    assert d * b == r' - r by {
      assert q * b - q' * b == (q - q') * b;
    }
  }

  /** The fields above determine `seconds` uniquely. */
  lemma ClockFieldsUnique(seconds: nat, h: nat, m: nat, s: nat)
    requires h * 3600 + m * 60 + s == seconds && m < 60 && s < 60
    ensures ClockFields(seconds) == (h, m, s)
  {
    var rest := m * 60 + s;
    DivModUnique(seconds, 3600, h, rest);
    DivModUnique(rest, 60, m, s);
    DivModUnique(seconds, 60, h * 60 + m, s);
  }

  function Pad2(n: nat): (r: string)
    ensures AllDigits(r) && |r| >= 2 && ValueOf(r) == n
    ensures n < 100 ==> |r| == 2
  {
    ZeroPadded(ToDecimal(n), 2);
    PadStart(ToDecimal(n), 2, '0')
  }

  /** `formatTime(seconds)`: each field zero-padded to two digits, joined by colons. */
  function FormatTime(seconds: nat): (r: string)
    ensures seconds < 360000 ==> |r| == 8
  {
    var f := ClockFields(seconds);
    Pad2(f.0) + ":" + Pad2(f.1) + ":" + Pad2(f.2)
  }

  /** The `MM` field of a display. */
  function ClockMinutes(r: string): nat
    requires IsClock(r)
  {
    ValueOf(r[|r| - 5..|r| - 3])
  }

  /** The `SS` field of a display. */
  function ClockSecondsField(r: string): nat
    requires IsClock(r)
  {
    ValueOf(r[|r| - 2..])
  }

  /** A `H..H:MM:SS` display: digits, a colon, two digits, a colon, two digits. */
  predicate IsClock(r: string) {
    && |r| >= 8 && r[|r| - 6] == ':' && r[|r| - 3] == ':'
    && AllDigits(r[..|r| - 6]) && AllDigits(r[|r| - 5..|r| - 3]) && AllDigits(r[|r| - 2..])
  }

  /** The number of seconds a display shows. */
  function ClockSeconds(r: string): nat
    requires IsClock(r)
  {
    ValueOf(r[..|r| - 6]) * 3600 + ClockMinutes(r) * 60 + ClockSecondsField(r)
  }

  /** Reading back three joined digit fields gives each field, and their weighted sum. */
  lemma ParseJoined(hh: string, mm: string, ss: string, r: string)
    requires AllDigits(hh) && AllDigits(mm) && AllDigits(ss)
    requires |hh| >= 2 && |mm| == 2 && |ss| == 2
    requires r == hh + ":" + mm + ":" + ss
    ensures IsClock(r)
    ensures ClockMinutes(r) == ValueOf(mm) && ClockSecondsField(r) == ValueOf(ss)
    ensures ClockSeconds(r) == ValueOf(hh) * 3600 + ValueOf(mm) * 60 + ValueOf(ss)
  {
    JoinedSlices(hh, mm, ss, r);
    ReadSlices(hh, mm, ss, r);
  }

  /** A display cut into digit fields reads back field by field. */
  lemma ReadSlices(hh: string, mm: string, ss: string, r: string)
    requires AllDigits(hh) && AllDigits(mm) && AllDigits(ss)
    requires |mm| == 2 && |ss| == 2 && |r| == |hh| + 6 && |r| >= 8 && r[|r| - 6] == ':' && r[|r| - 3] == ':'
    requires r[..|r| - 6] == hh && r[|r| - 5..|r| - 3] == mm && r[|r| - 2..] == ss
    ensures IsClock(r)
    ensures ClockMinutes(r) == ValueOf(mm) && ClockSecondsField(r) == ValueOf(ss)
    ensures ClockSeconds(r) == ValueOf(hh) * 3600 + ValueOf(mm) * 60 + ValueOf(ss)
  {
  }

  /** Where the fields of a joined display sit. */
  lemma JoinedSlices(hh: string, mm: string, ss: string, r: string)
    requires |mm| == 2 && |ss| == 2
    requires r == hh + ":" + mm + ":" + ss
    ensures |r| == |hh| + 6 && r[|r| - 6] == ':' && r[|r| - 3] == ':'
    ensures r[..|r| - 6] == hh && r[|r| - 5..|r| - 3] == mm && r[|r| - 2..] == ss
  {
    assert r[..|r| - 6] == hh;
    assert r[|r| - 5..|r| - 3] == mm;
    assert r[|r| - 2..] == ss;
  }

  /** Three padded fields, joined, read back as themselves. */
  lemma PaddedJoinReads(h: nat, m: nat, s: nat, r: string)
    requires r == Pad2(h) + ":" + Pad2(m) + ":" + Pad2(s)
    requires m < 60 && s < 60
    ensures IsClock(r) && ClockMinutes(r) == m && ClockSecondsField(r) == s
    ensures ClockSeconds(r) == h * 3600 + m * 60 + s
  {
    ParseJoined(Pad2(h), Pad2(m), Pad2(s), r);
  }

  /** The display loses nothing: reading it back gives the seconds it shows,
      and its minutes and seconds fields are each below 60. */
  lemma FormatTimeRoundTrip(seconds: nat)
    ensures IsClock(FormatTime(seconds)) && ClockSeconds(FormatTime(seconds)) == seconds
    ensures ClockMinutes(FormatTime(seconds)) < 60 && ClockSecondsField(FormatTime(seconds)) < 60
  {
    var f := ClockFields(seconds);
    PaddedJoinReads(f.0, f.1, f.2, FormatTime(seconds));
  }
}
