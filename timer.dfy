/**
 * The game clock, `timerView`, index.js:243-275.  `start` creates a tick
 * closure over fresh `seconds`/`minutes` counters that runs once a second
 * (index.js:249-261); `stop` cancels it; `reset` stops it and shows 0:00
 * (index.js:265-269).  The one-second interval itself is an input event.
 */
module Timer {

  /** A clock reading. */
  datatype Time = Time(seconds: nat, minutes: nat)

  /** The reading in seconds. */
  function TotalSeconds(t: Time): nat {
    t.minutes * 60 + t.seconds
  }

  /** One tick of `incrementSecond`, index.js:251-259. */
  function Advance(t: Time): (r: Time)
    ensures TotalSeconds(r) == TotalSeconds(t) + 1
    ensures t.seconds < 60 ==> r.seconds < 60
    ensures r.minutes == t.minutes || (r.minutes == t.minutes + 1 && r.seconds == 0)
  {
    if t.seconds + 1 == 60 then Time(0, t.minutes + 1) else Time(t.seconds + 1, t.minutes)
  }

  /** `n` ticks from 0:00 read as `n` seconds, split into minutes and seconds. */
  function AfterTicks(n: nat): Time
    decreases n
  {
    if n == 0 then Time(0, 0) else Advance(AfterTicks(n - 1))
  }

  /** Seconds and minutes of the next second. */
  lemma MinuteRollover(m: nat)
    ensures m % 60 + 1 == 60 ==> (m + 1) % 60 == 0 && (m + 1) / 60 == m / 60 + 1
    ensures m % 60 + 1 != 60 ==> (m + 1) % 60 == m % 60 + 1 && (m + 1) / 60 == m / 60
  {
    assert m == 60 * (m / 60) + m % 60;
  }

  lemma {:induction false} AfterTicksReading(n: nat)
    ensures TotalSeconds(AfterTicks(n)) == n && AfterTicks(n).seconds < 60
    ensures AfterTicks(n) == Time(n % 60, n / 60)
    decreases n
  {
    if n > 0 {
      AfterTicksReading(n - 1);
      MinuteRollover(n - 1);
    }
  }

  /** The running state of `timerView` and the time it last reported. */
  class Clock {
    var seconds: nat
    var minutes: nat
    var running: bool

    function Reading(): Time
      reads this
    {
      Time(seconds, minutes)
    }

    /** Before the first `start` the clock shows 0:00 and is idle. */
    constructor ()
      ensures Reading() == Time(0, 0) && !running
    {
      seconds, minutes, running := 0, 0, false;
    }

    /** `start`: a fresh closure counting from 0:00 begins to tick. */
    method Start()
      modifies this
      ensures Reading() == Time(0, 0) && running
    {
      seconds, minutes := 0, 0;
      running := true;
    }

    /** One interval tick: advances the reading, if the interval is live. */
    method Tick()
      modifies this
      ensures running == old(running)
      ensures Reading() == if old(running) then Advance(old(Reading())) else old(Reading())
    {
      if running {
        if seconds + 1 == 60 {
          minutes := minutes + 1;
          seconds := 0;
        } else {
          seconds := seconds + 1;
        }
      }
    }

    /** `stop`: the interval is cleared; the reading stays. */
    method Stop()
      modifies this
      ensures !running && Reading() == old(Reading())
    {
      running := false;
    }

    /** `reset`: stop, then report 0:00. */
    method Reset()
      modifies this
      ensures !running && Reading() == Time(0, 0)
    {
      Stop();
      seconds, minutes := 0, 0;
    }
  }
}
