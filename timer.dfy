/** The timer state machine of app.js: the globals `isRunning`, `seconds`,
    `minutes` and `hours`, changed by startTimer, pauseTimer, resetTimer and by
    the body of the one-second interval callback, here an explicit Tick. */
module Timer {
  import opened Clock

  class StudyTimer {
    var isRunning: bool
    var seconds: int
    var minutes: int
    var hours: int

    /** The counters as a value. */
    function Counters(): Hms
      reads this
    {
      Hms(hours, minutes, seconds)
    }

    /** The counters are in range; every operation below keeps this. */
    ghost predicate Valid()
      reads this
    {
      Counters().Valid()
    }

    /** The timer as the page loads it: stopped, all counters zero. */
    constructor ()
      ensures Valid()
      ensures !isRunning && Counters() == Zero
    {
      isRunning := false;
      seconds, minutes, hours := 0, 0, 0;
    }

    /** startTimer: a running timer is left alone; a stopped one starts
        running with its counters as they were. */
    method Start()
      modifies this
      ensures isRunning
      ensures Counters() == old(Counters())
      ensures old(isRunning) ==> unchanged(this)
    {
      if !isRunning {
        isRunning := true;
      }
    }

    /** pauseTimer: a running timer stops with its counters as they were;
        a stopped one is left alone. */
    method Pause()
      modifies this
      ensures !isRunning
      ensures Counters() == old(Counters())
      ensures !old(isRunning) ==> unchanged(this)
    {
      if isRunning {
        isRunning := false;
      }
    }

    /** resetTimer: whatever the state before, the timer is stopped at zero.
        The new state does not depend on the old one, so a second reset
        changes nothing. */
    method Reset()
      modifies this
      ensures Valid()
      ensures !isRunning && Counters() == Zero
    {
      isRunning := false;
      seconds := 0;
      minutes := 0;
      hours := 0;
    }

    /** One firing of the interval callback, which is armed only while the
        timer runs: the counters move on by one second with the carries. */
    method Tick()
      requires isRunning
      modifies this
      ensures isRunning
      ensures Counters() == Next(old(Counters()))
      ensures Counters().Total() == old(Counters().Total()) + 1
      ensures old(Valid()) ==> Valid()
    {
      seconds := seconds + 1;
      if seconds == 60 {
        seconds := 0;
        minutes := minutes + 1;
        if minutes == 60 {
          minutes := 0;
          hours := hours + 1;
        }
      }
    }
  }
}
