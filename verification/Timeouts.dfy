/** The unit of an event's timeout: lib/scheduler.h documents seconds, task_event_collect counts milliseconds. */
module Timeouts {
  import opened Tasks
  import opened Readiness

  /** What task_event_collect would make of an event if its timeout were in seconds. */
  function LookInSeconds(task: Task, event: Event, reading: Reading, limit: int): Look
  {
    if event.flags.alwaysOn || Expired(task, reading.seconds, limit) then RunNow
    else if event.flags.timeout then
      if Elapsed(reading.moment, event.stamp) >= 1000 * event.timeout then RunNow else NotYet
    else Poll
  }

  /** An event the timeout decides. */
  predicate Timed(task: Task, event: Event, reading: Reading, limit: int)
  {
    event.flags.timeout && !event.flags.alwaysOn && !Expired(task, reading.seconds, limit)
  }

  /** Whether the two units give the same answer after this many milliseconds. */
  predicate UnitsAgree(elapsed: int, timeout: int)
  {
    if timeout >= 0 then elapsed < timeout || elapsed >= 1000 * timeout
    else elapsed < 1000 * timeout || elapsed >= timeout
  }

  lemma SameLookIff(task: Task, event: Event, reading: Reading, limit: int)
    requires Timed(task, event, reading, limit)
    ensures LookAt(task, event, reading, limit) == LookInSeconds(task, event, reading, limit)
       <==> UnitsAgree(Elapsed(reading.moment, event.stamp), event.timeout)
  {}

  function Microseconds(now: Time, stamp: Time): int { (now.sec - stamp.sec) * 1000000 + (now.usec - stamp.usec) }

  /** When a timeout is over, counted in microseconds; whole milliseconds are cut off toward zero. Past 2^31
    * milliseconds, some 24 days, the count is cut to 32 bits. */
  lemma OverIff(now: Time, stamp: Time, timeout: int)
    requires -0x8000_0000 * 1000 <= Microseconds(now, stamp) < 0x8000_0000 * 1000
    ensures Elapsed(now, stamp) >= timeout
       <==> if timeout > 0 then Microseconds(now, stamp) >= 1000 * timeout
            else Microseconds(now, stamp) > 1000 * (timeout - 1)
  {
    var us := Microseconds(now, stamp);
    var ms := TruncatedQuotient(us, 1000);
    assert if us >= 0 then 1000 * ms <= us < 1000 * ms + 1000 else 1000 * ms - 1000 < us <= 1000 * ms;
    assert ToInt32(ms) == ms;
  }

  /** The moment some milliseconds after a stamp. */
  function Later(stamp: Time, ms: int): Time
  {
    var usec := stamp.usec + 1000 * ms;
    Time(stamp.sec + usec / 1000000, usec % 1000000)
  }

  lemma ElapsedLater(stamp: Time, ms: int)
    requires -0x8000_0000 <= ms < 0x8000_0000
    ensures Elapsed(Later(stamp, ms), stamp) == ms
  {
    var now := Later(stamp, ms);
    assert (now.sec - stamp.sec) * 1000000 + now.usec - stamp.usec == 1000 * ms;
    assert TruncatedQuotient(1000 * ms, 1000) == ms;
  }

  /** A timeout of 50, as proxy_monitor binds it, is due after 50 milliseconds. */
  lemma FiftyIsMilliseconds(task: Task, stamp: Time)
    ensures var event := Event(3, Flags(false, false, false, true), stamp, 50);
            var reading := Reading(task.accessTime, Later(stamp, 50));
            && LookAt(task, event, reading, 20) == RunNow
            && LookInSeconds(task, event, reading, 20) == NotYet
  {
    ElapsedLater(stamp, 50);
  }

  /** Of the timeouts an int can hold, only these two mean the same in both units at every moment. */
  lemma SameLookAlwaysIff(event: Event)
    requires event.flags.timeout && !event.flags.alwaysOn && -0x8000_0000 <= event.timeout < 0x8000_0000
    ensures (forall task, reading, limit | Timed(task, event, reading, limit) ::
               LookAt(task, event, reading, limit) == LookInSeconds(task, event, reading, limit))
       <==> event.timeout == 0 || event.timeout == -0x8000_0000
  {
    var t := event.timeout;
    if t == 0 || t == -0x8000_0000 {
      forall task, reading, limit | Timed(task, event, reading, limit)
        ensures LookAt(task, event, reading, limit) == LookInSeconds(task, event, reading, limit)
      {
        SameLookIff(task, event, reading, limit);
      }
    } else {
      var task := Task(1, 0, None, [], 0, [event]);
      var ms := if t > 0 then t else t - 1;
      var reading := Reading(0, Later(event.stamp, ms));
      ElapsedLater(event.stamp, ms);
      assert Timed(task, event, reading, 0);
      SameLookIff(task, event, reading, 0);
    }
  }
}
