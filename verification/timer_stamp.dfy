/** Time stamps in microseconds since the epoch, and the delay handed to the one-shot alarm. */
module TimerStamps {

  type Stamp = int

  const MICROSECONDS_PER_SECOND := 1000 * 1000

  predicate Valid(t: Stamp) {
    t > 0
  }

  /** The conversion from `double` to `int64_t`: towards zero. */
  function Truncate(x: real): int {
    if x >= 0.0 then x.Floor else -((-x).Floor)
  }

  /** An interval in seconds as a whole number of microseconds. */
  function Delta(seconds: real): (d: int)
    ensures seconds >= 0.0 ==> d >= 0 && d as real <= seconds * 1000000.0 < (d + 1) as real
  {
    Truncate(seconds * 1000000.0)
  }

  function AddTime(t: Stamp, seconds: real): (later: Stamp)
    ensures seconds >= 0.0 ==> (later - t) as real <= seconds * 1000000.0 < (later - t + 1) as real
  {
    t + Delta(seconds)
  }

  datatype Timespec = Timespec(sec: int, nsec: int) {
    function Microseconds(): int {
      sec * MICROSECONDS_PER_SECOND + nsec / 1000
    }
  }

  /** The delay until `when`, never less than 100 microseconds, in the form timerfd_settime takes. */
  function HowMuchTimeFromNow(when: Stamp, now: Stamp): (ts: Timespec)
    ensures ts.sec >= 0 && 0 <= ts.nsec < 1_000_000_000
    ensures now + ts.sec * 1_000_000 + ts.nsec / 1000 == (if when < now + 100 then now + 100 else when)
    ensures ts.Microseconds() == ts.sec * 1_000_000 + ts.nsec / 1000
  {
    var us := when - now;
    var microseconds := if us < 100 then 100 else us;
    Timespec(microseconds / MICROSECONDS_PER_SECOND, (microseconds % MICROSECONDS_PER_SECOND) * 1000)
  }
}
