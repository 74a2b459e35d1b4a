/** Relative time of tools/wifi_wpa_cli/os.h, with an `os_time_t` that does not overflow. */
module RelTime {
  datatype Time = Time(sec: int, usec: int)

  const MILLION: int := 1_000_000

  predicate Normal(t: Time) { 0 <= t.usec < MILLION }

  function Micros(t: Time): int { t.sec * MILLION + t.usec }

  /** os_reltime_before. */
  predicate Before(a: Time, b: Time) {
    a.sec < b.sec || (a.sec == b.sec && a.usec < b.usec)
  }

  /** os_reltime_sub. */
  function Sub(a: Time, b: Time): (r: Time)
    ensures Micros(r) == Micros(a) - Micros(b)
    ensures Normal(a) && Normal(b) ==> Normal(r)
  {
    if a.usec - b.usec < 0 then Time(a.sec - b.sec - 1, a.usec - b.usec + MILLION)
    else Time(a.sec - b.sec, a.usec - b.usec)
  }

  /** The comparison is that of the number of microseconds, as soon as both times are normalised. */
  lemma BeforeMicros(a: Time, b: Time)
    requires Normal(a) && Normal(b)
    ensures Before(a, b) <==> Micros(a) < Micros(b)
    ensures a == b <==> Micros(a) == Micros(b)
  {}

  /** The deadline computed by eloop_register_timeout. */
  method Deadline(now: Time, secs: nat, usecs: nat) returns (t: Time)
    requires Normal(now)
    ensures t == After(now, secs, usecs)
  {
    var sec, usec := now.sec + secs, now.usec + usecs;
    while usec >= MILLION
      invariant usec >= 0 && Micros(Time(sec, usec)) == Micros(now) + secs * MILLION + usecs
    {
      sec, usec := sec + 1, usec - MILLION;
    }
    t := Time(sec, usec);
    BeforeMicros(t, After(now, secs, usecs));
  }

  function After(now: Time, secs: nat, usecs: nat): (t: Time)
    requires Normal(now)
    ensures Normal(t) && Micros(t) == Micros(now) + secs * MILLION + usecs
    ensures !Before(t, now)
  {
    var usec := now.usec + usecs;
    Time(now.sec + secs + usec / MILLION, usec % MILLION)
  }
}
