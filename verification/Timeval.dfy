/** `struct timeval` and the macros of `sys/time.h` that the event loop uses,
    related to plain integer microseconds. */
module Timeval {

  const MICROS: int := 1_000_000

  datatype Timeval = Timeval(sec: int, usec: int)

  predicate Normal(t: Timeval) {
    0 <= t.usec < MICROS
  }

  function Micros(t: Timeval): int {
    t.sec * MICROS + t.usec
  }

  /** `timeradd`. */
  function Add(a: Timeval, b: Timeval): Timeval {
    var sec, usec := a.sec + b.sec, a.usec + b.usec;
    if usec >= MICROS then Timeval(sec + 1, usec - MICROS) else Timeval(sec, usec)
  }

  /** `timersub`. */
  function Sub(a: Timeval, b: Timeval): Timeval {
    var sec, usec := a.sec - b.sec, a.usec - b.usec;
    if usec < 0 then Timeval(sec - 1, usec + MICROS) else Timeval(sec, usec)
  }

  /** `timercmp(a, b, <)`. */
  predicate Less(a: Timeval, b: Timeval) {
    if a.sec == b.sec then a.usec < b.usec else a.sec < b.sec
  }

  /** The interval that `watch_timer_add` makes of a timeout in milliseconds. */
  function FromMs(ms: nat): (t: Timeval)
    ensures Normal(t) && Micros(t) == 1000 * ms
  {
    Timeval(ms / 1000, ms % 1000 * 1000)
  }

  /** On normalized values the macros compute on microseconds, keep values
      normalized, and the sign of a difference is the sign of its seconds. */
  lemma {:induction false} MacrosAreArithmetic(a: Timeval, b: Timeval)
    requires Normal(a) && Normal(b)
    ensures Normal(Add(a, b)) && Micros(Add(a, b)) == Micros(a) + Micros(b)
    ensures Normal(Sub(a, b)) && Micros(Sub(a, b)) == Micros(a) - Micros(b)
    ensures Less(a, b) <==> Micros(a) < Micros(b)
    ensures Sub(a, b).sec < 0 <==> Micros(a) < Micros(b)
  {}
}
