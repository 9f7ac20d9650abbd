/** Seconds and microseconds, as the agent adds and subtracts them. */
module Timevals {

  const MILLION := 1000000

  datatype Timeval = Timeval(sec: int, usec: int)

  predicate Normal(t: Timeval) {
    0 <= t.usec < MILLION
  }

  function Micros(t: Timeval): int {
    t.sec * MILLION + t.usec
  }

  predicate Before(a: Timeval, b: Timeval) {
    a.sec < b.sec || (a.sec == b.sec && a.usec < b.usec)
  }

  lemma NotBeforeItself(t: Timeval)
    ensures !Before(t, t)
  {
  }

  function Diff(start: Timeval, end: Timeval): Timeval {
    if end.usec < start.usec then Timeval(end.sec - start.sec - 1, MILLION + end.usec - start.usec)
    else Timeval(end.sec - start.sec, end.usec - start.usec)
  }

  /** One carry only. */
  function Add(absolute: Timeval, relative: Timeval): Timeval {
    var usec := absolute.usec + relative.usec;
    if usec >= MILLION then Timeval(absolute.sec + relative.sec + 1, usec - MILLION)
    else Timeval(absolute.sec + relative.sec, usec)
  }

  lemma DiffExact(start: Timeval, end: Timeval)
    requires Normal(start) && end.usec >= 0
    ensures Micros(Diff(start, end)) == Micros(end) - Micros(start) && Diff(start, end).usec >= 0
    ensures !Before(end, start) ==> Diff(start, end).sec >= 0
    ensures Normal(Diff(start, end)) <==> end.usec - start.usec < MILLION
  {
  }

  /** One carry is enough exactly when the microseconds come to less than two seconds. */
  lemma AddNormal(absolute: Timeval, relative: Timeval)
    requires Normal(absolute) && relative.usec >= 0
    ensures Micros(Add(absolute, relative)) == Micros(absolute) + Micros(relative)
    ensures Normal(Add(absolute, relative)) <==> absolute.usec + relative.usec < 2 * MILLION
  {
  }

  /** The jiffies in a span, counted as whole seconds and the rest. */
  function Jiffies(t: Timeval): int {
    100 * t.sec + t.usec / 10000
  }

  lemma JiffiesExact(t: Timeval)
    ensures Jiffies(t) == Micros(t) / 10000
  {
  }
}
