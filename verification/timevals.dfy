// struct timeval and the arithmetic thread.c does on it.
module Timevals {
  import opened Arithmetic

  datatype Timeval = Timeval(sec: int, usec: int)

  const SECOND_MICRO := 1000000

  function Micros(t: Timeval): int {
    t.sec * SECOND_MICRO + t.usec
  }

  predicate Normal(t: Timeval) {
    0 <= t.usec < SECOND_MICRO
  }

  // The sign orders the two times.
  function Cmp(a: Timeval, b: Timeval): int {
    if a.sec == b.sec then a.usec - b.usec else a.sec - b.sec
  }

  // The normal form of a span of n microseconds.
  function FromMicros(n: int): (t: Timeval)
    ensures Normal(t) && Micros(t) == n
  {
    Timeval(n / SECOND_MICRO, n % SECOND_MICRO)
  }

  function Clamped(a: Timeval): Timeval {
    FromMicros(if Micros(a) < 0 then 0 else Micros(a))
  }

  // t is the normal form of n microseconds, or of none if n is negative.
  predicate Spells(t: Timeval, n: int) {
    0 <= t.usec < 1000000 && t.sec * 1000000 + t.usec == if n < 0 then 0 else n
  }

  lemma NormalFormIsUnique(a: Timeval, b: Timeval)
    requires Normal(a) && Normal(b) && Micros(a) == Micros(b)
    ensures a == b
  {
  }

  lemma CmpOrdersMicros(a: Timeval, b: Timeval)
    requires Normal(a) && Normal(b)
    ensures Cmp(a, b) < 0 <==> Micros(a) < Micros(b)
    ensures Cmp(a, b) == 0 <==> a == b
    ensures Micros(a) == a.sec * 1000000 + a.usec
  {
  }

  // When a timer set at now to wait goes off.
  function Alarm(now: Timeval, wait: Timeval): Timeval {
    Clamped(Timeval(now.sec + wait.sec, now.usec + wait.usec))
  }

  // A timer goes off the span waited for after now, or at once if that would be before time 0.
  lemma AlarmSpells(now: Timeval, wait: Timeval)
    ensures Spells(Alarm(now, wait), now.sec * 1000000 + now.usec + (wait.sec * 1000000 + wait.usec))
  {
  }

  // Splitting a span of milliseconds the C way does not change when the timer goes off.
  lemma MsecAlarm(now: Timeval, ms: int)
    ensures Alarm(now, Timeval(CDiv(ms, 1000), 1000 * CMod(ms, 1000))) == Alarm(now, FromMicros(1000 * ms))
  {
  }

  lemma AlarmIsLater(now: Timeval, wait: Timeval)
    requires Normal(now) && now.sec >= 0
    ensures Micros(wait) > 0 ==> Cmp(now, Alarm(now, wait)) < 0
    ensures Micros(wait) <= 0 ==> Cmp(now, Alarm(now, wait)) >= 0
    ensures Normal(Alarm(now, wait))
  {
    var a := Alarm(now, wait);
    CmpOrdersMicros(now, a);
    assert Micros(Timeval(now.sec + wait.sec, now.usec + wait.usec)) == Micros(now) + Micros(wait);
  }

  method Adjust(a: Timeval) returns (r: Timeval)
    ensures r == Clamped(a) && Spells(r, a.sec * 1000000 + a.usec)
  {
    r := a;
    while r.usec >= SECOND_MICRO
      invariant Micros(r) == Micros(a)
      invariant r.usec >= 0 || r == a
    {
      r := Timeval(r.sec + 1, r.usec - SECOND_MICRO);
    }
    while r.usec < 0
      invariant Micros(r) == Micros(a) && r.usec < SECOND_MICRO
    {
      r := Timeval(r.sec - 1, r.usec + SECOND_MICRO);
    }
    if r.sec < 0 {
      r := Timeval(0, 0);
    }
    NormalFormIsUnique(r, Clamped(a));
  }

  method Subtract(a: Timeval, b: Timeval) returns (r: Timeval)
    ensures r == Clamped(Timeval(a.sec - b.sec, a.usec - b.usec))
    ensures Spells(r, a.sec * 1000000 + a.usec - (b.sec * 1000000 + b.usec))
  {
    r := Adjust(Timeval(a.sec - b.sec, a.usec - b.usec));
  }
}
