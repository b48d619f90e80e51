/** struct timeval and the macros of <sys/time.h> the client computes with. */
module Time {
  const MILLION := 1_000_000

  datatype TimeVal = TimeVal(sec: int, usec: int)

  /** The width of time_t on the target. */
  datatype Width = Bits32 | Bits64

  const CLEARED := TimeVal(0, 0)

  function MaxSec(w: Width): int {
    if w.Bits32? then 0x7fff_ffff else 0x7fff_ffff_ffff_ffff
  }

  /** Two's complement truncation to the width of time_t. */
  function Wrap(w: Width, x: int): int {
    if w.Bits32? then (x + 0x8000_0000) % 0x1_0000_0000 - 0x8000_0000
    else (x + 0x8000_0000_0000_0000) % 0x1_0000_0000_0000_0000 - 0x8000_0000_0000_0000
  }

  predicate Normal(t: TimeVal) {
    0 <= t.usec < MILLION
  }

  predicate InRange(w: Width, t: TimeVal) {
    Normal(t) && -MaxSec(w) - 1 <= t.sec <= MaxSec(w)
  }

  /** The last second a clock shows: on 64-bit time, one from which no 32-bit interval overflows. */
  function ClockLimit(w: Width): int {
    if w.Bits32? then MaxSec(w) else MaxSec(w) - 0x1_0000_0100
  }

  /** What a clock that has been set returns: normalised, after the epoch. */
  predicate Clock(w: Width, t: TimeVal) {
    Normal(t) && 0 < t.sec <= ClockLimit(w)
  }

  function Micros(t: TimeVal): int {
    t.sec * MILLION + t.usec
  }

  /** timercmp(a, b, <) */
  predicate Before(a: TimeVal, b: TimeVal) {
    if a.sec == b.sec then a.usec < b.usec else a.sec < b.sec
  }

  /** timerisset */
  predicate IsSet(t: TimeVal) {
    t.sec != 0 || t.usec != 0
  }

  /** timeradd */
  function TimerAdd(w: Width, a: TimeVal, b: TimeVal): TimeVal {
    var sec := Wrap(w, a.sec + b.sec);
    var usec := a.usec + b.usec;
    if usec >= MILLION then TimeVal(Wrap(w, sec + 1), usec - MILLION) else TimeVal(sec, usec)
  }

  /** timersub */
  function TimerSub(w: Width, a: TimeVal, b: TimeVal): TimeVal {
    var sec := Wrap(w, a.sec - b.sec);
    var usec := a.usec - b.usec;
    if usec < 0 then TimeVal(Wrap(w, sec - 1), usec + MILLION) else TimeVal(sec, usec)
  }

  /** The instant `us` microseconds after t, as a normalised time_t pair. */
  function Shift(w: Width, t: TimeVal, us: int): (r: TimeVal)
    ensures Normal(r)
  {
    var m := Micros(t) + us;
    TimeVal(Wrap(w, m / MILLION), m % MILLION)
  }

  function Earlier(a: TimeVal, b: TimeVal): TimeVal {
    if Before(b, a) then b else a
  }

  lemma BeforeIsMicros(a: TimeVal, b: TimeVal)
    requires Normal(a) && Normal(b)
    ensures Before(a, b) <==> Micros(a) < Micros(b)
    ensures a == b <==> Micros(a) == Micros(b)
  {
  }

  lemma WrapIdentity(w: Width, x: int)
    requires -MaxSec(w) - 1 <= x <= MaxSec(w)
    ensures Wrap(w, x) == x
  {
  }

  lemma WrapWrap(w: Width, x: int, y: int)
    ensures Wrap(w, Wrap(w, x) + y) == Wrap(w, x + y)
    ensures -MaxSec(w) - 1 <= Wrap(w, x) <= MaxSec(w)
  {
  }

  /** Adding a pair the C way, even one with usec == 1000000, shifts by its microseconds. */
  lemma AddIsShift(w: Width, a: TimeVal, b: TimeVal)
    requires Normal(a) && 0 <= b.usec <= MILLION
    ensures TimerAdd(w, a, b) == Shift(w, a, Micros(b))
  {
    var usec := a.usec + b.usec;
    WrapWrap(w, a.sec + b.sec, 1);
    if usec >= MILLION {
      assert Micros(a) + Micros(b) == (a.sec + b.sec + 1) * MILLION + (usec - MILLION);
    } else {
      assert Micros(a) + Micros(b) == (a.sec + b.sec) * MILLION + usec;
    }
  }

  lemma SubIsShift(w: Width, a: TimeVal, b: TimeVal)
    requires Normal(a) && Normal(b)
    ensures TimerSub(w, a, b) == Shift(w, a, -Micros(b))
  {
    var usec := a.usec - b.usec;
    WrapWrap(w, a.sec - b.sec, -1);
    if usec < 0 {
      assert Micros(a) - Micros(b) == (a.sec - b.sec - 1) * MILLION + (usec + MILLION);
    } else {
      assert Micros(a) - Micros(b) == (a.sec - b.sec) * MILLION + usec;
    }
  }

  /** A shift whose result fits in time_t is exact. */
  lemma ShiftExact(w: Width, t: TimeVal, us: int)
    requires -MaxSec(w) - 1 <= (Micros(t) + us) / MILLION <= MaxSec(w)
    ensures Micros(Shift(w, t, us)) == Micros(t) + us
  {
    WrapIdentity(w, (Micros(t) + us) / MILLION);
  }

  /** Overflow only ever moves an instant back. */
  lemma ShiftNoLater(w: Width, t: TimeVal, us: int)
    requires 0 <= Micros(t) + us
    ensures Micros(Shift(w, t, us)) <= Micros(t) + us
  {
    assert Wrap(w, (Micros(t) + us) / MILLION) <= (Micros(t) + us) / MILLION;
  }

  lemma ShiftShift(w: Width, t: TimeVal, a: int, b: int)
    ensures Shift(w, Shift(w, t, a), b) == Shift(w, t, a + b)
  {
    var m := Micros(t) + a;
    var q, r := m / MILLION, m % MILLION;
    assert m == q * MILLION + r;
    var c := (r + b) / MILLION;
    assert r + b == c * MILLION + (r + b) % MILLION;
    assert m + b == (q + c) * MILLION + (r + b) % MILLION;
    assert (m + b) / MILLION == q + c && (m + b) % MILLION == (r + b) % MILLION;
    var s := Wrap(w, q);
    assert s * MILLION + r + b == (s + c) * MILLION + (r + b) % MILLION;
    assert (s * MILLION + r + b) / MILLION == s + c;
    WrapWrap(w, q, c);
  }
}
