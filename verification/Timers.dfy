/**
 * Retransmission and lease timers (dhcpprotocol.c): exponential backoff, the
 * half-of-the-remaining-time rule, and the T1/T2/lease expiries of a binding.
 */
module Timers {
  import opened Bytes
  import opened Time

  function Pow2(n: nat): (r: nat)
    ensures r >= 1
  {
    if n == 0 then 1 else 2 * Pow2(n - 1)
  }

  function Min(a: nat, b: nat): nat {
    if a < b then a else b
  }

  const MINUTE := 60 * MILLION

  // ----- exponential backoff -----

  /** Microseconds before retry number cnt: 2^(min(cnt,5)+1) s, plus 1 s, minus 0 to 1.999 s. */
  function BackoffDelay(cnt: nat, random: nat): int {
    Pow2(Min(cnt, 5) + 1) * MILLION + MILLION - random % 2000 * 1000
  }

  function Backoff(w: Width, src: TimeVal, cnt: nat, random: nat): (dst: TimeVal)
    ensures Normal(dst)
  {
    Shift(w, src, BackoffDelay(cnt, random))
  }

  lemma Pow2Values()
    ensures Pow2(1) == 2 && Pow2(2) == 4 && Pow2(3) == 8 && Pow2(4) == 16 && Pow2(5) == 32 && Pow2(6) == 64
  {
    assert Pow2(2) == 4 && Pow2(3) == 8 && Pow2(4) == 16 && Pow2(5) == 32;
  }

  method DhcpBackoff(w: Width, src: TimeVal, count: nat, random: nat) returns (dst: TimeVal)
    requires Normal(src)
    ensures dst == Backoff(w, src, count, random)
  {
    var cnt := count;
    if cnt > 5 { cnt := 5; }
    ghost var k := cnt;
    var sec := 2;
    while cnt != 0
      invariant 0 <= cnt <= k
      invariant sec * Pow2(cnt) == Pow2(k + 1)
      decreases cnt
    {
      assert Pow2(cnt) == 2 * Pow2(cnt - 1);
      calc { sec * 2 * Pow2(cnt - 1); sec * (2 * Pow2(cnt - 1)); }
      sec := sec * 2;
      cnt := cnt - 1;
    }
    assert sec == Pow2(k + 1) by { assert Pow2(0) == 1; }
    var usec := 1000000 - random % 2000 * 1000;
    if usec < 0 {
      usec := usec + 1000000;
      sec := sec - 1;
    }
    var add := TimeVal(sec, usec);
    AddIsShift(w, src, add);
    dst := TimerAdd(w, src, add);
  }

  /** RFC 2131 section 4.1: 4, 8, .. 64 s randomised by a second either way. */
  lemma BackoffWindow(cnt: nat, random: nat)
    ensures var k := Min(cnt, 5);
            Pow2(k + 1) * MILLION - 999_000 <= BackoffDelay(cnt, random) <= Pow2(k + 1) * MILLION + MILLION
    ensures 1_001_000 <= BackoffDelay(cnt, random) <= 65 * MILLION
    ensures exists r: nat :: BackoffDelay(cnt, r) == Pow2(Min(cnt, 5) + 1) * MILLION + MILLION
    ensures exists r: nat :: BackoffDelay(cnt, r) == Pow2(Min(cnt, 5) + 1) * MILLION - 999_000
  {
    Pow2Values();
    assert BackoffDelay(cnt, 0) == Pow2(Min(cnt, 5) + 1) * MILLION + MILLION;
    assert BackoffDelay(cnt, 1999) == Pow2(Min(cnt, 5) + 1) * MILLION - 999_000;
  }

  /** The retry lies in the future exactly when its instant can be represented. */
  lemma BackoffLater(w: Width, now: TimeVal, cnt: nat, random: nat)
    requires Clock(w, now)
    ensures Before(now, Backoff(w, now, cnt, random))
       <==> (Micros(now) + BackoffDelay(cnt, random)) / MILLION <= MaxSec(w)
    ensures now.sec + 66 <= MaxSec(w) ==> Before(now, Backoff(w, now, cnt, random))
    ensures now.sec + 66 <= MaxSec(w) ==>
              Micros(Backoff(w, now, cnt, random)) == Micros(now) + BackoffDelay(cnt, random)
  {
    BackoffWindow(cnt, random);
    var m := Micros(now) + BackoffDelay(cnt, random);
    var dst := Backoff(w, now, cnt, random);
    assert now.sec < m / MILLION + 1 && m / MILLION <= now.sec + 66;
    if m / MILLION <= MaxSec(w) {
      ShiftExact(w, now, BackoffDelay(cnt, random));
      BeforeIsMicros(now, dst);
    } else {
      assert dst.sec < 0;
    }
  }

  // ----- half of the remaining time -----

  /** RFC 2131 section 4.4.5: half the remaining time, at least a minute, the deadline when that is near. */
  function BackoffMiddle(w: Width, now: TimeVal, to: TimeVal): TimeVal {
    var left := Micros(to) - Micros(now);
    if left < 66 * MILLION then to
    else if left / 2 < MINUTE then Shift(w, now, MINUTE)
    else Shift(w, now, left / 2)
  }

  /** Halves seconds and microseconds apart, an odd second turned into microseconds first. */
  method Halve(diff: TimeVal) returns (sec: int, usec: int)
    requires Normal(diff) && 0 <= diff.sec
    ensures 0 <= usec < MILLION && sec * MILLION + usec == Micros(diff) / 2
  {
    sec, usec := diff.sec, diff.usec;
    if sec % 2 == 1 {
      sec := sec - 1;
      usec := usec + 1000000;
    }
    sec := sec / 2;
    usec := usec / 2;
  }

  method DhcpBackoffMiddle(w: Width, now: TimeVal, to: TimeVal) returns (dst: TimeVal)
    requires Clock(w, now) && InRange(w, to) && Before(now, to)
    ensures dst == BackoffMiddle(w, now, to)
  {
    BeforeIsMicros(now, to);
    SubIsShift(w, to, now);
    ShiftExact(w, to, -Micros(now));
    var diff := TimerSub(w, to, now);
    assert Micros(diff) == Micros(to) - Micros(now) > 0;
    if diff.sec <= 65 {
      dst := to;
    } else {
      var sec, usec := Halve(diff);
      if sec < 60 {
        sec := 60;
        usec := 0;
      }
      AddIsShift(w, now, TimeVal(sec, usec));
      dst := TimerAdd(w, now, TimeVal(sec, usec));
    }
  }

  lemma BackoffMiddleBounds(w: Width, now: TimeVal, to: TimeVal)
    requires Clock(w, now) && InRange(w, to) && Before(now, to)
    ensures var left, dst := Micros(to) - Micros(now), BackoffMiddle(w, now, to);
            && InRange(w, dst) && 0 < dst.sec
            && Before(now, dst) && !Before(to, dst)
            && (dst == to || (left >= 66 * MILLION &&
                 Micros(dst) - Micros(now) == if left / 2 < MINUTE then MINUTE else left / 2))
            && (left < 66 * MILLION <==> dst == to)
  {
    BeforeIsMicros(now, to);
    var left := Micros(to) - Micros(now);
    if left >= 66 * MILLION {
      var step := if left / 2 < MINUTE then MINUTE else left / 2;
      assert now.sec <= (Micros(now) + step) / MILLION <= to.sec;
      ShiftExact(w, now, step);
    }
    var dst := BackoffMiddle(w, now, to);
    BeforeIsMicros(now, dst);
    BeforeIsMicros(to, dst);
  }

  /**
   * What is known after n requests aimed at `deadline`, the first of which was
   * sent no earlier than `start`: whenever the window is at most 2^k minutes,
   * no more than k + 1 requests went out, and the time left halves with each.
   */
  ghost predicate Budget(start: TimeVal, deadline: TimeVal, next: TimeVal, n: nat) {
    forall k: nat | Micros(deadline) - Micros(start) <= MINUTE * Pow2(k) :: WithinBudget(deadline, next, n, k)
  }

  ghost predicate WithinBudget(deadline: TimeVal, next: TimeVal, n: nat, k: nat) {
    && n <= k + 1
    && (Micros(next) < Micros(deadline) ==> n <= k && Micros(deadline) - Micros(next) <= MINUTE * Pow2(k - n))
  }

  lemma BudgetOpens(w: Width, start: TimeVal, now: TimeVal, deadline: TimeVal)
    requires Clock(w, now) && InRange(w, deadline) && Before(now, deadline) && Micros(start) <= Micros(now)
    ensures Budget(start, deadline, BackoffMiddle(w, now, deadline), 1)
  {
    forall k: nat | Micros(deadline) - Micros(start) <= MINUTE * Pow2(k)
      ensures WithinBudget(deadline, BackoffMiddle(w, now, deadline), 1, k)
    {
      RequestHalves(w, now, deadline, k);
    }
  }

  lemma BudgetKept(w: Width, start: TimeVal, deadline: TimeVal, due: TimeVal, n: nat, now: TimeVal)
    requires Clock(w, now) && InRange(w, deadline) && Before(now, deadline)
    requires Micros(due) <= Micros(now) && Budget(start, deadline, due, n)
    ensures Budget(start, deadline, BackoffMiddle(w, now, deadline), n + 1)
  {
    BeforeIsMicros(now, deadline);
    forall k: nat | Micros(deadline) - Micros(start) <= MINUTE * Pow2(k)
      ensures WithinBudget(deadline, BackoffMiddle(w, now, deadline), n + 1, k)
    {
      assert WithinBudget(deadline, due, n, k);
      RequestHalves(w, now, deadline, k - n);
    }
  }

  /** One request with at most 2^k minutes left: it is the last, or at most 2^(k-1) minutes remain after it. */
  lemma RequestHalves(w: Width, now: TimeVal, deadline: TimeVal, k: nat)
    requires Clock(w, now) && InRange(w, deadline) && Before(now, deadline)
    requires Micros(deadline) - Micros(now) <= MINUTE * Pow2(k)
    ensures WithinBudget(deadline, BackoffMiddle(w, now, deadline), 1, k)
  {
    BeforeIsMicros(now, deadline);
    BackoffMiddleBounds(w, now, deadline);
    var left := Micros(deadline) - Micros(now);
    if left >= 66 * MILLION {
      assert k != 0 by { assert Pow2(0) == 1; }
      assert Pow2(k) == 2 * Pow2(k - 1);
    }
  }

  // ----- T1, T2 and lease of a binding -----

  function Latest(w: Width): TimeVal {
    TimeVal(MaxSec(w), 999_999)
  }

  /** Jitter in milliseconds, drawn for leases over five seconds. */
  function Jitter(lease: u32, random: nat): int {
    if lease > 5 then 5000 - random % 10000 else 0
  }

  function T1Of(t1: u32, lease: u32): u32 {
    if t1 != 0 then t1 else lease / 2
  }

  function T2Of(t2: u32, lease: u32): u32 {
    if t2 != 0 then t2 else lease - lease / 8
  }

  /** On 32-bit time an expiry before the message is taken for an overflow. */
  function Unwrapped(w: Width, recv: TimeVal, t: TimeVal): TimeVal {
    if w.Bits32? && Before(t, recv) then Latest(w) else t
  }

  function Raw(w: Width, recv: TimeVal, secs: u32, jitter: int): (t: TimeVal)
    ensures Normal(t)
  {
    Shift(w, recv, secs * MILLION + jitter * 1000)
  }

  /** An expiry `secs` seconds and `jitter` ms after recv, with the wrap test of 32-bit systems. */
  function Expiry(w: Width, recv: TimeVal, secs: u32, jitter: int): (t: TimeVal)
    ensures Normal(t)
  {
    Unwrapped(w, recv, Raw(w, recv, secs, jitter))
  }

  datatype Binding = Binding(t1: TimeVal, t2: TimeVal, lease: TimeVal)

  /** T2 no later than the lease, T1 no later than T2. */
  function Clamp(t1: TimeVal, t2: TimeVal, lease: TimeVal): Binding {
    var second := Earlier(t2, lease);
    Binding(Earlier(t1, second), second, lease)
  }

  function BindingTimers(w: Width, recv: TimeVal, t1: u32, t2: u32, lease: u32, random: nat): Binding {
    var j := Jitter(lease, random);
    Clamp(Expiry(w, recv, T1Of(t1, lease), j), Expiry(w, recv, T2Of(t2, lease), j), Expiry(w, recv, lease, 0))
  }

  method ComputeBindingTimers(w: Width, recv: TimeVal, cfgT1: u32, cfgT2: u32, cfgLease: u32, random: nat)
    returns (t1: TimeVal, t2: TimeVal, lease: TimeVal)
    requires Normal(recv)
    ensures Binding(t1, t2, lease) == BindingTimers(w, recv, cfgT1, cfgT2, cfgLease, random)
  {
    var diff := 0;
    if cfgLease > 5 {
      diff := 5000 - random % 10000;
    }
    lease := RawExpiry(w, recv, cfgLease, 0);
    var secs1 := if cfgT1 != 0 then cfgT1 else cfgLease / 2;
    var secs2 := if cfgT2 != 0 then cfgT2 else cfgLease - cfgLease / 8;
    assert secs1 == T1Of(cfgT1, cfgLease) && secs2 == T2Of(cfgT2, cfgLease) && diff == Jitter(cfgLease, random);
    t1 := RawExpiry(w, recv, secs1, diff);
    t2 := RawExpiry(w, recv, secs2, diff);
    t1, t2, lease := Sanitize(w, recv, t1, t2, lease);
  }

  /** The wrap test of 32-bit systems and the ordering of the three expiries. */
  method Sanitize(w: Width, recv: TimeVal, t1raw: TimeVal, t2raw: TimeVal, leaseRaw: TimeVal)
    returns (t1: TimeVal, t2: TimeVal, lease: TimeVal)
    ensures Binding(t1, t2, lease)
         == Clamp(Unwrapped(w, recv, t1raw), Unwrapped(w, recv, t2raw), Unwrapped(w, recv, leaseRaw))
  {
    t1, t2, lease := t1raw, t2raw, leaseRaw;
    if w.Bits32? {
      if Before(lease, recv) { lease := TimeVal(0x7fff_ffff, 999999); }
      if Before(t1, recv) { t1 := TimeVal(0x7fff_ffff, 999999); }
      if Before(t2, recv) { t2 := TimeVal(0x7fff_ffff, 999999); }
    }
    if Before(lease, t2) { t2 := lease; }
    if Before(t2, t1) { t1 := t2; }
  }

  /** One expiry before the sanity checks. */
  method RawExpiry(w: Width, recv: TimeVal, secs: u32, diff: int) returns (t: TimeVal)
    requires Normal(recv)
    ensures t == Raw(w, recv, secs, diff)
  {
    t := AddSeconds(w, recv, secs);
    ShiftShift(w, recv, secs * MILLION, diff * 1000);
    t := AddJitter(w, t, diff);
  }

  /** The randomisation of one expiry by `diff` milliseconds. */
  method AddJitter(w: Width, t: TimeVal, diff: int) returns (r: TimeVal)
    requires InRange(w, t)
    ensures r == Shift(w, t, diff * 1000)
  {
    r := t;
    if diff > 0 {
      var ta := TimeVal(diff / 1000, diff % 1000 * 1000);
      assert Micros(ta) == diff * 1000;
      AddIsShift(w, t, ta);
      r := TimerAdd(w, t, ta);
    } else if diff < 0 {
      var ts := TimeVal((-diff) / 1000, (-diff) % 1000 * 1000);
      assert Micros(ts) == -diff * 1000;
      SubIsShift(w, t, ts);
      r := TimerSub(w, t, ts);
    } else {
      ShiftExact(w, t, 0);
    }
  }

  /** t.tv_sec += secs */
  method AddSeconds(w: Width, t: TimeVal, secs: int) returns (r: TimeVal)
    requires Normal(t)
    ensures r == Shift(w, t, secs * MILLION) && InRange(w, r)
  {
    WrapWrap(w, t.sec + secs, 0);
    r := t.(sec := Wrap(w, t.sec + secs));
    assert Micros(t) + secs * MILLION == (t.sec + secs) * MILLION + t.usec;
  }

  /** The three expiries are ordered on either width, and on 32-bit time none precedes the message. */
  lemma BindingOrdered(w: Width, recv: TimeVal, t1: u32, t2: u32, lease: u32, random: nat)
    requires Clock(w, recv)
    ensures var b := BindingTimers(w, recv, t1, t2, lease, random);
            && !Before(b.t2, b.t1) && !Before(b.lease, b.t2) && !Before(b.lease, recv)
            && InRange(w, b.t1) && InRange(w, b.t2) && InRange(w, b.lease)
            && (w.Bits32? ==> !Before(b.t1, recv))
  {
    ExpiryInRange(w, recv, lease, 0);
    ExpiryInRange(w, recv, T1Of(t1, lease), Jitter(lease, random));
    ExpiryInRange(w, recv, T2Of(t2, lease), Jitter(lease, random));
    ClampOrders(w, recv, Expiry(w, recv, T1Of(t1, lease), Jitter(lease, random)),
                Expiry(w, recv, T2Of(t2, lease), Jitter(lease, random)), Expiry(w, recv, lease, 0));
  }

  lemma ClampOrders(w: Width, recv: TimeVal, t1: TimeVal, t2: TimeVal, lease: TimeVal)
    requires InRange(w, t1) && InRange(w, t2) && InRange(w, lease) && !Before(lease, recv)
    requires w.Bits32? ==> !Before(t1, recv) && !Before(t2, recv)
    ensures var b := Clamp(t1, t2, lease);
            && b.lease == lease
            && !Before(b.t2, b.t1) && !Before(b.lease, b.t2)
            && InRange(w, b.t1) && InRange(w, b.t2)
            && (w.Bits32? ==> !Before(b.t1, recv))
  {
  }

  lemma ExpiryInRange(w: Width, recv: TimeVal, secs: u32, jitter: int)
    requires Clock(w, recv)
    requires -5000 <= jitter <= 5000
    ensures InRange(w, Expiry(w, recv, secs, jitter))
    ensures w.Bits32? || jitter == 0 ==> !Before(Expiry(w, recv, secs, jitter), recv)
  {
    WrapWrap(w, (Micros(recv) + secs * MILLION + jitter * 1000) / MILLION, 0);
    if w.Bits64? {
      ShiftExact(w, recv, secs * MILLION + jitter * 1000);
      BeforeIsMicros(Shift(w, recv, secs * MILLION + jitter * 1000), recv);
    }
  }

  /** The sum, or the end of time when the sum cannot be represented. */
  function Saturating(w: Width, recv: TimeVal, us: int): TimeVal {
    var m := Micros(recv) + us;
    if m / MILLION <= MaxSec(w) then TimeVal(m / MILLION, m % MILLION) else Latest(w)
  }

  /** 32-bit time: the wrap test misses no overflow of the lease, including the infinite lease. */
  lemma LeaseSaturates(recv: TimeVal, lease: u32)
    requires Clock(Bits32, recv)
    ensures Expiry(Bits32, recv, lease, 0) == Saturating(Bits32, recv, lease * MILLION)
  {
    assert Micros(recv) + lease * MILLION == (recv.sec + lease) * MILLION + recv.usec;
  }

  /** On either width the lease ends exactly when granted, or at the end of time. */
  lemma LeaseExact(w: Width, recv: TimeVal, lease: u32)
    requires Clock(w, recv)
    ensures Expiry(w, recv, lease, 0) == Saturating(w, recv, lease * MILLION)
  {
    if w.Bits32? {
      LeaseSaturates(recv, lease);
    } else {
      var m := Micros(recv) + lease * MILLION;
      assert m == (recv.sec + lease) * MILLION + recv.usec;
      WrapIdentity(w, m / MILLION);
    }
  }

  /** The total offset, in microseconds, of a jittered T1 or T2. */
  function Offset(secs: u32, jitter: int): int {
    secs * MILLION + jitter * 1000
  }

  /** The instant `us` after recv can be represented, and 32-bit systems do not take it for an overflow. */
  predicate Fits(w: Width, recv: TimeVal, us: int) {
    (w.Bits32? ==> 0 <= us) && Micros(recv) + us < (MaxSec(w) + 1) * MILLION
  }

  function Least(a: int, b: int): int {
    if a < b then a else b
  }

  /** The shift in milliseconds of both times: a lease of up to five seconds is not randomised. */
  predicate Randomises(j: int, lease: u32) {
    if lease > 5 then -5000 < j <= 5000 else j == 0
  }

  /** t is the instant `us` after recv, or the limit if that comes first. */
  predicate Comes(w: Width, recv: TimeVal, us: int, limit: TimeVal, t: TimeVal) {
    Fits(w, recv, us) ==> Micros(t) - Micros(recv) == Least(us, Micros(limit) - Micros(recv))
  }

  /**
   * T1 is the server's, or half the lease without one, T2 the server's, or
   * seven eighths of the lease, both shifted by the same j milliseconds; T2 is
   * no later than the lease and T1 no later than T2.
   */
  predicate Renewal(w: Width, recv: TimeVal, t1: u32, t2: u32, lease: u32, j: int, b: Binding) {
    var first := (if t1 != 0 then t1 else lease / 2) * MILLION + j * 1000;
    var second := (if t2 != 0 then t2 else lease - lease / 8) * MILLION + j * 1000;
    Comes(w, recv, second, b.lease, b.t2) && Comes(w, recv, first, b.t2, b.t1)
  }

  lemma ExpiryFits(w: Width, recv: TimeVal, secs: u32, j: int)
    requires Clock(w, recv) && -5000 < j <= 5000 && Fits(w, recv, secs * MILLION + j * 1000)
    ensures Micros(Expiry(w, recv, secs, j)) == Micros(recv) + secs * MILLION + j * 1000
  {
    ShiftExact(w, recv, secs * MILLION + j * 1000);
    BeforeIsMicros(Raw(w, recv, secs, j), recv);
  }

  /** An expiry cut off at a limit. */
  lemma BoundedExpiry(w: Width, recv: TimeVal, secs: u32, j: int, limit: TimeVal)
    requires Clock(w, recv) && -5000 < j <= 5000 && Normal(limit)
    ensures Comes(w, recv, secs * MILLION + j * 1000, limit, Earlier(Expiry(w, recv, secs, j), limit))
  {
    if Fits(w, recv, secs * MILLION + j * 1000) { ExpiryFits(w, recv, secs, j); }
    BeforeIsMicros(limit, Expiry(w, recv, secs, j));
  }

  /** When an ordinary renewal and rebinding come, in microseconds. */
  lemma RenewalTimes(w: Width, recv: TimeVal, t1: u32, t2: u32, lease: u32, random: nat) returns (j: int)
    requires Clock(w, recv)
    ensures Randomises(j, lease) && Renewal(w, recv, t1, t2, lease, j, BindingTimers(w, recv, t1, t2, lease, random))
    ensures lease > 5 ==> j == 5000 - random % 10000
  {
    j := Jitter(lease, random);
    var end := Expiry(w, recv, lease, 0);
    BoundedExpiry(w, recv, T2Of(t2, lease), j, end);
    BoundedExpiry(w, recv, T1Of(t1, lease), j, Earlier(Expiry(w, recv, T2Of(t2, lease), j), end));
  }

  const EPOCH32 := 0x1_0000_0000 * MILLION

  /**
   * 32-bit time, jittered T1 and T2: the wrap test is right exactly when the
   * jitter neither carries the expiry before the message nor carries the sum
   * all the way round past the message again.
   */
  lemma JitteredSaturates(recv: TimeVal, secs: u32, jitter: int)
    requires Clock(Bits32, recv) && -5000 < jitter <= 5000
    ensures Expiry(Bits32, recv, secs, jitter) == Saturating(Bits32, recv, Offset(secs, jitter))
      <==> 0 <= Offset(secs, jitter) &&
           !(EPOCH32 <= Offset(secs, jitter) < EPOCH32 + Micros(Latest(Bits32)) - Micros(recv))
  {
    var us := Offset(secs, jitter);
    var m := Micros(recv) + us;
    var s := m / MILLION;
    var t := Shift(Bits32, recv, us);
    assert m == s * MILLION + m % MILLION;
    assert -5 <= s <= 0x7fff_ffff + 0x1_0000_0005;
    BeforeIsMicros(t, recv);
    if s <= 0x7fff_ffff {
      assert Micros(t) == m;
    } else if s - 0x1_0000_0000 <= 0x7fff_ffff {
      assert t.sec == s - 0x1_0000_0000;
      assert Micros(t) == m - EPOCH32;
      assert (m - EPOCH32) / MILLION == s - 0x1_0000_0000;
    } else {
      assert t.sec == s - 0x2_0000_0000 < 0;
      assert (m - EPOCH32) / MILLION == s - 0x1_0000_0000;
    }
  }

  /** A server-sent T1 of nearly 2^32 s and a jitter of +5 s make the client renew within five seconds. */
  lemma NearInfiniteT1()
    ensures var recv := TimeVal(1_000_000_000, 0);
            BindingTimers(Bits32, recv, 0xffff_ffff, 0, 0xffff_ffff, 0).t1 == TimeVal(1_000_000_004, 0)
  {
    var recv := TimeVal(1_000_000_000, 0);
    LeaseSaturates(recv, 0xffff_ffff);
    var us := 0xffff_ffff * MILLION + 5000 * 1000;
    assert Micros(recv) + us == 5_294_967_300 * MILLION;
    assert Shift(Bits32, recv, us) == TimeVal(1_000_000_004, 0);
    assert Expiry(Bits32, recv, 0xffff_ffff, 5000) == TimeVal(1_000_000_004, 0);
    assert T2Of(0, 0xffff_ffff) == 0xe000_0000;
    var us2 := 0xe000_0000 * MILLION + 5000 * 1000;
    assert Micros(recv) + us2 == 4_758_096_389 * MILLION;
    assert Expiry(Bits32, recv, 0xe000_0000, 5000) == Latest(Bits32);
  }
}
