/** The Internet checksum of dhcpmessage.c, as RFC 1071 defines it, on hosts of either byte order. */
module Checksum {
  import opened Bytes

  datatype Order = Little | Big

  const ONES := 0xffff

  /** The 16-bit value a host of order o loads from octets a, b. */
  function Word(o: Order, a: byte, b: byte): u16 {
    if o.Big? then 0x100 * a as int + b else 0x100 * b as int + a
  }

  /** The two octets in which a host of order o stores x. */
  function Store(o: Order, x: u16): (s: seq<byte>)
    ensures |s| == 2 && Word(o, s[0], s[1]) == x
  {
    if o.Big? then [x / 0x100, x % 0x100] else [x % 0x100, x / 0x100]
  }

  /** The plain sum of the 16-bit words of s, an odd last octet padded with zero. */
  function Sum(o: Order, s: seq<byte>): nat {
    if |s| == 0 then 0
    else if |s| == 1 then Word(o, s[0], 0)
    else Word(o, s[0], s[1]) + Sum(o, s[2..])
  }

  /** The ones' complement value of a plain sum: zero for zero, else its representative in 1..65535. */
  function Canon(n: nat): (r: u16)
    ensures r == 0 <==> n == 0
  {
    if n == 0 then 0 else (n - 1) % ONES + 1
  }

  /** in_cksum of s continued from csum. */
  function Cksum(o: Order, s: seq<byte>, csum: u16): u16 {
    ONES - Canon(csum + Sum(o, s))
  }

  /** The longest buffer whose sum cannot overflow the 32-bit accumulator of either byte order. */
  const MAX_BUFFER := 65534

  method InCksum(o: Order, addr: seq<byte>, csum: u16) returns (answer: u16)
    requires |addr| <= MAX_BUFFER
    ensures answer == Cksum(o, addr, csum)
  {
    var nleft := |addr|;
    var w := 0;
    var sum := csum as int;
    while nleft > 1
      invariant 0 <= nleft && w + nleft == |addr|
      invariant csum + Sum(o, addr) == sum + Sum(o, addr[w..])
      invariant 0 <= sum <= ONES + w / 2 * ONES && w % 2 == 0
    {
      SumStep(o, addr, w);
      sum := sum + Word(o, addr[w], addr[w + 1]);
      w := w + 2;
      nleft := nleft - 2;
    }
    if nleft == 1 {
      sum := sum + Word(o, addr[w], 0);
    }
    answer := FoldAndComplement(sum);
  }

  /** One octet more is too much on a big-endian host. */
  lemma OneMoreOverflows(s: seq<byte>)
    requires |s| == MAX_BUFFER + 1 && forall i :: 0 <= i < |s| ==> s[i] == 0xff
    ensures ONES + Sum(Big, s) >= 0x8000_0000
  {
    SumOfOnes(s);
  }

  lemma {:induction false} SumOfOnes(s: seq<byte>)
    requires forall i :: 0 <= i < |s| ==> s[i] == 0xff
    ensures Sum(Big, s) == |s| / 2 * ONES + if |s| % 2 == 1 then 0xff00 else 0
  {
    if |s| > 1 {
      assert forall i :: 0 <= i < |s[2..]| ==> s[2..][i] == s[i + 2];
      SumOfOnes(s[2..]);
    }
  }

  lemma SumStep(o: Order, s: seq<byte>, w: nat)
    requires w + 2 <= |s|
    ensures Sum(o, s[w..]) == Word(o, s[w], s[w + 1]) + Sum(o, s[w + 2..])
  {
    assert s[w..][2..] == s[w + 2..];
  }

  /** Two folds of the accumulator, and the complement. */
  method FoldAndComplement(total: nat) returns (answer: u16)
    requires total < 0x8000_0000
    ensures answer == ONES - Canon(total)
  {
    var sum := total;
    FoldIsCanon(sum);
    sum := sum / 0x1_0000 + sum % 0x1_0000;
    sum := sum + sum / 0x1_0000;
    answer := ONES - sum % 0x1_0000;
  }

  /** Two folds reach the canonical sum: a third is never needed. */
  lemma FoldIsCanon(n: nat)
    requires n < 0x1_0000_0000
    ensures var once := n / 0x1_0000 + n % 0x1_0000; (once + once / 0x1_0000) % 0x1_0000 == Canon(n)
  {
    var hi, lo := n / 0x1_0000, n % 0x1_0000;
    assert n == hi * ONES + (hi + lo);
    if n != 0 {
      CanonUnique(n, (hi + lo + (hi + lo) / 0x1_0000) % 0x1_0000, if hi + lo < 0x1_0000 then hi else hi + 1);
    }
  }

  /** The canonical sum is the one value in 1..65535 congruent to n modulo 65535. */
  lemma CanonUnique(n: nat, r: int, q: int)
    requires n != 0 && 1 <= r <= ONES && n == q * ONES + r
    ensures Canon(n) == r
  {
    assert n - 1 == q * ONES + (r - 1);
  }

  lemma CanonIs(n: nat) returns (q: nat)
    requires n != 0
    ensures n == q * ONES + Canon(n)
  {
    q := (n - 1) / ONES;
  }

  /** Ones' complement addition may be reduced at any point. */
  lemma CanonAdd(a: nat, b: nat)
    ensures Canon(Canon(a) + b) == Canon(a + b)
  {
    if a != 0 {
      var q := CanonIs(a);
      var p := CanonIs(Canon(a) + b);
      CanonUnique(a + b, Canon(Canon(a) + b), q + p);
    }
  }

  lemma {:induction false} SumAppend(o: Order, a: seq<byte>, b: seq<byte>)
    requires |a| % 2 == 0
    ensures Sum(o, a + b) == Sum(o, a) + Sum(o, b)
  {
    if |a| == 0 {
      assert a + b == b;
    } else {
      SumAppend(o, a[2..], b);
      assert (a + b)[2..] == a[2..] + b;
    }
  }

  /** A checksum may be computed piecewise, feeding back the complement of each part. */
  lemma CksumChains(o: Order, a: seq<byte>, b: seq<byte>, csum: u16)
    requires |a| % 2 == 0
    ensures Cksum(o, b, ONES - Cksum(o, a, csum)) == Cksum(o, a + b, csum)
  {
    SumAppend(o, a, b);
    CanonAdd(csum + Sum(o, a), Sum(o, b));
  }

  // ----- independence of host byte order -----

  function Swap(x: u16): u16 {
    x % 0x100 * 0x100 + x / 0x100
  }

  /** The high octets of the big-endian words, which is what swapping moves round the end. */
  function Carries(s: seq<byte>): nat {
    if |s| == 0 then 0
    else if |s| == 1 then s[0]
    else s[0] + Carries(s[2..])
  }

  lemma {:induction false} SumSwapped(s: seq<byte>)
    ensures Sum(Little, s) == 0x100 * Sum(Big, s) - ONES * Carries(s)
  {
    if |s| > 1 {
      SumSwapped(s[2..]);
    }
  }

  lemma SwapCanon(n: nat, m: nat, k: int)
    requires m == 0x100 * n - ONES * k && (n == 0 <==> m == 0)
    ensures Canon(m) == Swap(Canon(n))
  {
    if n != 0 {
      var q := CanonIs(n);
      var c := Canon(n);
      assert 0x100 * c as int == ONES * (c / 0x100) + Swap(c);
      CanonUnique(m, Swap(c), 0x100 * q - k + c / 0x100);
    }
  }

  lemma {:induction false} SumZero(o: Order, s: seq<byte>)
    ensures Sum(o, s) == 0 <==> forall i :: 0 <= i < |s| ==> s[i] == 0
  {
    if |s| > 1 {
      SumZero(o, s[2..]);
      assert forall i :: 2 <= i < |s| ==> s[i] == s[2..][i - 2];
    }
  }

  /** RFC 1071 section 2(B): the octets stored do not depend on the order of the host that sums. */
  lemma CksumOrderFree(s: seq<byte>, initial: seq<byte>)
    requires |initial| == 2
    ensures Store(Little, Cksum(Little, s, Word(Little, initial[0], initial[1])))
         == Store(Big, Cksum(Big, s, Word(Big, initial[0], initial[1])))
  {
    SumSwapped(s);
    SumZero(Little, s);
    SumZero(Big, s);
    var n := Word(Big, initial[0], initial[1]) + Sum(Big, s);
    var m := Word(Little, initial[0], initial[1]) + Sum(Little, s);
    SwapCanon(n, m, Carries(s) + initial[0]);
    ComplementSwapped(Canon(n));
  }

  lemma ComplementSwapped(c: u16)
    ensures Store(Little, ONES - Swap(c)) == Store(Big, ONES - c)
  {
    var hi, lo := c / 0x100, c % 0x100;
    assert ONES - c == (0xff - hi) * 0x100 + (0xff - lo);
    assert ONES - Swap(c) == (0xff - lo) * 0x100 + (0xff - hi);
  }

  // ----- filling and verifying a check field -----

  /** s with the checksum of (csum, s) stored over the two zero octets at offset i. */
  function Fill(o: Order, s: seq<byte>, i: nat, value: u16): (r: seq<byte>)
    requires i + 2 <= |s|
    ensures |r| == |s| && r[..i] == s[..i] && r[i + 2..] == s[i + 2..] && r[i..i + 2] == Store(o, value)
  {
    Overwrite(s, i, Store(o, value))
  }

  lemma SumFill(o: Order, s: seq<byte>, i: nat, value: u16)
    requires i % 2 == 0 && i + 2 <= |s| && s[i] == 0 && s[i + 1] == 0
    ensures Sum(o, Fill(o, s, i, value)) == Sum(o, s) + value
  {
    var a, b := s[..i], s[i + 2..];
    assert s == (a + [0, 0]) + b && |a + [0, 0]| % 2 == 0;
    SumAppend(o, a + [0, 0], b);
    SumAppend(o, a, [0, 0]);
    assert Fill(o, s, i, value) == (a + Store(o, value)) + b;
    SumAppend(o, a + Store(o, value), b);
    SumAppend(o, a, Store(o, value));
  }

  /** Complementing a sum into it makes the whole sum verify. */
  lemma ComplementVerifies(n: nat, check: u16)
    requires check == ONES - Canon(n) || (Canon(n) == ONES && check == ONES)
    ensures Canon(n + check) == ONES
  {
    if n != 0 {
      var q := CanonIs(n);
      CanonUnique(n + check, ONES, if check == ONES - Canon(n) then q else q + 1);
    }
  }

  /** Storing in_cksum, or 0xffff for a zero result, makes in_cksum over the filled buffer zero. */
  lemma FilledVerifies(o: Order, s: seq<byte>, i: nat, csum: u16, check: u16)
    requires i % 2 == 0 && i + 2 <= |s| && s[i] == 0 && s[i + 1] == 0
    requires check == Cksum(o, s, csum) || (Cksum(o, s, csum) == 0 && check == ONES)
    ensures Cksum(o, Fill(o, s, i, check), csum) == 0
  {
    SumFill(o, s, i, check);
    ComplementVerifies(csum + Sum(o, s), check);
  }

  /** The worked example of RFC 1071 section 3. */
  lemma RfcExample()
    ensures Cksum(Big, [0x00, 0x01, 0xf2, 0x03, 0xf4, 0xf5, 0xf6, 0xf7], 0) == 0x220d
    ensures Cksum(Little, [0x00, 0x01, 0xf2, 0x03, 0xf4, 0xf5, 0xf6, 0xf7], 0) == 0x0d22
  {
    var s: seq<byte> := [0x00, 0x01, 0xf2, 0x03, 0xf4, 0xf5, 0xf6, 0xf7];
    assert s[2..] == [0xf2, 0x03, 0xf4, 0xf5, 0xf6, 0xf7] && s[2..][2..] == [0xf4, 0xf5, 0xf6, 0xf7];
    assert s[2..][2..][2..] == [0xf6, 0xf7] && s[2..][2..][2..][2..] == [];
  }
}
