/** Interface configuration over rtnetlink (netlink.c); the kernel is a set of addresses. */
module Netlink {
  import opened Bytes
  import opened Config
  import opened Checksum
  import Timers

  // ----- prefix lengths -----

  /** ffs(3): one plus the number of the lowest bit set, zero for none. */
  function Ffs(x: nat): nat {
    if x == 0 then 0 else if x % 2 == 1 then 1 else 1 + Ffs(x / 2)
  }

  /** nl_inet_mask_len */
  function MaskLen(mask: u32): int {
    var rc := Ffs(mask);
    if rc != 0 then 33 - rc else 0
  }

  /** The mask with `prefix` leading ones. */
  function PrefixMask(prefix: nat): int
    requires prefix <= 32
  {
    Timers.Pow2(32) - Timers.Pow2(32 - prefix)
  }

  lemma {:induction false} FfsOfMultiple(odd: nat, k: nat)
    requires odd % 2 == 1
    ensures Ffs(odd * Timers.Pow2(k)) == k + 1
  {
    if k == 0 {
      assert odd * Timers.Pow2(0) == odd;
    } else {
      FfsOfMultiple(odd, k - 1);
      var half := odd * Timers.Pow2(k - 1);
      assert odd * Timers.Pow2(k) == odd * (2 * Timers.Pow2(k - 1)) == 2 * half;
      assert half != 0 by { MulPositive(odd, Timers.Pow2(k - 1)); }
    }
  }

  lemma MulPositive(a: nat, b: nat)
    requires a > 0 && b > 0
    ensures a * b > 0
  {
  }

  lemma Pow2Split(a: nat, b: nat)
    ensures Timers.Pow2(a + b) == Timers.Pow2(a) * Timers.Pow2(b)
  {
    if a > 0 {
      Pow2Split(a - 1, b);
      assert Timers.Pow2(a + b) == 2 * (Timers.Pow2(a - 1) * Timers.Pow2(b)) == (2 * Timers.Pow2(a - 1)) * Timers.Pow2(b);
    } else {
      assert Timers.Pow2(0) == 1;
    }
  }

  lemma Pow2Of32()
    ensures Timers.Pow2(32) == 0x1_0000_0000
  {
    Timers.Pow2Values();
    Pow2Split(4, 4);
    Pow2Split(8, 8);
    Pow2Split(16, 16);
  }

  /** The mask length inverts the prefix-to-mask map on all 33 prefixes. */
  lemma MaskLenInverts(prefix: nat)
    requires prefix <= 32
    ensures 0 <= PrefixMask(prefix) < 0x1_0000_0000
    ensures MaskLen(PrefixMask(prefix)) == prefix
  {
    Pow2Of32();
    var k := 32 - prefix;
    Pow2Split(prefix, k);
    if prefix == 0 {
      assert PrefixMask(0) == 0;
    } else {
      MaskIsOddMultiple(prefix, k);
      FfsOfMultiple(Timers.Pow2(prefix) - 1, k);
      MulPositive(Timers.Pow2(prefix) - 1, Timers.Pow2(k));
    }
  }

  lemma MaskIsOddMultiple(prefix: nat, k: nat)
    requires 0 < prefix && prefix + k == 32 && Timers.Pow2(prefix) * Timers.Pow2(k) == Timers.Pow2(32) == 0x1_0000_0000
    ensures (Timers.Pow2(prefix) - 1) % 2 == 1
    ensures (Timers.Pow2(prefix) - 1) * Timers.Pow2(k) == PrefixMask(prefix)
  {
    assert Timers.Pow2(prefix) == 2 * Timers.Pow2(prefix - 1);
    Distribute(Timers.Pow2(prefix), Timers.Pow2(k));
  }

  lemma Distribute(a: nat, b: nat)
    requires a > 0
    ensures (a - 1) * b == a * b - b
  {
  }

  // ----- the address a configuration asks for -----

  /** The low `bits` bits of a | ~m. */
  function OrNot(a: nat, m: nat, bits: nat): (r: nat)
    ensures r < Timers.Pow2(bits)
  {
    if bits == 0 then 0
    else 2 * OrNot(a / 2, m / 2, bits - 1) + if a % 2 == 1 || m % 2 == 0 then 1 else 0
  }

  /** An address on the interface as the kernel keeps it. */
  datatype IfAddr = IfAddr(address: u32, prefix: int, broadcast: u32)

  /** The broadcast address, made up from address and mask if the server sent none. */
  function FixedBroadcast(c: Config): u32 {
    Pow2Of32();
    if c.broadcast != 0 then c.broadcast else OrNot(c.address, c.netmask, 32)
  }

  function Wanted(c: Config): IfAddr {
    IfAddr(c.address, MaskLen(c.netmask), FixedBroadcast(c))
  }

  lemma {:induction false} OrNotOnes(a: nat, bits: nat)
    requires a < Timers.Pow2(bits)
    ensures OrNot(a, Timers.Pow2(bits) - 1, bits) == a
  {
    if bits > 0 {
      OrNotOnes(a / 2, bits - 1);
    }
  }

  /** The last of the `size` addresses, aligned to their number, among which a is. */
  function LastAddress(a: nat, size: nat): int
    requires size > 0
  {
    a - a % size + size - 1
  }

  /** With `host` low bits clear in the mask, those bits of the result are ones and the rest is a's. */
  lemma {:induction false} OrNotPrefix(a: nat, bits: nat, host: nat)
    requires host <= bits && a < Timers.Pow2(bits)
    ensures Timers.Pow2(host) <= Timers.Pow2(bits)
    ensures OrNot(a, Timers.Pow2(bits) - Timers.Pow2(host), bits) == LastAddress(a, Timers.Pow2(host))
  {
    if host == 0 {
      OrNotOnes(a, bits);
    } else {
      OrNotPrefix(a / 2, bits - 1, host - 1);
      var h, m := Timers.Pow2(host - 1), Timers.Pow2(bits - 1) - Timers.Pow2(host - 1);
      assert Timers.Pow2(bits) - Timers.Pow2(host) == 2 * m;
      OrNotEven(a, m, bits);
      LastOfHalf(a, h);
    }
  }

  lemma LastOfHalf(a: nat, h: nat)
    requires h > 0
    ensures 2 * LastAddress(a / 2, h) + 1 == LastAddress(a, 2 * h)
  {
    HalvedRemainder(a, h);
  }

  lemma OrNotEven(a: nat, m: nat, bits: nat)
    requires bits > 0
    ensures OrNot(a, 2 * m, bits) == 2 * OrNot(a / 2, m, bits - 1) + 1
  {
    assert 2 * m / 2 == m;
  }

  lemma HalvedRemainder(a: nat, h: nat)
    requires h > 0
    ensures 2 * (a / 2 - a / 2 % h) == a - a % (2 * h)
  {
    var b := a / 2;
    var q, r := b / h, b % h;
    assert b == q * h + r;
    assert a == q * (2 * h) + (2 * r + a % 2);
    QuotientUnique(a, 2 * h, q, 2 * r + a % 2);
  }

  lemma QuotientUnique(a: nat, d: nat, q: nat, r: nat)
    requires d > 0 && a == q * d + r && r < d
    ensures a % d == r
  {
    var k := a / d - q;
    assert a == a / d * d + a % d;
    MulSub(a / d, q, d);
    if k >= 1 { MulGe(k, d); }
    if k <= -1 { MulGe(-k, d); MulNeg(k, d); }
  }

  lemma MulSub(a: int, b: int, d: int)
    ensures (a - b) * d == a * d - b * d
  {
  }

  lemma MulNeg(k: int, d: int)
    ensures (-k) * d == -(k * d)
  {
  }

  lemma MulGe(k: int, d: nat)
    requires k >= 1
    ensures k * d >= d
  {
    MulSub(k, 1, d);
    if k > 1 && d > 0 { MulPositive(k - 1, d); }
  }

  lemma OrNotMask(a: nat, prefix: nat, bits: nat, mask: nat)
    requires prefix <= bits && a < Timers.Pow2(bits) && mask == Timers.Pow2(bits) - Timers.Pow2(bits - prefix)
    ensures OrNot(a, mask, bits) == LastAddress(a, Timers.Pow2(bits - prefix))
  {
    OrNotPrefix(a, bits, bits - prefix);
  }

  /** For a contiguous mask the made-up address is the last one of the subnet: its directed broadcast. */
  lemma FixupIsDirectedBroadcast(c: Config, prefix: nat)
    requires prefix <= 32 && c.broadcast == 0 && c.netmask == PrefixMask(prefix)
    ensures FixedBroadcast(c) == LastAddress(c.address, Timers.Pow2(32 - prefix))
  {
    Pow2Of32();
    OrNotMask(c.address, prefix, 32, c.netmask);
  }

  // ----- what that address is, octet for octet and bit for bit -----

  function Bit(n: nat, i: nat): nat {
    if i == 0 then n % 2 else Bit(n / 2, i - 1)
  }

  lemma {:induction false} OrNotBit(a: nat, m: nat, bits: nat, i: nat)
    requires i < bits
    ensures Bit(OrNot(a, m, bits), i) == 1 <==> Bit(a, i) == 1 || Bit(m, i) == 0
  {
    if i > 0 {
      OrNotBit(a / 2, m / 2, bits - 1, i - 1);
    }
  }

  /** The mask ends in 32 - prefix zero bits, and not in more. */
  ghost predicate MaskEndsAt(mask: nat, prefix: int) {
    if mask == 0 then prefix == 0
    else 1 <= prefix <= 32 && exists q: nat :: q % 2 == 1 && mask == q * Timers.Pow2(32 - prefix)
  }

  lemma {:induction false} FfsDivides(n: nat, bits: nat) returns (q: nat)
    requires 0 < n < Timers.Pow2(bits)
    ensures 1 <= Ffs(n) <= bits && q % 2 == 1 && n == q * Timers.Pow2(Ffs(n) - 1)
  {
    if n % 2 == 1 {
      q := n;
      assert Timers.Pow2(0) == 1;
    } else {
      q := FfsDivides(n / 2, bits - 1);
      assert n == 2 * (q * Timers.Pow2(Ffs(n / 2) - 1)) == q * (2 * Timers.Pow2(Ffs(n / 2) - 1));
    }
  }

  lemma MaskLenEnds(mask: u32)
    ensures MaskEndsAt(mask, MaskLen(mask))
  {
    Pow2Of32();
    if mask != 0 {
      var q := FfsDivides(mask, 32);
    }
  }

  /**
   * a is the address a configuration asks for: its address, the prefix its mask
   * ends at (for a contiguous mask, the mask's length), its broadcast address
   * or, without one, the address with every host bit set.
   */
  ghost predicate AddressOf(a: IfAddr, c: Config) {
    && a.address == c.address
    && MaskEndsAt(c.netmask, a.prefix)
    && (forall p: nat | p <= 32 && c.netmask == PrefixMask(p) :: a.prefix == p)
    && (c.broadcast != 0 ==> a.broadcast == c.broadcast)
    && (c.broadcast == 0 ==> forall i | 0 <= i < 32 :: BroadcastBit(a, c, i))
  }

  predicate BroadcastBit(a: IfAddr, c: Config, i: nat) {
    Bit(a.broadcast, i) == 1 <==> Bit(c.address, i) == 1 || Bit(c.netmask, i) == 0
  }

  lemma WantedIs(c: Config)
    ensures AddressOf(Wanted(c), c)
  {
    MaskLenEnds(c.netmask);
    forall p: nat | p <= 32 && c.netmask == PrefixMask(p) ensures Wanted(c).prefix == p {
      MaskLenInverts(p);
    }
    if c.broadcast == 0 {
      forall i | 0 <= i < 32 ensures BroadcastBit(Wanted(c), c, i) {
        OrNotBit(c.address, c.netmask, 32, i);
      }
    }
  }

  // ----- routing attributes -----

  const IFA_ADDRESS := 1
  const IFA_LOCAL := 2
  const IFA_BROADCAST := 4

  datatype Attr = Attr(kind: u16, data: seq<byte>)

  /** RTA_ALIGN */
  function Align(n: nat): (r: nat)
    ensures n <= r < n + 4 && r % 4 == 0
  {
    (n + 3) / 4 * 4
  }

  predicate Attrs(attrs: seq<Attr>) {
    forall i :: 0 <= i < |attrs| ==> AttrOk(attrs[i])
  }

  /** The two address attributes hold an address. */
  predicate AttrOk(a: Attr) {
    |a.data| < 0x1000 && (a.kind == IFA_LOCAL || a.kind == IFA_BROADCAST ==> |a.data| == 4)
  }

  function EncodeAttr(o: Order, a: Attr): (s: seq<byte>)
    requires |a.data| < 0x1000
    ensures |s| == Align(4 + |a.data|)
  {
    Store(o, 4 + |a.data|) + Store(o, a.kind) + a.data + Zeros(Align(4 + |a.data|) - 4 - |a.data|)
  }

  function EncodeAttrs(o: Order, attrs: seq<Attr>): seq<byte>
    requires Attrs(attrs)
  {
    if attrs == [] then [] else EncodeAttr(o, attrs[0]) + EncodeAttrs(o, attrs[1..])
  }

  /** What the scan has seen: how many address attributes, and the last of either kind. */
  datatype Seen = Seen(cnt: nat, address: u32, broadcast: u32)

  function Notice(s: Seen, kind: u16, word: u32): Seen {
    if kind == IFA_LOCAL then s.(cnt := s.cnt + 1, address := word)
    else if kind == IFA_BROADCAST then s.(cnt := s.cnt + 1, broadcast := word)
    else s
  }

  function NoticeOne(s: Seen, a: Attr): Seen {
    if |a.data| == 4 then Notice(s, a.kind, Read32(a.data, 0)) else s
  }

  /** The meaning of a scan: the attributes one after the other. */
  function NoticeAll(s: Seen, attrs: seq<Attr>): Seen
    requires Attrs(attrs)
    decreases |attrs|
  {
    if attrs == [] then s
    else
      assert AttrOk(attrs[0]);
      NoticeAll(NoticeOne(s, attrs[0]), attrs[1..])
  }

  /** The RTA_OK / RTA_NEXT walk over `len` octets at rta; the buffer is readable four octets further. */
  function ScanFrom(o: Order, buf: seq<byte>, rta: nat, len: int, s: Seen): Seen
    requires len >= 4 ==> rta + len + 4 <= |buf|
    decreases len
  {
    if len < 4 then s
    else
      var size := Word(o, buf[rta], buf[rta + 1]);
      if size < 4 || size > len then s
      else ScanFrom(o, buf, rta + Align(size), len - Align(size),
                    Notice(s, Word(o, buf[rta + 2], buf[rta + 3]), Read32(buf, rta + 4)))
  }

  method ScanAttrs(o: Order, buf: seq<byte>, start: nat, length: int, stack: Seen) returns (seen: Seen)
    requires length >= 4 ==> start + length + 4 <= |buf|
    ensures seen == ScanFrom(o, buf, start, length, stack)
  {
    seen := stack;
    var rta: nat, len := start, length;
    while len >= 4 && Word(o, buf[rta], buf[rta + 1]) >= 4 && Word(o, buf[rta], buf[rta + 1]) <= len
      invariant len >= 4 ==> rta + len + 4 <= |buf|
      invariant ScanFrom(o, buf, start, length, stack) == ScanFrom(o, buf, rta, len, seen)
      decreases len
    {
      var size := Word(o, buf[rta], buf[rta + 1]);
      match Word(o, buf[rta + 2], buf[rta + 3]) {
        case 2 =>
          seen := seen.(cnt := seen.cnt + 1, address := Read32(buf, rta + 4));
        case 4 =>
          seen := seen.(cnt := seen.cnt + 1, broadcast := Read32(buf, rta + 4));
        case _ =>
      }
      rta := rta + Align(size);
      len := len - Align(size);
    }
  }

  lemma AttrAtHead(o: Order, buf: seq<byte>, rta: nat, a: Attr)
    requires AttrOk(a) && rta + Align(4 + |a.data|) + 4 <= |buf|
    requires buf[rta..rta + Align(4 + |a.data|)] == EncodeAttr(o, a)
    ensures Word(o, buf[rta], buf[rta + 1]) == 4 + |a.data|
    ensures Word(o, buf[rta + 2], buf[rta + 3]) == a.kind
    ensures |a.data| == 4 ==> Read32(buf, rta + 4) == Read32(a.data, 0)
  {
    var s := buf[rta..rta + Align(4 + |a.data|)];
    var e := EncodeAttr(o, a);
    assert e[0] == Store(o, 4 + |a.data|)[0] && e[1] == Store(o, 4 + |a.data|)[1];
    assert e[2] == Store(o, a.kind)[0] && e[3] == Store(o, a.kind)[1];
    assert forall i :: 0 <= i < |a.data| ==> e[4 + i] == a.data[i];
    assert forall i :: 0 <= i < |s| ==> buf[rta + i] == s[i];
  }

  /** The walk over an aligned attribute list sees every attribute, in order, and nothing else. */
  lemma {:induction false} ScanReadsEncoded(o: Order, buf: seq<byte>, rta: nat, len: nat, attrs: seq<Attr>, s: Seen)
    requires Attrs(attrs) && len == |EncodeAttrs(o, attrs)| && rta + len + 4 <= |buf|
    requires buf[rta..rta + len] == EncodeAttrs(o, attrs)
    ensures ScanFrom(o, buf, rta, len, s) == NoticeAll(s, attrs)
    decreases |attrs|
  {
    if attrs != [] {
      var next, rest := HeadAndRest(o, buf, rta, len, attrs);
      ScanStep(o, buf, rta, len, attrs[0], s, next, rest);
      ScanReadsEncoded(o, buf, next, rest, attrs[1..], NoticeOne(s, attrs[0]));
      NoticeFirst(s, attrs);
    }
  }

  lemma NoticeFirst(s: Seen, attrs: seq<Attr>)
    requires Attrs(attrs) && attrs != []
    ensures Attrs(attrs[1..]) && NoticeAll(s, attrs) == NoticeAll(NoticeOne(s, attrs[0]), attrs[1..])
  {
    assert AttrOk(attrs[0]);
  }

  lemma ScanStep(o: Order, buf: seq<byte>, rta: nat, len: int, a: Attr, s: Seen, next: nat, rest: int)
    requires AttrOk(a) && Align(4 + |a.data|) <= len && rta + len + 4 <= |buf|
    requires buf[rta..rta + Align(4 + |a.data|)] == EncodeAttr(o, a)
    requires next == rta + Align(4 + |a.data|) && rest == len - Align(4 + |a.data|)
    ensures ScanFrom(o, buf, rta, len, s) == ScanFrom(o, buf, next, rest, NoticeOne(s, a))
  {
    AttrAtHead(o, buf, rta, a);
  }

  lemma HeadAndRest(o: Order, buf: seq<byte>, rta: nat, len: nat, attrs: seq<Attr>) returns (next: nat, rest: nat)
    requires Attrs(attrs) && attrs != [] && len == |EncodeAttrs(o, attrs)| && rta + len + 4 <= |buf|
    requires buf[rta..rta + len] == EncodeAttrs(o, attrs)
    ensures AttrOk(attrs[0]) && Attrs(attrs[1..])
    ensures next == rta + Align(4 + |attrs[0].data|) && rest == len - Align(4 + |attrs[0].data|)
    ensures rest == |EncodeAttrs(o, attrs[1..])| && next + rest + 4 <= |buf|
    ensures buf[rta..rta + Align(4 + |attrs[0].data|)] == EncodeAttr(o, attrs[0])
    ensures buf[next..next + rest] == EncodeAttrs(o, attrs[1..])
  {
    var a, tail := attrs[0], EncodeAttrs(o, attrs[1..]);
    assert AttrOk(a);
    next, rest := rta + Align(4 + |a.data|), |tail|;
    assert EncodeAttrs(o, attrs) == EncodeAttr(o, a) + tail;
    SplitSlice(buf, rta, EncodeAttr(o, a), tail);
  }

  // ----- address messages -----

  const RTM_NEWADDR := 20
  const RT_SCOPE_UNIVERSE := 0
  const HDR := 24 // struct nlmsghdr and struct ifaddrmsg

  /** An RTM_NEWADDR message: the header fields that matter, and the octets of its attributes. */
  datatype AddrMsg = AddrMsg(msgType: nat, index: int, prefix: int, scope: nat, attrs: seq<byte>)

  function LocalAndBroadcast(a: IfAddr): (r: seq<Attr>)
    ensures Attrs(r)
  {
    [Attr(IFA_LOCAL, Bytes32(a.address)), Attr(IFA_BROADCAST, Bytes32(a.broadcast))]
  }

  /** How the kernel reports an address: the peer address first, then what was configured. */
  function Report(o: Order, index: int, a: IfAddr): AddrMsg {
    AddrMsg(RTM_NEWADDR, index, a.prefix, RT_SCOPE_UNIVERSE,
            EncodeAttrs(o, [Attr(IFA_ADDRESS, Bytes32(a.address))] + LocalAndBroadcast(a)))
  }

  /** The test of checkaddrs on a message of this interface. */
  predicate Matches(o: Order, msg: AddrMsg, index: int, wanted: IfAddr, stack: Seen)
    requires stack.cnt == 0
  {
    && msg.msgType == RTM_NEWADDR && msg.index == index
    && wanted.prefix == msg.prefix && msg.scope == RT_SCOPE_UNIVERSE
    && (var seen := ScanFrom(o, msg.attrs + Zeros(4), 0, |msg.attrs|, stack);
        seen.cnt == 2 && seen.address == wanted.address && seen.broadcast == wanted.broadcast)
  }

  /** checkaddrs: the locals start with whatever the stack holds, the buffer continues behind the message. */
  method CheckAddrs(o: Order, msg: AddrMsg, index: int, wanted: IfAddr, stack: Seen) returns (found: bool)
    requires stack.cnt == 0
    ensures found <==> Matches(o, msg, index, wanted, stack)
  {
    if msg.msgType != RTM_NEWADDR { return false; }
    if msg.index != index { return false; }
    if wanted.prefix != msg.prefix || msg.scope != RT_SCOPE_UNIVERSE { return false; }
    var seen := ScanAttrs(o, msg.attrs + Zeros(4), 0, |msg.attrs|, stack);
    if seen.cnt != 2 { return false; }
    if seen.address != wanted.address || seen.broadcast != wanted.broadcast { return false; }
    found := true;
  }

  lemma ScanWhole(o: Order, attrs: seq<Attr>, stack: Seen)
    requires Attrs(attrs)
    ensures ScanFrom(o, EncodeAttrs(o, attrs) + Zeros(4), 0, |EncodeAttrs(o, attrs)|, stack) == NoticeAll(stack, attrs)
  {
    var e := EncodeAttrs(o, attrs);
    assert (e + Zeros(4))[0..|e|] == e;
    ScanReadsEncoded(o, e + Zeros(4), 0, |e|, attrs, stack);
  }

  lemma NoticeLocalAndBroadcast(a: IfAddr, s: Seen)
    ensures NoticeAll(s, LocalAndBroadcast(a)) == Seen(s.cnt + 2, a.address, a.broadcast)
  {
    var attrs := LocalAndBroadcast(a);
    var once := NoticeOne(s, attrs[0]);
    assert attrs[1..][0] == attrs[1];
    assert NoticeAll(once, attrs[1..]) == NoticeAll(NoticeOne(once, attrs[1]), attrs[1..][1..]);
  }

  /** A reported address is recognised exactly when it is the wanted one, whatever the stack held. */
  lemma ReportRecognised(o: Order, index: int, a: IfAddr, wanted: IfAddr, stack: Seen)
    requires stack.cnt == 0
    ensures Matches(o, Report(o, index, a), index, wanted, stack) <==> a == wanted
  {
    var attrs := [Attr(IFA_ADDRESS, Bytes32(a.address))] + LocalAndBroadcast(a);
    ScanWhole(o, attrs, stack);
    NoticeFirst(stack, attrs);
    assert attrs[1..] == LocalAndBroadcast(a);
    NoticeLocalAndBroadcast(a, stack);
  }

  /** Attributes of other kinds around the two change nothing. */
  lemma {:induction false} OtherAttributesIgnored(s: Seen, others: seq<Attr>, rest: seq<Attr>)
    requires Attrs(others) && Attrs(rest)
    requires forall i :: 0 <= i < |others| ==> others[i].kind != IFA_LOCAL && others[i].kind != IFA_BROADCAST
    ensures Attrs(others + rest) && NoticeAll(s, others + rest) == NoticeAll(s, rest)
    decreases |others|
  {
    if others == [] {
      assert others + rest == rest;
    } else {
      var all := others + rest;
      assert all[1..] == others[1..] + rest && AttrOk(others[0]) && all[0] == others[0];
      OtherAttributesIgnored(s, others[1..], rest);
      assert NoticeOne(s, all[0]) == s;
    }
  }

  // ----- the kernel's side -----

  /** One interface as the kernel sees it. */
  class Link {
    const index: int
    var addrs: set<IfAddr>

    constructor (index: int, addrs: set<IfAddr>)
      ensures this.index == index && this.addrs == addrs
    {
      this.index, this.addrs := index, addrs;
    }

    /** RTM_DELADDR without an address removes one of the addresses, or fails if there is none. */
    method DeleteAddr() returns (error: bool)
      modifies this
      ensures error <==> old(addrs) == {}
      ensures if error then addrs == {} else exists a :: a in old(addrs) && addrs == old(addrs) - {a}
    {
      if addrs == {} { return true; }
      var a :| a in addrs;
      addrs := addrs - {a};
      error := false;
    }

    /** RTM_GETADDR reports every address. */
    method Dump(o: Order) returns (msgs: seq<AddrMsg>)
      ensures forall a :: a in addrs ==> Report(o, index, a) in msgs
      ensures forall m :: m in msgs ==> exists a :: a in addrs && m == Report(o, index, a)
    {
      msgs := [];
      var rest := addrs;
      while rest != {}
        invariant rest <= addrs
        invariant forall a :: a in addrs - rest ==> Report(o, index, a) in msgs
        invariant forall m :: m in msgs ==> exists a :: a in addrs && m == Report(o, index, a)
        decreases rest
      {
        var a :| a in rest;
        msgs := msgs + [Report(o, index, a)];
        rest := rest - {a};
      }
    }

    /** RTM_NEWADDR adds the address its attributes spell. */
    method AddAddr(o: Order, msg: AddrMsg)
      requires msg.msgType == RTM_NEWADDR && msg.index == index
      modifies this
      ensures var seen := ScanFrom(o, msg.attrs + Zeros(4), 0, |msg.attrs|, Seen(0, 0, 0));
              addrs == old(addrs) + {IfAddr(seen.address, msg.prefix, seen.broadcast)}
    {
      var seen := ScanAttrs(o, msg.attrs + Zeros(4), 0, |msg.attrs|, Seen(0, 0, 0));
      addrs := addrs + {IfAddr(seen.address, msg.prefix, seen.broadcast)};
    }
  }

  /** nl_flushif: deletes one address after the other until the kernel reports an error. */
  method FlushIf(link: Link)
    modifies link
    ensures link.addrs == {}
  {
    var more := true;
    while more
      invariant !more ==> link.addrs == {}
      decreases |link.addrs|, more
    {
      var error := link.DeleteAddr();
      more := !error;
    }
  }

  /** Appends one attribute to a request under construction. */
  method PutAttr(o: Order, req: array<byte>, length: nat, kind: u16, value: u32) returns (newLength: nat)
    requires HDR <= length && length % 4 == 0 && length + 8 <= req.Length
    modifies req
    ensures newLength == length + 8
    ensures req[..newLength] == old(req[..length]) + EncodeAttr(o, Attr(kind, Bytes32(value)))
  {
    var rta := Align(length);
    var kindOctets, lenOctets, data := Store(o, kind), Store(o, 8), Bytes32(value);
    req[rta + 2], req[rta + 3] := kindOctets[0], kindOctets[1];
    req[rta], req[rta + 1] := lenOctets[0], lenOctets[1];
    req[rta + 4], req[rta + 5], req[rta + 6], req[rta + 7] := data[0], data[1], data[2], data[3];
    newLength := Align(length) + 8;
    assert req[..newLength] == old(req[..length]) + (Store(o, 8) + Store(o, kind) + Bytes32(value));
    assert EncodeAttr(o, Attr(kind, data)) == Store(o, 8) + Store(o, kind) + data + [];
  }

  /** The request nl_configureif sends for the wanted address. */
  method BuildRequest(o: Order, index: int, wanted: IfAddr) returns (msg: AddrMsg)
    ensures msg == AddrMsg(RTM_NEWADDR, index, wanted.prefix, RT_SCOPE_UNIVERSE, EncodeAttrs(o, LocalAndBroadcast(wanted)))
  {
    var req := new byte[HDR + 128];
    var len := PutAttr(o, req, HDR, IFA_LOCAL, wanted.address);
    len := PutAttr(o, req, len, IFA_BROADCAST, wanted.broadcast);
    var attrs := LocalAndBroadcast(wanted);
    assert EncodeAttrs(o, attrs) == EncodeAttr(o, attrs[0]) + EncodeAttr(o, attrs[1]) by {
      assert EncodeAttrs(o, attrs[1..]) == EncodeAttr(o, attrs[1]) + EncodeAttrs(o, attrs[1..][1..]);
    }
    assert req[HDR..len] == EncodeAttr(o, attrs[0]) + EncodeAttr(o, attrs[1]);
    msg := AddrMsg(RTM_NEWADDR, index, wanted.prefix, RT_SCOPE_UNIVERSE, req[HDR..len]);
  }

  /** The addresses an interface is left with. */
  function Configured(addrs: set<IfAddr>, wanted: IfAddr): set<IfAddr> {
    if wanted in addrs then addrs else {wanted}
  }

  /** The dump with checkaddrs as its callback. */
  method FindAddr(o: Order, link: Link, wanted: IfAddr, stack: Seen) returns (found: bool)
    requires stack.cnt == 0
    ensures found <==> wanted in link.addrs
  {
    var msgs := link.Dump(o);
    FoundIffPresent(o, link.index, link.addrs, msgs, wanted, stack);
    found := false;
    for i := 0 to |msgs|
      invariant found ==> exists j :: 0 <= j < |msgs| && Matches(o, msgs[j], link.index, wanted, stack)
      invariant !found ==> forall j :: 0 <= j < i ==> !Matches(o, msgs[j], link.index, wanted, stack)
    {
      var hit := CheckAddrs(o, msgs[i], link.index, wanted, stack);
      found := found || hit;
    }
  }

  /** nl_configureif: leaves the interface alone if it has the wanted address, else flushes it and adds that one. */
  method ConfigureIf(o: Order, link: Link, cfg: Config, stack: Seen)
    requires stack.cnt == 0
    modifies link
    ensures link.addrs == Configured(old(link.addrs), Wanted(cfg))
    ensures exists a :: AddressOf(a, cfg) && a in link.addrs
                        && link.addrs == if a in old(link.addrs) then old(link.addrs) else {a}
  {
    var wanted := Wanted(cfg);
    WantedIs(cfg);
    var found := FindAddr(o, link, wanted, stack);
    if !found {
      FlushIf(link);
      var request := BuildRequest(o, link.index, wanted);
      RequestSpells(o, wanted);
      link.AddAddr(o, request);
    }
  }

  /** The kernel reads from the request the address that was asked for. */
  lemma RequestSpells(o: Order, wanted: IfAddr)
    ensures var attrs := EncodeAttrs(o, LocalAndBroadcast(wanted));
            ScanFrom(o, attrs + Zeros(4), 0, |attrs|, Seen(0, 0, 0)) == Seen(2, wanted.address, wanted.broadcast)
  {
    ScanWhole(o, LocalAndBroadcast(wanted), Seen(0, 0, 0));
    NoticeLocalAndBroadcast(wanted, Seen(0, 0, 0));
  }

  lemma FoundIffPresent(o: Order, index: int, addrs: set<IfAddr>, msgs: seq<AddrMsg>, wanted: IfAddr, stack: Seen)
    requires stack.cnt == 0
    requires forall a :: a in addrs ==> Report(o, index, a) in msgs
    requires forall m :: m in msgs ==> exists a :: a in addrs && m == Report(o, index, a)
    ensures (exists j :: 0 <= j < |msgs| && Matches(o, msgs[j], index, wanted, stack)) <==> wanted in addrs
  {
    if wanted in addrs {
      ReportRecognised(o, index, wanted, wanted, stack);
    }
    forall j | 0 <= j < |msgs| && Matches(o, msgs[j], index, wanted, stack)
      ensures wanted in addrs
    {
      assert msgs[j] in msgs;
      var a :| a in addrs && msgs[j] == Report(o, index, a);
      ReportRecognised(o, index, a, wanted, stack);
    }
  }

  /** What one configuration leaves, a second one for the same server data leaves alone. */
  lemma ConfiguredTwice(addrs: set<IfAddr>, cfg: Config)
    ensures Configured(Configured(addrs, Wanted(cfg)), Wanted(cfg)) == Configured(addrs, Wanted(cfg))
    ensures addrs == {} || addrs == {Wanted(cfg)} ==> Configured(addrs, Wanted(cfg)) == {Wanted(cfg)}
  {
  }

  /** The two attributes of a request on a little-endian host, octet by octet: IFA_LOCAL is 2, IFA_BROADCAST 4. */
  lemma RequestOctets(a: IfAddr)
    ensures EncodeAttrs(Little, LocalAndBroadcast(a))
         == [8, 0, 2, 0] + Bytes32(a.address) + [8, 0, 4, 0] + Bytes32(a.broadcast)
  {
    var attrs := LocalAndBroadcast(a);
    assert attrs[1..] == [attrs[1]] && attrs[1..][1..] == [];
    assert EncodeAttrs(Little, attrs[1..]) == EncodeAttr(Little, attrs[1]) + [];
    assert EncodeAttr(Little, attrs[0]) == [8, 0, 2, 0] + Bytes32(a.address);
    assert EncodeAttr(Little, attrs[1]) == [8, 0, 4, 0] + Bytes32(a.broadcast);
  }
}
