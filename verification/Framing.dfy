/**
 * The raw IP/UDP frames of dhcpmessage.c: the headers put in front of a
 * broadcast message, and the test a received frame must pass.
 */
module Framing {
  import opened Bytes
  import opened Checksum
  import Options

  const ETH_DATA_LEN := 1500
  const UDP := 17
  const CLIENT_PORT := 68
  const SERVER_PORT := 67
  const HEADERS := 28

  /** An address in network byte order. */
  predicate IsAddr(a: seq<byte>) {
    |a| == 4
  }

  // ----- sending -----

  /** The 20-octet IP header: don't fragment, TTL 64, UDP, to the limited broadcast address. */
  function IpHeader(length: nat, check: seq<byte>, from: seq<byte>): (h: seq<byte>)
    requires length + HEADERS < 0x1_0000 && |check| == 2 && IsAddr(from)
    ensures |h| == 20
  {
    var total := Bytes16(length + HEADERS);
    [0x45, 0, total[0], total[1], 0, 0, 0x40, 0, 64, UDP, check[0], check[1],
     from[0], from[1], from[2], from[3], 255, 255, 255, 255]
  }

  function UdpHeader(source: u16, dest: u16, length: nat, check: seq<byte>): (h: seq<byte>)
    requires length + 8 < 0x1_0000 && |check| == 2
    ensures |h| == 8
  {
    Bytes16(source) + Bytes16(dest) + Bytes16(length + 8) + check
  }

  const NO_CHECK: seq<byte> := [0, 0]

  function IpCheck(o: Order, length: nat, from: seq<byte>): u16
    requires length + HEADERS < 0x1_0000 && IsAddr(from)
  {
    Cksum(o, IpHeader(length, NO_CHECK, from), 0)
  }

  /** The octets RFC 768 sums: pseudo header (the protocol enters as the initial sum), UDP header, data. */
  function Summed(source: u16, dest: u16, from: seq<byte>, check: seq<byte>, msg: seq<byte>): seq<byte>
    requires |msg| + 8 < 0x1_0000 && IsAddr(from) && |check| == 2
  {
    Bytes16(|msg| + 8) + (from + [255, 255, 255, 255]) + UdpHeader(source, dest, |msg|, check) + msg
  }

  function UdpCheck(o: Order, from: seq<byte>, msg: seq<byte>): u16
    requires |msg| + 8 < 0x1_0000 && IsAddr(from)
  {
    var c := Cksum(o, Summed(CLIENT_PORT, SERVER_PORT, from, NO_CHECK, msg), Word(o, 0, UDP));
    if c != 0 then c else ONES
  }

  /** The frame the client puts on the wire around `msg`. */
  function Frame(o: Order, from: seq<byte>, msg: seq<byte>): (f: seq<byte>)
    requires |msg| + HEADERS < 0x1_0000 && IsAddr(from)
    ensures |f| == HEADERS + |msg|
  {
    IpHeader(|msg|, Store(o, IpCheck(o, |msg|, from)), from)
    + UdpHeader(CLIENT_PORT, SERVER_PORT, |msg|, Store(o, UdpCheck(o, from, msg)))
    + msg
  }

  /** The three partial sums over pseudo header and length, addresses and header, data. */
  method UdpChecksum(o: Order, ip: seq<byte>, udp: seq<byte>, msg: seq<byte>, ghost from: seq<byte>) returns (checksum: u16)
    requires |msg| <= Options.SIZE && IsAddr(from) && |ip| == 20 && ip[12..20] == from + [255, 255, 255, 255]
    requires udp == UdpHeader(CLIENT_PORT, SERVER_PORT, |msg|, NO_CHECK)
    ensures checksum == Cksum(o, Summed(CLIENT_PORT, SERVER_PORT, from, NO_CHECK, msg), Word(o, 0, UDP))
  {
    checksum := Word(o, 0, UDP);
    checksum := InCksum(o, udp[4..6], checksum);
    var middle := ip[12..20] + udp;
    checksum := InCksum(o, middle, ONES - checksum);
    checksum := InCksum(o, msg, ONES - checksum);
    CksumChains(o, udp[4..6], middle, Word(o, 0, UDP));
    CksumChains(o, udp[4..6] + middle, msg, Word(o, 0, UDP));
    assert udp[4..6] == Bytes16(|msg| + 8);
    assert udp[4..6] + middle + msg == Summed(CLIENT_PORT, SERVER_PORT, from, NO_CHECK, msg);
  }

  method BuildFrame(o: Order, from: seq<byte>, msg: seq<byte>) returns (frame: seq<byte>)
    requires |msg| <= Options.SIZE && IsAddr(from)
    ensures frame == Frame(o, from, msg)
  {
    var ip := IpHeader(|msg|, NO_CHECK, from);
    var ipCheck := InCksum(o, ip, 0);
    ip := IpHeader(|msg|, Store(o, ipCheck), from);

    var udp := UdpHeader(CLIENT_PORT, SERVER_PORT, |msg|, NO_CHECK);
    var checksum := UdpChecksum(o, ip, udp, msg, from);
    udp := UdpHeader(CLIENT_PORT, SERVER_PORT, |msg|, Store(o, if checksum != 0 then checksum else 0xffff));
    frame := ip + udp + msg;
  }

  /** RFC 1071: the frame does not depend on the byte order of the sending host. */
  lemma FrameOrderFree(from: seq<byte>, msg: seq<byte>)
    requires |msg| + HEADERS < 0x1_0000 && IsAddr(from)
    ensures Frame(Little, from, msg) == Frame(Big, from, msg)
  {
    CksumOrderFree(IpHeader(|msg|, NO_CHECK, from), [0, 0]);
    CksumOrderFree(Summed(CLIENT_PORT, SERVER_PORT, from, NO_CHECK, msg), [0, UDP]);
    ZeroStored(Cksum(Little, Summed(CLIENT_PORT, SERVER_PORT, from, NO_CHECK, msg), Word(Little, 0, UDP)),
               Cksum(Big, Summed(CLIENT_PORT, SERVER_PORT, from, NO_CHECK, msg), Word(Big, 0, UDP)));
  }

  /** Words stored alike are zero together, so the 0 to 0xffff rule applies alike. */
  lemma ZeroStored(l: u16, b: u16)
    requires Store(Little, l) == Store(Big, b)
    ensures l == 0 <==> b == 0
    ensures Store(Little, if l != 0 then l else ONES) == Store(Big, if b != 0 then b else ONES)
  {
    assert Store(Little, l)[0] == l % 0x100 && Store(Big, b)[0] == b / 0x100;
    assert Store(Little, l)[1] == l / 0x100 && Store(Big, b)[1] == b % 0x100;
  }

  // ----- receiving -----

  /** The first `plen` octets of buf arrived; the rest of the buffer is whatever it held. */
  predicate Received(buf: seq<byte>, plen: nat) {
    |buf| == ETH_DATA_LEN && plen <= ETH_DATA_LEN
  }

  function HeaderLength(buf: seq<byte>): nat
    requires |buf| > 0
  {
    4 * (buf[0] % 0x10)
  }

  /** IPv4, whole, checksum right, UDP, not a fragment. */
  predicate AcceptIp(o: Order, buf: seq<byte>, plen: nat)
    requires Received(buf, plen)
  {
    && 20 <= plen
    && buf[0] / 0x10 == 4
    && 20 <= HeaderLength(buf) <= plen
    && Read16(buf, 2) <= plen
    && Cksum(o, buf[..HeaderLength(buf)], 0) == 0
    && buf[9] == UDP
    && Read16(buf, 6) % 0x2000 == 0
  }

  function UdpLength(buf: seq<byte>): u16
    requires |buf| == ETH_DATA_LEN
  {
    Read16(buf, HeaderLength(buf) + 4)
  }

  /** What RFC 768 sums over a received datagram. */
  function Arrived(buf: seq<byte>): seq<byte>
    requires |buf| == ETH_DATA_LEN && HeaderLength(buf) + UdpLength(buf) <= |buf|
  {
    var h := HeaderLength(buf);
    buf[h + 4..h + 6] + buf[12..20] + buf[h..h + UdpLength(buf)]
  }

  /** From the server port to the client port, whole, checksum right or absent. */
  predicate AcceptUdp(o: Order, buf: seq<byte>, plen: nat)
    requires Received(buf, plen)
  {
    var h := HeaderLength(buf);
    && Read16(buf, h) == SERVER_PORT
    && Read16(buf, h + 2) == CLIENT_PORT
    && h + UdpLength(buf) <= plen
    && (var check := Word(o, buf[h + 6], buf[h + 7]);
        check == 0 || check == ONES || Cksum(o, Arrived(buf), Word(o, 0, UDP)) == 0)
  }

  /** The DHCP message in an accepted frame. */
  function Parse(o: Order, buf: seq<byte>, plen: nat): Option<seq<byte>>
    requires Received(buf, plen)
  {
    if !AcceptIp(o, buf, plen) || !AcceptUdp(o, buf, plen) then None
    else if UdpLength(buf) < 8 + Options.OPTIONS + 4 then None
    else
      var payload := buf[HeaderLength(buf) + 8..HeaderLength(buf) + UdpLength(buf)];
      if payload[Options.OPTIONS..Options.OPTIONS + 4] == Options.COOKIE then Some(payload) else None
  }

  method VerifyUdpChecksum(o: Order, buf: seq<byte>, plen: nat) returns (ok: bool)
    requires Received(buf, plen) && HeaderLength(buf) + UdpLength(buf) <= plen && 20 <= HeaderLength(buf)
    ensures ok <==> Cksum(o, Arrived(buf), Word(o, 0, UDP)) == 0
  {
    var h := HeaderLength(buf);
    var checksum := Word(o, 0, UDP);
    checksum := InCksum(o, buf[h + 4..h + 6], checksum);
    checksum := InCksum(o, buf[12..20], ONES - checksum);
    checksum := InCksum(o, buf[h..h + UdpLength(buf)], ONES - checksum);
    CksumChains(o, buf[h + 4..h + 6], buf[12..20], Word(o, 0, UDP));
    CksumChains(o, buf[h + 4..h + 6] + buf[12..20], buf[h..h + UdpLength(buf)], Word(o, 0, UDP));
    ok := checksum == 0;
  }

  // ----- a frame, its ports exchanged, is accepted -----

  /** A reply built from a frame by exchanging its two UDP ports. */
  function ExchangePorts(f: seq<byte>): (r: seq<byte>)
    requires |f| >= HEADERS
    ensures |r| == |f|
  {
    f[..20] + f[22..24] + f[20..22] + f[24..]
  }

  lemma ExchangedIs(o: Order, from: seq<byte>, msg: seq<byte>)
    requires |msg| + HEADERS < 0x1_0000 && IsAddr(from)
    ensures ExchangePorts(Frame(o, from, msg))
         == IpHeader(|msg|, Store(o, IpCheck(o, |msg|, from)), from)
            + UdpHeader(SERVER_PORT, CLIENT_PORT, |msg|, Store(o, UdpCheck(o, from, msg)))
            + msg
  {
    ExchangeSlices(IpHeader(|msg|, Store(o, IpCheck(o, |msg|, from)), from),
                   Bytes16(CLIENT_PORT), Bytes16(SERVER_PORT), Bytes16(|msg| + 8), Store(o, UdpCheck(o, from, msg)), msg);
  }

  lemma ExchangeSlices(ip: seq<byte>, a: seq<byte>, b: seq<byte>, c: seq<byte>, d: seq<byte>, msg: seq<byte>)
    requires |ip| == 20 && |a| == |b| == |c| == |d| == 2
    ensures ExchangePorts(ip + (a + b + c + d) + msg) == ip + (b + a + c + d) + msg
  {
    var f := ip + (a + b + c + d) + msg;
    assert f[..20] == ip && f[20..22] == a && f[22..24] == b && f[24..] == c + d + msg;
  }

  lemma Slices(ip: seq<byte>, udp: seq<byte>, msg: seq<byte>, buf: seq<byte>)
    requires |ip| == 20 && |udp| == 8 && ip + udp + msg <= buf
    ensures HEADERS + |msg| <= |buf|
    ensures buf[..20] == ip && buf[20..28] == udp && buf[28..28 + |msg|] == msg
  {
    var f := ip + udp + msg;
    assert buf[..20] == f[..20] == ip;
    assert buf[20..28] == f[20..28] == udp;
    assert buf[28..28 + |msg|] == f[28..] == msg;
  }

  lemma IpHeaderVerifies(o: Order, length: nat, from: seq<byte>)
    requires length + HEADERS < 0x1_0000 && IsAddr(from)
    ensures Cksum(o, IpHeader(length, Store(o, IpCheck(o, length, from)), from), 0) == 0
  {
    var s := IpHeader(length, NO_CHECK, from);
    var check := IpCheck(o, length, from);
    FilledVerifies(o, s, 10, 0, check);
    assert Fill(o, s, 10, check) == IpHeader(length, Store(o, check), from);
  }

  /** The sum over a datagram does not notice its ports exchanged. */
  lemma SumExchanged(o: Order, from: seq<byte>, check: seq<byte>, msg: seq<byte>)
    requires |msg| + 8 < 0x1_0000 && IsAddr(from) && |check| == 2
    ensures Sum(o, Summed(SERVER_PORT, CLIENT_PORT, from, check, msg))
         == Sum(o, Summed(CLIENT_PORT, SERVER_PORT, from, check, msg))
  {
    SumSplit(o, SERVER_PORT, CLIENT_PORT, from, check, msg);
    SumSplit(o, CLIENT_PORT, SERVER_PORT, from, check, msg);
  }

  lemma SumSplit(o: Order, source: u16, dest: u16, from: seq<byte>, check: seq<byte>, msg: seq<byte>)
    requires |msg| + 8 < 0x1_0000 && IsAddr(from) && |check| == 2
    ensures Sum(o, Summed(source, dest, from, check, msg))
         == Sum(o, Bytes16(|msg| + 8) + (from + [255, 255, 255, 255])) + Sum(o, Bytes16(source))
            + Sum(o, Bytes16(dest)) + Sum(o, Bytes16(|msg| + 8) + check + msg)
  {
    var pseudo := Bytes16(|msg| + 8) + (from + [255, 255, 255, 255]);
    var tail := Bytes16(|msg| + 8) + check + msg;
    assert Summed(source, dest, from, check, msg) == pseudo + (Bytes16(source) + (Bytes16(dest) + tail));
    SumAppend(o, pseudo, Bytes16(source) + (Bytes16(dest) + tail));
    SumAppend(o, Bytes16(source), Bytes16(dest) + tail);
    SumAppend(o, Bytes16(dest), tail);
  }

  /** Where the UDP check field lies among the octets summed. */
  lemma FieldOfSummed(o: Order, from: seq<byte>, msg: seq<byte>, check: u16)
    requires |msg| + 8 < 0x1_0000 && IsAddr(from)
    ensures var s := Summed(CLIENT_PORT, SERVER_PORT, from, NO_CHECK, msg);
            && |s| >= 18 && s[16] == 0 && s[17] == 0
            && Fill(o, s, 16, check) == Summed(CLIENT_PORT, SERVER_PORT, from, Store(o, check), msg)
  {
    var front := Bytes16(|msg| + 8) + (from + [255, 255, 255, 255])
                 + (Bytes16(CLIENT_PORT) + Bytes16(SERVER_PORT) + Bytes16(|msg| + 8));
    assert |front| == 16;
    assert Summed(CLIENT_PORT, SERVER_PORT, from, NO_CHECK, msg) == front + NO_CHECK + msg;
    assert Summed(CLIENT_PORT, SERVER_PORT, from, Store(o, check), msg) == front + Store(o, check) + msg;
  }

  lemma UdpVerifies(o: Order, from: seq<byte>, msg: seq<byte>)
    requires |msg| + 8 < 0x1_0000 && IsAddr(from)
    ensures Cksum(o, Summed(SERVER_PORT, CLIENT_PORT, from, Store(o, UdpCheck(o, from, msg)), msg), Word(o, 0, UDP)) == 0
  {
    var s := Summed(CLIENT_PORT, SERVER_PORT, from, NO_CHECK, msg);
    var check := UdpCheck(o, from, msg);
    FieldOfSummed(o, from, msg, check);
    FilledVerifies(o, s, 16, Word(o, 0, UDP), check);
    SumExchanged(o, from, Store(o, check), msg);
  }

  /** A reply of the server around msg stands at the start of buf. */
  predicate LaidOut(o: Order, from: seq<byte>, msg: seq<byte>, buf: seq<byte>)
    requires IsAddr(from) && |msg| <= Options.SIZE && |buf| == ETH_DATA_LEN
  {
    && buf[..20] == IpHeader(|msg|, Store(o, IpCheck(o, |msg|, from)), from)
    && buf[20..28] == UdpHeader(SERVER_PORT, CLIENT_PORT, |msg|, Store(o, UdpCheck(o, from, msg)))
    && buf[28..28 + |msg|] == msg
  }

  lemma ExchangedLies(sender: Order, receiver: Order, from: seq<byte>, msg: seq<byte>, buf: seq<byte>)
    requires IsAddr(from) && |msg| <= Options.SIZE && |buf| == ETH_DATA_LEN
    requires ExchangePorts(Frame(sender, from, msg)) <= buf
    ensures LaidOut(receiver, from, msg, buf)
  {
    assert Frame(sender, from, msg) == Frame(receiver, from, msg) by { FrameOrderFree(from, msg); }
    ExchangedIs(receiver, from, msg);
    Slices(IpHeader(|msg|, Store(receiver, IpCheck(receiver, |msg|, from)), from),
           UdpHeader(SERVER_PORT, CLIENT_PORT, |msg|, Store(receiver, UdpCheck(receiver, from, msg))), msg, buf);
  }

  /** The addresses RFC 768 sums come last in the IP header. */
  lemma AddressesOf(length: nat, check: seq<byte>, from: seq<byte>, buf: seq<byte>)
    requires length + HEADERS < 0x1_0000 && |check| == 2 && IsAddr(from) && |buf| >= 20
    requires buf[..20] == IpHeader(length, check, from)
    ensures buf[12..20] == from + [255, 255, 255, 255]
  {
    assert buf[12..20] == buf[..20][12..20];
  }

  lemma Extracts(o: Order, msg: seq<byte>, buf: seq<byte>, plen: nat)
    requires Received(buf, plen) && AcceptIp(o, buf, plen) && AcceptUdp(o, buf, plen)
    requires HeaderLength(buf) == 20 && UdpLength(buf) == |msg| + 8 && plen == HEADERS + |msg|
    requires Options.OPTIONS + 4 <= |msg| && msg[Options.OPTIONS..Options.OPTIONS + 4] == Options.COOKIE
    requires buf[28..plen] == msg
    ensures Parse(o, buf, plen) == Some(msg)
  {
  }

  /** Sender and receiver agree: the message comes out of the exchanged frame, whatever the hosts' byte orders. */
  lemma ParseExchanged(sender: Order, receiver: Order, from: seq<byte>, msg: seq<byte>, buf: seq<byte>)
    requires IsAddr(from) && Options.OPTIONS + 4 <= |msg| <= Options.SIZE
    requires msg[Options.OPTIONS..Options.OPTIONS + 4] == Options.COOKIE
    requires |buf| == ETH_DATA_LEN && ExchangePorts(Frame(sender, from, msg)) <= buf
    ensures Parse(receiver, buf, HEADERS + |msg|) == Some(msg)
  {
    ExchangedLies(sender, receiver, from, msg, buf);
    AcceptsOwnIp(receiver, from, msg, buf);
    AddressesOf(|msg|, Store(receiver, IpCheck(receiver, |msg|, from)), from, buf);
    AcceptsOwnUdp(receiver, from, msg, buf);
    Extracts(receiver, msg, buf, HEADERS + |msg|);
  }

  lemma AcceptsOwnIp(o: Order, from: seq<byte>, msg: seq<byte>, buf: seq<byte>)
    requires IsAddr(from) && |msg| <= Options.SIZE && |buf| == ETH_DATA_LEN
    requires buf[..20] == IpHeader(|msg|, Store(o, IpCheck(o, |msg|, from)), from)
    ensures AcceptIp(o, buf, HEADERS + |msg|) && HeaderLength(buf) == 20
  {
    var ip := buf[..20];
    assert buf[0] == ip[0] && buf[2] == ip[2] && buf[3] == ip[3] && buf[6] == ip[6] && buf[7] == ip[7] && buf[9] == ip[9];
    IpHeaderVerifies(o, |msg|, from);
    assert Read16(Bytes16(|msg| + HEADERS), 0) == Read16(buf, 2);
  }

  lemma AcceptsOwnUdp(o: Order, from: seq<byte>, msg: seq<byte>, buf: seq<byte>)
    requires IsAddr(from) && |msg| <= Options.SIZE && |buf| == ETH_DATA_LEN
    requires HeaderLength(buf) == 20
    requires buf[12..20] == from + [255, 255, 255, 255]
    requires buf[20..28] == UdpHeader(SERVER_PORT, CLIENT_PORT, |msg|, Store(o, UdpCheck(o, from, msg)))
    requires buf[28..28 + |msg|] == msg
    ensures AcceptUdp(o, buf, HEADERS + |msg|) && UdpLength(buf) == |msg| + 8
  {
    var udp := buf[20..28];
    assert forall i :: 0 <= i < 8 ==> buf[20 + i] == udp[i];
    assert udp[4..6] == Bytes16(|msg| + 8) == buf[24..26];
    assert Read16(buf, 24) == Read16(Bytes16(|msg| + 8), 0);
    assert buf[20..28 + |msg|] == udp + msg;
    assert Arrived(buf) == Summed(SERVER_PORT, CLIENT_PORT, from, Store(o, UdpCheck(o, from, msg)), msg);
    UdpVerifies(o, from, msg);
  }

  /**
   * Exactly these frames are accepted, by octets: IPv4 in whole, not a fragment,
   * its header verified; UDP in whole from port 67 to port 68, its checksum
   * verified or absent (0, and 0xffff too); and in it at least the fixed fields
   * and the cookie of a DHCP message, which is what is returned.
   */
  lemma AcceptsExactly(o: Order, buf: seq<byte>, plen: nat)
    requires Received(buf, plen)
    ensures var h := 4 * (buf[0] % 16);
            Parse(o, buf, plen).Some? <==>
              && 20 <= plen && buf[0] / 16 == 4 && 20 <= h <= plen && Read16(buf, 2) <= plen
              && Cksum(o, buf[..h], 0) == 0
              && buf[9] == 17 && buf[6] % 0x20 == 0 && buf[7] == 0
              && buf[h..h + 4] == [0, 67, 0, 68]
              && h + Read16(buf, h + 4) <= plen
              && (buf[h + 6..h + 8] == [0, 0] || buf[h + 6..h + 8] == [255, 255]
                  || Cksum(o, buf[h + 4..h + 6] + buf[12..20] + buf[h..h + Read16(buf, h + 4)], Word(o, 0, 17)) == 0)
              && 248 <= Read16(buf, h + 4) && buf[h + 244..h + 248] == [99, 130, 83, 99]
    ensures Parse(o, buf, plen).Some? ==>
              var h := 4 * (buf[0] % 16); Parse(o, buf, plen).value == buf[h + 8..h + Read16(buf, h + 4)]
  {
    IpExactly(o, buf, plen);
    if AcceptIp(o, buf, plen) {
      UdpExactly(o, buf, plen);
      if AcceptUdp(o, buf, plen) && 248 <= UdpLength(buf) {
        CookieOctets(buf, HeaderLength(buf) + 8, HeaderLength(buf) + UdpLength(buf));
      }
    }
  }

  lemma IpExactly(o: Order, buf: seq<byte>, plen: nat)
    requires Received(buf, plen)
    ensures var h := 4 * (buf[0] % 16);
            AcceptIp(o, buf, plen) <==>
              && 20 <= plen && buf[0] / 16 == 4 && 20 <= h <= plen && Read16(buf, 2) <= plen
              && Cksum(o, buf[..h], 0) == 0
              && buf[9] == 17 && buf[6] % 0x20 == 0 && buf[7] == 0
  {
    FragmentOctets(buf);
  }

  lemma UdpExactly(o: Order, buf: seq<byte>, plen: nat)
    requires Received(buf, plen)
    ensures var h := 4 * (buf[0] % 16);
            AcceptUdp(o, buf, plen) <==>
              && buf[h..h + 4] == [0, 67, 0, 68]
              && h + Read16(buf, h + 4) <= plen
              && (buf[h + 6..h + 8] == [0, 0] || buf[h + 6..h + 8] == [255, 255]
                  || Cksum(o, buf[h + 4..h + 6] + buf[12..20] + buf[h..h + Read16(buf, h + 4)], Word(o, 0, 17)) == 0)
  {
    var h := 4 * (buf[0] % 16);
    PortOctets(buf, h);
    CheckOctets(o, buf[h + 6], buf[h + 7]);
    assert buf[h + 6..h + 8] == [buf[h + 6], buf[h + 7]];
  }

  lemma FragmentOctets(buf: seq<byte>)
    requires |buf| >= 8
    ensures Read16(buf, 6) % 0x2000 == 0 <==> buf[6] % 0x20 == 0 && buf[7] == 0
  {
  }

  lemma PortOctets(buf: seq<byte>, h: nat)
    requires h + 8 <= |buf|
    ensures buf[h..h + 4] == [0, 67, 0, 68] <==> Read16(buf, h) == 67 && Read16(buf, h + 2) == 68
  {
    assert buf[h..h + 4] == [buf[h], buf[h + 1], buf[h + 2], buf[h + 3]];
  }

  lemma CheckOctets(o: Order, a: byte, b: byte)
    ensures Word(o, a, b) == 0 <==> [a, b] == [0, 0]
    ensures Word(o, a, b) == ONES <==> [a, b] == [255, 255]
  {
  }

  lemma CookieOctets(buf: seq<byte>, from: nat, to: nat)
    requires from + 240 <= to <= |buf|
    ensures buf[from..to][236..240] == buf[from + 236..from + 240]
  {
    var s, t := buf[from..to][236..240], buf[from + 236..from + 240];
    assert |s| == |t| == 4 && forall i :: 0 <= i < 4 ==> s[i] == t[i];
  }
}
