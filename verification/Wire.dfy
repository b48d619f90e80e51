/** What the client says, state by state and octet by octet. */
module Wire {
  import opened Bytes
  import opened Checksum
  import opened Protocol
  import opened Interface
  import Options
  import Framing
  import RoundTrip

  // ----- which message each state sends -----

  function Word(code: byte, value: u32): Opt {
    Options.Opt(code, Bytes32(value))
  }

  /** The parameter request list, an unlimited lease and the host name. */
  function AsksFor(p: Params): seq<Opt> {
    [Options.Opt(55, [1, 3, 6, 12, 15, 28, 51, 58, 59]), Options.Opt(51, [255, 255, 255, 255]), Options.Opt(12, p.hostname)]
  }

  /** Hardware type 1 and the hardware address. */
  function Identifies(p: Params): seq<Opt> {
    [Options.Opt(61, [1] + p.hwaddr)]
  }

  /** The seven messages: type, ciaddr, options in order, and the address handed to the sending function. */
  lemma MessageOfState(s: Client)
    ensures Outgoing(s) ==
      match s.state
      case Init => Some(Out(1, 0, [Options.Opt(53, [1])] + AsksFor(s.p) + Identifies(s.p), 0))
      case InitReboot =>
        Some(Out(3, 0, [Options.Opt(53, [3]), Word(50, s.offered.address)] + AsksFor(s.p) + Identifies(s.p),
                 s.current.address))
      case Requesting =>
        Some(Out(3, 0, [Options.Opt(53, [3]), Word(50, s.offered.address), Word(54, s.offered.server)]
                       + AsksFor(s.p) + Identifies(s.p), 0))
      case Renewing =>
        Some(Out(3, s.current.address, [Options.Opt(53, [3])] + AsksFor(s.p) + Identifies(s.p), s.current.server))
      case Rebinding =>
        Some(Out(3, s.current.address, [Options.Opt(53, [3])] + AsksFor(s.p) + Identifies(s.p), s.current.address))
      case Releasing => Some(Out(7, s.current.address, [Options.Opt(53, [7])] + Identifies(s.p), s.current.server))
      case Declining =>
        Some(Out(4, 0, [Options.Opt(53, [4]), Word(50, s.offered.address), Word(54, s.offered.server)]
                       + Identifies(s.p), 0))
      case _ => None
  {
    Common(s.p);
    var requested, server := Word(50, s.offered.address), Word(54, s.offered.server);
    var wishes, id := AsksFor(s.p), Identifies(s.p);
    match s.state {
      case Init => Regroup(Options.Opt(53, [1]), [], wishes, id);
      case InitReboot => Regroup(Options.Opt(53, [3]), [requested], wishes, id);
      case Requesting => Regroup(Options.Opt(53, [3]), [requested, server], wishes, id);
      case Renewing => Regroup(Options.Opt(53, [3]), [], wishes, id);
      case Rebinding => Regroup(Options.Opt(53, [3]), [], wishes, id);
      case Releasing => Regroup(Options.Opt(53, [7]), [], [], id);
      case Declining => Regroup(Options.Opt(53, [4]), [requested, server], [], id);
      case _ =>
    }
  }

  lemma Common(p: Params)
    ensures CommonOptions(p, 1) == CommonOptions(p, 3) == AsksFor(p) + Identifies(p)
    ensures CommonOptions(p, 7) == CommonOptions(p, 4) == [] + Identifies(p)
  {
    assert Bytes32(0xffff_ffff) == [255, 255, 255, 255];
  }

  lemma Regroup(t: Opt, extra: seq<Opt>, wishes: seq<Opt>, id: seq<Opt>)
    ensures [t] + extra + (wishes + id) == [t] + extra + wishes + id
    ensures extra == [] ==> [t] + extra + (wishes + id) == [t] + wishes + id
    ensures |extra| == 1 ==> [t] + extra + (wishes + id) == [t, extra[0]] + wishes + id
    ensures |extra| == 2 ==> [t] + extra + (wishes + id) == [t, extra[0], extra[1]] + wishes + id
    ensures wishes == [] ==> [t] + extra + (wishes + id) == [t] + extra + id
    ensures extra == [] && wishes == [] ==> [t] + extra + (wishes + id) == [t] + id
    ensures |extra| == 2 && wishes == [] ==> [t] + extra + (wishes + id) == [t, extra[0], extra[1]] + id
  {
  }

  // ----- over which way it leaves -----

  /**
   * A renewal and a release leave through the UDP socket, to the server's
   * address, if there is one; everything else leaves through the raw socket.
   * The xid is the number drawn.
   */
  lemma WayOut(s: Client, env: Env)
    requires Outgoing(s).Some?
    ensures var r := SendMessage(s, env); var e, m := r.log.last, Outgoing(s).value;
            && r == s.(xid := env.xid % 0x1_0000_0000, log := Snoc(s.log, e)) && e.Sent?
            && e.state == s.state && e.xid == env.xid % 0x1_0000_0000
            && e.msgType == m.msgType && e.ciaddr == m.ciaddr && e.opts == m.opts && e.addr == m.addr
            && (e.viaUdp <==> s.sockUdp != -1 && (s.state == Renewing || s.state == Releasing))
            && e.sock == (if e.viaUdp then s.sockUdp else s.sockRaw)
            && (e.viaUdp ==> e.addr == s.current.server)
            && (s.state == Rebinding ==> !e.viaUdp && e.addr == s.current.address)
            && e.held == s.current.address && e.offer == s.offered
  {
  }

  // ----- in which octets -----

  /** RFC 2131 section 2: the fixed fields of a request. */
  lemma HeaderOctets(xid: u32, ciaddr: u32, hwaddr: Mac)
    ensures var h := Header(xid, ciaddr, hwaddr);
            && |h| == 236 && h[0] == 1 && h[1] == 1 && h[2] == 6 && h[3] == 0
            && h[4..8] == Bytes32(xid) && h[12..16] == Bytes32(ciaddr) && h[28..34] == hwaddr
            && (forall i :: 8 <= i < 12 || 16 <= i < 28 || 34 <= i < 236 ==> h[i] == 0)
  {
    var h := Header(xid, ciaddr, hwaddr);
    assert h[4..8] == Bytes32(xid);
    assert h[12..16] == Bytes32(ciaddr);
    assert h[28..34] == hwaddr;
  }

  /** Cookie, options as code, length and body, end marker. */
  lemma OptionOctets(header: seq<byte>, opts: seq<Opt>)
    requires |header| == 236 && Options.AllEncodable(opts)
    ensures var w := RoundTrip.Written(header, opts);
            && w[..236] == header && w[236..240] == [99, 130, 83, 99] && w[|w| - 1] == 255
            && w[240..|w| - 1] == Options.Encode(opts)
            && (opts != [] ==> |opts[0].data| + 242 < |w| && w[240] == opts[0].code && w[241] == |opts[0].data|
                               && w[242..242 + |opts[0].data|] == opts[0].data)
  {
    var w, e := RoundTrip.Written(header, opts), Options.Encode(opts);
    assert w[240..|w| - 1] == e;
    if opts != [] {
      var one := Options.EncodeOne(opts[0]);
      assert e == one + Options.Encode(opts[1..]) && one[2..] == opts[0].data;
      assert w[240] == e[0] == one[0] && w[241] == e[1] == one[1];
      assert w[242..242 + |opts[0].data|] == e[2..2 + |opts[0].data|] == one[2..];
    }
  }

  lemma IpOctets(length: nat, check: seq<byte>, from: seq<byte>)
    requires length + 28 < 0x1_0000 && |check| == 2 && Framing.IsAddr(from)
    ensures var h := Framing.IpHeader(length, check, from);
            && h[..4] == [0x45, 0] + Bytes16(length + 28) && h[4..10] == [0, 0, 0x40, 0, 64, 17]
            && h[10..12] == check && h[12..20] == from + [255, 255, 255, 255]
  {
  }

  lemma Parts(ip: seq<byte>, udp: seq<byte>, msg: seq<byte>)
    requires |ip| == 20 && |udp| == 8
    ensures var f := ip + udp + msg;
            && f[..4] == ip[..4] && f[4..10] == ip[4..10] && f[12..20] == ip[12..20]
            && f[20..26] == udp[..6] && f[28..] == msg
  {
  }

  /** The headers in front of a broadcast message, RFC 791 and RFC 768, from port 68 to port 67. */
  lemma FrameOctets(o: Order, from: seq<byte>, msg: seq<byte>)
    requires Framing.IsAddr(from) && |msg| <= Options.SIZE
    ensures var f := Framing.Frame(o, from, msg);
            && |f| == 28 + |msg| && f[28..] == msg
            && f[..4] == [0x45, 0] + Bytes16(|msg| + 28) && f[4..10] == [0, 0, 0x40, 0, 64, 17]
            && f[12..20] == from + [255, 255, 255, 255]
            && f[20..26] == [0, 68, 0, 67] + Bytes16(|msg| + 8)
  {
    var ip := Framing.IpHeader(|msg|, Store(o, Framing.IpCheck(o, |msg|, from)), from);
    var udp := Framing.UdpHeader(68, 67, |msg|, Store(o, Framing.UdpCheck(o, from, msg)));
    IpOctets(|msg|, Store(o, Framing.IpCheck(o, |msg|, from)), from);
    Parts(ip, udp, msg);
    assert udp[..6] == [0, 68, 0, 67] + Bytes16(|msg| + 8);
  }

  /** A message over UDP is the bare datagram, any other a broadcast frame around it. */
  lemma OctetsOut(o: Order, xid: u32, hwaddr: Mac, m: Out, viaUdp: bool)
    requires Options.AllEncodable(m.opts) && |RoundTrip.Written(Header(xid, m.ciaddr, hwaddr), m.opts)| <= Options.SIZE
    ensures var octets, msg := OnTheWire(o, xid, hwaddr, m, viaUdp), RoundTrip.Written(Header(xid, m.ciaddr, hwaddr), m.opts);
            if viaUdp then octets == msg
            else octets[28..] == msg && octets[12..20] == Bytes32(m.addr) + [255, 255, 255, 255]
  {
    if !viaUdp {
      var msg := RoundTrip.Written(Header(xid, m.ciaddr, hwaddr), m.opts);
      FrameOctets(o, Bytes32(m.addr), msg);
    }
  }
}
