/**
 * struct dhcp_interface and the handlers of dhcpprotocol.c as they run: fields
 * updated in place, messages built octet by octet, the kernel told what to do.
 * Every method is the function of the same name in module Protocol.
 */
module Interface {
  import opened Bytes
  import opened Time
  import opened Timers
  import opened Config
  import opened Checksum
  import opened Invariant
  import opened Effects
  import opened Preservation
  import opened Handlers
  import Protocol
  import Options
  import Message
  import Framing
  import RoundTrip
  import Netlink
  import Arp

  type State = Protocol.State
  type Env = Protocol.Env
  type Opt = Protocol.Opt

  /** The host's byte order, and what the stack holds under the locals of checkaddrs. */
  datatype Host = Host(order: Order, stack: Netlink.Seen)

  predicate HostOk(h: Host) {
    h.stack.cnt == 0
  }

  /** The fixed header of an outgoing message. */
  function Header(xid: u32, ciaddr: u32, hwaddr: Mac): (h: seq<byte>)
    ensures |h| == Options.OPTIONS
  {
    [1, 1, 6, 0] + Bytes32(xid) + Zeros(4) + Bytes32(ciaddr) + Zeros(12) + hwaddr + Zeros(10) + Zeros(192)
  }

  /** The octets a message leaves as: the bare datagram over UDP, else a broadcast frame. */
  function OnTheWire(o: Order, xid: u32, hwaddr: Mac, m: Protocol.Out, viaUdp: bool): seq<byte>
    requires Options.AllEncodable(m.opts)
    requires |RoundTrip.Written(Header(xid, m.ciaddr, hwaddr), m.opts)| <= Options.SIZE
  {
    var msg := RoundTrip.Written(Header(xid, m.ciaddr, hwaddr), m.opts);
    if viaUdp then msg else Framing.Frame(o, Bytes32(m.addr), msg)
  }

  lemma OverwriteMiddle(a: seq<byte>, b: seq<byte>, c: seq<byte>, data: seq<byte>)
    requires |b| == |data|
    ensures Overwrite(a + b + c, |a|, data) == a + data + c
  {
  }

  /** The header of a message with only its type of hardware and xid filled in. */
  function Started(xid: u32): seq<byte> {
    [1, 1, 6, 0] + Bytes32(xid) + Zeros(4)
  }

  const REST := Zeros(10) + Zeros(192) + Options.COOKIE

  lemma XidFilledIn(xid: u32)
    ensures Overwrite(Overwrite(Zeros(Options.OPTIONS) + Options.COOKIE, 0, [1, 1, 6]), 4, Bytes32(xid))
         == Started(xid) + Zeros(4) + Zeros(12) + Zeros(6) + REST
  {
    var z := Zeros(Options.OPTIONS) + Options.COOKIE;
    var after := Zeros(4) + Zeros(4) + Zeros(12) + Zeros(6) + REST;
    assert z == [] + Zeros(3) + ([0] + Zeros(4) + after);
    OverwriteMiddle([], Zeros(3), [0] + Zeros(4) + after, [1, 1, 6]);
    assert Overwrite(z, 0, [1, 1, 6]) == [1, 1, 6, 0] + Zeros(4) + after;
    OverwriteMiddle([1, 1, 6, 0], Zeros(4), after, Bytes32(xid));
  }

  lemma AddressesFilledIn(xid: u32, ciaddr: u32, hwaddr: Mac)
    ensures var h := Started(xid) + Zeros(4) + Zeros(12) + Zeros(6) + REST;
            Overwrite(Overwrite(h, 28, hwaddr), 12, Bytes32(ciaddr)) == Header(xid, ciaddr, hwaddr) + Options.COOKIE
  {
    var front := Started(xid);
    OverwriteMiddle(front + Zeros(4) + Zeros(12), Zeros(6), REST, hwaddr);
    assert (front + Zeros(4) + Zeros(12)) + hwaddr + REST == front + Zeros(4) + (Zeros(12) + hwaddr + REST);
    OverwriteMiddle(front, Zeros(4), Zeros(12) + hwaddr + REST, Bytes32(ciaddr));
  }

  lemma ExtraOptions(r: Opt, v: Opt)
    ensures var none: seq<Opt> := []; none + none == none && [r] + none == [r] && [r] + [v] == [r, v]
  {
  }

  class DhcpInterface {
    const p: Protocol.Params
    const link: Netlink.Link
    var sockUdp: int
    var sockRaw: int
    var state: State
    var cnt: nat
    var defgw: Mac
    var xid: u32
    var toEvent: TimeVal
    var t1: TimeVal
    var t2: TimeVal
    var lease: TimeVal
    var tBoundDown: TimeVal
    var offered: Config
    var current: Config
    ghost var fds: set<int>
    ghost var log: Protocol.Log

    ghost function View(): Protocol.Client
      reads this, link
    {
      Protocol.Client(p, sockUdp, sockRaw, state, cnt, defgw, xid, toEvent, t1, t2, lease, tBoundDown,
                      offered, current, link.addrs, fds, log)
    }

    constructor (p: Protocol.Params, link: Netlink.Link)
      ensures this.p == p && this.link == link
      ensures View() == Protocol.Start(p, link.addrs) && Inv(View())
    {
      this.p, this.link := p, link;
      sockUdp, sockRaw, state, cnt, xid := -1, -1, Protocol.Rebooting, 0, 0;
      defgw := Zeros(6);
      toEvent, t1, t2, lease, tBoundDown := CLEARED, CLEARED, CLEARED, CLEARED, CLEARED;
      offered, current := ZERO, ZERO;
      fds, log := {}, Protocol.NoEvents;
      new;
      StartInv(p, link.addrs);
    }

    ghost method Note(e: Protocol.Event)
      modifies this`log
      ensures log == Protocol.Snoc(old(log), e)
    {
      log := Protocol.Snoc(log, e);
    }

    // ----- sockets -----

    /** sk_openudp; the source asserts that none is open. */
    method OpenUdp(attempt: Protocol.Attempt) returns (ok: bool)
      requires sockUdp == -1 && (attempt.SetupFails? ==> attempt.fd !in fds)
      modifies this`sockUdp, this`fds
      ensures View() == Protocol.OpenUdp(old(View()), attempt) && (ok <==> attempt.Opened?)
    {
      match attempt {
        case Refused => return false;
        case SetupFails(fd) =>
          fds := fds + {fd};
          fds := fds - {fd};
          return false;
        case Opened(fd) =>
          fds := fds + {fd};
          sockUdp := fd;
          ok := true;
      }
    }

    method OpenSockets(env: Env)
      requires sockUdp == -1 && (env.udp.SetupFails? ==> env.udp.fd !in fds)
      modifies this`sockUdp, this`sockRaw, this`fds
      ensures View() == Protocol.OpenSockets(old(View()), env)
    {
      var ok := OpenUdp(env.udp);
      fds := fds + {env.raw};
      sockRaw := env.raw;
    }

    method CloseSockets()
      modifies this`sockUdp, this`sockRaw, this`fds
      ensures View() == Protocol.CloseSockets(old(View()))
    {
      fds := fds - {sockUdp};
      sockUdp := -1;
      fds := fds - {sockRaw};
      sockRaw := -1;
    }

    // ----- sending -----

    /** Adds one option to a message that holds `opts` so far. */
    method AddOption(msg: Message.DhcpMessage, header: seq<byte>, ghost opts: seq<Opt>, option: byte, data: seq<byte>)
      requires |header| == Options.OPTIONS && Options.AllEncodable(opts)
      requires |data| <= 255 && option != Options.PAD && option != Options.MARKER
      requires msg.Valid() && msg.pos == Options.OPTIONS + 4 + |Options.Encode(opts)|
      requires msg.pos + |data| + 2 <= Options.SIZE
      requires msg.mem[..msg.pos] == header + Options.COOKIE + Options.Encode(opts)
      modifies msg`pos, msg.mem
      ensures Options.AllEncodable(opts + [Options.Opt(option, data)])
      ensures msg.pos == old(msg.pos) + 2 + |data| == Options.OPTIONS + 4 + |Options.Encode(opts + [Options.Opt(option, data)])|
      ensures msg.mem[..msg.pos] == header + Options.COOKIE + Options.Encode(opts + [Options.Opt(option, data)])
    {
      Options.EncodeAppend(opts, Options.Opt(option, data));
      var done := msg.AddOption(option, |data|, data);
      assert done;
    }

    /** A cleared message with the client's hardware address, xid and ciaddr. */
    method StartMessage(ciaddr: u32) returns (msg: Message.DhcpMessage)
      ensures fresh(msg) && fresh(msg.mem) && msg.Valid() && msg.pos == Options.OPTIONS + 4
      ensures msg.mem[..msg.pos] == Header(xid, ciaddr, p.hwaddr) + Options.COOKIE
    {
      msg := new Message.DhcpMessage();
      msg.Init();
      msg.Put(0, [1, 1, 6]);
      msg.Put(4, Bytes32(xid));
      msg.Put(28, p.hwaddr);
      msg.Put(12, Bytes32(ciaddr));
      XidFilledIn(xid);
      AddressesFilledIn(xid, ciaddr, p.hwaddr);
    }

    /** The options of one state: the type, then the address and server asked for. */
    method AddStateOptions(msg: Message.DhcpMessage, header: seq<byte>, msgType: byte, requested: bool, server: bool)
      returns (ghost opts: seq<Opt>)
      requires |header| == Options.OPTIONS && msg.Valid() && msg.pos == Options.OPTIONS + 4
      requires msg.mem[..msg.pos] == header + Options.COOKIE
      modifies msg`pos, msg.mem
      ensures opts == [Options.Opt(Options.TYPE, [msgType])]
                      + (if requested then [Protocol.Word32(Options.REQADDR, offered.address)] else [])
                      + (if server then [Protocol.Word32(Options.SERVER, offered.server)] else [])
      ensures Options.AllEncodable(opts) && msg.pos == Options.OPTIONS + 4 + |Options.Encode(opts)| <= Options.OPTIONS + 19
      ensures msg.mem[..msg.pos] == header + Options.COOKIE + Options.Encode(opts)
    {
      opts := [];
      assert header + Options.COOKIE + Options.Encode(opts) == header + Options.COOKIE;
      AddOption(msg, header, opts, Options.TYPE, [msgType]);
      opts := opts + [Options.Opt(Options.TYPE, [msgType])];
      if requested {
        AddOption(msg, header, opts, Options.REQADDR, Bytes32(offered.address));
        opts := opts + [Options.Opt(Options.REQADDR, Bytes32(offered.address))];
      }
      if server {
        AddOption(msg, header, opts, Options.SERVER, Bytes32(offered.server));
        opts := opts + [Options.Opt(Options.SERVER, Bytes32(offered.server))];
      }
    }

    /** What a DISCOVER or REQUEST asks for besides an address. */
    method AddWishes(msg: Message.DhcpMessage, header: seq<byte>, ghost opts: seq<Opt>) returns (ghost all: seq<Opt>)
      requires |header| == Options.OPTIONS && Options.AllEncodable(opts) && msg.Valid()
      requires msg.pos == Options.OPTIONS + 4 + |Options.Encode(opts)| <= Options.OPTIONS + 19
      requires msg.mem[..msg.pos] == header + Options.COOKIE + Options.Encode(opts)
      modifies msg`pos, msg.mem
      ensures all == opts + Protocol.Wishes(p) && Options.AllEncodable(all)
      ensures msg.pos == Options.OPTIONS + 4 + |Options.Encode(all)| <= Options.OPTIONS + 293
      ensures msg.mem[..msg.pos] == header + Options.COOKIE + Options.Encode(all)
    {
      all := opts;
      AddOption(msg, header, all, Options.OPTIONREQ, Protocol.OPTLIST);
      all := all + [Options.Opt(Options.OPTIONREQ, Protocol.OPTLIST)];
      AddOption(msg, header, all, Options.LEASE, Bytes32(0xffff_ffff));
      all := all + [Options.Opt(Options.LEASE, Bytes32(0xffff_ffff))];
      AddOption(msg, header, all, Options.HOSTNAME, p.hostname);
      all := all + [Options.Opt(Options.HOSTNAME, p.hostname)];
    }

    /** The options every message of its type has, and the end marker. */
    method AddCommonOptions(msg: Message.DhcpMessage, header: seq<byte>, ghost opts: seq<Opt>, msgType: byte)
      returns (ghost all: seq<Opt>)
      requires |header| == Options.OPTIONS && Options.AllEncodable(opts) && msg.Valid()
      requires msg.pos == Options.OPTIONS + 4 + |Options.Encode(opts)| <= Options.OPTIONS + 19
      requires msg.mem[..msg.pos] == header + Options.COOKIE + Options.Encode(opts)
      modifies msg`pos, msg.mem
      ensures all == opts + Protocol.CommonOptions(p, msgType) && Options.AllEncodable(all)
      ensures msg.pos <= Options.SIZE && msg.mem[..msg.pos] == RoundTrip.Written(header, all)
    {
      all := opts;
      if msgType == DISCOVER || msgType == REQUEST {
        all := AddWishes(msg, header, opts);
      }
      AddOption(msg, header, all, Options.CLIENT_IDENTIFIER, [1] + p.hwaddr);
      all := all + [Options.Opt(Options.CLIENT_IDENTIFIER, [1] + p.hwaddr)];
      var done := msg.FinishOptions();
      assert done;
    }

    /** One whole message of at most 748 octets, whatever the length of the host name. */
    method BuildMessage(msgType: byte, ciaddr: u32, requested: bool, server: bool, addr: u32) returns (octets: seq<byte>, ghost m: Protocol.Out)
      ensures m == Protocol.Compose(View(), msgType, ciaddr,
                     (if requested then [Protocol.Word32(Options.REQADDR, offered.address)] else [])
                     + (if server then [Protocol.Word32(Options.SERVER, offered.server)] else []), addr)
      ensures Options.AllEncodable(m.opts)
      ensures octets == RoundTrip.Written(Header(xid, ciaddr, p.hwaddr), m.opts) && |octets| <= Options.SIZE
    {
      var msg := StartMessage(ciaddr);
      var header := Header(xid, ciaddr, p.hwaddr);
      ghost var opts := AddStateOptions(msg, header, msgType, requested, server);
      ghost var all := AddCommonOptions(msg, header, opts, msgType);
      octets := msg.mem[..msg.pos];
      m := Protocol.Out(msgType, ciaddr, all, addr);
      assert all == [Options.Opt(Options.TYPE, [msgType])]
                    + ((if requested then [Protocol.Word32(Options.REQADDR, offered.address)] else [])
                       + (if server then [Protocol.Word32(Options.SERVER, offered.server)] else []))
                    + Protocol.CommonOptions(p, msgType);
    }

    /** The switch of pt_sendmessage: the message of the present state, octet by octet. */
    method BuildForState() returns (sendable: bool, octets: seq<byte>, ipaddr: u32, ghost m: Protocol.Out)
      ensures sendable <==> Protocol.Outgoing(View()).Some?
      ensures sendable ==>
                && m == Protocol.Outgoing(View()).value && m.addr == ipaddr
                && Options.AllEncodable(m.opts) && |octets| <= Options.SIZE
                && octets == RoundTrip.Written(Header(xid, m.ciaddr, p.hwaddr), m.opts)
    {
      sendable, octets, ipaddr, m := true, [], 0, Protocol.Out(0, 0, [], 0);
      var dhcptype, ciaddr: u32, requested, server := REQUEST, 0, false, false;
      match state {
        case Init => dhcptype := DISCOVER;
        case InitReboot => ipaddr := current.address; requested := true;
        case Requesting => requested := true; server := true;
        case Renewing => ipaddr := current.server; ciaddr := current.address;
        case Rebinding => ipaddr := current.address; ciaddr := current.address;
        case Releasing => ipaddr := current.server; dhcptype := RELEASE; ciaddr := current.address;
        case Declining => dhcptype := DECLINE; requested := true; server := true;
        case _ => return false, octets, ipaddr, m;
      }
      octets, m := BuildMessage(dhcptype, ciaddr, requested, server, ipaddr);
      ExtraOptions(Protocol.Word32(Options.REQADDR, offered.address), Protocol.Word32(Options.SERVER, offered.server));
    }

    method DrawXid(env: Env)
      modifies this`xid
      ensures View() == old(View()).(xid := env.xid % 0x1_0000_0000)
    {
      xid := env.xid % 0x1_0000_0000;
    }

    /** Over UDP to the server where that is possible, else broadcast by hand. */
    method Transmit(msg: seq<byte>, ipaddr: u32, ghost m: Protocol.Out, host: Host) returns (octets: seq<byte>)
      requires m.addr == ipaddr && Options.AllEncodable(m.opts) && |msg| <= Options.SIZE
      requires msg == RoundTrip.Written(Header(xid, m.ciaddr, p.hwaddr), m.opts)
      modifies this`log
      ensures View() == Protocol.Transmit(old(View()), m)
      ensures octets == OnTheWire(host.order, xid, p.hwaddr, m, Protocol.ViaUdp(View()))
    {
      if sockUdp != -1 && (state == Protocol.Renewing || state == Protocol.Releasing) {
        octets := msg;
        Note(Protocol.Sent(state, m.msgType, xid, m.ciaddr, m.opts, ipaddr, sockUdp, true, current.address, offered));
      } else {
        octets := Framing.BuildFrame(host.order, Bytes32(ipaddr), msg);
        Note(Protocol.Sent(state, m.msgType, xid, m.ciaddr, m.opts, ipaddr, sockRaw, false, current.address, offered));
      }
    }

    /**
     * pt_sendmessage. What leaves is the message module Protocol names for the
     * state; its options always fit, so the writer never aborts.
     */
    method SendMessage(env: Env, host: Host) returns (octets: Option<seq<byte>>)
      modifies this`xid, this`log
      ensures View() == Protocol.SendMessage(old(View()), env)
      ensures Protocol.Outgoing(View()).None? ==> octets == None
      ensures Protocol.Outgoing(View()).Some? ==> Leaves(octets, host.order, Protocol.Outgoing(View()).value)
    {
      DrawXid(env);
      ghost var m;
      var sendable, msg, ipaddr;
      sendable, msg, ipaddr, m := BuildForState();
      if !sendable {
        Note(Protocol.NotSent(state));
        return None;
      }
      var wire := Transmit(msg, ipaddr, m, host);
      octets := Some(wire);
    }

    /** The octets are those of m, bare over UDP and framed otherwise. */
    ghost predicate Leaves(octets: Option<seq<byte>>, o: Order, m: Protocol.Out)
      reads this, link
    {
      && Options.AllEncodable(m.opts)
      && |RoundTrip.Written(Header(xid, m.ciaddr, p.hwaddr), m.opts)| <= Options.SIZE
      && octets == Some(OnTheWire(o, xid, p.hwaddr, m, Protocol.ViaUdp(View())))
    }

    /** ar_send_query_ip through the raw socket. */
    method SendQuery(source: u32, target: u32, mac: Option<Mac>) returns (packet: seq<byte>)
      modifies this`log
      ensures View() == Protocol.SendQuery(old(View()), source, target, mac)
      ensures packet == Arp.Packet(Arp.REQUEST_OP, p.hwaddr, source, Zeros(6), target)
    {
      packet := Arp.ArSendQueryIp(source, p.hwaddr, target);
      Note(Protocol.Query(sockRaw, source, target, mac));
    }

    // ----- changing state -----

    method EnterInit()
      modifies this, link
      ensures View() == Protocol.EnterInit(old(View()))
    {
      t1, t2, lease := CLEARED, CLEARED, CLEARED;
      current := ZERO;
      if p.setAddr { Netlink.FlushIf(link); }
      Note(Protocol.Script(Protocol.Init));
    }

    method Adopt(env: Env)
      requires Normal(offered.recvtime)
      modifies this`current, this`t1, this`t2, this`lease, this`log
      ensures View() == Protocol.Adopt(old(View()), env)
    {
      current := offered;
      t1, t2, lease := ComputeBindingTimers(p.width, current.recvtime, current.t1, current.t2, current.lease, env.jitter);
      Note(Protocol.BoundTo(current));
    }

    method ConfigureInterface(changed: bool, host: Host)
      requires HostOk(host)
      modifies this`log, link
      ensures View() == Protocol.ConfigureInterface(old(View()), changed)
    {
      if changed && p.setAddr {
        Netlink.ConfigureIf(host.order, link, current, host.stack);
        if p.setGateway && current.gateway != 0 {
          Note(Protocol.Routed(current.gateway));
        }
      }
    }

    method LearnGateway()
      modifies this`sockUdp, this`sockRaw, this`fds, this`defgw, this`log
      ensures View() == Protocol.LearnGateway(old(View()))
    {
      if current.gateway != 0 && p.arpcheckGateway != 0 && state != Protocol.ArpCheckGateway {
        var packet := SendQuery(current.address, current.gateway, None);
        defgw := defgw[0 := 255];
      } else {
        CloseSockets();
      }
    }

    method EnterBound(env: Env, host: Host)
      requires Normal(offered.recvtime) && HostOk(host)
      modifies this, link
      ensures View() == Protocol.EnterBound(old(View()), env)
    {
      var changed := current.address != offered.address || current.netmask != offered.netmask
                  || current.broadcast != offered.broadcast || current.gateway != offered.gateway;
      Adopt(env);
      ConfigureInterface(changed, host);
      LearnGateway();
      Note(Protocol.Script(Protocol.Bound));
    }

    /** The sockets can be opened when they are needed. */
    ghost predicate CanOpen(env: Env)
      reads this
    {
      sockRaw == -1 ==> sockUdp == -1 && (env.udp.SetupFails? ==> env.udp.fd !in fds)
    }

    /** The switch of pt_changestate. */
    method Enter(to: State, env: Env, host: Host)
      requires HostOk(host) && (to == Protocol.Bound ==> Normal(offered.recvtime))
      modifies this, link
      ensures View() == Protocol.Enter(old(View()), to, env)
    {
      match to {
        case Init => EnterInit();
        case Bound => EnterBound(env, host);
        case Rebooting =>
        case _ => Note(Protocol.Script(to));
      }
    }

    method ChangeState(to: State, env: Env, host: Host)
      requires CanOpen(env) && HostOk(host) && (to == Protocol.Bound ==> Normal(offered.recvtime))
      modifies this, link
      ensures View() == Protocol.ChangeState(old(View()), to, env)
    {
      if sockRaw == -1 { OpenSockets(env); }
      Enter(to, env, host);
      if state != to {
        state := to;
        cnt := 0;
      }
    }

    method WakeAt(t: TimeVal)
      modifies this`toEvent
      ensures View() == old(View()).(toEvent := t)
    {
      toEvent := t;
    }

    method BindOffered(env: Env, host: Host)
      requires CanOpen(env) && HostOk(host) && Normal(offered.recvtime)
      modifies this, link
      ensures View() == Protocol.BindOffered(old(View()), env)
    {
      ChangeState(Protocol.Bound, env, host);
      WakeAt(t1);
    }

    // ----- timeouts -----

    /** dhcp_backoff into to_event. */
    method BackOff(env: Env)
      requires Normal(env.now)
      modifies this`toEvent
      ensures View() == Protocol.BackOff(old(View()), env)
    {
      toEvent := DhcpBackoff(p.width, env.now, cnt, env.backoff);
    }

    method Bump()
      modifies this`cnt
      ensures View() == Protocol.Bump(old(View()))
    {
      cnt := cnt + 1;
    }

    method SendAndBackOff(env: Env, host: Host)
      requires Normal(env.now)
      modifies this`xid, this`log, this`cnt, this`toEvent
      ensures View() == Protocol.SendAndBackOff(old(View()), env)
    {
      var octets := SendMessage(env, host);
      Bump();
      BackOff(env);
    }

    method InHalfASecond(now: TimeVal)
      modifies this`toEvent
      ensures View() == Protocol.InHalfASecond(old(View()), now)
    {
      toEvent := TimeVal(0, 500000);
      toEvent := TimerAdd(p.width, now, toEvent);
    }

    method InSeconds(now: TimeVal, secs: nat)
      modifies this`toEvent
      ensures View() == Protocol.InSeconds(old(View()), now, secs)
    {
      toEvent := now;
      toEvent := toEvent.(sec := Wrap(p.width, toEvent.sec + secs));
    }

    method TimeoutArpCheckGateway(env: Env, host: Host)
      requires Normal(env.now) && HostOk(host) && CanOpen(env)
      modifies this, link
      ensures View() == Protocol.TimeoutArpCheckGateway(old(View()), env)
    {
      Bump();
      if cnt >= p.arpcheckGateway {
        ChangeState(Protocol.InitReboot, env, host);
        SendAndBackOff(env, host);
      } else {
        var packet := SendQuery(current.address, current.gateway, Some(defgw));
        InHalfASecond(env.now);
      }
    }

    method TimeoutRequesting(env: Env, host: Host)
      requires Normal(env.now) && HostOk(host) && CanOpen(env)
      modifies this, link
      ensures View() == Protocol.TimeoutRequesting(old(View()), env)
    {
      if cnt < 3 {
        var octets := SendMessage(env, host);
      } else {
        ChangeState(Protocol.Init, env, host);
      }
      Bump();
      BackOff(env);
    }

    method TimeoutArpCheck(env: Env, host: Host)
      requires Normal(env.now) && HostOk(host) && CanOpen(env) && Normal(offered.recvtime)
      modifies this, link
      ensures View() == Protocol.TimeoutArpCheck(old(View()), env)
    {
      Bump();
      if cnt >= p.arpcheck {
        BindOffered(env, host);
      } else {
        var packet := SendQuery(0, offered.address, None);
        InHalfASecond(env.now);
      }
    }

    /** The last of the three cases that fall through. */
    method TimeoutRebinding(env: Env, host: Host)
      requires Clock(p.width, env.now) && HostOk(host) && CanOpen(env) && InRange(p.width, lease)
      modifies this, link
      ensures View() == Protocol.TimeoutRebinding(old(View()), env)
    {
      if !Before(env.now, lease) {
        ChangeState(Protocol.Init, env, host);
        SendAndBackOff(env, host);
      } else {
        var octets := SendMessage(env, host);
        toEvent := DhcpBackoffMiddle(p.width, env.now, lease);
      }
    }

    method TimeoutRenewing(env: Env, host: Host)
      requires Clock(p.width, env.now) && HostOk(host) && sockRaw != -1 && Descriptors(View())
      requires InRange(p.width, t2) && InRange(p.width, lease) && state == Protocol.Renewing
      modifies this, link
      ensures View() == Protocol.TimeoutRenewing(old(View()), env)
    {
      if !Before(env.now, t2) {
        Changing(View(), Protocol.Rebinding, env);
        ChangeState(Protocol.Rebinding, env, host);
        TimeoutRebinding(env, host); // falls through
      } else {
        var octets := SendMessage(env, host);
        toEvent := DhcpBackoffMiddle(p.width, env.now, t2);
      }
    }

    method TimeoutBound(env: Env, host: Host)
      requires Inv(View()) && Protocol.EnvOk(View(), env) && HostOk(host) && state == Protocol.Bound
      modifies this, link
      ensures View() == Protocol.TimeoutBound(old(View()), env)
    {
      if !Before(env.now, t1) {
        InvSplit(View());
        Changing(View(), Protocol.Renewing, env);
        ChangeState(Protocol.Renewing, env, host);
        TimeoutRenewing(env, host); // falls through
      }
    }

    method TimeoutInitReboot(env: Env, host: Host)
      requires Normal(env.now) && HostOk(host) && CanOpen(env)
      modifies this, link
      ensures View() == if old(cnt) != 0 then Protocol.ChangeState(old(View()), Protocol.Init, env)
                        else Protocol.SendAndBackOff(old(View()), env)
    {
      if cnt != 0 { ChangeState(Protocol.Init, env, host); } else { SendAndBackOff(env, host); }
    }

    method TimeoutRebooting(env: Env, host: Host)
      requires HostOk(host) && CanOpen(env)
      modifies this, link
      ensures View() == Protocol.ChangeState(Protocol.InSeconds(old(View()), env.now, 1), Protocol.Init, env)
    {
      InSeconds(env.now, 1);
      ChangeState(Protocol.Init, env, host);
    }

    /** pt_handletimeout */
    method HandleTimeout(env: Env, host: Host)
      requires Inv(View()) && Protocol.EnvOk(View(), env) && HostOk(host)
      modifies this, link
      ensures View() == Protocol.HandleTimeout(old(View()), env) && Inv(View())
    {
      TimeoutKeepsInv(View(), env);
      InvSplit(View());
      if Before(env.now, toEvent) { return; }
      match state {
        case Rebooting => TimeoutRebooting(env, host);
        case Init => SendAndBackOff(env, host);
        case ArpCheckGateway => TimeoutArpCheckGateway(env, host);
        case InitReboot => TimeoutInitReboot(env, host);
        case Requesting => TimeoutRequesting(env, host);
        case ArpCheck => TimeoutArpCheck(env, host);
        case Bound => TimeoutBound(env, host);
        case Renewing => TimeoutRenewing(env, host);
        case Rebinding => TimeoutRebinding(env, host);
        case _ =>
      }
    }

    /** pt_nexttimeout */
    method NextTimeout() returns (next: Option<TimeVal>)
      ensures next == if Protocol.HasTimeout(View()) then Some(toEvent) else None
    {
      match state {
        case OperDown | Rebooting | Releasing | Declining => next := None;
        case _ => next := Some(toEvent);
      }
    }

    // ----- received messages -----

    method TakeUp(cfg: Config)
      modifies this`offered
      ensures View() == old(View()).(offered := cfg)
    {
      offered := cfg;
    }

    method AcceptOffer(cfg: Config, env: Env, host: Host)
      requires Normal(env.now) && HostOk(host) && CanOpen(env)
      modifies this, link
      ensures View() == Protocol.AcceptOffer(old(View()), cfg, env)
    {
      TakeUp(cfg);
      ChangeState(Protocol.Requesting, env, host);
      SendAndBackOff(env, host);
    }

    method CheckAddress(env: Env, host: Host)
      requires HostOk(host) && CanOpen(env)
      modifies this, link
      ensures View() == Protocol.CheckAddress(old(View()), env)
    {
      ChangeState(Protocol.ArpCheck, env, host);
      var packet := SendQuery(0, offered.address, None);
      InHalfASecond(env.now);
    }

    method AcceptAck(cfg: Config, env: Env, host: Host)
      requires Normal(env.now) && Normal(cfg.recvtime) && HostOk(host) && CanOpen(env)
      modifies this, link
      ensures View() == Protocol.AcceptAck(old(View()), cfg, env)
    {
      TakeUp(cfg);
      if p.arpcheck != 0 && state == Protocol.Requesting {
        CheckAddress(env, host);
      } else {
        BindOffered(env, host);
      }
    }

    method Answered(cfg: Config, env: Env, host: Host)
      requires Normal(env.now) && Normal(cfg.recvtime) && HostOk(host) && CanOpen(env)
      modifies this, link
      ensures View() == Protocol.Answered(old(View()), cfg, env)
    {
      match cfg.msgType {
        case 5 => AcceptAck(cfg, env, host);
        case 6 =>
          ChangeState(Protocol.Init, env, host);
          WakeAt(CLEARED);
        case _ =>
      }
    }

    /** The switch of pt_recvmessage_dhcp. */
    method Heed(cfg: Config, env: Env, host: Host)
      requires Normal(env.now) && Normal(cfg.recvtime) && HostOk(host) && CanOpen(env)
      modifies this, link
      ensures View() == Protocol.Heed(old(View()), cfg, env)
    {
      match state {
        case Init =>
          if cfg.msgType != OFFER { return; }
          AcceptOffer(cfg, env, host);
        case Requesting | Renewing | Rebinding | InitReboot => Answered(cfg, env, host);
        case _ =>
      }
    }

    /** A message that was parsed. */
    method HandleReply(m: Protocol.DhcpReply, env: Env, host: Host)
      requires Normal(env.now) && HostOk(host) && CanOpen(env)
      modifies this, link
      ensures View() == Protocol.RecvDhcp(old(View()), Some(m), env)
    {
      if m.xid != xid || m.hlen != 6 || m.chaddr != p.hwaddr { return; }
      var cfg := m.cfg.(recvtime := env.now);
      Note(Protocol.Received(m.xid, m.chaddr, cfg));
      Heed(cfg, env, host);
    }

    /**
     * pt_recvmessage_dhcp on a raw frame. `reply` is what the parser and the
     * option walk make of it, given the memory behind the message.
     */
    method RecvMessageDhcp(dframe: seq<byte>, plen: nat, env: Env, host: Host) returns (ghost reply: Option<Protocol.DhcpReply>)
      requires Inv(View()) && Protocol.EnvOk(View(), env) && HostOk(host) && sockRaw != -1
      requires Framing.Received(dframe, plen) && Message.Fits(host.order, dframe, plen)
      modifies this, link
      ensures ReplyTo(host.order, dframe, plen, reply)
      ensures reply.Some? ==> Delivered(Framing.Parse(host.order, dframe, plen).value, reply.value)
      ensures View() == Protocol.RecvDhcp(old(View()), reply, env) && Inv(View())
    {
      var msg := new Message.DhcpMessage();
      var ok := msg.ParseRaw(host.order, dframe, plen);
      if !ok { return None; }
      ghost var mem := msg.mem[..];
      ghost var payload := Framing.Parse(host.order, dframe, plen).value;
      assert payload <= mem;
      Options.WalkIsMessageOptions(mem, msg.last);
      var xidField, hlen, chaddr := Read32(msg.mem[..], 4), msg.mem[2], msg.mem[28..34];
      var cfg := msg.ParseOptions();
      var m := Protocol.DhcpReply(xidField, hlen, chaddr, cfg);
      assert m == ReplyOf(mem, Message.Start(payload).last);
      reply := Some(m);
      SpellsDelivers(payload, m);
      DhcpKeepsInv(View(), reply, env);
      HandleReply(m, env, host);
    }

    // ----- ARP replies -----

    method Decline(env: Env, host: Host)
      requires HostOk(host) && sockRaw != -1 && Descriptors(View()) && state == Protocol.ArpCheck
      modifies this, link
      ensures View() == Protocol.Decline(old(View()), env)
    {
      Changing(View(), Protocol.Declining, env);
      ChangeState(Protocol.Declining, env, host);
      assert sockRaw != -1;
      var octets := SendMessage(env, host);
      ChangeState(Protocol.Init, env, host);
      InSeconds(env.now, 10);
    }

    method LearnGatewayMac(smac: Mac)
      modifies this`defgw, this`sockUdp, this`sockRaw, this`fds
      ensures View() == Protocol.CloseSockets(old(View()).(defgw := smac))
    {
      defgw := smac;
      CloseSockets();
    }

    /** The switch of pt_recvmessage_arp on a reply that was parsed. */
    method HeedArp(a: Arp.Reply, toHost: bool, env: Env, host: Host)
      requires HostOk(host) && CanOpen(env) && Descriptors(View())
      requires state == Protocol.ArpCheck ==> sockRaw != -1
      requires state == Protocol.ArpCheckGateway ==> Normal(offered.recvtime)
      modifies this, link
      ensures View() == Protocol.HeedArp(old(View()), a, toHost, env)
    {
      match state {
        case ArpCheck =>
          if toHost && a.senderIp == offered.address { Decline(env, host); }
        case ArpCheckGateway =>
          if current.gateway == a.senderIp && current.address == a.targetIp && defgw == a.senderMac && p.hwaddr == a.targetMac {
            BindOffered(env, host);
          }
        case Bound =>
          if current.gateway == a.senderIp && current.address == a.targetIp && p.hwaddr == a.targetMac {
            LearnGatewayMac(a.senderMac);
          }
        case _ =>
      }
    }

    /** pt_recvmessage_arp */
    method RecvMessageArp(dframe: seq<byte>, plen: nat, toHost: bool, env: Env, host: Host)
      requires Inv(View()) && Protocol.EnvOk(View(), env) && HostOk(host) && plen <= |dframe|
      modifies this, link
      ensures View() == Protocol.RecvArp(old(View()), Arp.ParseReply(dframe[..plen]), toHost, env) && Inv(View())
    {
      ArpKeepsInv(View(), Arp.ParseReply(dframe[..plen]), toHost, env);
      InvSplit(View());
      var ok, smac, sip, dmac, dip := Arp.ArParseReply(dframe, plen);
      if !ok { return; }
      var a := Arp.Reply(smac, sip, dmac, dip);
      Note(Protocol.Heard(a, toHost));
      HeedArp(a, toHost, env, host);
    }

    /** pt_recvmessage, on what recvfrom delivered. */
    method RecvMessage(f: RawFrame, env: Env, host: Host)
      requires Inv(View()) && Protocol.EnvOk(View(), env) && HostOk(host) && sockRaw != -1 && Readable(host.order, f)
      modifies this, link
      ensures FrameOutcome(host.order, old(View()), f, env, View()) && Inv(View())
    {
      if f.protocol == ETH_P_IP {
        ghost var reply := RecvMessageDhcp(f.octets, f.plen, env, host);
      } else if f.protocol == ETH_P_ARP {
        RecvMessageArp(f.octets, f.plen, f.toHost, env, host);
      }
    }

    // ----- link state, SIGHUP, release -----

    method Reboot(env: Env, host: Host)
      requires Normal(env.now) && HostOk(host) && CanOpen(env)
      modifies this, link
      ensures View() == Protocol.Reboot(old(View()), env)
    {
      ChangeState(Protocol.InitReboot, env, host);
      var octets := SendMessage(env, host);
      BackOff(env);
    }

    method VerifyGateway(env: Env, host: Host)
      requires HostOk(host) && CanOpen(env)
      modifies this, link
      ensures View() == Protocol.VerifyGateway(old(View()), env)
    {
      ChangeState(Protocol.ArpCheckGateway, env, host);
      var packet := SendQuery(current.address, current.gateway, Some(defgw));
      InHalfASecond(env.now);
    }

    method StartOver(env: Env, host: Host)
      requires Normal(env.now) && HostOk(host) && CanOpen(env)
      modifies this, link
      ensures View() == Protocol.StartOver(old(View()), env)
    {
      WakeAt(env.now);
      ChangeState(Protocol.Init, env, host);
      var octets := SendMessage(env, host);
      BackOff(env);
    }

    /** pt_operstate, link up again */
    method LinkUp(env: Env, host: Host)
      requires Inv(View()) && Protocol.EnvOk(View(), env) && HostOk(host) && state == Protocol.OperDown
      modifies this, link
      ensures View() == Protocol.OperState(old(View()), true, env)
    {
      InvSplit(View());
      if IsSet(lease) {
        if p.arpcheckGateway != 0 && current.gateway != 0 && Before(env.now, t1)
           && env.now.sec - tBoundDown.sec < 60 && defgw[0] != 255 {
          VerifyGateway(env, host);
        } else {
          Reboot(env, host);
        }
      } else {
        StartOver(env, host);
      }
    }

    /** pt_operstate, link gone */
    method LinkDown(env: Env, host: Host)
      requires HostOk(host) && CanOpen(env) && state != Protocol.OperDown
      modifies this, link
      ensures View() == Protocol.OperState(old(View()), false, env)
    {
      if state == Protocol.Bound { tBoundDown := env.now; }
      ChangeState(Protocol.OperDown, env, host);
    }

    /** pt_operstate */
    method OperState(up: bool, env: Env, host: Host)
      requires Inv(View()) && Protocol.EnvOk(View(), env) && HostOk(host)
      modifies this, link
      ensures View() == Protocol.OperState(old(View()), up, env) && Inv(View())
    {
      if up && state == Protocol.OperDown {
        LinkUpKeepsInv(View(), env);
        LinkUp(env, host);
      } else if !up && state != Protocol.OperDown {
        LinkDownKeepsInv(View(), env);
        LinkDown(env, host);
      }
    }

    /** pt_initreboot */
    method InitReboot(env: Env, host: Host)
      requires Inv(View()) && Protocol.EnvOk(View(), env) && HostOk(host)
      modifies this, link
      ensures View() == Protocol.Hangup(old(View()), env) && Inv(View())
    {
      InvSplit(View());
      HangupKeepsInv(View(), env);
      if state == Protocol.Bound || state == Protocol.Rebinding || state == Protocol.Renewing {
        Reboot(env, host);
      }
    }

    /** pt_release */
    method Release(env: Env, host: Host)
      requires Inv(View()) && Protocol.EnvOk(View(), env) && HostOk(host)
      modifies this, link
      ensures View() == Protocol.Release(old(View()), env)
    {
      InvSplit(View());
      if state == Protocol.Bound {
        ChangeState(Protocol.Releasing, env, host);
        var octets := SendMessage(env, host);
        if p.setAddr { Netlink.FlushIf(link); }
      }
    }
  }

  /** The reply a received message amounts to. */
  function ReplyOf(mem: seq<byte>, last: nat): Protocol.DhcpReply
    requires Options.OPTIONS <= last <= |mem|
  {
    Protocol.DhcpReply(Read32(mem, 4), mem[2], mem[28..34],
                       Interpret(Base(Read32(mem, 16), Read32(mem, 20)), Options.MessageOptions(mem, last)))
  }

  /** m is what the payload says, for some contents of the memory behind it. */
  ghost predicate Spells(payload: seq<byte>, m: Protocol.DhcpReply)
    requires Options.OPTIONS + 4 <= |payload| <= Options.SIZE
  {
    exists mem :: |mem| == Message.MEMORY && payload <= mem && m == ReplyOf(mem, Message.Start(payload).last)
  }

  /** The fields of a reply, by their octets in RFC 2131 section 2 and their options in RFC 2132. */
  ghost predicate Delivered(payload: seq<byte>, m: Protocol.DhcpReply)
    requires Options.OPTIONS + 4 <= |payload| <= Options.SIZE
  {
    && m.hlen == payload[2] && m.xid == Read32(payload, 4) && m.chaddr == payload[28..34]
    && WellSized(m.cfg)
    && exists mem :: |mem| == Message.MEMORY && payload <= mem
                     && Says(m.cfg, Read32(payload, 16), Read32(payload, 20),
                             Options.MessageOptions(mem, 240 + |payload| + 236))
  }

  lemma SameFields(payload: seq<byte>, mem: seq<byte>)
    requires Options.OPTIONS + 4 <= |payload| && payload <= mem
    ensures Read32(mem, 4) == Read32(payload, 4) && Read32(mem, 16) == Read32(payload, 16)
    ensures Read32(mem, 20) == Read32(payload, 20) && mem[2] == payload[2] && mem[28..34] == payload[28..34]
  {
    assert forall i :: 0 <= i < |payload| ==> mem[i] == payload[i];
  }

  lemma SpellsDelivers(payload: seq<byte>, m: Protocol.DhcpReply)
    requires Options.OPTIONS + 4 <= |payload| <= Options.SIZE && Spells(payload, m)
    ensures Delivered(payload, m)
  {
    var mem :| |mem| == Message.MEMORY && payload <= mem && m == ReplyOf(mem, Message.Start(payload).last);
    SameFields(payload, mem);
    InterpretSays(Read32(mem, 16), Read32(mem, 20), Options.MessageOptions(mem, Message.Start(payload).last));
  }

  /** What the parser and the option walk may make of a frame. */
  ghost predicate ReplyTo(o: Order, dframe: seq<byte>, plen: nat, reply: Option<Protocol.DhcpReply>)
    requires Framing.Received(dframe, plen) && Message.Fits(o, dframe, plen)
  {
    match Framing.Parse(o, dframe, plen)
    case None => reply.None?
    case Some(payload) => reply.Some? && Spells(payload, reply.value)
  }

  const ETH_P_IP := 0x0800
  const ETH_P_ARP := 0x0806

  /** What recvfrom() tells of a frame; `toHost` says that it was addressed to this host alone. */
  datatype RawFrame = RawFrame(protocol: u16, toHost: bool, octets: seq<byte>, plen: nat)

  predicate Readable(o: Order, f: RawFrame) {
    Framing.Received(f.octets, f.plen) && (f.protocol == ETH_P_IP ==> Message.Fits(o, f.octets, f.plen))
  }

  /** r is what a frame may make of s. */
  ghost predicate FrameOutcome(o: Order, s: Protocol.Client, f: RawFrame, env: Env, r: Protocol.Client)
    requires Readable(o, f)
  {
    if f.protocol == 0x0800 then
      exists reply :: ReplyTo(o, f.octets, f.plen, reply) && r == Protocol.RecvDhcp(s, reply, env)
    else if f.protocol == 0x0806 then
      r == Protocol.RecvArp(s, Arp.ParseReply(f.octets[..f.plen]), f.toHost, env)
    else r == s
  }
}
