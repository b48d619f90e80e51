/** The effect of each building block of the handlers, as facts about the records before and after. */
module Effects {
  import opened Bytes
  import opened Time
  import opened Timers
  import opened Config
  import opened Protocol
  import opened Invariant
  import Options
  import Netlink

  /** Past events are still good, and what the history proved for the present gateway and offer, it still proves. */
  predicate HistoryGrows(s: Client, r: Client) {
    && (GoodHistory(s.p, s.log) ==> GoodHistory(s.p, r.log))
    && (LearnedSinceInit(s.log, s.p.hwaddr, s.current.gateway, s.defgw) ==> LearnedSinceInit(r.log, s.p.hwaddr, s.current.gateway, s.defgw))
    && (AckedSinceInit(s.log, s.p.hwaddr, s.offered) ==> AckedSinceInit(r.log, s.p.hwaddr, s.offered))
  }

  predicate Descriptors(s: Client) {
    && -1 <= s.sockUdp && -1 <= s.sockRaw
    && (s.sockUdp == s.sockRaw ==> s.sockUdp == -1)
    && s.fds == Held(s)
    && (s.sockRaw == -1 ==> s.sockUdp == -1)
  }

  // ----- sending -----

  predicate SendEffect(s: Client, r: Client) {
    && r == s.(xid := r.xid, log := r.log)
    && Sends(r.log) == Sends(s.log) + 1 && Queries(r.log) == Queries(s.log)
    && Messages(r.log) == Messages(s.log) + 1
    && LastSent(r.log).Some? && LastSent(r.log).value.xid == r.xid
    && (Awaiting(s) ==> LastSent(r.log) == Some(Asked(r.xid, REQUEST)))
    && HistoryGrows(s, r)
  }

  /** The seven states that have a message; INIT-REBOOT holds what it asks for, REQUESTING an offer. */
  predicate HasMessage(s: Client) {
    && (s.state == Init || s.state == InitReboot || s.state == Requesting || s.state == Renewing
        || s.state == Rebinding || s.state == Releasing || s.state == Declining)
    && (s.state == InitReboot ==> s.current.address == s.offered.address)
    && (s.state == Requesting ==> s.offered.msgType == OFFER)
  }

  predicate MaySend(s: Client) {
    HasMessage(s) && 0 <= s.sockRaw && -1 <= s.sockUdp
  }

  /** The requested-address and server options in front of the common ones are found; without them, not. */
  lemma FieldsOf(p: Params, msgType: byte, extra: seq<Opt>, code: byte)
    requires code == Options.TYPE || code == Options.REQADDR || code == Options.SERVER
    ensures var opts := [Options.Opt(Options.TYPE, [msgType])] + extra + CommonOptions(p, msgType);
            Field(opts, code) == if code == Options.TYPE then Some([msgType]) else Field(extra, code)
  {
    var common := CommonOptions(p, msgType);
    var opts := [Options.Opt(Options.TYPE, [msgType])] + extra + common;
    assert opts[0] == Options.Opt(Options.TYPE, [msgType]);
    if code != Options.TYPE {
      assert opts[1..] == extra + common;
      NoFieldInCommon(p, msgType, code);
      FieldAppend(extra, common, code);
    }
  }

  lemma {:induction false} FieldAppend(a: seq<Opt>, b: seq<Opt>, code: byte)
    requires Field(b, code) == None
    ensures Field(a + b, code) == Field(a, code)
  {
    if a == [] {
      assert a + b == b;
    } else {
      assert (a + b)[1..] == a[1..] + b;
      FieldAppend(a[1..], b, code);
    }
  }

  lemma NoFieldInCommon(p: Params, msgType: byte, code: byte)
    requires code == Options.REQADDR || code == Options.SERVER
    ensures Field(CommonOptions(p, msgType), code) == None
  {
    var id := [Options.Opt(Options.CLIENT_IDENTIFIER, [1] + p.hwaddr)];
    assert Field(id, code) == None;
    var head := [Options.Opt(Options.OPTIONREQ, OPTLIST), Word32(Options.LEASE, 0xffff_ffff),
                 Options.Opt(Options.HOSTNAME, p.hostname)];
    assert head[1..][0] == head[1] && head[1..][1..][0] == head[2];
    assert Field(head[1..][1..], code) == None;
    assert Field(head[1..], code) == None;
    assert Field(head, code) == None;
    FieldAppend(head, id, code);
    assert [] + id == id;
  }

  lemma FieldsOfExtra(requested: u32, server: u32)
    ensures var r, v := Word32(Options.REQADDR, requested), Word32(Options.SERVER, server);
            && Field([], Options.REQADDR) == None && Field([], Options.SERVER) == None
            && Field([r], Options.REQADDR) == Some(Bytes32(requested)) && Field([r], Options.SERVER) == None
            && Field([r, v], Options.REQADDR) == Some(Bytes32(requested))
            && Field([r, v], Options.SERVER) == Some(Bytes32(server))
  {
    var r, v := Word32(Options.REQADDR, requested), Word32(Options.SERVER, server);
    assert [r, v][1..] == [v] && [r][1..] == [];
    assert Field([v], Options.SERVER) == Some(Bytes32(server));
  }

  /** What a composed message asks for is what its extra options say. */
  lemma ComposeAsks(s: Client, msgType: byte, ciaddr: u32, extra: seq<Opt>, addr: u32)
    ensures var m := Compose(s, msgType, ciaddr, extra, addr);
            && m.msgType == msgType && m.ciaddr == ciaddr
            && Field(m.opts, Options.TYPE) == Some([msgType])
            && Field(m.opts, Options.REQADDR) == Field(extra, Options.REQADDR)
            && Field(m.opts, Options.SERVER) == Field(extra, Options.SERVER)
  {
    FieldsOf(s.p, msgType, extra, Options.TYPE);
    FieldsOf(s.p, msgType, extra, Options.REQADDR);
    FieldsOf(s.p, msgType, extra, Options.SERVER);
  }

  lemma OutgoingConforms(s: Client)
    requires HasMessage(s)
    ensures Outgoing(s).Some?
    ensures var m := Outgoing(s).value; Conforms(s.state, m.msgType, m.ciaddr, m.opts, s.current.address, s.offered)
  {
    FieldsOfExtra(s.offered.address, s.offered.server);
    var requested, server := Word32(Options.REQADDR, s.offered.address), Word32(Options.SERVER, s.offered.server);
    match s.state {
      case Init => ComposeAsks(s, DISCOVER, 0, [], 0);
      case InitReboot => ComposeAsks(s, REQUEST, 0, [requested], s.current.address);
      case Requesting => ComposeAsks(s, REQUEST, 0, [requested, server], 0);
      case Renewing => ComposeAsks(s, REQUEST, s.current.address, [], s.current.server);
      case Rebinding => ComposeAsks(s, REQUEST, s.current.address, [], s.current.address);
      case Releasing => ComposeAsks(s, RELEASE, s.current.address, [], s.current.server);
      case Declining => ComposeAsks(s, DECLINE, 0, [requested, server], 0);
    }
  }

  lemma Sending(s: Client, env: Env)
    requires MaySend(s)
    ensures SendEffect(s, SendMessage(s, env))
  {
    var r := s.(xid := env.xid % 0x1_0000_0000);
    OutgoingConforms(r);
  }

  // ----- asking by ARP -----

  predicate QueryEffect(s: Client, r: Client) {
    && r == s.(log := r.log)
    && Queries(r.log) == Queries(s.log) + 1 && Sends(r.log) == Sends(s.log)
    && LastSent(r.log) == LastSent(s.log)
    && HistoryGrows(s, r)
  }

  lemma Querying(s: Client, source: u32, target: u32, mac: Option<Mac>)
    requires 0 <= s.sockRaw
    ensures QueryEffect(s, SendQuery(s, source, target, mac))
  {
  }

  // ----- changing state -----

  /** A state is entered: sockets open, counters start over. */
  predicate EntryEffect(s: Client, r: Client, to: State) {
    && r.p == s.p && r.state == to && r.cnt == 0
    && r.xid == s.xid && r.offered == s.offered && r.toEvent == s.toEvent && r.tBoundDown == s.tBoundDown
    && Descriptors(r) && 0 <= r.sockRaw
    && Sends(r.log) == 0 && Queries(r.log) == 0 && LastSent(r.log) == LastSent(s.log)
    && Messages(r.log) == Messages(s.log)
    && (GoodHistory(s.p, s.log) ==> GoodHistory(s.p, r.log))
  }

  predicate ChangeEffect(s: Client, r: Client, to: State) {
    && EntryEffect(s, r, to) && HistoryGrows(s, r)
    && r.defgw == s.defgw && r.current == s.current && r.addrs == s.addrs
    && r.t1 == s.t1 && r.t2 == s.t2 && r.lease == s.lease
  }

  predicate InitEffect(s: Client, r: Client) {
    && EntryEffect(s, r, Init)
    && r.defgw == s.defgw && r.current == ZERO && r.addrs == (if s.p.setAddr then {} else s.addrs)
    && r.t1 == r.t2 == r.lease == CLEARED
  }

  /** The sockets can be used or opened. */
  predicate MayChange(s: Client, env: Env) {
    Descriptors(s) && (s.sockRaw == -1 ==> EnvOk(s, env))
  }

  lemma Opening(s: Client, env: Env)
    requires Descriptors(s) && s.sockRaw == -1 && EnvOk(s, env)
    ensures var r := OpenSockets(s, env);
            && Descriptors(r) && 0 <= r.sockRaw
            && r == s.(sockUdp := r.sockUdp, sockRaw := r.sockRaw, fds := r.fds)
  {
  }

  /** Opening takes exactly the descriptors that closing gives back, whatever becomes of the UDP socket. */
  lemma OpenThenClose(s: Client, env: Env)
    requires Descriptors(s) && s.sockRaw == -1 && EnvOk(s, env)
    ensures var r := OpenSockets(s, env);
            && r.fds == {env.raw} + (if env.udp.Opened? then {env.udp.fd} else {})
            && CloseSockets(r) == s
  {
    Opening(s, env);
    assert s.fds == {};
    assert CloseSockets(OpenSockets(s, env)).fds == {};
  }

  lemma ClosingFreesAll(s: Client)
    requires Descriptors(s)
    ensures CloseSockets(s).fds == {} && Descriptors(CloseSockets(s))
  {
    assert s.fds - {s.sockUdp} - {s.sockRaw} == {};
  }

  lemma Changing(s: Client, to: State, env: Env)
    requires MayChange(s, env) && s.state != to && to != Init && to != Bound && to != Rebooting
    ensures ChangeEffect(s, ChangeState(s, to, env), to)
  {
    var o := if s.sockRaw == -1 then OpenSockets(s, env) else s;
    if s.sockRaw == -1 {
      Opening(s, env);
    }
    ChangeIs(s, to, env, o);
    PlainEntry(s, o, to);
  }

  lemma ChangeIs(s: Client, to: State, env: Env, o: Client)
    requires s.state != to && to != Init && to != Bound && to != Rebooting
    requires o == if s.sockRaw == -1 then OpenSockets(s, env) else s
    ensures ChangeState(s, to, env) == o.Note(Script(to)).(state := to, cnt := 0)
  {
  }

  lemma PlainEntry(s: Client, o: Client, to: State)
    requires to != Init && Descriptors(o) && 0 <= o.sockRaw
    requires o == s.(sockUdp := o.sockUdp, sockRaw := o.sockRaw, fds := o.fds)
    ensures ChangeEffect(s, o.Note(Script(to)).(state := to, cnt := 0), to)
  {
  }

  lemma ChangingToInit(s: Client, env: Env)
    requires MayChange(s, env) && s.state != Init
    ensures InitEffect(s, ChangeState(s, Init, env))
  {
    if s.sockRaw == -1 {
      Opening(s, env);
    }
  }

  // ----- becoming bound -----

  ghost predicate TimersOrdered(s: Client) {
    && InRange(s.p.width, s.t1) && InRange(s.p.width, s.t2) && InRange(s.p.width, s.lease)
    && !Before(s.t2, s.t1) && !Before(s.lease, s.t2) && 0 < s.lease.sec
    && s.lease == Expiry(s.p.width, s.current.recvtime, s.current.lease, 0) && Timed(s)
  }

  ghost predicate AdoptEffect(s: Client, r: Client) {
    && r == s.(current := s.offered, t1 := r.t1, t2 := r.t2, lease := r.lease, log := Snoc(s.log, BoundTo(s.offered)))
    && TimersOrdered(r)
  }

  lemma Adopting(s: Client, env: Env)
    requires Clock(s.p.width, s.offered.recvtime)
    ensures AdoptEffect(s, Adopt(s, env))
  {
    var c := s.offered;
    BindingOrdered(s.p.width, c.recvtime, c.t1, c.t2, c.lease, env.jitter);
    var j := RenewalTimes(s.p.width, c.recvtime, c.t1, c.t2, c.lease, env.jitter);
  }

  predicate AsksGateway(s: Client) {
    s.offered.gateway != 0 && s.p.arpcheckGateway != 0 && s.state != ArpCheckGateway
  }

  /**
   * Either the gateway's address is unknown from now on and it is asked for as
   * the last event of l, the raw socket open for the answer, or the address is
   * still what it was and both sockets are closed.
   */
  predicate GatewayAsked(s: Client, r: Client, l: Log) {
    if AsksGateway(s) then
      && r.defgw[0] == 255 && 0 <= r.sockRaw
      && l.Snoc? && l.last == Query(r.sockRaw, s.offered.address, s.offered.gateway, None)
    else r.defgw == s.defgw && r.sockUdp == r.sockRaw == -1
  }

  predicate BoundHistory(s: Client, r: Client) {
    && LastSent(r.log) == LastSent(s.log) && Messages(r.log) == Messages(s.log)
    && (LearnedSinceInit(s.log, s.p.hwaddr, s.current.gateway, s.defgw) ==> LearnedSinceInit(r.log, s.p.hwaddr, s.current.gateway, s.defgw))
    && (AckedSinceInit(s.log, s.p.hwaddr, s.offered) ==>
          && AckedSinceInit(r.log, s.p.hwaddr, s.offered)
          && (GoodHistory(s.p, s.log) ==> GoodHistory(s.p, r.log)))
  }

  ghost predicate BoundEffect(s: Client, r: Client) {
    && r.p == s.p && r.state == Bound && r.cnt == 0
    && r.xid == s.xid && r.offered == s.offered && r.toEvent == s.toEvent && r.tBoundDown == s.tBoundDown
    && r.current == s.offered
    && Descriptors(r)
    && TimersOrdered(r)
    && r.log.Snoc? && r.log.last == Script(Bound) && GatewayAsked(s, r, r.log.past)
    && BoundHistory(s, r)
    && r.addrs == (if Changed(s.current, s.offered) && s.p.setAddr
                   then Netlink.Configured(s.addrs, Netlink.Wanted(s.offered)) else s.addrs)
  }

  lemma ConfigureEffect(s: Client, changed: bool)
    ensures var r := ConfigureInterface(s, changed);
            && r == s.(addrs := r.addrs, log := r.log)
            && r.addrs == (if changed && s.p.setAddr then Netlink.Configured(s.addrs, Netlink.Wanted(s.current)) else s.addrs)
            && (r.log == s.log || r.log == Snoc(s.log, Routed(s.current.gateway)))
            && (r.log != s.log ==> s.current.gateway != 0 && s.p.setAddr && s.p.setGateway)
  {
  }

  lemma LearnEffect(s: Client)
    requires Descriptors(s) && 0 <= s.sockRaw && s.offered == s.current
    ensures var r := LearnGateway(s);
            && r == s.(sockUdp := r.sockUdp, sockRaw := r.sockRaw, fds := r.fds, defgw := r.defgw, log := r.log)
            && Descriptors(r) && GatewayAsked(s, r, r.log)
            && (r.log == s.log || (r.log.Snoc? && r.log.past == s.log && r.log.last.Query? && 0 <= r.log.last.sock))
  {
  }

  lemma EnteringBound(s: Client, env: Env)
    requires Descriptors(s) && 0 <= s.sockRaw && Clock(s.p.width, s.offered.recvtime)
    ensures BoundEffect(s, EnterBound(s, env).(state := Bound, cnt := 0))
  {
    var a := Adopt(s, env);
    Adopting(s, env);
    var c := ConfigureInterface(a, Changed(s.current, s.offered));
    ConfigureEffect(a, Changed(s.current, s.offered));
    var g := LearnGateway(c);
    LearnEffect(c);
    BoundLogs(s, a.log, c.log, g.log);
    Assembled(s, a, c, g);
  }

  lemma Assembled(s: Client, a: Client, c: Client, g: Client)
    requires AdoptEffect(s, a)
    requires c == a.(addrs := c.addrs, log := c.log)
    requires c.addrs == (if Changed(s.current, s.offered) && s.p.setAddr
                         then Netlink.Configured(s.addrs, Netlink.Wanted(s.offered)) else s.addrs)
    requires g == c.(sockUdp := g.sockUdp, sockRaw := g.sockRaw, fds := g.fds, defgw := g.defgw, log := g.log)
    requires Descriptors(g) && GatewayAsked(c, g, g.log)
    requires BoundHistory(s, s.(log := Snoc(g.log, Script(Bound))))
    ensures BoundEffect(s, g.Note(Script(Bound)).(state := Bound, cnt := 0))
  {
  }

  lemma BoundLogs(s: Client, a: Log, c: Log, g: Log)
    requires a == Snoc(s.log, BoundTo(s.offered))
    requires c == a || (c == Snoc(a, Routed(s.offered.gateway)) && s.offered.gateway != 0 && s.p.setAddr && s.p.setGateway)
    requires g == c || (g.Snoc? && g.past == c && g.last.Query? && 0 <= g.last.sock)
    ensures BoundHistory(s, s.(log := Snoc(g, Script(Bound))))
  {
    PlainEvent(s, s.log, BoundTo(s.offered));
    if c != a { PlainEvent(s, a, c.last); }
    if g != c { PlainEvent(s, c, g.last); }
    PlainEvent(s, g, Script(Bound));
  }

  /** Events other than messages neither change the last xid nor take anything from the history. */
  lemma PlainEvent(s: Client, l: Log, e: Event)
    requires !e.Sent? && !e.Received? && !e.Heard? && e != Script(Init)
    ensures var r := Snoc(l, e);
            && LastSent(r) == LastSent(l) && Messages(r) == Messages(l)
            && LearnedSinceInit(r, s.p.hwaddr, s.current.gateway, s.defgw) == LearnedSinceInit(l, s.p.hwaddr, s.current.gateway, s.defgw)
            && AckedSinceInit(r, s.p.hwaddr, s.offered) == AckedSinceInit(l, s.p.hwaddr, s.offered)
            && GoodHistory(s.p, r) == (GoodEvent(s.p, l, e) && GoodHistory(s.p, l))
  {
  }

  lemma BecomingBound(s: Client, env: Env)
    requires MayChange(s, env) && s.state != Bound && Clock(s.p.width, s.offered.recvtime)
    ensures BoundEffect(s, ChangeState(s, Bound, env))
  {
    var o := if s.sockRaw == -1 then OpenSockets(s, env) else s;
    if s.sockRaw == -1 {
      Opening(s, env);
    }
    EnteringBound(o, env);
    BoundIs(s, o, env);
  }

  lemma BoundIs(s: Client, o: Client, env: Env)
    requires s.state != Bound && o == if s.sockRaw == -1 then OpenSockets(s, env) else s
    ensures ChangeState(s, Bound, env) == EnterBound(o, env).(state := Bound, cnt := 0)
  {
  }
}
