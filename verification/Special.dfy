/** Theorems about single exchanges: the gateway check, unasked offers, raw sources and the release. */
module Special {
  import opened Bytes
  import opened Time
  import opened Config
  import opened Protocol
  import opened Invariant
  import opened Effects
  import opened Preservation
  import opened Handlers
  import opened Runs
  import opened Transitions
  import Exchange
  import Options
  import Arp

  // ----- the gateway check (RFC 4436) -----

  /** A gateway is only ever probed for by an address learned for that very gateway since INIT was last entered. */
  lemma GatewayAddressLearned(s: Client)
    requires Reachable(s) && s.state == ArpCheckGateway
    ensures s.current.gateway != 0 && s.defgw[0] != 255 && LearnedSinceInit(s.log, s.p.hwaddr, s.current.gateway, s.defgw)
  {
    ReachableInv(s);
  }

  /**
   * The check succeeds exactly on an answer from the known gateway to this
   * host, and success re-enters BOUND with the same configuration, the same
   * end of lease and the interface untouched.
   */
  lemma VerifiedGatewayKeepsLease(s: Client, a: Arp.Reply, toHost: bool, env: Env)
    requires Reachable(s) && EnvOk(s, env) && s.state == ArpCheckGateway
    ensures var r := RecvArp(s, Some(a), toHost, env);
            && (r.state == Bound <==>
                  a.senderIp == s.current.gateway && a.targetIp == s.current.address
                  && a.targetMac == s.p.hwaddr && a.senderMac == s.defgw)
            && (r.state == Bound ==> r.current == s.current && r.lease == s.lease && r.addrs == s.addrs
                                     && r.defgw == s.defgw && r.toEvent == r.t1)
            && (r.state != Bound ==> r == s.Note(Heard(a, toHost)))
  {
    ReachableInv(s);
    var h := s.Note(Heard(a, toHost));
    HearingKeepsInv(s, h, a, toHost);
    VerifiedRebinds(h, env);
    HeedsGateway(s, a, toHost, env, h);
  }

  lemma HeedsGateway(s: Client, a: Arp.Reply, toHost: bool, env: Env, h: Client)
    requires s.state == ArpCheckGateway && h == s.Note(Heard(a, toHost))
    ensures RecvArp(s, Some(a), toHost, env) ==
              if a.senderIp == s.current.gateway && a.targetIp == s.current.address
                 && a.targetMac == s.p.hwaddr && a.senderMac == s.defgw
              then BindOffered(h, env) else h
  {
  }

  lemma VerifiedRebinds(s: Client, env: Env)
    requires Inv(s) && EnvOk(s, env) && s.state == ArpCheckGateway
    ensures var r := BindOffered(s, env);
            && r.state == Bound && r.current == s.current && r.lease == s.lease && r.addrs == s.addrs
            && r.defgw == s.defgw && r.toEvent == r.t1
  {
    InvSplit(s);
    BecomingBound(s, env);
  }

  // ----- giving an address up -----

  /** A DHCPNAK ends any binding at once, and the very next timeout, whenever it comes, sends a DISCOVER. */
  lemma RefusalRestarts(s: Client, m: DhcpReply, env: Env, later: Env)
    requires Reachable(s) && Enabled(s, Input(Dhcp(Some(m)), env)) && Awaiting(s)
    requires MeantForUs(s, m) && m.cfg.msgType == NAK
    ensures var r := RecvDhcp(s, Some(m), env);
            && r.state == Init && !HasLease(r) && r.current == ZERO && (s.p.setAddr ==> r.addrs == {})
            && Messages(r.log) == Messages(s.log)
            && (EnvOk(r, later) ==>
                  var d := HandleTimeout(r, later);
                  && d.state == Init && Messages(d.log) == Messages(r.log) + 1
                  && d.log.last.Sent? && d.log.last.msgType == DISCOVER)
  {
    ReachableInv(s);
    InvSplit(s);
    var n := s.Note(Received(m.xid, m.chaddr, m.cfg.(recvtime := env.now)));
    ClearedAtOnce(n, env);
    RefusalIs(s, m, env, n);
    if EnvOk(RecvDhcp(s, Some(m), env), later) { DiscoversAtOnce(RecvDhcp(s, Some(m), env), later); }
  }

  lemma RefusalIs(s: Client, m: DhcpReply, env: Env, n: Client)
    requires Awaiting(s) && MeantForUs(s, m) && m.cfg.msgType == NAK
    requires n == s.Note(Received(m.xid, m.chaddr, m.cfg.(recvtime := env.now)))
    ensures RecvDhcp(s, Some(m), env) == ChangeState(n, Init, env).(toEvent := CLEARED)
  {
  }

  lemma ClearedAtOnce(n: Client, env: Env)
    requires MayChange(n, env) && n.state != Init
    ensures var r := ChangeState(n, Init, env).(toEvent := CLEARED);
            && Descriptors(r) && 0 <= r.sockRaw && r.state == Init && r.toEvent == CLEARED
            && Messages(r.log) == Messages(n.log)
            && !HasLease(r) && r.current == ZERO && r.addrs == (if n.p.setAddr then {} else n.addrs)
            && r.p == n.p
  {
    ChangingToInit(n, env);
  }

  lemma DiscoversAtOnce(r: Client, later: Env)
    requires Descriptors(r) && 0 <= r.sockRaw && r.state == Init && r.toEvent == CLEARED
    requires EnvOk(r, later)
    ensures var d := HandleTimeout(r, later);
            && d.state == Init && Messages(d.log) == Messages(r.log) + 1
            && d.log.last.Sent? && d.log.last.msgType == DISCOVER
  {
    Sending(r, later);
  }

  // ----- which messages an offer answers -----

  /** An OFFER taken in INIT answers a message of ours exactly when one has been sent at all. */
  lemma OfferAnswersIffAsked(s: Client, m: DhcpReply)
    requires Reachable(s) && s.state == Init && MeantForUs(s, m)
    ensures (exists msgType: byte :: LastSent(s.log) == Some(Asked(m.xid, msgType))) <==> LastSent(s.log).Some?
  {
    ReachableInv(s);
  }

  /** Before the first DISCOVER the record's xid is still zero, and an OFFER with that xid is taken. */
  lemma UnaskedOfferTaken(p: Params, m: DhcpReply, first: Env, second: Env)
    requires m.xid == 0 && m.hlen == 6 && m.chaddr == p.hwaddr && m.cfg.msgType == OFFER
    requires EnvOk(Start(p, {}), first)
    ensures var s := HandleTimeout(Start(p, {}), first);
            && s.state == Init && LastSent(s.log) == None
            && RecvDhcp(s, Some(m), second).state == Requesting
  {
    var woken := InSeconds(Start(p, {}), first.now, 1);
    ChangingToInit(woken, first);
    TakenInInit(ChangeState(woken, Init, first), m, second);
  }

  lemma TakenInInit(s: Client, m: DhcpReply, env: Env)
    requires s.state == Init && MeantForUs(s, m) && m.cfg.msgType == OFFER
    ensures RecvDhcp(s, Some(m), env).state == Requesting
  {
    DhcpMoves(s, Some(m), env);
    var cfg := m.cfg.(recvtime := env.now);
    OfferMoves(s.Note(Received(m.xid, m.chaddr, cfg)), cfg, env);
  }

  // ----- the IP source of raw broadcasts -----

  /**
   * A raw broadcast has the null address or the client's own as its source,
   * except exactly a renewal or a release that found no UDP socket: its source
   * is the server's address.
   */
  lemma RawSource(s: Client, env: Env)
    requires Outgoing(s).Some? && !ViaUdp(s)
    ensures var e := SendMessage(s, env).log.last;
            && e.Sent? && !e.viaUdp && e.sock == s.sockRaw
            && (s.state == Renewing || s.state == Releasing ==> e.addr == s.current.server)
            && (e.addr == 0 || e.addr == s.current.address
                <==> (s.state != Renewing && s.state != Releasing)
                     || s.current.server == 0 || s.current.server == s.current.address)
  {
    var r := s.(xid := env.xid % 0x1_0000_0000);
    assert Outgoing(r).Some? && !ViaUdp(r);
  }

  lemma ReleasesFromServer(s: Client, env: Env)
    requires s.state == Bound && s.sockUdp == s.sockRaw == -1 && env.udp.Refused?
    ensures var e := Release(s, env).log.last;
            e.Sent? && e.state == Releasing && !e.viaUdp && e.addr == s.current.server
  {
    var c := ChangeState(s, Releasing, env);
    assert c.state == Releasing && c.sockUdp == -1 && c.current == s.current;
    RawSource(c, env);
  }

  /** A run that shows it: bound without a UDP socket, the client releases with the server's address as source. */
  lemma ServerAsSource() returns (s: Client, env: Env)
    ensures Reachable(s) && s.state == Bound && EnvOk(s, env)
    ensures s.current.server == 0x0a00_0001 && s.current.address == 0x0a00_0002
    ensures var e := Release(s, env).log.last; e.Sent? && e.state == Releasing && !e.viaUdp && e.addr == s.current.server
  {
    s := Exchange.Binds(false, Exchange.LENT);
    env := Exchange.Plain(1004, 0, 3);
    ReleasesFromServer(s, env);
  }

  // ----- release -----

  /**
   * Releasing sends one message and empties the interface. It names the
   * address given back, but no server identifier, which table 5 of RFC 2131
   * demands of a DHCPRELEASE. The whole history stays as it should be.
   */
  lemma ReleaseSends(s: Client, env: Env)
    requires Reachable(s) && EnvOk(s, env)
    ensures var r := Release(s, env);
            if s.state != Bound then r == s
            else
              && r.state == Releasing && (s.p.setAddr ==> r.addrs == {})
              && Messages(r.log) == Messages(s.log) + 1 && r.log.last.Sent? && r.log.last.msgType == RELEASE
              && r.log.last.ciaddr == s.current.address && 0 <= r.log.last.sock
              && Field(r.log.last.opts, Options.SERVER) == None
              && Descriptors(r)
    ensures GoodHistory(s.p, Release(s, env).log)
  {
    ReachableInv(s);
    InvSplit(s);
    if s.state == Bound {
      var c := ChangeState(s, Releasing, env);
      Changing(s, Releasing, env);
      SendsRelease(c, env);
    }
  }

  lemma SendsRelease(c: Client, env: Env)
    requires c.state == Releasing && 0 <= c.sockRaw && -1 <= c.sockUdp
    ensures var r := SendMessage(c, env);
            && r == c.(xid := r.xid, log := r.log) && Messages(r.log) == Messages(c.log) + 1
            && r.log.last.Sent? && r.log.last.msgType == RELEASE && r.log.last.ciaddr == c.current.address
            && 0 <= r.log.last.sock
            && Field(r.log.last.opts, Options.SERVER) == None
            && (GoodHistory(c.p, c.log) ==> GoodHistory(c.p, r.log))
  {
    Sending(c, env);
    var r := SendMessage(c, env);
    assert r.log == Snoc(c.log, r.log.last) && r.log.last.opts == Outgoing(c).value.opts;
    OutgoingConforms(c);
  }
}
