/**
 * The skip-if-unchanged shortcut: on every run the interface holds exactly the
 * address of the configuration in force, and none without one, as long as some
 * configuration bound since INIT differed from a cleared one.
 */
module InterfaceSync {
  import opened Bytes
  import opened Time
  import opened Config
  import opened Protocol
  import opened Invariant
  import opened Effects
  import opened Preservation
  import opened Handlers
  import opened Runs
  import Exchange
  import Netlink
  import Arp

  /** Since INIT was last entered, a configuration was bound that a cleared record does not equal. */
  predicate Told(l: Log) {
    match l
    case NoEvents => false
    case Snoc(past, Script(Init)) => false
    case Snoc(past, BoundTo(cfg)) => Changed(ZERO, cfg) || Told(past)
    case Snoc(past, _) => Told(past)
  }

  /** The addresses the interface should hold. */
  function Expected(s: Client): set<Netlink.IfAddr> {
    if Told(s.log) then {Netlink.Wanted(s.current)} else {}
  }

  predicate Sync(s: Client) {
    && (HasLease(s) || (s.state != Rebooting && s.state != OperDown) ==> Initialised(s.log))
    && (Told(s.log) ==> HasLease(s))
    && (HasLease(s) && Changed(ZERO, s.current) ==> Told(s.log))
    && (s.p.setAddr && Initialised(s.log) ==> s.addrs == Expected(s))
  }

  // ----- building blocks -----

  /** The interface, the configuration in force and what decides about them stay. */
  predicate Quiet(s: Client, r: Client) {
    && r.p == s.p && r.addrs == s.addrs && r.current == s.current && r.lease == s.lease
    && Initialised(r.log) == Initialised(s.log) && Told(r.log) == Told(s.log)
  }

  lemma SendQuiet(s: Client, env: Env)
    ensures Quiet(s, SendMessage(s, env)) && SendMessage(s, env).state == s.state
  {
  }

  lemma ChangeQuiet(s: Client, to: State, env: Env)
    requires to != Init && to != Bound
    ensures Quiet(s, ChangeState(s, to, env)) && ChangeState(s, to, env).state == to
  {
  }

  lemma InitSync(s: Client, env: Env)
    ensures var r := ChangeState(s, Init, env); r.state == Init && Sync(r)
  {
  }

  lemma QuietEvent(l: Log, e: Event)
    requires e != Script(Init) && !e.BoundTo?
    ensures Initialised(Snoc(l, e)) == Initialised(l) && Told(Snoc(l, e)) == Told(l)
  {
  }

  lemma AdoptTells(s: Client, env: Env)
    ensures var l := Adopt(s, env).log;
            Initialised(l) == Initialised(s.log) && Told(l) == (Changed(ZERO, s.offered) || Told(s.log))
  {
    assert Adopt(s, env).log == Snoc(s.log, BoundTo(s.offered));
  }

  lemma ConfigureQuiet(s: Client, changed: bool)
    ensures var l := ConfigureInterface(s, changed).log; Initialised(l) == Initialised(s.log) && Told(l) == Told(s.log)
  {
    QuietEvent(s.log, Routed(s.current.gateway));
  }

  lemma LearnQuiet(s: Client)
    ensures var l := LearnGateway(s).log; Initialised(l) == Initialised(s.log) && Told(l) == Told(s.log)
  {
    QuietEvent(s.log, Query(s.sockRaw, s.current.address, s.current.gateway, None));
  }

  lemma EnterTells(s: Client, env: Env)
    ensures var l := EnterBound(s, env).log;
            Initialised(l) == Initialised(s.log) && Told(l) == (Changed(ZERO, s.offered) || Told(s.log))
  {
    var a := Adopt(s, env);
    AdoptTells(s, env);
    var c := ConfigureInterface(a, Changed(s.current, s.offered));
    ConfigureQuiet(a, Changed(s.current, s.offered));
    LearnQuiet(c);
    QuietEvent(LearnGateway(c).log, Script(Bound));
  }

  lemma BoundTells(s: Client, env: Env)
    ensures var l := ChangeState(s, Bound, env).log;
            Initialised(l) == Initialised(s.log) && Told(l) == (Changed(ZERO, s.offered) || Told(s.log))
  {
    EnterTells(if s.sockRaw == -1 then OpenSockets(s, env) else s, env);
  }

  /** Binding an acknowledged configuration, with or without touching the interface. */
  lemma BoundSync(s: Client, env: Env)
    requires MayChange(s, env) && s.state != Bound && FromAck(s, s.offered) && Initialised(s.log)
    requires !HasLease(s) ==> s.current == ZERO
    requires Told(s.log) ==> HasLease(s)
    requires HasLease(s) && Changed(ZERO, s.current) ==> Told(s.log)
    requires s.p.setAddr ==> s.addrs == Expected(s)
    ensures var r := ChangeState(s, Bound, env); Sync(r)
  {
    BecomingBound(s, env);
    BoundTells(s, env);
    if s.p.setAddr {
      SkipIsSound(s, ChangeState(s, Bound, env));
    }
  }

  /** Whether the test skips or reconfigures, the interface ends as it should. */
  lemma SkipIsSound(s: Client, r: Client)
    requires BoundEffect(s, r) && s.p.setAddr
    requires s.addrs == Expected(s) && (!HasLease(s) ==> s.current == ZERO) && (Told(s.log) ==> HasLease(s))
    requires Told(r.log) == (Changed(ZERO, s.offered) || Told(s.log))
    requires HasLease(s) && Changed(ZERO, s.current) ==> Told(s.log)
    ensures r.addrs == Expected(r)
  {
    Netlink.ConfiguredTwice(s.addrs, s.offered);
    if Changed(s.current, s.offered) {
      if Told(s.log) { MovedOn(s.addrs, s.current, s.offered); }
    } else {
      assert Netlink.Wanted(s.current) == Netlink.Wanted(s.offered);
    }
  }

  /** Reconfiguring leaves the new address alone, whichever single address was there. */
  lemma MovedOn(addrs: set<Netlink.IfAddr>, before: Config, after: Config)
    requires addrs == {Netlink.Wanted(before)}
    ensures Netlink.Configured(addrs, Netlink.Wanted(after)) == {Netlink.Wanted(after)}
  {
  }

  /**
   * With nothing held and nothing configured the shortcut is right exactly
   * when some of the four values compared is set; all zero means it is skipped.
   */
  lemma FirstBindingSyncs(s: Client, env: Env)
    requires MayChange(s, env) && s.state != Bound && Clock(s.p.width, s.offered.recvtime)
    requires s.p.setAddr && s.current == ZERO && s.addrs == {}
    ensures var r := ChangeState(s, Bound, env);
            (r.addrs == {Netlink.Wanted(r.current)} <==>
             s.offered.address != 0 || s.offered.netmask != 0 || s.offered.broadcast != 0 || s.offered.gateway != 0)
  {
    BecomingBound(s, env);
  }

  // ----- handlers -----

  lemma TimeoutSync(s: Client, env: Env)
    requires Inv(s) && EnvOk(s, env) && Sync(s)
    ensures Sync(HandleTimeout(s, env))
  {
    InvSplit(s);
    match s.state {
      case Rebooting => InitSync(InSeconds(s, env.now, 1), env);
      case Init => SendQuiet(s, env);
      case ArpCheckGateway => GatewaySync(s, env);
      case InitReboot => InitSync(s, env); SendQuiet(s, env);
      case Requesting => RequestingSync(s, env);
      case ArpCheck => ArpCheckSync(s, env);
      case Bound => BoundTimeoutSync(s, env);
      case Renewing => RenewingSync(s, env);
      case Rebinding => RebindSync(s, env);
      case _ =>
    }
  }

  lemma GatewaySync(s: Client, env: Env)
    requires Sync(s) && HasLease(s) && s.state == ArpCheckGateway
    ensures Sync(TimeoutArpCheckGateway(s, env))
  {
    RebootSync(Bump(s), env);
  }

  lemma ArpCheckSync(s: Client, env: Env)
    requires Inv(s) && EnvOk(s, env) && Sync(s) && s.state == ArpCheck
    ensures Sync(TimeoutArpCheck(s, env))
  {
    InvSplit(s);
    if s.cnt + 1 >= s.p.arpcheck { BoundSync(Bump(s), env); }
  }

  lemma RequestingSync(s: Client, env: Env)
    requires Sync(s) && !HasLease(s)
    ensures Sync(TimeoutRequesting(s, env))
  {
    InitSync(s, env);
    SendQuiet(s, env);
  }

  lemma RebootSync(s: Client, env: Env)
    requires Sync(s) && HasLease(s)
    ensures Sync(SendMessage(ChangeState(s, InitReboot, env), env))
  {
    ChangeQuiet(s, InitReboot, env);
    SendQuiet(ChangeState(s, InitReboot, env), env);
  }

  lemma RebindSync(s: Client, env: Env)
    requires Sync(s) && Initialised(s.log)
    ensures Sync(TimeoutRebinding(s, env))
  {
    InitSync(s, env);
    SendQuiet(ChangeState(s, Init, env), env);
    SendQuiet(s, env);
  }

  lemma RenewingSync(s: Client, env: Env)
    requires Sync(s) && Initialised(s.log) && s.state == Renewing
    ensures Sync(TimeoutRenewing(s, env))
  {
    if !Before(env.now, s.t2) {
      ChangeQuiet(s, Rebinding, env);
      RebindSync(ChangeState(s, Rebinding, env), env);
    } else {
      SendQuiet(s, env);
    }
  }

  lemma BoundTimeoutSync(s: Client, env: Env)
    requires Sync(s) && Initialised(s.log)
    ensures Sync(TimeoutBound(s, env))
  {
    ChangeQuiet(s, Renewing, env);
    RenewingSync(ChangeState(s, Renewing, env), env);
  }

  lemma DhcpSync(s: Client, reply: Option<DhcpReply>, env: Env)
    requires Inv(s) && Enabled(s, Input(Dhcp(reply), env)) && Sync(s)
    ensures Sync(RecvDhcp(s, reply, env))
  {
    if reply.Some? && MeantForUs(s, reply.value) {
      var m := reply.value;
      var cfg := m.cfg.(recvtime := env.now);
      var r := s.Note(Received(m.xid, m.chaddr, cfg));
      assert Quiet(s, r) && Sync(r);
      NotingKeepsInv(s, r, m, cfg);
      if s.state == Init {
        if cfg.msgType == OFFER { OfferSync(r, cfg, env); }
      } else if Awaiting(s) {
        if cfg.msgType == ACK { AckCarries(s, r, m, cfg); }
        AnsweredSync(r, cfg, env);
      }
    }
  }

  lemma AnsweredSync(s: Client, cfg: Config, env: Env)
    requires Inv(s) && Sync(s) && Awaiting(s) && (cfg.msgType == ACK ==> FromAck(s, cfg))
    ensures Sync(Answered(s, cfg, env))
  {
    if cfg.msgType == ACK {
      AckSync(s, cfg, env);
    } else if cfg.msgType == NAK {
      InitSync(s, env);
    }
  }

  lemma OfferSync(s: Client, cfg: Config, env: Env)
    requires Inv(s) && Sync(s) && s.state == Init
    ensures Sync(AcceptOffer(s, cfg, env))
  {
    InvSplit(s);
    var o := s.(offered := cfg);
    ChangeQuiet(o, Requesting, env);
    SendQuiet(ChangeState(o, Requesting, env), env);
  }

  lemma AckSync(s: Client, cfg: Config, env: Env)
    requires Inv(s) && Sync(s) && Awaiting(s) && FromAck(s, cfg)
    ensures Sync(AcceptAck(s, cfg, env))
  {
    InvSplit(s);
    var o := s.(offered := cfg);
    if s.p.arpcheck != 0 && s.state == Requesting {
      ChangeQuiet(o, ArpCheck, env);
    } else {
      BoundSync(o, env);
    }
  }

  lemma HeedArpSync(s: Client, a: Arp.Reply, toHost: bool, env: Env)
    requires Inv(s) && EnvOk(s, env) && Sync(s)
    ensures Sync(HeedArp(s, a, toHost, env))
  {
    InvSplit(s);
    if s.state == ArpCheck {
      InitSync(SendMessage(ChangeState(s, Declining, env), env), env);
    } else if s.state == ArpCheckGateway {
      BoundSync(s, env);
    }
  }

  lemma ArpSync(s: Client, reply: Option<Arp.Reply>, toHost: bool, env: Env)
    requires Inv(s) && EnvOk(s, env) && Sync(s)
    ensures Sync(RecvArp(s, reply, toHost, env))
  {
    if reply.Some? {
      var r := s.Note(Heard(reply.value, toHost));
      QuietEvent(s.log, Heard(reply.value, toHost));
      HearingKeepsInv(s, r, reply.value, toHost);
      HeedArpSync(r, reply.value, toHost, env);
    }
  }

  lemma LinkSync(s: Client, up: bool, env: Env)
    requires Inv(s) && EnvOk(s, env) && Sync(s)
    ensures Sync(OperState(s, up, env))
  {
    InvSplit(s);
    if up && s.state == OperDown {
      if HasLease(s) {
        ChangeQuiet(s, ArpCheckGateway, env);
        RebootSync(s, env);
      } else {
        InitSync(s.(toEvent := env.now), env);
        SendQuiet(ChangeState(s.(toEvent := env.now), Init, env), env);
      }
    } else if !up && s.state != OperDown {
      ChangeQuiet(if s.state == Bound then s.(tBoundDown := env.now) else s, OperDown, env);
    }
  }

  lemma TakeSync(s: Client, i: Input)
    requires Inv(s) && Enabled(s, i) && Sync(s)
    ensures Sync(Take(s, i))
  {
    match i.step {
      case Timeout => TimeoutSync(s, i.env);
      case Dhcp(reply) => DhcpSync(s, reply, i.env);
      case ArpFrame(arp, toHost) => ArpSync(s, arp, toHost, i.env);
      case LinkState(up) => LinkSync(s, up, i.env);
      case SigHup => if Keeping(s) { InvSplit(s); RebootSync(s, i.env); }
    }
  }

  lemma {:induction false} RunSync(s: Client, inputs: seq<Input>)
    requires Inv(s) && Sync(s) && ValidRun(s, inputs)
    ensures Sync(Run(s, inputs))
    decreases |inputs|
  {
    if inputs != [] {
      TakeKeepsInv(s, inputs[0]);
      TakeSync(s, inputs[0]);
      RunSync(Take(s, inputs[0]), inputs[1..]);
    }
  }

  /**
   * On every run, from the first INIT on: without a lease the interface is
   * empty; with one it holds exactly the address, prefix and fixed-up broadcast
   * of the configuration in force if and only if some configuration bound
   * since INIT had a non-zero address, mask, broadcast or gateway (as when the
   * one in force has), and else it is empty.
   */
  lemma InterfaceFollows(s: Client)
    requires Reachable(s) && s.p.setAddr && Initialised(s.log)
    ensures !HasLease(s) ==> s.addrs == {}
    ensures HasLease(s) ==> (s.addrs == {Netlink.Wanted(s.current)} <==> Told(s.log))
    ensures HasLease(s) && Told(s.log) ==> exists a :: s.addrs == {a} && Netlink.AddressOf(a, s.current)
    ensures HasLease(s) && !Told(s.log) ==> s.addrs == {}
    ensures HasLease(s) && Changed(ZERO, s.current) ==> Told(s.log)
  {
    var p: Params, addrs: set<Netlink.IfAddr>, inputs: seq<Input> :|
      ValidRun(Start(p, addrs), inputs) && s == Run(Start(p, addrs), inputs);
    StartInv(p, addrs);
    RunSync(Start(p, addrs), inputs);
    Netlink.WantedIs(s.current);
  }

  /** A run on which it is empty: the first ACK grants nothing but time. */
  lemma NothingTold() returns (s: Client)
    ensures Reachable(s) && s.p.setAddr && s.state == Bound && HasLease(s)
    ensures !Changed(ZERO, s.current) && s.addrs == {}
  {
    s := Exchange.Binds(true, ZERO.(lease := 3600));
  }
}
