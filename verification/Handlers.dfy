/** Every handler keeps the invariant, and so does every run. */
module Handlers {
  import opened Bytes
  import opened Time
  import opened Timers
  import opened Config
  import opened Protocol
  import opened Invariant
  import opened Effects
  import opened Preservation
  import Arp

  // ----- moves shared by several handlers -----

  /** Falling back to INIT. */
  lemma ToInit(s: Client, env: Env)
    requires Sound(s) && MayChange(s, env) && s.state != Init
    ensures var r := ChangeState(s, Init, env); InitEffect(s, r) && Unbound(r) && Inv(r)
  {
    ChangingToInit(s, env);
    InitKeeps(s, ChangeState(s, Init, env));
    InInit(ChangeState(s, Init, env));
  }

  /** A DISCOVER from INIT, whatever the counter and the next timeout become. */
  lemma Discover(s: Client, env: Env, cnt: nat, next: TimeVal)
    requires Inv(s) && s.state == Init && InRange(s.p.width, next)
    ensures SendEffect(s, SendMessage(s, env))
    ensures Inv(SendMessage(s, env).(cnt := cnt, toEvent := next))
  {
    var m := SendMessage(s, env);
    Sending(s, env);
    InvSplit(s);
    SendKeeps(s, m);
    InInit(m.(cnt := cnt, toEvent := next));
  }

  lemma DiscoverBackOff(s: Client, env: Env)
    requires Inv(s) && s.state == Init
    ensures Inv(SendAndBackOff(s, env)) && Inv(BackOff(SendMessage(s, env), env))
  {
    BackoffInRange(s.p.width, env.now, s.cnt + 1, env.backoff);
    BackoffInRange(s.p.width, env.now, s.cnt, env.backoff);
    Discover(s, env, s.cnt + 1, Backoff(s.p.width, env.now, s.cnt + 1, env.backoff));
    Discover(s, env, s.cnt, Backoff(s.p.width, env.now, s.cnt, env.backoff));
  }

  /** Entering INIT-REBOOT with a held configuration and sending the first request. */
  lemma RebootKeepsInv(s: Client, env: Env, cnt: nat)
    requires Holding(s) && MayChange(s, env) && s.state != InitReboot && cnt <= 1
    ensures var m := SendMessage(ChangeState(s, InitReboot, env), env);
            m.cnt == 0 && Inv(m.(cnt := cnt, toEvent := Backoff(s.p.width, env.now, cnt, env.backoff)))
  {
    var r := ChangeState(s, InitReboot, env);
    Changing(s, InitReboot, env);
    ChangeKeeps(s, r, InitReboot);
    var m := SendMessage(r, env);
    Sending(r, env);
    SendKeeps(r, m);
    BackoffInRange(s.p.width, env.now, cnt, env.backoff);
    InInitReboot(m.(cnt := cnt, toEvent := Backoff(s.p.width, env.now, cnt, env.backoff)));
  }

  /** The first request's timeout is computed before the counter advances. */
  lemma RebootUncounted(s: Client, env: Env)
    requires Holding(s) && MayChange(s, env) && s.state != InitReboot
    ensures Inv(BackOff(SendMessage(ChangeState(s, InitReboot, env), env), env))
  {
    RebootKeepsInv(s, env, 0);
    var m := SendMessage(ChangeState(s, InitReboot, env), env);
    assert m.(cnt := 0) == m;
  }

  /** Entering BOUND with a configuration an ACK carried. */
  lemma Bind(s: Client, env: Env)
    requires Sound(s) && MayChange(s, env) && s.state != Bound && FromAck(s, s.offered)
    requires s.state == ArpCheckGateway ==>
               s.current.gateway == s.offered.gateway && LearnedSinceInit(s.log, s.p.hwaddr, s.current.gateway, s.defgw)
    ensures BoundEffect(s, ChangeState(s, Bound, env)) && Inv(BindOffered(s, env))
  {
    var r := ChangeState(s, Bound, env);
    BecomingBound(s, env);
    BoundKeeps(s, r);
    InBound(r.(toEvent := r.t1));
  }

  // ----- timeouts -----

  lemma RebootingTimeout(s: Client, env: Env)
    requires Inv(s) && EnvOk(s, env) && s.state == Rebooting
    ensures Inv(ChangeState(s.(toEvent := env.now.(sec := Wrap(s.p.width, env.now.sec + 1))), Init, env))
  {
    InvSplit(s);
    WrappedInRange(s.p.width, env.now, 1);
    ToInit(s.(toEvent := env.now.(sec := Wrap(s.p.width, env.now.sec + 1))), env);
  }

  lemma AskGateway(s: Client, env: Env)
    requires Holding(s) && Descriptors(s) && 0 <= s.sockRaw && Normal(env.now)
    requires s.state == ArpCheckGateway && Queries(s.log) == s.cnt < s.p.arpcheckGateway && GatewayOk(s)
    ensures Inv(InHalfASecond(ProbeGateway(s), env.now))
  {
    var q := ProbeGateway(s);
    Querying(s, s.current.address, s.current.gateway, Some(s.defgw));
    QueryKeeps(s, q);
    SoonInRange(s.p.width, env.now);
    InArpCheckGateway(InHalfASecond(q, env.now));
  }

  lemma GatewayTimeout(s: Client, env: Env)
    requires Inv(s) && EnvOk(s, env) && s.state == ArpCheckGateway
    ensures Inv(TimeoutArpCheckGateway(s, env))
  {
    var b := Bump(s);
    BumpHolds(s, b);
    if b.cnt >= s.p.arpcheckGateway {
      GatewayGivesWay(b, env);
    } else {
      AskGateway(b, env);
    }
  }

  lemma BumpHolds(s: Client, b: Client)
    requires Inv(s) && s.state == ArpCheckGateway && b == Bump(s)
    ensures Holding(b) && Descriptors(b) && 0 <= b.sockRaw && GatewayOk(b) && Queries(b.log) == b.cnt
  {
    InvSplit(s);
  }

  lemma GatewayGivesWay(s: Client, env: Env)
    requires Holding(s) && MayChange(s, env) && s.state == ArpCheckGateway
    ensures Inv(SendAndBackOff(ChangeState(s, InitReboot, env), env))
  {
    RebootKeepsInv(s, env, 1);
  }

  lemma InitRebootTimeout(s: Client, env: Env)
    requires Inv(s) && EnvOk(s, env) && s.state == InitReboot && s.cnt == 0
    ensures Inv(SendAndBackOff(s, env))
  {
    InvSplit(s);
    var m := SendMessage(s, env);
    Sending(s, env);
    SendKeeps(s, m);
    BackoffInRange(s.p.width, env.now, 1, env.backoff);
    InInitReboot(m.(cnt := 1, toEvent := Backoff(s.p.width, env.now, 1, env.backoff)));
  }

  lemma RequestAgain(s: Client, env: Env, next: TimeVal)
    requires Inv(s) && s.state == Requesting && s.cnt < 3 && InRange(s.p.width, next)
    ensures Inv(SendMessage(s, env).(cnt := s.cnt + 1, toEvent := next))
  {
    InvSplit(s);
    var m := SendMessage(s, env);
    Sending(s, env);
    SendKeeps(s, m);
    InRequesting(m.(cnt := s.cnt + 1, toEvent := next));
  }

  lemma RequestNoMore(s: Client, env: Env, next: TimeVal)
    requires Inv(s) && EnvOk(s, env) && s.state == Requesting && InRange(s.p.width, next)
    ensures ChangeState(s, Init, env).cnt == 0 && Inv(ChangeState(s, Init, env).(cnt := 1, toEvent := next))
  {
    InvSplit(s);
    ToInit(s, env);
    InInit(ChangeState(s, Init, env).(cnt := 1, toEvent := next));
  }

  lemma RequestingTimeout(s: Client, env: Env)
    requires Inv(s) && EnvOk(s, env) && s.state == Requesting
    ensures Inv(TimeoutRequesting(s, env))
  {
    if s.cnt < 3 {
      BackoffInRange(s.p.width, env.now, s.cnt + 1, env.backoff);
      RequestAgain(s, env, Backoff(s.p.width, env.now, s.cnt + 1, env.backoff));
      SendingCounts(s, env);
    } else {
      BackoffInRange(s.p.width, env.now, 1, env.backoff);
      RequestNoMore(s, env, Backoff(s.p.width, env.now, 1, env.backoff));
      ChangingToInit(s, env);
    }
  }

  lemma SendingCounts(s: Client, env: Env)
    ensures var m := SendMessage(s, env); m.cnt == s.cnt && m.p == s.p
  {
  }

  lemma ArpCheckTimeout(s: Client, env: Env)
    requires Inv(s) && EnvOk(s, env) && s.state == ArpCheck
    ensures Inv(TimeoutArpCheck(s, env))
  {
    InvSplit(s);
    var b := Bump(s);
    if b.cnt >= s.p.arpcheck {
      Bind(b, env);
    } else {
      var q := ProbeAddress(b);
      Querying(b, 0, s.offered.address, None);
      assert Unbound(b);
      QueryKeeps(b, q);
      SoonInRange(s.p.width, env.now);
      InArpCheck(InHalfASecond(q, env.now));
    }
  }

  /** A request aimed at `deadline`: the first since `start`, or one when the previous is due. */
  ghost predicate RequestDue(s: Client, now: TimeVal, start: TimeVal, deadline: TimeVal) {
    && Clock(s.p.width, now) && InRange(s.p.width, deadline) && Before(now, deadline)
    && ((Sends(s.log) == 0 && !Before(now, start))
        || (!Before(now, s.toEvent) && Budget(start, deadline, s.toEvent, Sends(s.log))))
  }

  lemma RequestKeepsBudget(s: Client, now: TimeVal, start: TimeVal, deadline: TimeVal)
    requires Normal(s.toEvent) && Normal(start) && RequestDue(s, now, start, deadline)
    ensures Budget(start, deadline, BackoffMiddle(s.p.width, now, deadline), Sends(s.log) + 1)
    ensures InRange(s.p.width, BackoffMiddle(s.p.width, now, deadline))
    ensures !Before(deadline, BackoffMiddle(s.p.width, now, deadline))
  {
    BackoffMiddleBounds(s.p.width, now, deadline);
    if Sends(s.log) == 0 && !Before(now, start) {
      BeforeIsMicros(now, start);
      BudgetOpens(s.p.width, start, now, deadline);
    } else {
      BeforeIsMicros(now, s.toEvent);
      BudgetKept(s.p.width, start, deadline, s.toEvent, Sends(s.log), now);
    }
  }

  /** REBINDING entered or continued, the lease still running. */
  lemma Rebind(s: Client, env: Env)
    requires Holding(s) && Descriptors(s) && 0 <= s.sockRaw && s.state == Rebinding
    requires RequestDue(s, env.now, s.t2, s.lease)
    ensures Inv(SendMessage(s, env).(toEvent := BackoffMiddle(s.p.width, env.now, s.lease)))
  {
    var m := SendMessage(s, env);
    Sending(s, env);
    SendKeeps(s, m);
    RequestKeepsBudget(s, env.now, s.t2, s.lease);
    InRebinding(m.(toEvent := BackoffMiddle(s.p.width, env.now, s.lease)));
  }

  lemma Renew(s: Client, env: Env)
    requires Holding(s) && Descriptors(s) && 0 <= s.sockRaw && s.state == Renewing
    requires RequestDue(s, env.now, s.t1, s.t2)
    ensures Inv(SendMessage(s, env).(toEvent := BackoffMiddle(s.p.width, env.now, s.t2)))
  {
    var m := SendMessage(s, env);
    Sending(s, env);
    SendKeeps(s, m);
    RequestKeepsBudget(s, env.now, s.t1, s.t2);
    InRenewing(m.(toEvent := BackoffMiddle(s.p.width, env.now, s.t2)));
  }

  /** The lease has run out: back to INIT with one DISCOVER. */
  lemma Expire(s: Client, env: Env)
    requires Sound(s) && MayChange(s, env) && s.state != Init
    ensures Inv(SendAndBackOff(ChangeState(s, Init, env), env))
  {
    ToInit(s, env);
    DiscoverBackOff(ChangeState(s, Init, env), env);
  }

  /** From REBINDING just entered, or due again. */
  lemma RebindingTimeout(s: Client, env: Env)
    requires Holding(s) && Descriptors(s) && 0 <= s.sockRaw && s.state == Rebinding && Clock(s.p.width, env.now)
    requires (Sends(s.log) == 0 && !Before(env.now, s.t2))
          || (!Before(env.now, s.toEvent) && Budget(s.t2, s.lease, s.toEvent, Sends(s.log)))
    ensures Inv(TimeoutRebinding(s, env))
  {
    if !Before(env.now, s.lease) {
      Expire(s, env);
    } else {
      Rebind(s, env);
    }
  }

  lemma RenewingTimeout(s: Client, env: Env)
    requires Holding(s) && Descriptors(s) && 0 <= s.sockRaw && s.state == Renewing && Clock(s.p.width, env.now)
    requires (Sends(s.log) == 0 && !Before(env.now, s.t1))
          || (!Before(env.now, s.toEvent) && Budget(s.t1, s.t2, s.toEvent, Sends(s.log)))
    ensures Inv(TimeoutRenewing(s, env))
  {
    if !Before(env.now, s.t2) {
      var r := ChangeState(s, Rebinding, env);
      Changing(s, Rebinding, env);
      ChangeKeeps(s, r, Rebinding);
      RebindingTimeout(r, env);
    } else {
      Renew(s, env);
    }
  }

  lemma BoundTimeout(s: Client, env: Env)
    requires Inv(s) && EnvOk(s, env) && s.state == Bound
    ensures Inv(TimeoutBound(s, env))
  {
    if !Before(env.now, s.t1) {
      InvSplit(s);
      var r := ChangeState(s, Renewing, env);
      Changing(s, Renewing, env);
      ChangeKeeps(s, r, Renewing);
      RenewingTimeout(r, env);
    }
  }

  lemma TimeoutKeepsInv(s: Client, env: Env)
    requires Inv(s) && EnvOk(s, env)
    ensures Inv(HandleTimeout(s, env))
  {
    if !Before(env.now, s.toEvent) {
      InvSplit(s);
      match s.state {
        case Rebooting => RebootingTimeout(s, env);
        case Init => DiscoverBackOff(s, env);
        case ArpCheckGateway => GatewayTimeout(s, env);
        case InitReboot => if s.cnt != 0 { ToInit(s, env); } else { InitRebootTimeout(s, env); }
        case Requesting => RequestingTimeout(s, env);
        case ArpCheck => ArpCheckTimeout(s, env);
        case Bound => BoundTimeout(s, env);
        case Renewing => RenewingTimeout(s, env);
        case Rebinding => RebindingTimeout(s, env);
        case _ =>
      }
    }
  }

  // ----- DHCP messages -----

  /** Noting a message read changes nothing but the history. */
  predicate Noted(s: Client, r: Client, m: DhcpReply, cfg: Config) {
    r == s.(log := Snoc(s.log, Received(m.xid, m.chaddr, cfg)))
  }

  lemma NotingKeepsInv(s: Client, r: Client, m: DhcpReply, cfg: Config)
    requires Inv(s) && Noted(s, r, m, cfg)
    ensures Inv(r) && Sends(r.log) == Sends(s.log) && Queries(r.log) == Queries(s.log)
    ensures LastSent(r.log) == LastSent(s.log)
  {
  }

  /** An ACK for us carries what it carries. */
  lemma AckCarries(s: Client, r: Client, m: DhcpReply, cfg: Config)
    requires Inv(s) && MeantForUs(s, m) && Noted(s, r, m, cfg) && cfg.msgType == ACK
    requires Awaiting(s)
    ensures AckedSinceInit(r.log, r.p.hwaddr, cfg)
  {
  }

  lemma OfferKeepsInv(s: Client, cfg: Config, env: Env)
    requires Inv(s) && s.state == Init && cfg.msgType == OFFER && WellSized(cfg)
    ensures Inv(AcceptOffer(s, cfg, env))
  {
    InvSplit(s);
    var o := s.(offered := cfg);
    assert Unbound(o);
    var r := ChangeState(o, Requesting, env);
    Changing(o, Requesting, env);
    ChangeKeeps(o, r, Requesting);
    var m := SendMessage(r, env);
    Sending(r, env);
    SendKeeps(r, m);
    BackoffInRange(s.p.width, env.now, 1, env.backoff);
    InRequesting(m.(cnt := 1, toEvent := Backoff(s.p.width, env.now, 1, env.backoff)));
  }

  /** With the ARP check on, the acknowledged address is probed first. */
  lemma ProbeAcknowledged(s: Client, env: Env)
    requires Unbound(s) && Descriptors(s) && 0 <= s.sockRaw && s.state == Requesting
    requires FromAck(s, s.offered) && 1 <= s.p.arpcheck && Normal(env.now)
    ensures Inv(CheckAddress(s, env))
  {
    var r := ChangeState(s, ArpCheck, env);
    Changing(s, ArpCheck, env);
    ChangeKeeps(s, r, ArpCheck);
    var q := ProbeAddress(r);
    Querying(r, 0, r.offered.address, None);
    QueryKeeps(r, q);
    SoonInRange(s.p.width, env.now);
    InArpCheck(InHalfASecond(q, env.now));
  }

  lemma AckKeepsInv(s: Client, cfg: Config, env: Env)
    requires Inv(s) && cfg.msgType == ACK && WellSized(cfg) && FromAck(s, cfg) && Normal(env.now)
    requires Awaiting(s)
    ensures Inv(AcceptAck(s, cfg, env))
  {
    InvSplit(s);
    var o := s.(offered := cfg);
    if s.p.arpcheck != 0 && s.state == Requesting {
      assert Unbound(o);
      ProbeAcknowledged(o, env);
    } else {
      assert Sound(o);
      Bind(o, env);
    }
  }

  lemma NakKeepsInv(s: Client, env: Env)
    requires Inv(s) && 0 <= s.sockRaw && s.state != Init
    ensures Inv(ChangeState(s, Init, env).(toEvent := CLEARED))
  {
    InvSplit(s);
    var r := ChangeState(s, Init, env);
    ToInit(s, env);
    InInit(r.(toEvent := CLEARED));
  }

  lemma AnsweredKeepsInv(s: Client, cfg: Config, env: Env)
    requires Inv(s) && Awaiting(s) && WellSized(cfg) && (cfg.msgType == ACK ==> FromAck(s, cfg))
    requires Clock(s.p.width, env.now) && 0 <= s.sockRaw
    ensures Inv(Heed(s, cfg, env))
  {
    assert Heed(s, cfg, env) == Answered(s, cfg, env);
    if cfg.msgType == ACK {
      AckKeepsInv(s, cfg, env);
    } else if cfg.msgType == NAK {
      NakKeepsInv(s, env);
    }
  }

  lemma OfferedKeepsInv(s: Client, cfg: Config, env: Env)
    requires Inv(s) && s.state == Init && WellSized(cfg)
    ensures Inv(Heed(s, cfg, env))
  {
    if cfg.msgType == OFFER {
      OfferKeepsInv(s, cfg, env);
    }
  }

  lemma HeedKeepsInv(s: Client, cfg: Config, env: Env)
    requires Inv(s) && WellSized(cfg) && (Awaiting(s) && cfg.msgType == ACK ==> FromAck(s, cfg))
    requires Clock(s.p.width, env.now) && 0 <= s.sockRaw
    ensures Inv(Heed(s, cfg, env))
  {
    if s.state == Init {
      OfferedKeepsInv(s, cfg, env);
    } else if Awaiting(s) {
      AnsweredKeepsInv(s, cfg, env);
    } else {
      HeedsNothing(s, cfg, env);
    }
  }

  lemma HeedsNothing(s: Client, cfg: Config, env: Env)
    requires s.state != Init && !Awaiting(s)
    ensures Heed(s, cfg, env) == s
  {
  }

  lemma DhcpKeepsInv(s: Client, reply: Option<DhcpReply>, env: Env)
    requires Inv(s) && Enabled(s, Input(Dhcp(reply), env))
    ensures Inv(RecvDhcp(s, reply, env))
  {
    if reply.Some? && MeantForUs(s, reply.value) {
      var m := reply.value;
      var cfg := m.cfg.(recvtime := env.now);
      var r := s.Note(Received(m.xid, m.chaddr, cfg));
      HasRawSocket(s);
      NotingKeepsInv(s, r, m, cfg);
      if Awaiting(s) && cfg.msgType == ACK { AckCarries(s, r, m, cfg); }
      HeedKeepsInv(r, cfg, env);
    }
  }

  lemma HasRawSocket(s: Client)
    requires Inv(s) && s.sockRaw != -1
    ensures 0 <= s.sockRaw
  {
  }

  // ----- ARP replies -----

  lemma DeclineKeepsInv(s: Client, env: Env)
    requires Inv(s) && s.state == ArpCheck && Normal(env.now)
    ensures Inv(Decline(s, env))
  {
    InvSplit(s);
    var d := ChangeState(s, Declining, env);
    Changing(s, Declining, env);
    ChangeKeeps(s, d, Declining);
    DeclinedKeepsInv(d, env);
  }

  lemma DeclinedKeepsInv(d: Client, env: Env)
    requires Unbound(d) && Descriptors(d) && 0 <= d.sockRaw && d.state == Declining && Normal(env.now)
    ensures Inv(InSeconds(ChangeState(SendMessage(d, env), Init, env), env.now, 10))
  {
    var m := SendMessage(d, env);
    Sending(d, env);
    SendKeeps(d, m);
    var r := ChangeState(m, Init, env);
    ToInit(m, env);
    WrappedInRange(d.p.width, env.now, 10);
    InInit(r.(toEvent := env.now.(sec := Wrap(d.p.width, env.now.sec + 10))));
  }

  lemma VerifiedKeepsInv(s: Client, env: Env)
    requires Inv(s) && EnvOk(s, env) && s.state == ArpCheckGateway
    ensures Inv(BindOffered(s, env))
  {
    InvSplit(s);
    Bind(s, env);
  }

  /** Noting an ARP reply changes nothing but the history. */
  lemma HearingKeepsInv(s: Client, r: Client, a: Arp.Reply, toHost: bool)
    requires Inv(s) && r == s.Note(Heard(a, toHost))
    ensures Inv(r)
    ensures a.targetMac == s.p.hwaddr ==> LearnedSinceInit(r.log, r.p.hwaddr, a.senderIp, a.senderMac)
  {
  }

  lemma LearnedKeepsInv(s: Client, mac: Mac)
    requires Inv(s) && s.state == Bound && LearnedSinceInit(s.log, s.p.hwaddr, s.current.gateway, mac)
    ensures Inv(CloseSockets(s.(defgw := mac)))
  {
    InvSplit(s);
    InBound(CloseSockets(s.(defgw := mac)));
  }

  lemma HeedArpInCheck(s: Client, a: Arp.Reply, toHost: bool, env: Env)
    requires Inv(s) && EnvOk(s, env) && s.state == ArpCheck
    ensures Inv(HeedArp(s, a, toHost, env))
  {
    DeclineKeepsInv(s, env);
  }

  lemma HeedArpInGatewayCheck(s: Client, a: Arp.Reply, toHost: bool, env: Env)
    requires Inv(s) && EnvOk(s, env) && s.state == ArpCheckGateway
    ensures Inv(HeedArp(s, a, toHost, env))
  {
    VerifiedKeepsInv(s, env);
  }

  lemma HeedArpInBound(s: Client, a: Arp.Reply, toHost: bool, env: Env)
    requires Inv(s) && s.state == Bound
    requires a.targetMac == s.p.hwaddr ==> LearnedSinceInit(s.log, s.p.hwaddr, a.senderIp, a.senderMac)
    ensures Inv(HeedArp(s, a, toHost, env))
  {
    if FromGateway(s, a) {
      LearnedKeepsInv(s, a.senderMac);
    }
  }

  lemma HeedArpKeepsInv(s: Client, a: Arp.Reply, toHost: bool, env: Env)
    requires Inv(s) && EnvOk(s, env)
    requires a.targetMac == s.p.hwaddr ==> LearnedSinceInit(s.log, s.p.hwaddr, a.senderIp, a.senderMac)
    ensures Inv(HeedArp(s, a, toHost, env))
  {
    match s.state {
      case ArpCheck => HeedArpInCheck(s, a, toHost, env);
      case ArpCheckGateway => HeedArpInGatewayCheck(s, a, toHost, env);
      case Bound => HeedArpInBound(s, a, toHost, env);
      case _ =>
    }
  }

  lemma ArpKeepsInv(s: Client, reply: Option<Arp.Reply>, toHost: bool, env: Env)
    requires Inv(s) && EnvOk(s, env)
    ensures Inv(RecvArp(s, reply, toHost, env))
  {
    if reply.Some? {
      var r := s.Note(Heard(reply.value, toHost));
      HearingKeepsInv(s, r, reply.value, toHost);
      HeedArpKeepsInv(r, reply.value, toHost, env);
    }
  }

  // ----- link state and SIGHUP -----

  lemma LinkUpKeepsInv(s: Client, env: Env)
    requires Inv(s) && EnvOk(s, env) && s.state == OperDown
    ensures Inv(OperState(s, true, env))
  {
    InvSplit(s);
    if HasLease(s) && CanVerifyGateway(s, env.now) {
      var r := ChangeState(s, ArpCheckGateway, env);
      Changing(s, ArpCheckGateway, env);
      ChangeKeeps(s, r, ArpCheckGateway);
      var q := ProbeGateway(r);
      Querying(r, r.current.address, r.current.gateway, Some(r.defgw));
      QueryKeeps(r, q);
      SoonInRange(s.p.width, env.now);
      InArpCheckGateway(InHalfASecond(q, env.now));
    } else if HasLease(s) {
      RebootUncounted(s, env);
    } else {
      var o := s.(toEvent := env.now);
      assert Sound(o);
      ToInit(o, env);
      DiscoverBackOff(ChangeState(o, Init, env), env);
    }
  }

  lemma LinkDownKeepsInv(s: Client, env: Env)
    requires Inv(s) && EnvOk(s, env) && s.state != OperDown
    ensures Inv(OperState(s, false, env))
  {
    InvSplit(s);
    var o := if s.state == Bound then s.(tBoundDown := env.now) else s;
    assert (HasLease(o) ==> Holding(o)) && (!HasLease(o) ==> Unbound(o)) && Descriptors(o);
    Changing(o, OperDown, env);
    ChangeKeeps(o, ChangeState(o, OperDown, env), OperDown);
    InOperDown(ChangeState(o, OperDown, env));
  }

  lemma HangupKeepsInv(s: Client, env: Env)
    requires Inv(s) && EnvOk(s, env)
    ensures Inv(Hangup(s, env))
  {
    if s.state == Bound || s.state == Rebinding || s.state == Renewing {
      InvSplit(s);
      RebootUncounted(s, env);
    }
  }

  lemma TakeKeepsInv(s: Client, i: Input)
    requires Inv(s) && Enabled(s, i)
    ensures Inv(Take(s, i))
  {
    match i.step {
      case Timeout => TimeoutKeepsInv(s, i.env);
      case Dhcp(reply) => DhcpKeepsInv(s, reply, i.env);
      case ArpFrame(arp, toHost) => ArpKeepsInv(s, arp, toHost, i.env);
      case LinkState(up) =>
        if up && s.state == OperDown { LinkUpKeepsInv(s, i.env); }
        else if !up && s.state != OperDown { LinkDownKeepsInv(s, i.env); }
      case SigHup => HangupKeepsInv(s, i.env);
    }
  }
}
