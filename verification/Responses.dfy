/**
 * What each event makes of each state, in the terms of an observer: the state
 * entered, the last thing sent or asked, the configuration, and when the client
 * wakes next, in microseconds.
 */
module Responses {
  import opened Bytes
  import opened Time
  import opened Timers
  import opened Config
  import opened Protocol
  import opened Invariant
  import opened Effects
  import opened Preservation
  import opened Runs
  import Overstay
  import Wire
  import Arp

  // ----- what an observer sees -----

  /** t lies between lo and hi microseconds after now, unless time_t ends before. */
  predicate Within(w: Width, now: TimeVal, t: TimeVal, lo: int, hi: int) {
    Micros(t) <= Micros(now) + hi && (now.sec + 66 <= MaxSec(w) ==> Micros(now) + lo <= Micros(t))
  }

  /** Exactly one message was sent on the way from s to r, last of all, of this type and with the xid drawn. */
  predicate SaidOnce(s: Client, r: Client, msgType: byte, env: Env) {
    && Messages(r.log) == Messages(s.log) + 1
    && r.log.Snoc? && r.log.last.Sent? && r.log.last.msgType == msgType && r.log.last.state == r.state
    && r.xid == r.log.last.xid == env.xid % 0x1_0000_0000
  }

  /** No message was sent; the last event is a question for the hardware address of `target`. */
  predicate AskedOnce(s: Client, r: Client, source: u32, target: u32, mac: Option<Mac>) {
    && Messages(r.log) == Messages(s.log)
    && r.log.Snoc? && r.log.last == Query(r.sockRaw, source, target, mac) && 0 <= r.sockRaw
  }

  predicate SameLease(s: Client, r: Client) {
    r.current == s.current && r.t1 == s.t1 && r.t2 == s.t2 && r.lease == s.lease && r.addrs == s.addrs
  }

  predicate Nothing(r: Client) {
    && r.current == ZERO && r.t1 == r.t2 == r.lease == TimeVal(0, 0) && (r.p.setAddr ==> r.addrs == {})
  }

  // ----- building blocks -----

  lemma HalfASecond(w: Width, now: TimeVal)
    requires Clock(w, now)
    ensures Within(w, now, TimerAdd(w, now, HALF_SECOND), 500_000, 500_000)
  {
    AddIsShift(w, now, HALF_SECOND);
    ShiftNoLater(w, now, 500_000);
    if now.sec + 66 <= MaxSec(w) { ShiftExact(w, now, 500_000); }
  }

  /** The window of retry number cnt: 2^(min(cnt, 5) + 1) seconds, a second either way. */
  predicate Retries(w: Width, now: TimeVal, t: TimeVal, cnt: nat) {
    Within(w, now, t, Pow2(Min(cnt, 5) + 1) * 1_000_000 - 999_000, Pow2(Min(cnt, 5) + 1) * 1_000_000 + 1_000_000)
  }

  lemma BackoffRetries(w: Width, now: TimeVal, cnt: nat, random: nat)
    requires Clock(w, now)
    ensures Retries(w, now, Backoff(w, now, cnt, random), cnt)
  {
    BackoffWindow(cnt, random);
    ShiftNoLater(w, now, BackoffDelay(cnt, random));
    if now.sec + 66 <= MaxSec(w) { BackoffLater(w, now, cnt, random); }
  }

  /** Retry numbers in seconds: about 2, 4 and 8. */
  lemma RetrySeconds(w: Width, now: TimeVal, t: TimeVal)
    ensures Retries(w, now, t, 0) ==> Within(w, now, t, 1_001_000, 3_000_000)
    ensures Retries(w, now, t, 1) ==> Within(w, now, t, 3_001_000, 5_000_000)
    ensures Retries(w, now, t, 2) ==> Within(w, now, t, 7_001_000, 9_000_000)
  {
    Pow2Values();
  }

  /** The message of a state, seen from outside. */
  lemma Says(c: Client, env: Env)
    requires MaySend(c)
    ensures var r := SendMessage(c, env);
            && SaidOnce(c, r, r.log.last.msgType, env) && r == c.(xid := r.xid, log := r.log)
            && r.log.past == c.log
            && r.log.last.msgType ==
                 (match c.state case Init => 1 case Declining => 4 case Releasing => 7 case _ => 3)
  {
    Wire.WayOut(c, env);
    Wire.MessageOfState(c);
  }

  // ----- an OFFER -----

  /** The fields that make a message one for this client. */
  predicate ForUs(s: Client, m: DhcpReply) {
    m.xid == s.xid && m.hlen == 6 && m.chaddr == s.p.hwaddr
  }

  /** In INIT an OFFER is requested at once, with its own address and server, and again after about four seconds. */
  lemma OfferRequested(s: Client, m: DhcpReply, env: Env)
    requires Reachable(s) && Enabled(s, Input(Dhcp(Some(m)), env)) && s.state == Init
    requires ForUs(s, m) && m.cfg.msgType == 2
    ensures var r := RecvDhcp(s, Some(m), env);
            && r.state == Requesting && r.cnt == 1 && r.offered == m.cfg.(recvtime := env.now) && SameLease(s, r)
            && SaidOnce(s, r, 3, env)
            && Field(r.log.last.opts, 50) == Some(Bytes32(m.cfg.address))
            && Field(r.log.last.opts, 54) == Some(Bytes32(m.cfg.server))
            && Within(s.p.width, env.now, r.toEvent, 3_001_000, 5_000_000)
  {
    ReachableInv(s);
    InvSplit(s);
    var cfg := m.cfg.(recvtime := env.now);
    HeedsOffer(s, m, env);
    OfferTaken(s.Note(Received(m.xid, m.chaddr, cfg)), cfg, env);
  }

  lemma HeedsOffer(s: Client, m: DhcpReply, env: Env)
    requires s.state == Init && ForUs(s, m) && m.cfg.msgType == 2
    ensures var cfg := m.cfg.(recvtime := env.now);
            RecvDhcp(s, Some(m), env) == AcceptOffer(s.Note(Received(m.xid, m.chaddr, cfg)), cfg, env)
  {
  }

  lemma OfferTaken(s: Client, cfg: Config, env: Env)
    requires Descriptors(s) && 0 <= s.sockRaw && s.state == Init && cfg.msgType == OFFER && Clock(s.p.width, env.now)
    ensures var r := AcceptOffer(s, cfg, env);
            && r.state == Requesting && r.cnt == 1 && r.offered == cfg && SameLease(s, r)
            && SaidOnce(s, r, 3, env)
            && Field(r.log.last.opts, 50) == Some(Bytes32(cfg.address))
            && Field(r.log.last.opts, 54) == Some(Bytes32(cfg.server))
            && Within(s.p.width, env.now, r.toEvent, 3_001_000, 5_000_000)
  {
    var o := s.(offered := cfg);
    var c := ChangeState(o, Requesting, env);
    Changing(o, Requesting, env);
    Says(c, env);
    Wire.WayOut(c, env);
    OutgoingConforms(c.(xid := env.xid % 0x1_0000_0000));
    BackoffRetries(s.p.width, env.now, 1, env.backoff);
    RetrySeconds(s.p.width, env.now, Backoff(s.p.width, env.now, 1, env.backoff));
  }

  // ----- an ACK -----

  /**
   * An ACK answers a request: from REQUESTING the address is checked first, if
   * that is wanted, by an ARP question from nobody, with an answer awaited for
   * half a second; in every other case what it carries is in force at once,
   * until T1.
   */
  lemma AckTaken(s: Client, m: DhcpReply, env: Env)
    requires Reachable(s) && Enabled(s, Input(Dhcp(Some(m)), env))
    requires s.state == Requesting || s.state == Renewing || s.state == Rebinding || s.state == InitReboot
    requires ForUs(s, m) && m.cfg.msgType == 5
    ensures var r := RecvDhcp(s, Some(m), env); var cfg := m.cfg.(recvtime := env.now);
            && r.offered == cfg && Messages(r.log) == Messages(s.log)
            && (r.state == ArpCheck <==> s.state == Requesting && s.p.arpcheck != 0)
            && (r.state == ArpCheck ==>
                  SameLease(s, r) && AskedOnce(s, r, 0, cfg.address, None) && r.cnt == 0
                  && Within(s.p.width, env.now, r.toEvent, 500_000, 500_000))
            && (r.state != ArpCheck ==> r.state == Bound && r.current == cfg && HasLease(r) && r.toEvent == r.t1)
  {
    ReachableInv(s);
    InvSplit(s);
    var cfg := m.cfg.(recvtime := env.now);
    var n := s.Note(Received(m.xid, m.chaddr, cfg));
    var o := n.(offered := cfg);
    Heeds(s, m, env, n);
    if s.state == Requesting && s.p.arpcheck != 0 {
      ChecksFirst(o, env);
    } else {
      BindsAtOnce(o, env);
    }
  }

  lemma Heeds(s: Client, m: DhcpReply, env: Env, n: Client)
    requires ForUs(s, m) && Awaiting(s) && m.cfg.msgType == 5
    requires n == s.Note(Received(m.xid, m.chaddr, m.cfg.(recvtime := env.now)))
    ensures var o := n.(offered := m.cfg.(recvtime := env.now));
            RecvDhcp(s, Some(m), env) ==
              if s.p.arpcheck != 0 && s.state == Requesting then CheckAddress(o, env) else BindOffered(o, env)
  {
  }

  lemma ChecksFirst(o: Client, env: Env)
    requires Descriptors(o) && 0 <= o.sockRaw && o.state == Requesting && Clock(o.p.width, env.now)
    ensures var r := CheckAddress(o, env);
            && r.state == ArpCheck && r.offered == o.offered && r.cnt == 0
            && SameLease(o, r) && AskedOnce(o, r, 0, o.offered.address, None)
            && Within(o.p.width, env.now, r.toEvent, 500_000, 500_000)
  {
    Changing(o, ArpCheck, env);
    HalfASecond(o.p.width, env.now);
  }

  lemma BindsAtOnce(o: Client, env: Env)
    requires MayChange(o, env) && o.state != Bound && Clock(o.p.width, o.offered.recvtime)
    ensures var r := BindOffered(o, env);
            && r.state == Bound && r.offered == r.current == o.offered && HasLease(r) && r.toEvent == r.t1
            && Messages(r.log) == Messages(o.log)
  {
    BecomingBound(o, env);
  }

  // ----- the default route -----

  /** How often a default route was set. */
  function Routes(l: Log): nat {
    match l
    case NoEvents => 0
    case Snoc(past, e) => Routes(past) + if e.Routed? then 1 else 0
  }

  /**
   * Binding sets a route exactly if routes and addresses are to be set, there
   * is a gateway and address, mask, broadcast or gateway differ from what was in
   * force.
   */
  lemma RouteSet(s: Client, env: Env)
    ensures var c, o := s.current, s.offered;
            Routes(BindOffered(s, env).log) == Routes(s.log)
              + if s.p.setAddr && s.p.setGateway && o.gateway != 0
                   && (c.address != o.address || c.netmask != o.netmask || c.broadcast != o.broadcast
                       || c.gateway != o.gateway)
                then 1 else 0
  {
    EnterRoutes(if s.sockRaw == -1 then OpenSockets(s, env) else s, env);
  }

  lemma EnterRoutes(s: Client, env: Env)
    ensures var c, o := s.current, s.offered;
            Routes(EnterBound(s, env).log) == Routes(s.log)
              + if s.p.setAddr && s.p.setGateway && o.gateway != 0
                   && (c.address != o.address || c.netmask != o.netmask || c.broadcast != o.broadcast
                       || c.gateway != o.gateway)
                then 1 else 0
  {
    var a := Adopt(s, env);
    assert a.log == Snoc(s.log, BoundTo(s.offered)) && a.current == s.offered;
    var c := ConfigureInterface(a, Changed(s.current, s.offered));
    var g := LearnGateway(c);
    assert Routes(g.log) == Routes(c.log);
  }

  // ----- the helper script -----

  /** Every state but REBOOTING is announced to the helper script when it is entered, after all that entering it does. */
  lemma ScriptTold(s: Client, to: State, env: Env)
    requires to != Rebooting
    ensures var r := ChangeState(s, to, env); r.state == to && r.log.Snoc? && r.log.last == Script(to)
  {
  }

  // ----- messages that change nothing -----

  /** A message for someone else is not even noted; one for us that the state does not wait for is noted only. */
  lemma OthersIgnored(s: Client, m: DhcpReply, env: Env)
    ensures RecvDhcp(s, None, env) == s
    ensures !ForUs(s, m) ==> RecvDhcp(s, Some(m), env) == s
    ensures ForUs(s, m)
            && !(s.state == Init && m.cfg.msgType == 2)
            && !((s.state == Requesting || s.state == Renewing || s.state == Rebinding || s.state == InitReboot)
                 && (m.cfg.msgType == 5 || m.cfg.msgType == 6))
            ==> RecvDhcp(s, Some(m), env) == s.Note(Received(m.xid, m.chaddr, m.cfg.(recvtime := env.now)))
  {
  }

  // ----- ARP replies -----

  /**
   * In BOUND the gateway's answer to this host teaches its hardware address
   * and closes both sockets; nothing else in force changes.
   */
  lemma GatewayTeaches(s: Client, a: Arp.Reply, toHost: bool, env: Env)
    requires Reachable(s) && s.state == Bound
    requires a.senderIp == s.current.gateway && a.targetIp == s.current.address && a.targetMac == s.p.hwaddr
    ensures var r := RecvArp(s, Some(a), toHost, env);
            && r.defgw == a.senderMac && r.sockUdp == r.sockRaw == -1 && r.fds == {}
            && r == s.(defgw := r.defgw, sockUdp := -1, sockRaw := -1, fds := {}, log := Snoc(s.log, Heard(a, toHost)))
  {
    ReachableInv(s);
    ClosingFreesAll(s);
  }

  /** Any other reply is noted only, but for the two states that wait for one. */
  lemma RepliesIgnored(s: Client, a: Arp.Reply, toHost: bool, env: Env)
    requires s.state != ArpCheckGateway
    requires s.state == Bound ==>
               !(a.senderIp == s.current.gateway && a.targetIp == s.current.address && a.targetMac == s.p.hwaddr)
    requires s.state == ArpCheck ==> !(toHost && a.senderIp == s.offered.address)
    ensures RecvArp(s, Some(a), toHost, env) == s.Note(Heard(a, toHost))
  {
  }

  // ----- timeouts -----

  /** Leaving REBOOTING: a second's pause, nothing sent, nothing held. */
  lemma RebootingWakes(s: Client, env: Env)
    requires Reachable(s) && EnvOk(s, env) && s.state == Rebooting && !Before(env.now, s.toEvent)
    ensures var r := HandleTimeout(s, env);
            && r.state == Init && r.cnt == 0 && Nothing(r) && Messages(r.log) == Messages(s.log)
            && Within(s.p.width, env.now, r.toEvent, 1_000_000, 1_000_000)
  {
    ReachableInv(s);
    InvSplit(s);
    var w := InSeconds(s, env.now, 1);
    ChangingToInit(w, env);
    if env.now.sec + 66 <= MaxSec(s.p.width) { WrapIdentity(s.p.width, env.now.sec + 1); }
  }

  /** INIT: a DISCOVER, and the next after the window of one more retry. */
  lemma InitDiscovers(s: Client, env: Env)
    requires Reachable(s) && EnvOk(s, env) && s.state == Init && !Before(env.now, s.toEvent)
    ensures var r := HandleTimeout(s, env);
            && r.state == Init && r.cnt == s.cnt + 1 && SaidOnce(s, r, 1, env) && SameLease(s, r)
            && Retries(s.p.width, env.now, r.toEvent, s.cnt + 1)
  {
    ReachableInv(s);
    InvSplit(s);
    Says(s, env);
    BackoffRetries(s.p.width, env.now, s.cnt + 1, env.backoff);
  }

  /** REQUESTING: the request again, up to three times, then INIT with a pause of about four seconds. */
  lemma RequestingAsks(s: Client, env: Env)
    requires Reachable(s) && EnvOk(s, env) && s.state == Requesting && !Before(env.now, s.toEvent)
    ensures var r := HandleTimeout(s, env);
            if s.cnt < 3 then
              && r.state == Requesting && r.cnt == s.cnt + 1 && SaidOnce(s, r, 3, env) && SameLease(s, r)
              && r.offered == s.offered && Retries(s.p.width, env.now, r.toEvent, s.cnt + 1)
            else
              && r.state == Init && Nothing(r) && Messages(r.log) == Messages(s.log)
              && Within(s.p.width, env.now, r.toEvent, 3_001_000, 5_000_000)
  {
    ReachableInv(s);
    InvSplit(s);
    if s.cnt < 3 {
      Says(s, env);
      BackoffRetries(s.p.width, env.now, s.cnt + 1, env.backoff);
    } else {
      ChangingToInit(s, env);
      BackoffRetries(s.p.width, env.now, 1, env.backoff);
      RetrySeconds(s.p.width, env.now, Backoff(s.p.width, env.now, 1, env.backoff));
    }
  }

  /** ARP_CHECK: the question again every half second, and with the last unanswered the address is in force. */
  lemma ArpCheckAsks(s: Client, env: Env)
    requires Reachable(s) && EnvOk(s, env) && s.state == ArpCheck && !Before(env.now, s.toEvent)
    ensures var r := HandleTimeout(s, env);
            && r.offered == s.offered && Messages(r.log) == Messages(s.log)
            && if s.cnt + 1 < s.p.arpcheck then
                 && r.state == ArpCheck && r.cnt == s.cnt + 1 && SameLease(s, r)
                 && AskedOnce(s, r, 0, s.offered.address, None)
                 && Within(s.p.width, env.now, r.toEvent, 500_000, 500_000)
               else r.state == Bound && r.current == s.offered && HasLease(r) && r.toEvent == r.t1
  {
    ReachableInv(s);
    InvSplit(s);
    if s.cnt + 1 < s.p.arpcheck {
      HalfASecond(s.p.width, env.now);
    } else {
      BindsAtOnce(Bump(s), env);
    }
  }

  /**
   * ARP_CHECK_GATEWAY: the gateway is asked again every half second at the
   * address learned, and with the last unanswered the server is asked for the
   * address held.
   */
  lemma GatewayCheckAsks(s: Client, env: Env)
    requires Reachable(s) && EnvOk(s, env) && s.state == ArpCheckGateway && !Before(env.now, s.toEvent)
    ensures var r := HandleTimeout(s, env);
            && SameLease(s, r)
            && if s.cnt + 1 < s.p.arpcheckGateway then
                 && r.state == ArpCheckGateway && r.cnt == s.cnt + 1
                 && AskedOnce(s, r, s.current.address, s.current.gateway, Some(s.defgw))
                 && Within(s.p.width, env.now, r.toEvent, 500_000, 500_000)
               else
                 && r.state == InitReboot && r.cnt == 1 && SaidOnce(s, r, 3, env)
                 && Field(r.log.last.opts, 50) == Some(Bytes32(s.current.address))
                 && Within(s.p.width, env.now, r.toEvent, 3_001_000, 5_000_000)
  {
    ReachableInv(s);
    InvSplit(s);
    var b := Bump(s);
    if s.cnt + 1 < s.p.arpcheckGateway {
      HalfASecond(s.p.width, env.now);
    } else {
      RebootSays(b, env);
      BackoffRetries(s.p.width, env.now, 1, env.backoff);
      RetrySeconds(s.p.width, env.now, Backoff(s.p.width, env.now, 1, env.backoff));
    }
  }

  /** Entering INIT_REBOOT with an address held: the server is asked for that address. */
  lemma RebootSays(s: Client, env: Env)
    requires MayChange(s, env) && s.state != InitReboot && s.current.address == s.offered.address
    ensures var r := SendMessage(ChangeState(s, InitReboot, env), env);
            && r.state == InitReboot && r.cnt == 0 && SameLease(s, r) && SaidOnce(s, r, 3, env) && r.p == s.p
            && Field(r.log.last.opts, 50) == Some(Bytes32(s.current.address))
  {
    var c := ChangeState(s, InitReboot, env);
    Changing(s, InitReboot, env);
    Says(c, env);
    Wire.WayOut(c, env);
    OutgoingConforms(c.(xid := env.xid % 0x1_0000_0000));
  }

  /** INIT_REBOOT: the request once more, then INIT without it. */
  lemma InitRebootAsks(s: Client, env: Env)
    requires Reachable(s) && EnvOk(s, env) && s.state == InitReboot && !Before(env.now, s.toEvent)
    ensures var r := HandleTimeout(s, env);
            if s.cnt == 0 then
              && r.state == InitReboot && r.cnt == 1 && SaidOnce(s, r, 3, env) && SameLease(s, r)
              && Within(s.p.width, env.now, r.toEvent, 3_001_000, 5_000_000)
            else r.state == Init && Nothing(r) && Messages(r.log) == Messages(s.log)
  {
    ReachableInv(s);
    InvSplit(s);
    if s.cnt == 0 {
      Says(s, env);
      BackoffRetries(s.p.width, env.now, 1, env.backoff);
      RetrySeconds(s.p.width, env.now, Backoff(s.p.width, env.now, 1, env.backoff));
    } else {
      ChangingToInit(s, env);
    }
  }

  /** Half of what is left to the deadline, at least a minute, or the deadline itself when less than 66 s are left. */
  predicate HalfWay(now: TimeVal, deadline: TimeVal, t: TimeVal) {
    var left := Micros(deadline) - Micros(now);
    if left < 66_000_000 then t == deadline
    else Micros(t) - Micros(now) == if left / 2 < 60_000_000 then 60_000_000 else left / 2
  }

  lemma MiddleIsHalfWay(w: Width, now: TimeVal, to: TimeVal)
    requires Clock(w, now) && InRange(w, to) && Before(now, to)
    ensures HalfWay(now, to, BackoffMiddle(w, now, to))
  {
    BackoffMiddleBounds(w, now, to);
  }

  /** Between T1 and T2 the server is asked to renew, between T2 and the end of the lease anyone is. */
  lemma RenewalAsks(s: Client, env: Env)
    requires Reachable(s) && EnvOk(s, env) && Keeping(s) && !Before(env.now, s.toEvent)
    requires Before(env.now, s.lease)
    ensures var r := HandleTimeout(s, env);
            && SaidOnce(s, r, 3, env) && SameLease(s, r) && r.log.last.ciaddr == s.current.address
            && if s.state != Rebinding && Before(env.now, s.t2) then
                 r.state == Renewing && HalfWay(env.now, s.t2, r.toEvent)
               else r.state == Rebinding && HalfWay(env.now, s.lease, r.toEvent)
  {
    ReachableInv(s);
    InvSplit(s);
    match s.state {
      case Bound => BoundAsks(s, env);
      case Renewing => RenewingAsks(s, env);
      case Rebinding => RebindingAsks(s, env);
    }
  }

  /** What a request of RENEWING or REBINDING looks like. */
  predicate AskedToKeep(s: Client, r: Client, env: Env) {
    SaidOnce(s, r, 3, env) && SameLease(s, r) && r.log.last.ciaddr == s.current.address
  }

  lemma RebindingAsks(s: Client, env: Env)
    requires Descriptors(s) && 0 <= s.sockRaw && s.state == Rebinding
    requires Clock(s.p.width, env.now) && InRange(s.p.width, s.lease) && Before(env.now, s.lease)
    ensures var r := TimeoutRebinding(s, env);
            AskedToKeep(s, r, env) && r.state == Rebinding && HalfWay(env.now, s.lease, r.toEvent)
  {
    Says(s, env);
    Wire.WayOut(s, env);
    Wire.MessageOfState(s);
    MiddleIsHalfWay(s.p.width, env.now, s.lease);
  }

  lemma RenewingAsks(s: Client, env: Env)
    requires Descriptors(s) && 0 <= s.sockRaw && s.state == Renewing
    requires Clock(s.p.width, env.now) && InRange(s.p.width, s.lease) && InRange(s.p.width, s.t2) && Before(env.now, s.lease)
    ensures var r := TimeoutRenewing(s, env);
            && AskedToKeep(s, r, env)
            && if Before(env.now, s.t2) then r.state == Renewing && HalfWay(env.now, s.t2, r.toEvent)
               else r.state == Rebinding && HalfWay(env.now, s.lease, r.toEvent)
  {
    if Before(env.now, s.t2) {
      Says(s, env);
      Wire.WayOut(s, env);
      Wire.MessageOfState(s);
      MiddleIsHalfWay(s.p.width, env.now, s.t2);
    } else {
      Changing(s, Rebinding, env);
      RebindingAsks(ChangeState(s, Rebinding, env), env);
    }
  }

  lemma BoundAsks(s: Client, env: Env)
    requires MayChange(s, env) && s.state == Bound && !Before(env.now, s.t1)
    requires Clock(s.p.width, env.now) && InRange(s.p.width, s.lease) && InRange(s.p.width, s.t2) && Before(env.now, s.lease)
    ensures var r := TimeoutBound(s, env);
            && AskedToKeep(s, r, env)
            && if Before(env.now, s.t2) then r.state == Renewing && HalfWay(env.now, s.t2, r.toEvent)
               else r.state == Rebinding && HalfWay(env.now, s.lease, r.toEvent)
  {
    Changing(s, Renewing, env);
    RenewingAsks(ChangeState(s, Renewing, env), env);
  }

  // ----- link and SIGHUP -----

  /** When the known gateway is asked instead of the server: within 60 seconds of losing the link in BOUND, before T1. */
  predicate Recent(s: Client, now: TimeVal) {
    && s.p.arpcheckGateway != 0 && s.current.gateway != 0 && s.defgw[0] != 255
    && Micros(now) < Micros(s.t1) && now.sec - s.tBoundDown.sec < 60
  }

  /** The link is back. */
  lemma LinkReturns(s: Client, env: Env)
    requires Reachable(s) && EnvOk(s, env)
    ensures s.state != OperDown ==> OperState(s, true, env) == s
    ensures var r := OperState(s, true, env);
            s.state == OperDown && HasLease(s) ==>
              && SameLease(s, r) && r.cnt == 0
              && (r.state == ArpCheckGateway <==> Recent(s, env.now))
              && (Recent(s, env.now) ==>
                    AskedOnce(s, r, s.current.address, s.current.gateway, Some(s.defgw))
                    && Within(s.p.width, env.now, r.toEvent, 500_000, 500_000))
              && (!Recent(s, env.now) ==>
                    r.state == InitReboot && SaidOnce(s, r, 3, env)
                    && Field(r.log.last.opts, 50) == Some(Bytes32(s.current.address))
                    && Within(s.p.width, env.now, r.toEvent, 1_001_000, 3_000_000))
    ensures var r := OperState(s, true, env);
            s.state == OperDown && !HasLease(s) ==>
              && r.state == Init && Nothing(r) && r.cnt == 0 && SaidOnce(s, r, 1, env)
              && Within(s.p.width, env.now, r.toEvent, 1_001_000, 3_000_000)
  {
    if s.state == OperDown {
      ReachableInv(s);
      InvSplit(s);
      BeforeIsMicros(env.now, s.t1);
      if !HasLease(s) {
        StartsOver(s, env);
      } else if Recent(s, env.now) {
        VerifiesGateway(s, env);
      } else {
        AsksServer(s, env);
      }
    }
  }

  lemma VerifiesGateway(s: Client, env: Env)
    requires MayChange(s, env) && s.state == OperDown && Clock(s.p.width, env.now)
    ensures var r := VerifyGateway(s, env);
            && SameLease(s, r) && r.cnt == 0 && r.state == ArpCheckGateway
            && AskedOnce(s, r, s.current.address, s.current.gateway, Some(s.defgw))
            && Within(s.p.width, env.now, r.toEvent, 500_000, 500_000)
  {
    Changing(s, ArpCheckGateway, env);
    HalfASecond(s.p.width, env.now);
  }

  lemma AsksServer(s: Client, env: Env)
    requires MayChange(s, env) && s.state != InitReboot && Clock(s.p.width, env.now)
    requires s.current.address == s.offered.address
    ensures var r := Reboot(s, env);
            && SameLease(s, r) && r.cnt == 0 && r.state == InitReboot && SaidOnce(s, r, 3, env)
            && Field(r.log.last.opts, 50) == Some(Bytes32(s.current.address))
            && Within(s.p.width, env.now, r.toEvent, 1_001_000, 3_000_000)
  {
    RebootSays(s, env);
    BackoffRetries(s.p.width, env.now, 0, env.backoff);
    RetrySeconds(s.p.width, env.now, Backoff(s.p.width, env.now, 0, env.backoff));
  }

  lemma StartsOver(s: Client, env: Env)
    requires MayChange(s, env) && s.state != Init && Clock(s.p.width, env.now)
    ensures var r := StartOver(s, env);
            && r.state == Init && Nothing(r) && r.cnt == 0 && SaidOnce(s, r, 1, env)
            && Within(s.p.width, env.now, r.toEvent, 1_001_000, 3_000_000)
  {
    var o := s.(toEvent := env.now);
    ChangingToInit(o, env);
    Says(ChangeState(o, Init, env), env);
    BackoffRetries(s.p.width, env.now, 0, env.backoff);
    RetrySeconds(s.p.width, env.now, Backoff(s.p.width, env.now, 0, env.backoff));
  }

  /** The link is lost: nothing is sent and nothing given up, and from BOUND the moment is kept. */
  lemma LinkGoes(s: Client, env: Env)
    requires Reachable(s) && EnvOk(s, env)
    ensures s.state == OperDown ==> OperState(s, false, env) == s
    ensures var r := OperState(s, false, env);
            s.state != OperDown ==>
              && r.state == OperDown && SameLease(s, r) && r.defgw == s.defgw && Messages(r.log) == Messages(s.log)
              && r.offered == s.offered && r.p == s.p
              && r.tBoundDown == if s.state == Bound then env.now else s.tBoundDown
  {
    if s.state != OperDown {
      ReachableInv(s);
      InvSplit(s);
      Changing(if s.state == Bound then s.(tBoundDown := env.now) else s, OperDown, env);
    }
  }

  /** SIGHUP: the server is asked for the address in force, in the three states that use one; the lease stays. */
  lemma HangupAsks(s: Client, env: Env)
    requires Reachable(s) && EnvOk(s, env)
    ensures var r := Hangup(s, env);
            if Keeping(s) then
              && r.state == InitReboot && r.cnt == 0 && SameLease(s, r) && SaidOnce(s, r, 3, env)
              && Field(r.log.last.opts, 50) == Some(Bytes32(s.current.address))
              && Within(s.p.width, env.now, r.toEvent, 1_001_000, 3_000_000)
            else r == s
  {
    if Keeping(s) {
      ReachableInv(s);
      InvSplit(s);
      AsksServer(s, env);
    }
  }

  /**
   * A link lost in BOUND and back after any events in between: the gateway is
   * asked if and only if that is wanted and possible, T1 has not come and the
   * link was away for less than 60 seconds; otherwise the server is.
   */
  lemma ShortLoss(s: Client, down: Env, inputs: seq<Input>, up: Env)
    requires Reachable(s) && s.state == Bound && EnvOk(s, down)
    requires ValidRun(OperState(s, false, down), inputs)
    requires forall k :: 0 <= k < |inputs| ==> inputs[k].step != LinkState(true)
    requires EnvOk(Run(OperState(s, false, down), inputs), up)
    ensures var r := OperState(Run(OperState(s, false, down), inputs), true, up);
            && SameLease(s, r)
            && (r.state == ArpCheckGateway <==>
                  s.p.arpcheckGateway != 0 && s.current.gateway != 0 && s.defgw[0] != 255
                  && Micros(up.now) < Micros(s.t1) && up.now.sec - down.now.sec < 60)
            && (r.state != ArpCheckGateway ==> r.state == InitReboot)
  {
    var d := OperState(s, false, down);
    LinkGoes(s, down);
    StepIsReachable(s, Input(LinkState(false), down));
    Overstay.DownKeepsHolding(d, inputs);
    RunIsReachable(d, inputs);
    LeaseMeansAgreement(s);
    LinkReturns(Run(d, inputs), up);
  }
}
