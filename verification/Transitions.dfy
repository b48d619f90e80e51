/** Which states can follow which, by which event: figure 5 of RFC 2131 with the client's own states. */
module Transitions {
  import opened Bytes
  import opened Time
  import opened Protocol
  import opened Config
  import Arp

  predicate ByTimeout(from: State, to: State) {
    from == to || match from
      case Rebooting | Rebinding | InitReboot | Requesting => to == Init
      case ArpCheckGateway => to == InitReboot
      case ArpCheck => to == Bound
      case Bound => to == Renewing || to == Rebinding || to == Init
      case Renewing => to == Rebinding || to == Init
      case _ => false
  }

  predicate ByDhcp(from: State, to: State) {
    from == to || match from
      case Init => to == Requesting
      case Requesting => to == ArpCheck || to == Bound || to == Init
      case Renewing | Rebinding | InitReboot => to == Bound || to == Init
      case _ => false
  }

  predicate ByArp(from: State, to: State) {
    from == to || (from == ArpCheck && to == Init) || (from == ArpCheckGateway && to == Bound)
  }

  predicate ByLink(from: State, to: State, up: bool) {
    if !up then to == OperDown
    else if from == OperDown then to == ArpCheckGateway || to == InitReboot || to == Init
    else to == from
  }

  predicate ByHangup(from: State, to: State) {
    if from == Bound || from == Renewing || from == Rebinding then to == InitReboot else to == from
  }

  predicate MayFollow(from: State, step: Step, to: State) {
    match step
    case Timeout => ByTimeout(from, to)
    case Dhcp(_) => ByDhcp(from, to)
    case ArpFrame(_, _) => ByArp(from, to)
    case LinkState(up) => ByLink(from, to, up)
    case SigHup => ByHangup(from, to)
  }

  lemma Entered(s: Client, to: State, env: Env)
    ensures ChangeState(s, to, env).state == to && ChangeState(s, to, env).p == s.p
  {
  }

  lemma SendStays(s: Client, env: Env)
    ensures SendMessage(s, env).state == s.state && SendMessage(s, env).p == s.p
  {
  }

  lemma RebindingMoves(s: Client, env: Env)
    requires s.state == Rebinding
    ensures TimeoutRebinding(s, env).state == if Before(env.now, s.lease) then Rebinding else Init
    ensures TimeoutRebinding(s, env).p == s.p
  {
    Entered(s, Init, env);
    SendStays(ChangeState(s, Init, env), env);
    SendStays(s, env);
  }

  lemma RenewingMoves(s: Client, env: Env)
    requires s.state == Renewing
    ensures var to := TimeoutRenewing(s, env).state;
            if Before(env.now, s.t2) then to == Renewing else to == Rebinding || to == Init
    ensures TimeoutRenewing(s, env).p == s.p
  {
    Entered(s, Rebinding, env);
    RebindingMoves(ChangeState(s, Rebinding, env), env);
    SendStays(s, env);
  }

  lemma TimeoutMoves(s: Client, env: Env)
    ensures ByTimeout(s.state, HandleTimeout(s, env).state) && HandleTimeout(s, env).p == s.p
  {
    match s.state {
      case Rebooting => Entered(InSeconds(s, env.now, 1), Init, env);
      case Init => SendStays(s, env);
      case ArpCheckGateway =>
        Entered(Bump(s), InitReboot, env);
        SendStays(ChangeState(Bump(s), InitReboot, env), env);
      case InitReboot | Requesting => Entered(s, Init, env); SendStays(s, env);
      case ArpCheck => Entered(Bump(s), Bound, env);
      case Bound =>
        Entered(s, Renewing, env);
        RenewingMoves(ChangeState(s, Renewing, env), env);
      case Renewing => RenewingMoves(s, env);
      case Rebinding => RebindingMoves(s, env);
      case _ =>
    }
  }

  lemma OfferMoves(s: Client, cfg: Config, env: Env)
    ensures AcceptOffer(s, cfg, env).state == Requesting
  {
    var o := s.(offered := cfg);
    Entered(o, Requesting, env);
    SendStays(ChangeState(o, Requesting, env), env);
  }

  lemma AnswerMoves(s: Client, cfg: Config, env: Env)
    ensures var to := Answered(s, cfg, env).state;
            to == s.state || to == Bound || to == Init || (to == ArpCheck && s.state == Requesting)
  {
    Entered(s, Init, env);
    Entered(s.(offered := cfg), ArpCheck, env);
    Entered(s.(offered := cfg), Bound, env);
  }

  lemma DhcpMoves(s: Client, reply: Option<DhcpReply>, env: Env)
    ensures ByDhcp(s.state, RecvDhcp(s, reply, env).state)
  {
    if reply.Some? {
      var cfg := reply.value.cfg.(recvtime := env.now);
      var r := s.Note(Received(reply.value.xid, reply.value.chaddr, cfg));
      OfferMoves(r, cfg, env);
      AnswerMoves(r, cfg, env);
    }
  }

  lemma ArpMoves(s: Client, reply: Option<Arp.Reply>, toHost: bool, env: Env)
    ensures ByArp(s.state, RecvArp(s, reply, toHost, env).state)
  {
    Entered(s, Bound, env);
    Entered(SendMessage(ChangeState(s, Declining, env), env), Init, env);
  }

  lemma UpMoves(s: Client, env: Env)
    ensures VerifyGateway(s, env).state == ArpCheckGateway && Reboot(s, env).state == InitReboot
    ensures StartOver(s, env).state == Init
  {
    Entered(s, ArpCheckGateway, env);
    Entered(s, InitReboot, env);
    SendStays(ChangeState(s, InitReboot, env), env);
    Entered(s.(toEvent := env.now), Init, env);
    SendStays(ChangeState(s.(toEvent := env.now), Init, env), env);
  }

  lemma LinkMoves(s: Client, up: bool, env: Env)
    ensures ByLink(s.state, OperState(s, up, env).state, up)
  {
    UpMoves(s, env);
    Entered(if s.state == Bound then s.(tBoundDown := env.now) else s, OperDown, env);
  }

  /** No event, of any contents and at any time, moves the client but along these edges. */
  lemma TakeMoves(s: Client, i: Input)
    ensures MayFollow(s.state, i.step, Take(s, i).state)
  {
    match i.step {
      case Timeout => TimeoutMoves(s, i.env);
      case Dhcp(reply) => DhcpMoves(s, reply, i.env);
      case ArpFrame(arp, toHost) => ArpMoves(s, arp, toHost, i.env);
      case LinkState(up) => LinkMoves(s, up, i.env);
      case SigHup => UpMoves(s, i.env);
    }
  }
}
