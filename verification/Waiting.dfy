/** What the client says while it waits: after a decline it is silent for ten seconds unless it is roused. */
module Waiting {
  import opened Bytes
  import opened Time
  import opened Config
  import opened Protocol
  import opened Invariant
  import opened Effects
  import opened Handlers
  import opened Runs
  import Options
  import Arp

  /** Nothing is held and nothing is due before the deadline. */
  predicate Idle(s: Client, deadline: TimeVal) {
    !HasLease(s) && (s.state == OperDown || (s.state == Init && s.toEvent == deadline))
  }

  /** An OFFER that answers the message last sent, or a link that comes back. */
  predicate Rouses(s: Client, i: Input) {
    || (s.state == Init && i.step.Dhcp? && i.step.reply.Some? && MeantForUs(s, i.step.reply.value)
        && i.step.reply.value.cfg.msgType == OFFER)
    || (s.state == OperDown && i.step == LinkState(true))
  }

  lemma EntryLogged(s: Client, to: State, env: Env)
    requires to != Bound && to != Rebooting
    ensures var r := ChangeState(s, to, env); r.state == to && r.log == Snoc(s.log, Script(to))
  {
  }

  lemma SendLogged(s: Client, env: Env)
    requires s.state == Init || s.state == Requesting
    ensures Messages(SendMessage(s, env).log) == Messages(s.log) + 1
  {
  }

  lemma OfferRouses(s: Client, cfg: Config, env: Env)
    ensures Messages(AcceptOffer(s, cfg, env).log) == Messages(s.log) + 1
  {
    var o := s.(offered := cfg);
    EntryLogged(o, Requesting, env);
    SendLogged(ChangeState(o, Requesting, env), env);
  }

  lemma LinkRouses(s: Client, env: Env)
    ensures Messages(StartOver(s, env).log) == Messages(s.log) + 1
  {
    var o := s.(toEvent := env.now);
    EntryLogged(o, Init, env);
    SendLogged(ChangeState(o, Init, env), env);
  }

  lemma LinkLost(s: Client, env: Env)
    requires s.state == Init && !HasLease(s)
    ensures var r := OperState(s, false, env); r.state == OperDown && !HasLease(r) && Messages(r.log) == Messages(s.log)
  {
    EntryLogged(s, OperDown, env);
  }

  lemma DhcpStep(s: Client, reply: Option<DhcpReply>, env: Env, deadline: TimeVal)
    requires Idle(s, deadline)
    ensures var i := Input(Dhcp(reply), env);
            && Messages(RecvDhcp(s, reply, env).log) == Messages(s.log) + (if Rouses(s, i) then 1 else 0)
            && (!Rouses(s, i) ==> Idle(RecvDhcp(s, reply, env), deadline))
  {
    if s.state == Init && reply.Some? && MeantForUs(s, reply.value) {
      var cfg := reply.value.cfg.(recvtime := env.now);
      OfferRouses(s.Note(Received(reply.value.xid, reply.value.chaddr, cfg)), cfg, env);
    }
  }

  lemma LinkStep(s: Client, up: bool, env: Env, deadline: TimeVal)
    requires Idle(s, deadline)
    ensures var i := Input(LinkState(up), env);
            && Messages(OperState(s, up, env).log) == Messages(s.log) + (if Rouses(s, i) then 1 else 0)
            && (!Rouses(s, i) ==> Idle(OperState(s, up, env), deadline))
  {
    if up {
      LinkRouses(s, env);
    } else if s.state == Init {
      LinkLost(s, env);
    }
  }

  /** Before the deadline a message is sent if and only if the client is roused; otherwise it goes on waiting. */
  lemma IdleStep(s: Client, i: Input, deadline: TimeVal)
    requires Idle(s, deadline) && Before(i.env.now, deadline)
    ensures Messages(Take(s, i).log) == Messages(s.log) + if Rouses(s, i) then 1 else 0
    ensures !Rouses(s, i) ==> Idle(Take(s, i), deadline)
  {
    match i.step {
      case Dhcp(reply) => DhcpStep(s, reply, i.env, deadline);
      case LinkState(up) => LinkStep(s, up, i.env, deadline);
      case ArpFrame(arp, toHost) => assert Take(s, i) == s.(log := Take(s, i).log);
      case _ =>
    }
  }

  /** Events before the deadline none of which rouses the client. */
  predicate Undisturbed(s: Client, inputs: seq<Input>, deadline: TimeVal)
    decreases |inputs|
  {
    inputs == [] ||
    (Before(inputs[0].env.now, deadline) && !Rouses(s, inputs[0])
     && Undisturbed(Take(s, inputs[0]), inputs[1..], deadline))
  }

  lemma {:induction false} Silence(s: Client, inputs: seq<Input>, deadline: TimeVal)
    requires Idle(s, deadline) && Undisturbed(s, inputs, deadline)
    ensures Idle(Run(s, inputs), deadline) && Messages(Run(s, inputs).log) == Messages(s.log)
    decreases |inputs|
  {
    if inputs != [] {
      IdleStep(s, inputs[0], deadline);
      Silence(Take(s, inputs[0]), inputs[1..], deadline);
    }
  }

  /** Undisturbed until then, the client sends before the deadline if and only if it is roused. */
  lemma SilentUntilRoused(s: Client, inputs: seq<Input>, next: Input, deadline: TimeVal)
    requires Idle(s, deadline) && Undisturbed(s, inputs, deadline) && Before(next.env.now, deadline)
    ensures var q := Run(s, inputs);
            && Messages(q.log) == Messages(s.log)
            && Messages(Take(q, next).log) == Messages(q.log) + if Rouses(q, next) then 1 else 0
  {
    Silence(s, inputs, deadline);
    IdleStep(Run(s, inputs), next, deadline);
  }

  /** The DECLINE itself, naming address and server. */
  lemma DeclineSent(s: Client, env: Env, d: Client)
    requires Descriptors(s) && 0 <= s.sockRaw && s.state == ArpCheck
    requires d == SendMessage(ChangeState(s, Declining, env), env)
    ensures Descriptors(d) && 0 <= d.sockRaw && d.state == Declining && d.p == s.p
    ensures Messages(d.log) == Messages(s.log) + 1
    ensures d.log.Snoc? && d.log.past == Snoc(s.log, Script(Declining))
    ensures d.log.last.Sent? && d.log.last.msgType == DECLINE
            && Asks(d.log.last.opts, Some(s.offered.address), Some(s.offered.server))
  {
    Changing(s, Declining, env);
    EntryLogged(s, Declining, env);
    Sending(ChangeState(s, Declining, env), env);
    DeclineNamesBoth(ChangeState(s, Declining, env), env);
  }

  lemma DeclineNamesBoth(d: Client, env: Env)
    requires d.state == Declining
    ensures var l := SendMessage(d, env).log;
            && l.Snoc? && l.past == d.log && l.last.Sent? && l.last.msgType == DECLINE
            && Asks(l.last.opts, Some(d.offered.address), Some(d.offered.server))
  {
    ComposeAsks(d, DECLINE, 0, [Word32(Options.REQADDR, d.offered.address), Word32(Options.SERVER, d.offered.server)], 0);
    FieldsOfExtra(d.offered.address, d.offered.server);
  }

  /**
   * RFC 2131 section 3.1: when the address acknowledged is found in use, the
   * client tells the server with one DHCPDECLINE naming both and falls back to
   * INIT with a timeout ten seconds ahead, if and only if time_t reaches that far.
   */
  lemma Declines(s: Client, a: Arp.Reply, env: Env, r: Client)
    requires Reachable(s) && EnvOk(s, env) && s.state == ArpCheck && a.senderIp == s.offered.address
    requires r == RecvArp(s, Some(a), true, env)
    ensures Idle(r, r.toEvent) && r.state == Init
    ensures Micros(r.toEvent) == Micros(env.now) + 10 * MILLION <==> env.now.sec + 10 <= MaxSec(s.p.width)
    ensures Messages(r.log) == Messages(s.log) + 1
    ensures r.log.Snoc? && r.log.last == Script(Init)
    ensures var l := r.log.past;
            && l.Snoc? && l.past == Snoc(Snoc(s.log, Heard(a, true)), Script(Declining)) && l.last.Sent? && l.last.msgType == DECLINE
            && Asks(l.last.opts, Some(s.offered.address), Some(s.offered.server))
  {
    ReachableInv(s);
    var h := s.Note(Heard(a, true));
    HearingKeepsInv(s, h, a, true);
    var d := SendMessage(ChangeState(h, Declining, env), env);
    DeclineSent(h, env, d);
    ChangingToInit(d, env);
    EntryLogged(d, Init, env);
    TenSecondsAhead(s.p.width, env.now);
  }

  lemma TenSecondsAhead(w: Width, now: TimeVal)
    requires Clock(w, now)
    ensures Micros(now.(sec := Wrap(w, now.sec + 10))) == Micros(now) + 10 * MILLION <==> now.sec + 10 <= MaxSec(w)
  {
    if now.sec + 10 <= MaxSec(w) {
      WrapIdentity(w, now.sec + 10);
    } else {
      assert Wrap(w, now.sec + 10) < 0;
    }
  }

  /**
   * After a decline, over all events before that timeout: nothing is sent
   * until an OFFER with the xid of the DECLINE arrives or the link comes back
   * after it was lost, and either makes the client send at once.
   */
  lemma DeclinesAndWaits(s: Client, a: Arp.Reply, env: Env, r: Client, inputs: seq<Input>, next: Input)
    requires Reachable(s) && EnvOk(s, env) && s.state == ArpCheck && a.senderIp == s.offered.address
    requires r == RecvArp(s, Some(a), true, env)
    requires Undisturbed(r, inputs, r.toEvent) && Before(next.env.now, r.toEvent)
    ensures Micros(r.toEvent) == Micros(env.now) + 10 * MILLION <==> env.now.sec + 10 <= MaxSec(s.p.width)
    ensures var q := Run(r, inputs);
            && Messages(q.log) == Messages(r.log) == Messages(s.log) + 1
            && Messages(Take(q, next).log) == Messages(q.log) + if Rouses(q, next) then 1 else 0
  {
    Declines(s, a, env, r);
    SilentUntilRoused(r, inputs, next, r.toEvent);
  }

  /** The wait over, the next timeout asks again. */
  lemma AsksAgain(s: Client, env: Env)
    requires s.state == Init && !Before(env.now, s.toEvent)
    ensures var l := HandleTimeout(s, env).log;
            Messages(l) == Messages(s.log) + 1 && l.last.Sent? && l.last.msgType == DISCOVER
  {
    SendLogged(s, env);
  }
}
