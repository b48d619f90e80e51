/**
 * main.c: the loop that feeds the client with signals, link changes, frames and
 * timeouts, and the two link states it keeps. Every run of the loop is a run of
 * the state machine, so what module Runs proves holds between any two events.
 */
module Daemon {
  import opened Protocol
  import opened Invariant
  import opened Runs
  import opened Transitions
  import opened Progress
  import opened Interface
  import opened Bytes
  import Arp
  import Responses
  import Time

  // ----- link state -----

  datatype LinkStatus = Removed | Shut | Down | Up

  /** A link message of the kernel, about any interface. */
  datatype LinkMsg =
    | NewLink(ifidx: int, up: bool, running: bool)
    | DelLink(ifidx: int)

  function StatusOf(m: LinkMsg): LinkStatus {
    match m
    case NewLink(_, up, running) => if !up then Shut else if running then Up else Down
    case DelLink(_) => Removed
  }

  /** The status after some messages: that of the last one about this interface. */
  function Latest(ifidx: int, status: LinkStatus, ms: seq<LinkMsg>): LinkStatus {
    if ms == [] then status
    else if ms[|ms| - 1].ifidx == ifidx then StatusOf(ms[|ms| - 1])
    else Latest(ifidx, status, ms[..|ms| - 1])
  }

  /** The interface is gone or was shut down, which ends the program. */
  predicate Ends(status: LinkStatus) {
    status == Removed || status == Shut
  }

  // ----- one pass -----

  datatype Signal = NoSignal | Hup | Term

  /** What each handler of one pass draws from outside, should it run. */
  datatype Draws = Draws(hup: Env, link: Env, frame: Env, timer: Env, end: Env)

  /** What select() returns with, and the link messages that arrive while handlers talk to the kernel. */
  datatype Wake = Wake(failed: bool, signal: Signal, links: seq<LinkMsg>, frame: Option<RawFrame>,
                       late: seq<LinkMsg>, draws: Draws)

  /** Between two passes: the client, `ostatus` and `last_ostatus`. */
  datatype Loop = Loop(client: Client, seen: LinkStatus, handled: LinkStatus)

  function OnSignal(s: Client, w: Wake): Client {
    if w.signal == Hup then Hangup(s, w.draws.hup) else s
  }

  function OnStatus(s: Client, status: LinkStatus, env: Env): Client {
    match status
    case Down => OperState(s, false, env)
    case Up => OperState(s, true, env)
    case _ => s
  }

  function OnLink(l: Loop, seen: LinkStatus, w: Wake): Client {
    var s := OnSignal(l.client, w);
    if seen != l.handled then OnStatus(s, seen, w.draws.link) else s
  }

  /** The frame, if the raw socket is open for it. */
  ghost predicate OnFrame(h: Host, s: Client, w: Wake, r: Client)
    requires w.frame.Some? ==> Readable(h.order, w.frame.value)
  {
    if w.frame.Some? && s.sockRaw != -1 then FrameOutcome(h.order, s, w.frame.value, w.draws.frame, r) else r == s
  }

  /** After a pass: whether the loop has ended, and what it leaves. */
  ghost predicate Passed(h: Host, ifidx: int, l: Loop, w: Wake, done: bool, r: Loop)
    requires w.frame.Some? ==> Readable(h.order, w.frame.value)
  {
    var seen := Latest(ifidx, l.seen, w.links);
    if w.signal == Term then done && r == l
    else if w.failed then !done && r == l.(client := OnSignal(l.client, w))
    else if seen != l.handled && Ends(seen) then done && r == Loop(OnSignal(l.client, w), seen, seen)
    else
      exists s :: OnFrame(h, OnLink(l, seen, w), w, s) && !done
                  && r == Loop(HandleTimeout(s, w.draws.timer), Latest(ifidx, seen, w.late), seen)
  }

  /** The kernel hands every handler a plausible clock and fresh descriptors. */
  ghost predicate WakeOk(h: Host, ifidx: int, l: Loop, w: Wake) {
    var seen := Latest(ifidx, l.seen, w.links);
    var linked := OnLink(l, seen, w);
    && (w.frame.Some? ==> Readable(h.order, w.frame.value))
    && EnvOk(l.client, w.draws.hup)
    && EnvOk(OnSignal(l.client, w), w.draws.link)
    && EnvOk(linked, w.draws.frame)
    && (forall s :: OnFrame(h, linked, w, s) ==> EnvOk(s, w.draws.timer))
  }

  // ----- every pass is a run of the state machine -----

  lemma SignalIsStep(s: Client, w: Wake)
    requires Reachable(s) && EnvOk(s, w.draws.hup)
    ensures Reachable(OnSignal(s, w))
  {
    if w.signal == Hup { StepIsReachable(s, Input(SigHup, w.draws.hup)); }
  }

  lemma StatusIsStep(s: Client, status: LinkStatus, env: Env)
    requires Reachable(s) && EnvOk(s, env)
    ensures Reachable(OnStatus(s, status, env))
  {
    if status == Down { StepIsReachable(s, Input(LinkState(false), env)); }
    if status == Up { StepIsReachable(s, Input(LinkState(true), env)); }
  }

  lemma FrameIsStep(h: Host, s: Client, w: Wake, r: Client)
    requires w.frame.Some? ==> Readable(h.order, w.frame.value)
    requires Reachable(s) && EnvOk(s, w.draws.frame) && OnFrame(h, s, w, r)
    ensures Reachable(r)
  {
    if w.frame.Some? && s.sockRaw != -1 {
      var f, env := w.frame.value, w.draws.frame;
      if f.protocol == ETH_P_IP {
        var reply :| ReplyTo(h.order, f.octets, f.plen, reply) && r == RecvDhcp(s, reply, env);
        StepIsReachable(s, Input(Dhcp(reply), env));
      } else if f.protocol == ETH_P_ARP {
        StepIsReachable(s, Input(ArpFrame(Arp.ParseReply(f.octets[..f.plen]), f.toHost), env));
      }
    }
  }

  /** Whatever a pass does is a sequence of steps of the state machine. */
  lemma PassIsRun(h: Host, ifidx: int, l: Loop, w: Wake, done: bool, r: Loop)
    requires Reachable(l.client) && WakeOk(h, ifidx, l, w) && Passed(h, ifidx, l, w, done, r)
    ensures Reachable(r.client)
  {
    var seen := Latest(ifidx, l.seen, w.links);
    SignalIsStep(l.client, w);
    StatusIsStep(OnSignal(l.client, w), seen, w.draws.link);
    if w.signal != Term && !w.failed && !(seen != l.handled && Ends(seen)) {
      var s :| OnFrame(h, OnLink(l, seen, w), w, s) && r.client == HandleTimeout(s, w.draws.timer);
      FrameIsStep(h, OnLink(l, seen, w), w, s);
      StepIsReachable(s, Input(Timeout, w.draws.timer));
    }
  }

  // ----- the client follows the link -----

  predicate IsDown(s: Client) {
    s.state == OperDown
  }

  /** In OPER_DOWN, or in a state with a timeout. */
  predicate Settled(s: Client) {
    IsDown(s) || HasTimeout(s)
  }

  /** Only a link change takes the client into or out of OPER_DOWN. */
  lemma StaysUpOrDown(s: Client, i: Input)
    requires !i.step.LinkState?
    ensures IsDown(Take(s, i)) == IsDown(s) && (Settled(s) ==> Settled(Take(s, i)))
  {
    TakeMoves(s, i);
  }

  lemma LinkDecides(s: Client, up: bool, env: Env)
    ensures IsDown(OperState(s, up, env)) == !up && (Settled(s) ==> Settled(OperState(s, up, env)))
  {
    LinkMoves(s, up, env);
  }

  /**
   * Between any two passes the client is in OPER_DOWN exactly when the last
   * status acted on was "down", and otherwise it always has a timeout to wait for.
   */
  predicate Follows(l: Loop) {
    (IsDown(l.client) <==> l.handled == Down) && (HasTimeout(l.client) <==> l.handled != Down)
  }

  /** The first timeout is due at once. */
  lemma WakesFromRebooting(s: Client, env: Env)
    requires s.state == Rebooting && s.toEvent == Time.CLEARED && EnvOk(s, env)
    ensures HandleTimeout(s, env).state == Init
  {
    Entered(InSeconds(s, env.now, 1), Init, env);
  }

  lemma FrameStaysUpOrDown(h: Host, s: Client, w: Wake, r: Client)
    requires w.frame.Some? ==> Readable(h.order, w.frame.value)
    requires OnFrame(h, s, w, r)
    ensures IsDown(r) == IsDown(s) && (Settled(s) ==> Settled(r))
  {
    if w.frame.Some? && s.sockRaw != -1 {
      var f, env := w.frame.value, w.draws.frame;
      if f.protocol == ETH_P_IP {
        var reply :| ReplyTo(h.order, f.octets, f.plen, reply) && r == RecvDhcp(s, reply, env);
        StaysUpOrDown(s, Input(Dhcp(reply), env));
      } else if f.protocol == ETH_P_ARP {
        StaysUpOrDown(s, Input(ArpFrame(Arp.ParseReply(f.octets[..f.plen]), f.toHost), env));
      }
    }
  }

  lemma EventsStayUpOrDown(h: Host, linked: Client, w: Wake, s: Client)
    requires w.frame.Some? ==> Readable(h.order, w.frame.value)
    requires OnFrame(h, linked, w, s)
    ensures var r := HandleTimeout(s, w.draws.timer); IsDown(r) == IsDown(linked) && (Settled(linked) ==> Settled(r))
  {
    FrameStaysUpOrDown(h, linked, w, s);
    StaysUpOrDown(s, Input(Timeout, w.draws.timer));
  }

  lemma LinkFollows(l: Loop, seen: LinkStatus, w: Wake)
    requires Follows(l) && !(seen != l.handled && Ends(seen))
    ensures var s := OnLink(l, seen, w); (IsDown(s) <==> seen == Down) && Settled(s)
  {
    StaysUpOrDown(l.client, Input(SigHup, w.draws.hup));
    LinkDecides(OnSignal(l.client, w), seen == Up, w.draws.link);
  }

  /** A pass that goes on keeps that, and has acted on the newest status it knew. */
  lemma PassFollows(h: Host, ifidx: int, l: Loop, w: Wake, r: Loop)
    requires w.frame.Some? ==> Readable(h.order, w.frame.value)
    requires Follows(l) && Passed(h, ifidx, l, w, false, r)
    ensures Follows(r)
    ensures !w.failed ==> r.handled == Latest(ifidx, l.seen, w.links)
  {
    if w.failed {
      StaysUpOrDown(l.client, Input(SigHup, w.draws.hup));
    } else {
      var seen := Latest(ifidx, l.seen, w.links);
      var s :| OnFrame(h, OnLink(l, seen, w), w, s) && r.client == HandleTimeout(s, w.draws.timer) && r.handled == seen;
      LinkFollows(l, seen, w);
      EventsStayUpOrDown(h, OnLink(l, seen, w), w, s);
    }
  }

  /**
   * What the kernel's link flags do: after a pass whose last message about this
   * interface says "up", the client is in OPER_DOWN exactly if it does not say
   * "running" too; without "up", or when the interface is removed, a change of
   * status ends the loop.
   */
  lemma FlagsDecide(h: Host, l: Loop, w: Wake, links: seq<LinkMsg>, m: LinkMsg, done: bool, r: Loop)
    requires w.frame.Some? ==> Readable(h.order, w.frame.value)
    requires Follows(l) && !w.failed && w.signal != Term && w.links == links + [m]
    requires Passed(h, m.ifidx, l, w, done, r)
    ensures m.NewLink? && m.up ==> !done && (r.client.state == OperDown <==> !m.running)
    ensures !done && (m.DelLink? || !m.up) ==> r.handled == l.handled
    ensures m.DelLink? && l.handled != Removed ==> done
    ensures m.NewLink? && !m.up && l.handled != Shut ==> done
  {
    assert Latest(m.ifidx, l.seen, w.links) == StatusOf(m);
    if !done {
      PassFollows(h, m.ifidx, l, w, r);
    }
  }

  /**
   * A pass that goes on leaves no due timeout behind, but for one that
   * INIT_REBOOT or ARP_CHECK hands to INIT or BOUND; what is left is due later.
   */
  lemma PassServes(h: Host, ifidx: int, l: Loop, w: Wake, r: Loop)
    requires Reachable(l.client) && WakeOk(h, ifidx, l, w) && Follows(l) && !w.failed
    requires Passed(h, ifidx, l, w, false, r) && r.handled != Down
    requires Room(r.client.p.width, w.draws.timer.now)
    ensures Time.Before(w.draws.timer.now, r.client.toEvent) || r.client.state == Init || r.client.state == Bound
  {
    var seen := Latest(ifidx, l.seen, w.links);
    SignalIsStep(l.client, w);
    StatusIsStep(OnSignal(l.client, w), seen, w.draws.link);
    var s :| OnFrame(h, OnLink(l, seen, w), w, s) && r.client == HandleTimeout(s, w.draws.timer) && r.handled == seen;
    FrameIsStep(h, OnLink(l, seen, w), w, s);
    LinkFollows(l, seen, w);
    FrameStaysUpOrDown(h, OnLink(l, seen, w), w, s);
    TimeoutServes(s, w.draws.timer);
  }

  lemma TimeoutServes(s: Client, env: Env)
    requires Reachable(s) && EnvOk(s, env) && HasTimeout(s)
    ensures var r := HandleTimeout(s, env);
            Room(r.p.width, env.now) ==> Time.Before(env.now, r.toEvent) || r.state == Init || r.state == Bound
  {
    ReachableInv(s);
    if !Time.Before(env.now, s.toEvent) {
      TimeoutMoves(s, env);
      if Advances(s) {
        OneTimeoutAdvances(s, env);
        if Room(s.p.width, env.now) { RoomReaches(s, env); }
      } else {
        HandsOver(s, env);
        NotAdvancingMoves(s, env);
      }
    }
  }

  lemma NotAdvancingMoves(s: Client, env: Env)
    requires Inv(s) && HasTimeout(s) && !Advances(s) && !Time.Before(env.now, s.toEvent)
    ensures HandleTimeout(s, env).state == Init || HandleTimeout(s, env).state == Bound
  {
    Entered(s, Init, env);
    Entered(Bump(s), Bound, env);
  }

  // ----- nothing is missed -----

  /** SIGHUP reaches the client even when select() failed because of it: in use of an address it asks for it again. */
  lemma HangupServed(h: Host, ifidx: int, l: Loop, w: Wake, done: bool, r: Loop)
    requires w.frame.Some? ==> Readable(h.order, w.frame.value)
    requires Reachable(l.client) && EnvOk(l.client, w.draws.hup) && w.signal == Hup && w.failed
    requires Passed(h, ifidx, l, w, done, r)
    ensures !done && r.seen == l.seen && r.handled == l.handled
    ensures if Keeping(l.client) then
              r.client.state == InitReboot && Responses.SaidOnce(l.client, r.client, 3, w.draws.hup)
            else r.client == l.client
  {
    Responses.HangupAsks(l.client, w.draws.hup);
  }

  /** A frame that arrives alone, the raw socket open, is heeded as what its octets say, before timeouts are. */
  lemma FrameServed(h: Host, ifidx: int, l: Loop, w: Wake, done: bool, r: Loop, f: RawFrame)
    requires w == Wake(false, NoSignal, [], Some(f), [], w.draws) && Readable(h.order, f)
    requires l.seen == l.handled && l.client.sockRaw != -1 && Passed(h, ifidx, l, w, done, r)
    ensures !done
    ensures f.protocol == 0x0800 ==>
              exists reply :: ReplyTo(h.order, f.octets, f.plen, reply)
                              && r.client == HandleTimeout(RecvDhcp(l.client, reply, w.draws.frame), w.draws.timer)
    ensures f.protocol == 0x0806 ==>
              r.client == HandleTimeout(RecvArp(l.client, Arp.ParseReply(f.octets[..f.plen]), f.toHost, w.draws.frame),
                                        w.draws.timer)
    ensures f.protocol != 0x0800 && f.protocol != 0x0806 ==> r.client == HandleTimeout(l.client, w.draws.timer)
  {
    assert Latest(ifidx, l.seen, w.links) == l.seen;
    var s :| OnFrame(h, l.client, w, s) && r.client == HandleTimeout(s, w.draws.timer);
  }

  /** A link message that arrives while handlers run is acted on in the next pass that gets that far. */
  lemma LateServed(h: Host, l: Loop, w: Wake, late: seq<LinkMsg>, m: LinkMsg, r: Loop, w': Wake, done: bool, r': Loop)
    requires w.frame.Some? ==> Readable(h.order, w.frame.value)
    requires w'.frame.Some? ==> Readable(h.order, w'.frame.value)
    requires Follows(l) && !w.failed && w.late == late + [m] && Passed(h, m.ifidx, l, w, false, r)
    requires !w'.failed && w'.signal != Term && w'.links == [] && Passed(h, m.ifidx, r, w', done, r')
    ensures m.NewLink? && m.up ==> !done && (r'.client.state == OperDown <==> !m.running)
    ensures (m.DelLink? && r.handled != Removed) || (m.NewLink? && !m.up && r.handled != Shut) ==> done
  {
    var seen := Latest(m.ifidx, l.seen, w.links);
    assert Latest(m.ifidx, seen, w.late) == StatusOf(m) == r.seen;
    assert Latest(m.ifidx, r.seen, w'.links) == r.seen;
    PassFollows(h, m.ifidx, l, w, r);
    if !done {
      PassFollows(h, m.ifidx, r, w', r');
    }
  }

  // ----- the loop -----

  /** Each pass of the loop meets a plausible world, and so does the end. */
  ghost predicate WorldOk(h: Host, ifidx: int, l: Loop, wakes: seq<Wake>)
    decreases |wakes|
  {
    wakes == [] ||
    (WakeOk(h, ifidx, l, wakes[0])
     && forall done, r :: Passed(h, ifidx, l, wakes[0], done, r) ==>
          if done then EnvOk(r.client, wakes[0].draws.end) else WorldOk(h, ifidx, r, wakes[1..]))
  }

  class Daemon {
    const ifidx: int
    const dif: DhcpInterface
    var ostatus: LinkStatus
    var lastOstatus: LinkStatus

    /** ostatus starts as "up", and no status has been acted on. */
    constructor (ifidx: int, dif: DhcpInterface)
      ensures this.ifidx == ifidx && this.dif == dif
      ensures ostatus == Up && lastOstatus == Removed
    {
      this.ifidx, this.dif := ifidx, dif;
      ostatus, lastOstatus := Up, Removed;
    }

    ghost function View(): Loop
      reads this, dif, dif.link
    {
      Loop(dif.View(), ostatus, lastOstatus)
    }

    /** nl_callback */
    method NlCallback(index: int, status: LinkStatus)
      modifies this`ostatus
      ensures ostatus == if index == ifidx then status else old(ostatus)
    {
      if index == ifidx { ostatus := status; }
    }

    /** nl_handlemsg, for messages about links */
    method HandleLinks(ms: seq<LinkMsg>)
      modifies this`ostatus
      ensures ostatus == Latest(ifidx, old(ostatus), ms)
    {
      var n := 0;
      while n < |ms|
        invariant 0 <= n <= |ms|
        invariant ostatus == Latest(ifidx, old(ostatus), ms[..n])
      {
        assert ms[..n + 1][..n] == ms[..n];
        NlCallback(ms[n].ifidx, StatusOf(ms[n]));
        n := n + 1;
      }
      assert ms[..n] == ms;
    }

    /** handle_ostatus; tells whether the program is to end. */
    method HandleOstatus(env: Env, host: Host) returns (end: bool)
      requires Inv(dif.View()) && EnvOk(dif.View(), env) && HostOk(host)
      modifies this`lastOstatus, dif, dif.link
      ensures end == Ends(ostatus) && lastOstatus == ostatus
      ensures dif.View() == OnStatus(old(dif.View()), ostatus, env) && Inv(dif.View())
    {
      lastOstatus := ostatus;
      match ostatus {
        case Removed => return true;
        case Shut => return true;
        case Down => dif.OperState(false, env, host);
        case Up => dif.OperState(true, env, host);
      }
      end := false;
    }

    /** The raw socket, if there is one and it is readable. */
    method ReadFrame(w: Wake, host: Host)
      requires Inv(dif.View()) && EnvOk(dif.View(), w.draws.frame) && HostOk(host)
      requires w.frame.Some? ==> Readable(host.order, w.frame.value)
      modifies dif, dif.link
      ensures OnFrame(host, old(dif.View()), w, dif.View()) && Inv(dif.View())
    {
      if w.frame.Some? && dif.sockRaw != -1 { dif.RecvMessage(w.frame.value, w.draws.frame, host); }
    }

    /** The rest of a pass once the signal of loop state l was handled: link changes, a frame, timeouts. */
    method ServeEvents(ghost l: Loop, w: Wake, host: Host) returns (end: bool)
      requires Inv(dif.View()) && HostOk(host) && WakeOk(host, ifidx, l, w)
      requires View() == l.(client := OnSignal(l.client, w)) && w.signal != Term && !w.failed
      modifies this, dif, dif.link
      ensures Passed(host, ifidx, l, w, end, View())
    {
      HandleLinks(w.links);
      if ostatus != lastOstatus {
        end := HandleOstatus(w.draws.link, host);
        if end { return; }
      }
      ReadFrame(w, host);
      dif.HandleTimeout(w.draws.timer, host);
      HandleLinks(w.late);
      end := false;
    }

    /** One pass: the signal, then link changes, a frame and timeouts. Tells whether it was the last. */
    method Pass(w: Wake, host: Host) returns (end: bool)
      requires Inv(dif.View()) && HostOk(host) && WakeOk(host, ifidx, View(), w)
      modifies this, dif, dif.link
      ensures Passed(host, ifidx, old(View()), w, end, View())
    {
      ghost var l := View();
      match w.signal {
        case Hup => dif.InitReboot(w.draws.hup, host);
        case Term => return true;
        case NoSignal =>
      }
      if w.failed { return false; }
      end := ServeEvents(l, w, host);
    }

    /** main(), up to its loop: the first status is acted on and the first timeout taken. */
    method Begin(links: seq<LinkMsg>, draws: Draws, late: seq<LinkMsg>, host: Host) returns (end: bool)
      requires View() == Loop(Start(dif.p, dif.link.addrs), Up, Removed) && HostOk(host)
      requires EnvOk(dif.View(), draws.link)
      requires EnvOk(OnStatus(dif.View(), Latest(ifidx, Up, links), draws.link), draws.timer)
      modifies this, dif, dif.link
      ensures end == Ends(Latest(ifidx, Up, links))
      ensures Reachable(dif.View()) && (!end ==> Follows(View()))
    {
      ghost var start := dif.View();
      StartIsReachable(dif.p, dif.link.addrs);
      ReachableInv(start);
      HandleLinks(links);
      end := HandleOstatus(draws.link, host);
      StatusIsStep(start, ostatus, draws.link);
      if end { return; }
      ghost var linked := dif.View();
      LinkDecides(start, ostatus == Up, draws.link);
      StepIsReachable(linked, Input(Timeout, draws.timer));
      WakesFromRebooting(start, draws.timer);
      StaysUpOrDown(linked, Input(Timeout, draws.timer));
      dif.HandleTimeout(draws.timer, host);
      HandleLinks(late);
    }

    /**
     * The loop of main() and the release at its end, over any sequence of wake-ups
     * (the whole sequence is used up unless something ends the program before).
     * Between any two passes the client is in a reachable state and follows the link.
     */
    method Serve(wakes: seq<Wake>, host: Host) returns (end: bool, ghost last: Client)
      requires Reachable(dif.View()) && Follows(View()) && HostOk(host) && WorldOk(host, ifidx, View(), wakes)
      modifies this, dif, dif.link
      ensures Reachable(last)
      ensures !end ==> dif.View() == last && Follows(View())
      ensures end ==> exists w :: w in wakes && dif.View() == Release(last, w.draws.end)
    {
      var n := 0;
      assert wakes[n..] == wakes;
      while n < |wakes|
        invariant 0 <= n <= |wakes|
        invariant Reachable(dif.View()) && Follows(View())
        invariant WorldOk(host, ifidx, View(), wakes[n..])
      {
        ghost var before := View();
        ReachableInv(dif.View());
        var w := wakes[n];
        assert wakes[n..][0] == w && wakes[n..][1..] == wakes[n + 1..];
        end := Pass(w, host);
        PassIsRun(host, ifidx, before, w, end, View());
        last := dif.View();
        if end {
          ReachableInv(last);
          dif.Release(w.draws.end, host);
          return;
        }
        PassFollows(host, ifidx, before, w, View());
        n := n + 1;
      }
      end, last := false, dif.View();
    }
  }
}