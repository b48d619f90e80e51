/** What every run of the client guarantees. */
module Runs {
  import opened Bytes
  import opened Time
  import opened Timers
  import opened Config
  import opened Protocol
  import opened Invariant
  import opened Effects
  import opened Preservation
  import opened Handlers
  import Netlink

  function Run(s: Client, inputs: seq<Input>): Client
    decreases |inputs|
  {
    if inputs == [] then s else Run(Take(s, inputs[0]), inputs[1..])
  }

  /** Each event is one the loop may handle when its turn comes. */
  predicate ValidRun(s: Client, inputs: seq<Input>)
    decreases |inputs|
  {
    inputs == [] || (Enabled(s, inputs[0]) && ValidRun(Take(s, inputs[0]), inputs[1..]))
  }

  lemma {:induction false} RunKeepsInv(s: Client, inputs: seq<Input>)
    requires Inv(s) && ValidRun(s, inputs)
    ensures Inv(Run(s, inputs))
    decreases |inputs|
  {
    if inputs != [] {
      TakeKeepsInv(s, inputs[0]);
      RunKeepsInv(Take(s, inputs[0]), inputs[1..]);
    }
  }

  /** A state main() can be in between two events. */
  ghost predicate Reachable(s: Client) {
    exists p: Params, addrs: set<Netlink.IfAddr>, inputs: seq<Input> ::
      ValidRun(Start(p, addrs), inputs) && s == Run(Start(p, addrs), inputs)
  }

  lemma ReachableInv(s: Client)
    requires Reachable(s)
    ensures Inv(s)
  {
    var p: Params, addrs: set<Netlink.IfAddr>, inputs: seq<Input> :|
      ValidRun(Start(p, addrs), inputs) && s == Run(Start(p, addrs), inputs);
    StartInv(p, addrs);
    RunKeepsInv(Start(p, addrs), inputs);
  }

  lemma {:induction false} RunOneMore(s: Client, inputs: seq<Input>, i: Input)
    requires ValidRun(s, inputs) && Enabled(Run(s, inputs), i)
    ensures ValidRun(s, inputs + [i]) && Run(s, inputs + [i]) == Take(Run(s, inputs), i)
    decreases |inputs|
  {
    if inputs == [] {
      assert ([i])[1..] == [];
    } else {
      assert (inputs + [i])[1..] == inputs[1..] + [i];
      RunOneMore(Take(s, inputs[0]), inputs[1..], i);
    }
  }

  lemma StartIsReachable(p: Params, addrs: set<Netlink.IfAddr>)
    ensures Reachable(Start(p, addrs))
  {
    var none: seq<Input> := [];
    assert ValidRun(Start(p, addrs), none) && Run(Start(p, addrs), none) == Start(p, addrs);
  }

  lemma StepIsReachable(s: Client, i: Input)
    requires Reachable(s) && Enabled(s, i)
    ensures Reachable(Take(s, i)) && Inv(s) && Inv(Take(s, i))
  {
    var p: Params, addrs: set<Netlink.IfAddr>, inputs: seq<Input> :|
      ValidRun(Start(p, addrs), inputs) && s == Run(Start(p, addrs), inputs);
    RunOneMore(Start(p, addrs), inputs, i);
    assert ValidRun(Start(p, addrs), inputs + [i]);
    ReachableInv(s);
    ReachableInv(Take(s, i));
  }

  lemma {:induction false} RunIsReachable(s: Client, inputs: seq<Input>)
    requires Reachable(s) && ValidRun(s, inputs)
    ensures Reachable(Run(s, inputs))
    decreases |inputs|
  {
    if inputs != [] {
      StepIsReachable(s, inputs[0]);
      RunIsReachable(Take(s, inputs[0]), inputs[1..]);
    }
  }

  /** Event e happened after exactly the history `past`. */
  predicate Happened(l: Log, past: Log, e: Event) {
    l.Snoc? && (l == Snoc(past, e) || Happened(l.past, past, e))
  }

  lemma {:induction false} HappenedGood(p: Params, l: Log, past: Log, e: Event)
    requires GoodHistory(p, l) && Happened(l, past, e)
    ensures GoodEvent(p, past, e)
  {
    if l != Snoc(past, e) {
      HappenedGood(p, l.past, past, e);
    }
  }

  /** An ACK in the history, the message of ours it answered, and no INIT since. */
  lemma {:induction false} AckInHistory(l: Log, hwaddr: Mac, cfg: Config) returns (past: Log, xid: u32)
    requires AckedSinceInit(l, hwaddr, cfg)
    ensures Happened(l, past, Received(xid, hwaddr, cfg)) && cfg.msgType == ACK && LastSent(past) == Some(Asked(xid, REQUEST))
    ensures Inits(past) == Inits(l)
  {
    match l {
      case Snoc(before, Received(x, chaddr, c)) =>
        if c == cfg && c.msgType == ACK && chaddr == hwaddr && LastSent(before) == Some(Asked(x, REQUEST)) {
          past, xid := before, x;
        } else {
          past, xid := AckInHistory(before, hwaddr, cfg);
        }
      case Snoc(before, _) => past, xid := AckInHistory(before, hwaddr, cfg);
    }
  }

  // ----- what is bound -----

  /**
   * On every run, a configuration that ever took effect came in a DHCPACK read
   * since the client last entered INIT, addressed to this interface and
   * answering the most recent message sent by then, a DHCPREQUEST. So neither an OFFER's
   * configuration nor one that was declined, refused or expired is ever bound,
   * whatever link changes and ARP checks came between.
   */
  lemma BoundOnlyByAck(s: Client, past: Log, cfg: Config)
    requires Reachable(s) && Happened(s.log, past, BoundTo(cfg))
    ensures cfg.msgType == ACK
    ensures exists earlier, xid: u32 ::
              Happened(past, earlier, Received(xid, s.p.hwaddr, cfg)) && LastSent(earlier) == Some(Asked(xid, REQUEST))
              && Inits(earlier) == Inits(past)
  {
    ReachableInv(s);
    HappenedGood(s.p, s.log, past, BoundTo(cfg));
    var earlier, xid := AckInHistory(past, s.p.hwaddr, cfg);
  }

  /** A lease is held exactly while the record shows one, and then both configurations are the ACKed one. */
  lemma LeaseMeansAgreement(s: Client)
    requires Reachable(s)
    ensures HasLease(s) ==> s.current == s.offered && s.current.msgType == ACK
                            && AckedSinceInit(s.log, s.p.hwaddr, s.current)
    ensures !HasLease(s) ==> s.current == ZERO
    ensures Leased(s.state) ==> HasLease(s)
    ensures Unleased(s.state) ==> !HasLease(s)
  {
    ReachableInv(s);
    if HasLease(s) {
      var past, xid := AckInHistory(s.log, s.p.hwaddr, s.current);
    }
  }

  // ----- what is sent -----

  /**
   * On every run: a message is only asked for in a state that has one, goes out
   * through an open descriptor, and carries the ciaddr, requested address and
   * server identifier RFC 2131 section 4.3.2 prescribes for its state; a REQUEST
   * in INIT-REBOOT asks for the very address the client holds.
   */
  lemma MessagesConform(s: Client, past: Log, e: Event)
    requires Reachable(s) && Happened(s.log, past, e)
    ensures !e.NotSent?
    ensures e.Sent? ==> 0 <= e.sock && Conforms(e.state, e.msgType, e.ciaddr, e.opts, e.held, e.offer)
    ensures e.Query? ==> 0 <= e.sock
  {
    ReachableInv(s);
    HappenedGood(s.p, s.log, past, e);
  }

  /** A default route is only ever set where that is wanted, right after binding a configuration with that gateway. */
  lemma RoutesFollowBindings(s: Client, past: Log, gateway: u32)
    requires Reachable(s) && Happened(s.log, past, Routed(gateway))
    ensures s.p.setAddr && s.p.setGateway && gateway != 0
    ensures past.Snoc? && past.last.BoundTo? && past.last.cfg.gateway == gateway && past.last.cfg.msgType == ACK
  {
    ReachableInv(s);
    HappenedGood(s.p, s.log, past, Routed(gateway));
    HappenedEarlier(s.log, past.past, past.last, Routed(gateway));
    BoundOnlyByAck(s, past.past, past.last.cfg);
  }

  lemma {:induction false} HappenedEarlier(l: Log, past: Log, e: Event, later: Event)
    requires Happened(l, Snoc(past, e), later)
    ensures Happened(l, past, e)
  {
    if l != Snoc(Snoc(past, e), later) {
      HappenedEarlier(l.past, past, e, later);
    }
  }

  // ----- descriptors -----

  /** No descriptor leaks, UDP is opened only from closed, and DECLINING is never seen between events. */
  lemma SocketLifecycle(s: Client)
    requires Reachable(s)
    ensures s.fds == Held(s) && |s.fds| <= 2
    ensures s.sockRaw == -1 ==> s.sockUdp == -1 && (s.state == Rebooting || s.state == Bound)
    ensures s.state != Declining
  {
    ReachableInv(s);
    assert Held(s) <= {s.sockUdp, s.sockRaw};
    CardinalityBound(Held(s), s.sockUdp, s.sockRaw);
  }

  lemma CardinalityBound(t: set<int>, a: int, b: int)
    requires t <= {a, b}
    ensures |t| <= 2
  {
    assert |t - {a}| <= 1 by {
      if b in t - {a} { assert t - {a} == {b}; } else { assert t - {a} == {}; }
    }
    assert t <= (t - {a}) + {a};
    if a in t { assert t == (t - {a}) + {a}; } else { assert t == t - {a}; }
  }

  // ----- retries -----

  /** How often each state has asked, at any point of any run. */
  lemma RetriesBounded(s: Client)
    requires Reachable(s)
    ensures s.state == Requesting ==> 1 <= s.cnt <= 3 && Sends(s.log) == s.cnt
    ensures s.state == InitReboot ==> 1 <= Sends(s.log) <= 2
    ensures s.state == ArpCheck ==> 1 <= Queries(s.log) <= s.p.arpcheck
    ensures s.state == ArpCheckGateway ==> 1 <= Queries(s.log) <= s.p.arpcheckGateway
  {
    ReachableInv(s);
  }

  /** A due timeout gives a state up exactly when its last permitted question has gone unanswered. */
  lemma GivesUpExactly(s: Client, env: Env)
    requires Reachable(s) && EnvOk(s, env) && !Before(env.now, s.toEvent)
    ensures s.state == Requesting ==> (HandleTimeout(s, env).state == Init <==> Sends(s.log) == 3)
    ensures s.state == ArpCheck ==> (HandleTimeout(s, env).state == Bound <==> Queries(s.log) == s.p.arpcheck)
    ensures s.state == ArpCheckGateway ==>
              (HandleTimeout(s, env).state == InitReboot <==> Queries(s.log) == s.p.arpcheckGateway)
  {
    ReachableInv(s);
    InvSplit(s);
    if s.state == Requesting {
      RequestingGivesUp(s, env);
    } else if s.state == ArpCheck {
      ArpCheckGivesUp(s, env);
    } else if s.state == ArpCheckGateway {
      GatewayGivesUp(s, env);
    }
  }

  lemma RequestingGivesUp(s: Client, env: Env)
    requires Inv(s) && EnvOk(s, env) && s.state == Requesting
    ensures TimeoutRequesting(s, env).state == Init <==> Sends(s.log) == 3
  {
    Sending(s, env);
    ChangingToInit(s, env);
  }

  lemma ArpCheckGivesUp(s: Client, env: Env)
    requires Inv(s) && EnvOk(s, env) && s.state == ArpCheck
    ensures TimeoutArpCheck(s, env).state == Bound <==> Queries(s.log) == s.p.arpcheck
  {
    Querying(Bump(s), 0, s.offered.address, None);
    BecomingBound(Bump(s), env);
  }

  lemma GatewayGivesUp(s: Client, env: Env)
    requires Inv(s) && EnvOk(s, env) && s.state == ArpCheckGateway
    ensures TimeoutArpCheckGateway(s, env).state == InitReboot <==> Queries(s.log) == s.p.arpcheckGateway
  {
    var b := Bump(s);
    Querying(b, s.current.address, s.current.gateway, Some(s.defgw));
    Changing(b, InitReboot, env);
    var r := ChangeState(b, InitReboot, env);
    Sending(r, env);
  }

  /** RFC 2131 section 4.4.5: with a window of at most 2^k minutes, at most k + 1 unanswered requests. */
  lemma RenewalRequestsLogarithmic(s: Client, k: nat)
    requires Reachable(s)
    ensures s.state == Renewing && Micros(s.t2) - Micros(s.t1) <= MINUTE * Pow2(k) ==> Sends(s.log) <= k + 1
    ensures s.state == Rebinding && Micros(s.lease) - Micros(s.t2) <= MINUTE * Pow2(k) ==> Sends(s.log) <= k + 1
  {
    ReachableInv(s);
    if s.state == Renewing && Micros(s.t2) - Micros(s.t1) <= MINUTE * Pow2(k) {
      assert WithinBudget(s.t2, s.toEvent, Sends(s.log), k);
    }
    if s.state == Rebinding && Micros(s.lease) - Micros(s.t2) <= MINUTE * Pow2(k) {
      assert WithinBudget(s.lease, s.toEvent, Sends(s.log), k);
    }
  }

  // ----- timers -----

  /** In every reachable state T1, T2 and the lease are in order, and the lease ends when the ACK said. */
  lemma LeaseEndsAsGranted(s: Client)
    requires Reachable(s) && HasLease(s)
    ensures !Before(s.t2, s.t1) && !Before(s.lease, s.t2)
    ensures s.lease == Saturating(s.p.width, s.current.recvtime, s.current.lease * MILLION)
  {
    ReachableInv(s);
    LeaseExact(s.p.width, s.current.recvtime, s.current.lease);
  }

  /**
   * In every reachable state with a lease: T1 is the server's, or half the lease
   * without one, T2 the server's, or seven eighths of the lease, both shifted by
   * the same j milliseconds (up to five seconds, none for the shortest leases),
   * cut off at T2 and at the lease.
   */
  lemma RenewsAsGranted(s: Client) returns (j: int)
    requires Reachable(s) && HasLease(s)
    ensures if s.current.lease > 5 then -5000 < j <= 5000 else j == 0
    ensures var c, w := s.current, s.p.width;
            && Comes(w, c.recvtime, (if c.t2 != 0 then c.t2 else c.lease - c.lease / 8) * MILLION + j * 1000, s.lease, s.t2)
            && Comes(w, c.recvtime, (if c.t1 != 0 then c.t1 else c.lease / 2) * MILLION + j * 1000, s.t2, s.t1)
  {
    ReachableInv(s);
    j :| Randomises(j, s.current.lease)
         && Renewal(s.p.width, s.current.recvtime, s.current.t1, s.current.t2, s.current.lease, j,
                    Binding(s.t1, s.t2, s.lease));
  }

  /** A bound client wakes no later than its lease ends. */
  predicate Keeping(s: Client) {
    s.state == Bound || s.state == Renewing || s.state == Rebinding
  }

  lemma WakesBeforeExpiry(s: Client)
    requires Inv(s) && Keeping(s)
    ensures !Before(s.lease, s.toEvent)
  {
  }

  /** From s the client starts over: nothing held, and exactly one message sent on the way, a DISCOVER. */
  predicate StartedOver(s: Client, r: Client) {
    && r.state == Init && r.current == ZERO && !HasLease(r) && r.t1 == r.t2 == CLEARED
    && (r.p.setAddr ==> r.addrs == {})
    && Messages(r.log) == Messages(s.log) + 1
    && Sends(r.log) == 1 && r.log.last.Sent? && r.log.last.msgType == DISCOVER
  }

  lemma RebindingExpires(s: Client, env: Env)
    requires Descriptors(s) && 0 <= s.sockRaw && s.state == Rebinding && !Before(env.now, s.lease)
    ensures StartedOver(s, TimeoutRebinding(s, env))
  {
    ChangingToInit(s, env);
    Sending(ChangeState(s, Init, env), env);
  }

  lemma RenewingExpires(s: Client, env: Env)
    requires Descriptors(s) && 0 <= s.sockRaw && s.state == Renewing
    requires !Before(env.now, s.lease) && !Before(env.now, s.t2)
    ensures StartedOver(s, TimeoutRenewing(s, env))
  {
    Changing(s, Rebinding, env);
    RebindingExpires(ChangeState(s, Rebinding, env), env);
  }

  lemma BoundExpires(s: Client, env: Env)
    requires MayChange(s, env) && s.state == Bound
    requires !Before(env.now, s.lease) && !Before(env.now, s.t2) && !Before(env.now, s.t1)
    ensures StartedOver(s, TimeoutBound(s, env))
  {
    Changing(s, Renewing, env);
    RenewingExpires(ChangeState(s, Renewing, env), env);
  }

  /**
   * No holding on past expiry: one timeout at or after the end of the lease
   * clears the configuration and its timers, leaves the client in INIT and
   * sends exactly one message in all, a DISCOVER.
   */
  lemma ExpiryReleases(s: Client, env: Env)
    requires Reachable(s) && EnvOk(s, env) && Keeping(s) && !Before(env.now, s.lease)
    ensures StartedOver(s, HandleTimeout(s, env))
  {
    ReachableInv(s);
    InvSplit(s);
    WakesBeforeExpiry(s);
    match s.state {
      case Bound => BoundExpires(s, env);
      case Renewing => RenewingExpires(s, env);
      case Rebinding => RebindingExpires(s, env);
    }
  }
}
