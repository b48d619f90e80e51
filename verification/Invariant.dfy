/** What holds of the client between any two events of any run. */
module Invariant {
  import opened Bytes
  import opened Time
  import opened Timers
  import opened Config
  import opened Protocol
  import Options
  import Netlink

  // ----- descriptors -----

  function Held(s: Client): set<int> {
    (if s.sockUdp == -1 then {} else {s.sockUdp}) + (if s.sockRaw == -1 then {} else {s.sockRaw})
  }

  /** The open descriptors are the two in the record; only REBOOTING and BOUND do without the raw socket. */
  predicate SocketsOk(s: Client) {
    && -1 <= s.sockUdp && -1 <= s.sockRaw
    && (s.sockUdp == s.sockRaw ==> s.sockUdp == -1)
    && s.fds == Held(s)
    && (s.sockRaw == -1 ==> s.sockUdp == -1 && (s.state == Rebooting || s.state == Bound))
  }

  // ----- times -----

  /** T1 and T2 are what the ACK in force makes of them, shifted alike. */
  ghost predicate Timed(s: Client) {
    exists j: int :: Randomises(j, s.current.lease)
                     && Renewal(s.p.width, s.current.recvtime, s.current.t1, s.current.t2, s.current.lease, j,
                                Binding(s.t1, s.t2, s.lease))
  }

  ghost predicate TimersOk(s: Client) {
    var w := s.p.width;
    && InRange(w, s.toEvent) && InRange(w, s.t1) && InRange(w, s.t2) && InRange(w, s.lease)
    && !Before(s.t2, s.t1) && !Before(s.lease, s.t2)
    && (HasLease(s) ==> 0 < s.lease.sec && s.lease == Expiry(w, s.current.recvtime, s.current.lease, 0) && Timed(s))
    && (s.state == Bound ==> s.toEvent == s.t1)
    && (s.state == Renewing ==> !Before(s.t2, s.toEvent))
    && (s.state == Rebinding ==> !Before(s.lease, s.toEvent))
  }

  // ----- configurations -----

  predicate Leased(state: State) {
    state == InitReboot || state == ArpCheckGateway || state == Bound || state == Renewing || state == Rebinding
    || state == Releasing
  }

  predicate Unleased(state: State) {
    state == Rebooting || state == Init || state == Requesting || state == ArpCheck
  }

  predicate ConfigsOk(s: Client) {
    && (Leased(s.state) ==> HasLease(s))
    && (Unleased(s.state) ==> !HasLease(s))
    && (HasLease(s) ==> s.current == s.offered)
    && (!HasLease(s) ==> s.current == ZERO && s.t1 == s.t2 == s.lease == CLEARED)
    && WellSized(s.offered)
    && (s.state == Requesting ==> s.offered.msgType == OFFER)
    && (HasLease(s) || s.state == ArpCheck ==> FromAck(s, s.offered))
  }

  predicate FromAck(s: Client, c: Config) {
    Clock(s.p.width, c.recvtime) && AckedSinceInit(s.log, s.p.hwaddr, c)
  }

  /** The states that await an ACK. */
  predicate Awaiting(s: Client) {
    s.state == Requesting || s.state == Renewing || s.state == Rebinding || s.state == InitReboot
  }

  predicate AskedLast(s: Client) {
    LastSent(s.log).Some? && LastSent(s.log).value.msgType == REQUEST
  }

  /** The record's xid is the last one sent, and the states that await an ACK have sent a DHCPREQUEST last. */
  predicate XidOk(s: Client) {
    && (LastSent(s.log).Some? ==> LastSent(s.log).value.xid == s.xid)
    && (Awaiting(s) ==> AskedLast(s))
  }

  // ----- retries -----

  predicate CountsOk(s: Client) {
    && s.state != Declining
    && (s.state == Requesting ==> 1 <= s.cnt <= 3 && Sends(s.log) == s.cnt)
    && (s.state == InitReboot ==> s.cnt <= 1 && 1 <= Sends(s.log) <= 2 && (s.cnt == 0 ==> Sends(s.log) == 1))
    && (s.state == ArpCheck ==> Queries(s.log) == s.cnt + 1 <= s.p.arpcheck)
    && (s.state == ArpCheckGateway ==> Queries(s.log) == s.cnt + 1 <= s.p.arpcheckGateway)
  }

  /** Requests toward T2 and toward the end of the lease stay within their budgets. */
  ghost predicate BudgetsOk(s: Client) {
    && (s.state == Renewing ==> Budget(s.t1, s.t2, s.toEvent, Sends(s.log)))
    && (s.state == Rebinding ==> Budget(s.t2, s.lease, s.toEvent, Sends(s.log)))
  }

  // ----- the gateway -----

  predicate GatewayOk(s: Client) {
    && (HasLease(s) && s.current.gateway != 0 && s.p.arpcheckGateway != 0 && s.defgw[0] != 255
        ==> LearnedSinceInit(s.log, s.p.hwaddr, s.current.gateway, s.defgw))
    && (s.state == ArpCheckGateway ==>
          s.current.gateway != 0 && s.p.arpcheckGateway != 0 && s.defgw[0] != 255)
  }

  // ----- history -----

  /** The body of the first option `code`. */
  function Field(opts: seq<Opt>, code: byte): Option<seq<byte>> {
    if opts == [] then None else if opts[0].code == code then Some(opts[0].data) else Field(opts[1..], code)
  }

  predicate Asks(opts: seq<Opt>, requested: Option<u32>, server: Option<u32>) {
    && Field(opts, Options.REQADDR) == (if requested.Some? then Some(Bytes32(requested.value)) else None)
    && Field(opts, Options.SERVER) == (if server.Some? then Some(Bytes32(server.value)) else None)
  }

  /**
   * RFC 2131 section 4.3.2 (with table 5 for the other types): which of
   * ciaddr, requested address and server identifier a message carries. Only
   * the server identifier table 5 demands of a DHCPRELEASE is never there.
   */
  predicate Conforms(state: State, msgType: byte, ciaddr: u32, opts: seq<Opt>, held: u32, offer: Config) {
    && Field(opts, Options.TYPE) == Some([msgType])
    && match state
       case Init => msgType == DISCOVER && ciaddr == 0 && Asks(opts, None, None)
       case Requesting => msgType == REQUEST && ciaddr == 0 && offer.msgType == OFFER
                          && Asks(opts, Some(offer.address), Some(offer.server))
       case InitReboot => msgType == REQUEST && ciaddr == 0 && Asks(opts, Some(held), None)
       case Renewing | Rebinding => msgType == REQUEST && ciaddr == held && Asks(opts, None, None)
       case Releasing => msgType == RELEASE && ciaddr == held && Asks(opts, None, None)
       case Declining => msgType == DECLINE && ciaddr == 0 && Asks(opts, Some(offer.address), Some(offer.server))
       case _ => false
  }

  predicate GoodEvent(p: Params, past: Log, e: Event) {
    match e
    case Sent(state, msgType, xid, ciaddr, opts, addr, sock, viaUdp, held, offer) =>
      sock >= 0 && Conforms(state, msgType, ciaddr, opts, held, offer)
    case NotSent(_) => false
    case Query(sock, _, _, _) => sock >= 0
    case BoundTo(c) => AckedSinceInit(past, p.hwaddr, c)
    case Routed(gateway) =>
      gateway != 0 && p.setAddr && p.setGateway
      && past.Snoc? && past.last.BoundTo? && past.last.cfg.gateway == gateway
    case _ => true
  }

  predicate GoodHistory(p: Params, l: Log) {
    match l
    case NoEvents => true
    case Snoc(past, e) => GoodEvent(p, past, e) && GoodHistory(p, past)
  }

  ghost predicate Inv(s: Client) {
    && SocketsOk(s)
    && TimersOk(s)
    && ConfigsOk(s)
    && XidOk(s)
    && CountsOk(s)
    && BudgetsOk(s)
    && GatewayOk(s)
    && GoodHistory(s.p, s.log)
  }

  lemma StartInv(p: Params, addrs: set<Netlink.IfAddr>)
    ensures Inv(Start(p, addrs))
  {
  }
}
