/** A run to point at: two timeouts, an OFFER and its ACK bind what a server grants, with no UDP socket to be had. */
module Exchange {
  import opened Bytes
  import opened Time
  import opened Config
  import opened Protocol
  import opened Runs
  import Netlink

  /** What happens at `now`. */
  function Plain(now: int, xid: nat, raw: int): Env {
    Env(TimeVal(now, 0), xid, 0, 0, Refused, raw)
  }

  /** A server at 10.0.0.1 lends 10.0.0.2 for an hour. */
  const LENT := ZERO.(server := 0x0a00_0001, address := 0x0a00_0002, lease := 3600)

  /** Whether the interface is configured, and how often an address is checked first. */
  function Someone(setAddr: bool, arpcheck: nat): Params {
    Params(Bits32, [2, 0, 0, 0, 0, 1], [], arpcheck, 0, false, setAddr)
  }

  const WAKE := Input(Timeout, Plain(1000, 0, 3))
  const DISCOVERED := Input(Timeout, Plain(1001, 7, 4))

  function Offered(granted: Config): Input {
    Input(Dhcp(Some(DhcpReply(7, 6, [2, 0, 0, 0, 0, 1], granted.(msgType := OFFER)))), Plain(1002, 8, 4))
  }

  function Acked(granted: Config): Input {
    Input(Dhcp(Some(DhcpReply(8, 6, [2, 0, 0, 0, 0, 1], granted.(msgType := ACK)))), Plain(1003, 0, 4))
  }

  /** What is in force at the end. */
  function InForce(granted: Config): Config {
    granted.(msgType := ACK, recvtime := TimeVal(1003, 0))
  }

  /** Still unbound, with the raw socket only and no address. */
  predicate Asking(s: Client, p: Params, state: State) {
    && s.p == p && s.state == state && s.sockUdp == -1 && s.sockRaw == 3 && s.fds == {3}
    && s.current == ZERO && s.addrs == {}
  }

  lemma Wakes(s: Client, setAddr: bool, arpcheck: nat)
    requires s == Start(Someone(setAddr, arpcheck), {})
    ensures Enabled(s, WAKE)
    ensures var r := Take(s, WAKE); Asking(r, Someone(setAddr, arpcheck), Init) && r.toEvent == TimeVal(1001, 0)
  {
  }

  lemma Discovers(s: Client, setAddr: bool, arpcheck: nat)
    requires Asking(s, Someone(setAddr, arpcheck), Init) && s.toEvent == TimeVal(1001, 0)
    ensures Enabled(s, DISCOVERED)
    ensures var r := Take(s, DISCOVERED); Asking(r, Someone(setAddr, arpcheck), Init) && r.xid == 7
  {
  }

  lemma TakesOffer(s: Client, setAddr: bool, arpcheck: nat, granted: Config)
    requires Asking(s, Someone(setAddr, arpcheck), Init) && s.xid == 7 && WellSized(granted)
    ensures Enabled(s, Offered(granted))
    ensures var r := Take(s, Offered(granted)); Asking(r, Someone(setAddr, arpcheck), Requesting) && r.xid == 8
  {
    var cfg := granted.(msgType := OFFER, recvtime := TimeVal(1002, 0));
    OfferTaken(s.Note(Received(7, [2, 0, 0, 0, 0, 1], cfg)), setAddr, arpcheck, cfg);
  }

  lemma OfferTaken(s: Client, setAddr: bool, arpcheck: nat, cfg: Config)
    requires Asking(s, Someone(setAddr, arpcheck), Init)
    ensures var r := AcceptOffer(s, cfg, Plain(1002, 8, 4)); Asking(r, Someone(setAddr, arpcheck), Requesting) && r.xid == 8
  {
    var o := s.(offered := cfg);
    var c := ChangeState(o, Requesting, Plain(1002, 8, 4));
    assert c == o.(state := Requesting, cnt := 0, log := c.log);
    assert Outgoing(c.(xid := 8)).Some?;
  }

  /** The ACK is for the address asked for; with the check off it is bound. */
  lemma TakesAck(s: Client, setAddr: bool, granted: Config)
    requires Asking(s, Someone(setAddr, 0), Requesting) && s.xid == 8 && WellSized(granted) && granted.gateway == 0
    ensures Enabled(s, Acked(granted))
    ensures var r := Take(s, Acked(granted));
            && r.p == s.p && r.state == Bound && r.sockUdp == r.sockRaw == -1 && r.fds == {}
            && r.current == InForce(granted)
            && r.addrs == if setAddr && Changed(ZERO, granted) then {Netlink.Wanted(InForce(granted))} else {}
  {
    AckTaken(s.Note(Received(8, [2, 0, 0, 0, 0, 1], InForce(granted))), setAddr, InForce(granted));
  }

  lemma AckTaken(s: Client, setAddr: bool, cfg: Config)
    requires Asking(s, Someone(setAddr, 0), Requesting) && cfg.gateway == 0
    ensures var r := BindOffered(s.(offered := cfg), Plain(1003, 0, 4));
            && r.p == s.p && r.state == Bound && r.sockUdp == r.sockRaw == -1 && r.fds == {}
            && r.current == cfg
            && r.addrs == if setAddr && Changed(ZERO, cfg) then {Netlink.Wanted(cfg)} else {}
  {
  }

  /** The start of the exchange, up to the request for what was offered. */
  lemma Requests(setAddr: bool, arpcheck: nat, granted: Config) returns (s: Client)
    requires WellSized(granted)
    ensures Reachable(s) && Asking(s, Someone(setAddr, arpcheck), Requesting) && s.xid == 8
  {
    s := Start(Someone(setAddr, arpcheck), {});
    StartIsReachable(Someone(setAddr, arpcheck), {});
    Wakes(s, setAddr, arpcheck);
    StepIsReachable(s, WAKE);
    s := Take(s, WAKE);
    Discovers(s, setAddr, arpcheck);
    StepIsReachable(s, DISCOVERED);
    s := Take(s, DISCOVERED);
    TakesOffer(s, setAddr, arpcheck, granted);
    StepIsReachable(s, Offered(granted));
    s := Take(s, Offered(granted));
  }

  /** Bound by the exchange, whatever was granted, as long as there is no gateway to ask for and no address check. */
  lemma Binds(setAddr: bool, granted: Config) returns (s: Client)
    requires WellSized(granted) && granted.gateway == 0
    ensures Reachable(s) && HasLease(s)
    ensures s.p == Someone(setAddr, 0) && s.state == Bound && s.sockUdp == s.sockRaw == -1 && s.fds == {}
    ensures s.current == InForce(granted)
    ensures s.addrs == if setAddr && Changed(ZERO, granted) then {Netlink.Wanted(InForce(granted))} else {}
  {
    s := Requests(setAddr, 0, granted);
    TakesAck(s, setAddr, granted);
    StepIsReachable(s, Acked(granted));
    s := Take(s, Acked(granted));
    LeaseMeansAgreement(s);
  }

  /** With the default of two checks the same exchange ends in ARP_CHECK, the question for the address out. */
  lemma Checks(granted: Config) returns (s: Client)
    requires WellSized(granted)
    ensures Reachable(s) && s.p.arpcheck == 2 && s.state == ArpCheck && !HasLease(s)
    ensures s.log.Snoc? && s.log.last == Query(3, 0, granted.address, None)
    ensures s.toEvent == TimeVal(1003, 500_000)
  {
    s := Requests(true, 2, granted);
    ChecksAddress(s, granted);
    StepIsReachable(s, Acked(granted));
    s := Take(s, Acked(granted));
    LeaseMeansAgreement(s);
  }

  lemma ChecksAddress(s: Client, granted: Config)
    requires Asking(s, Someone(true, 2), Requesting) && s.xid == 8 && WellSized(granted)
    ensures Enabled(s, Acked(granted))
    ensures var r := Take(s, Acked(granted));
            && r.state == ArpCheck && r.toEvent == TimeVal(1003, 500_000)
            && r.log.Snoc? && r.log.last == Query(3, 0, granted.address, None)
  {
    AddressChecked(s.Note(Received(8, [2, 0, 0, 0, 0, 1], InForce(granted))), InForce(granted));
  }

  lemma AddressChecked(s: Client, cfg: Config)
    requires Asking(s, Someone(true, 2), Requesting)
    ensures var r := AcceptAck(s, cfg, Plain(1003, 0, 4));
            && r.state == ArpCheck && r.toEvent == TimeVal(1003, 500_000)
            && r.log.Snoc? && r.log.last == Query(3, 0, cfg.address, None)
  {
  }
}
