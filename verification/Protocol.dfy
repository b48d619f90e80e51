/**
 * The DHCP client's state machine (dhcpprotocol.c) on values: the interface
 * record, what each handler makes of it, and the history of what it did.
 */
module Protocol {
  import opened Bytes
  import opened Time
  import opened Timers
  import opened Config
  import Options
  import Netlink
  import Arp

  type Opt = Options.Opt

  datatype State =
    | Rebooting | OperDown | ArpCheckGateway | InitReboot | Init | Requesting
    | ArpCheck | Declining | Bound | Renewing | Rebinding | Releasing

  /** A host name whose length fits the octet that counts it. */
  type Name = s: seq<byte> | |s| <= 255 witness []

  /** What main() settles before the first event. */
  datatype Params = Params(
    width: Width,
    hwaddr: Mac,
    hostname: Name,
    arpcheck: nat,
    arpcheckGateway: nat,
    setGateway: bool,
    setAddr: bool)

  // ----- history -----

  datatype Event =
    /** the helper script is told of a state entered */
    | Script(state: State)
    /** a DHCP message left through socket `sock`; `held` is the address held then */
    | Sent(state: State, msgType: byte, xid: u32, ciaddr: u32, opts: seq<Opt>, addr: u32,
           sock: int, viaUdp: bool, held: u32, offer: Config)
    /** a message was asked for in a state that has none */
    | NotSent(state: State)
    /** an ARP query left; `mac` is None for a broadcast */
    | Query(sock: int, source: u32, target: u32, mac: Option<Mac>)
    /** a DHCP message meant for this client was read */
    | Received(xid: u32, chaddr: seq<byte>, cfg: Config)
    /** a configuration took effect */
    | BoundTo(cfg: Config)
    /** a default route was set */
    | Routed(gateway: u32)
    /** an ARP reply was read; `toHost` says that its frame was addressed to this host alone */
    | Heard(reply: Arp.Reply, toHost: bool)

  datatype Log = NoEvents | Snoc(past: Log, last: Event)

  /** DHCP messages sent since the last state was entered. */
  function Sends(l: Log): nat {
    match l
    case NoEvents => 0
    case Snoc(past, Script(_)) => 0
    case Snoc(past, Sent(_, _, _, _, _, _, _, _, _, _)) => Sends(past) + 1
    case Snoc(past, _) => Sends(past)
  }

  /** DHCP messages sent in all. */
  function Messages(l: Log): nat {
    match l
    case NoEvents => 0
    case Snoc(past, e) => Messages(past) + if e.Sent? then 1 else 0
  }

  /** ARP queries sent since the last state was entered. */
  function Queries(l: Log): nat {
    match l
    case NoEvents => 0
    case Snoc(past, Script(_)) => 0
    case Snoc(past, Query(_, _, _, _)) => Queries(past) + 1
    case Snoc(past, _) => Queries(past)
  }

  /** What a reply has to answer. */
  datatype Asked = Asked(xid: u32, msgType: byte)

  /** The xid and type of the most recent message sent. */
  function LastSent(l: Log): Option<Asked> {
    match l
    case NoEvents => None
    case Snoc(past, Sent(_, msgType, xid, _, _, _, _, _, _, _)) => Some(Asked(xid, msgType))
    case Snoc(past, _) => LastSent(past)
  }

  /**
   * Since the client last entered INIT, cfg came in a DHCPACK that answered
   * the most recent message sent by then, a DHCPREQUEST.
   */
  predicate AckedSinceInit(l: Log, hwaddr: Mac, cfg: Config) {
    match l
    case NoEvents => false
    case Snoc(past, Script(Init)) => false
    case Snoc(past, Received(xid, chaddr, c)) =>
      (c == cfg && c.msgType == ACK && chaddr == hwaddr && LastSent(past) == Some(Asked(xid, REQUEST)))
      || AckedSinceInit(past, hwaddr, cfg)
    case Snoc(past, _) => AckedSinceInit(past, hwaddr, cfg)
  }

  /** How often INIT was entered. */
  function Inits(l: Log): nat {
    match l
    case NoEvents => 0
    case Snoc(past, Script(Init)) => Inits(past) + 1
    case Snoc(past, _) => Inits(past)
  }

  /** Since the client last entered INIT, the gateway told this host that `mac` is its hardware address. */
  predicate LearnedSinceInit(l: Log, host: Mac, gateway: u32, mac: Mac) {
    match l
    case NoEvents => false
    case Snoc(past, Script(Init)) => false
    case Snoc(past, Heard(a, _)) =>
      (a.senderIp == gateway && a.senderMac == mac && a.targetMac == host) || LearnedSinceInit(past, host, gateway, mac)
    case Snoc(past, _) => LearnedSinceInit(past, host, gateway, mac)
  }

  /** The state INIT has been entered at least once. */
  predicate Initialised(l: Log) {
    match l
    case NoEvents => false
    case Snoc(past, e) => e == Script(Init) || Initialised(past)
  }

  // ----- the interface record -----

  datatype Client = Client(
    p: Params,
    sockUdp: int,
    sockRaw: int,
    state: State,
    cnt: nat,
    defgw: Mac,
    xid: u32,
    toEvent: TimeVal,
    t1: TimeVal,
    t2: TimeVal,
    lease: TimeVal,
    tBoundDown: TimeVal,
    offered: Config,
    current: Config,
    addrs: set<Netlink.IfAddr>,
    fds: set<int>,
    log: Log)
  {
    function Note(e: Event): Client {
      this.(log := Snoc(log, e))
    }
  }

  /** pt_init and main(): a cleared record, no sockets, whatever addresses the interface has. */
  function Start(p: Params, addrs: set<Netlink.IfAddr>): Client {
    Client(p, -1, -1, Rebooting, 0, Zeros(6), 0, CLEARED, CLEARED, CLEARED, CLEARED, CLEARED,
           ZERO, ZERO, addrs, {}, NoEvents)
  }

  predicate HasLease(s: Client) {
    IsSet(s.lease)
  }

  /** The outcome of sk_openudp. */
  datatype Attempt =
    | Refused                // socket() fails
    | SetupFails(fd: int)    // a later call fails and the descriptor is closed again
    | Opened(fd: int)

  /** What a handler draws from outside: the clock, random(), and the descriptors of a socket pair. */
  datatype Env = Env(now: TimeVal, xid: nat, backoff: nat, jitter: nat, udp: Attempt, raw: int)

  predicate FreshFd(s: Client, fd: int) {
    0 <= fd && fd !in s.fds
  }

  predicate EnvOk(s: Client, env: Env) {
    && Clock(s.p.width, env.now)
    && FreshFd(s, env.raw)
    && (env.udp.Opened? ==> FreshFd(s, env.udp.fd) && env.udp.fd != env.raw)
    && (env.udp.SetupFails? ==> FreshFd(s, env.udp.fd))
  }

  // ----- sockets -----

  function OpenUdp(s: Client, attempt: Attempt): Client {
    match attempt
    case Refused => s
    case SetupFails(fd) => s
    case Opened(fd) => s.(sockUdp := fd, fds := s.fds + {fd})
  }

  function OpenSockets(s: Client, env: Env): Client {
    var u := OpenUdp(s, env.udp);
    u.(sockRaw := env.raw, fds := u.fds + {env.raw})
  }

  function CloseSockets(s: Client): Client {
    s.(fds := s.fds - {s.sockUdp} - {s.sockRaw}, sockUdp := -1, sockRaw := -1)
  }

  // ----- messages -----

  const OPTLIST: seq<byte> := [1, 3, 6, 12, 15, 28, 51, 58, 59]

  datatype Out = Out(msgType: byte, ciaddr: u32, opts: seq<Opt>, addr: u32)

  function Word32(code: byte, value: u32): Opt {
    Options.Opt(code, Bytes32(value))
  }

  /** What a DISCOVER or REQUEST asks for besides an address. */
  function Wishes(p: Params): seq<Opt> {
    [Options.Opt(Options.OPTIONREQ, OPTLIST), Word32(Options.LEASE, 0xffff_ffff), Options.Opt(Options.HOSTNAME, p.hostname)]
  }

  /** The options that depend on the message type only. */
  function CommonOptions(p: Params, msgType: byte): seq<Opt> {
    (if msgType == DISCOVER || msgType == REQUEST then Wishes(p) else [])
    + [Options.Opt(Options.CLIENT_IDENTIFIER, [1] + p.hwaddr)]
  }

  function Compose(s: Client, msgType: byte, ciaddr: u32, extra: seq<Opt>, addr: u32): Out {
    Out(msgType, ciaddr, [Options.Opt(Options.TYPE, [msgType])] + extra + CommonOptions(s.p, msgType), addr)
  }

  /** The message of each state; `addr` is the source of a raw broadcast, the destination over UDP. */
  function Outgoing(s: Client): Option<Out> {
    var requested := Word32(Options.REQADDR, s.offered.address);
    var server := Word32(Options.SERVER, s.offered.server);
    match s.state
    case Init => Some(Compose(s, DISCOVER, 0, [], 0))
    case InitReboot => Some(Compose(s, REQUEST, 0, [requested], s.current.address))
    case Requesting => Some(Compose(s, REQUEST, 0, [requested, server], 0))
    case Renewing => Some(Compose(s, REQUEST, s.current.address, [], s.current.server))
    case Rebinding => Some(Compose(s, REQUEST, s.current.address, [], s.current.address))
    case Releasing => Some(Compose(s, RELEASE, s.current.address, [], s.current.server))
    case Declining => Some(Compose(s, DECLINE, 0, [requested, server], 0))
    case _ => None
  }

  predicate ViaUdp(s: Client) {
    s.sockUdp != -1 && (s.state == Renewing || s.state == Releasing)
  }

  function Transmit(s: Client, m: Out): Client {
    s.Note(Sent(s.state, m.msgType, s.xid, m.ciaddr, m.opts, m.addr,
                if ViaUdp(s) then s.sockUdp else s.sockRaw, ViaUdp(s), s.current.address, s.offered))
  }

  function SendMessage(s: Client, env: Env): Client {
    var r := s.(xid := env.xid % 0x1_0000_0000);
    match Outgoing(r)
    case None => r.Note(NotSent(r.state))
    case Some(m) => Transmit(r, m)
  }

  function SendQuery(s: Client, source: u32, target: u32, mac: Option<Mac>): Client {
    s.Note(Query(s.sockRaw, source, target, mac))
  }

  // ----- changing state -----

  function EnterInit(s: Client): Client {
    s.(t1 := CLEARED, t2 := CLEARED, lease := CLEARED, current := ZERO,
       addrs := if s.p.setAddr then {} else s.addrs)
    .Note(Script(Init))
  }

  /** Address, mask, broadcast or gateway differ. */
  predicate Changed(a: Config, b: Config) {
    a.address != b.address || a.netmask != b.netmask || a.broadcast != b.broadcast || a.gateway != b.gateway
  }

  /** The offered configuration is adopted and its timers are set. */
  function Adopt(s: Client, env: Env): Client {
    var c := s.offered;
    var b := BindingTimers(s.p.width, c.recvtime, c.t1, c.t2, c.lease, env.jitter);
    s.(current := c, t1 := b.t1, t2 := b.t2, lease := b.lease).Note(BoundTo(c))
  }

  /** The interface follows, if the configuration changed and setting it is the client's business. */
  function ConfigureInterface(s: Client, changed: bool): Client {
    if !changed || !s.p.setAddr then s
    else
      var r := s.(addrs := Netlink.Configured(s.addrs, Netlink.Wanted(s.current)));
      if s.p.setGateway && s.current.gateway != 0 then r.Note(Routed(s.current.gateway)) else r
  }

  /** The gateway is asked for its hardware address unless it was just verified. */
  function LearnGateway(s: Client): Client {
    if s.current.gateway != 0 && s.p.arpcheckGateway != 0 && s.state != ArpCheckGateway then
      SendQuery(s, s.current.address, s.current.gateway, None).(defgw := s.defgw[0 := 255])
    else CloseSockets(s)
  }

  function EnterBound(s: Client, env: Env): Client {
    LearnGateway(ConfigureInterface(Adopt(s, env), Changed(s.current, s.offered))).Note(Script(Bound))
  }

  /** What entering a state does, the sockets being open. */
  function Enter(s: Client, to: State, env: Env): Client {
    match to
    case Init => EnterInit(s)
    case Bound => EnterBound(s, env)
    case Rebooting => s
    case _ => s.Note(Script(to))
  }

  function ChangeState(s: Client, to: State, env: Env): Client {
    var r := Enter(if s.sockRaw == -1 then OpenSockets(s, env) else s, to, env);
    if r.state != to then r.(state := to, cnt := 0) else r
  }

  /** BOUND, to wake at T1. */
  function BindOffered(s: Client, env: Env): Client {
    var r := ChangeState(s, Bound, env);
    r.(toEvent := r.t1)
  }

  // ----- timeouts -----

  const HALF_SECOND := TimeVal(0, 500_000)

  function Bump(s: Client): Client {
    s.(cnt := s.cnt + 1)
  }

  function BackOff(s: Client, env: Env): Client {
    s.(toEvent := Backoff(s.p.width, env.now, s.cnt, env.backoff))
  }

  function InHalfASecond(s: Client, now: TimeVal): Client {
    s.(toEvent := TimerAdd(s.p.width, now, HALF_SECOND))
  }

  /** A message, then the exponential backoff with the counter advanced. */
  function SendAndBackOff(s: Client, env: Env): Client {
    BackOff(Bump(SendMessage(s, env)), env)
  }

  function ProbeGateway(s: Client): Client {
    SendQuery(s, s.current.address, s.current.gateway, Some(s.defgw))
  }

  function ProbeAddress(s: Client): Client {
    SendQuery(s, 0, s.offered.address, None)
  }

  function TimeoutRebinding(s: Client, env: Env): Client {
    if !Before(env.now, s.lease) then SendAndBackOff(ChangeState(s, Init, env), env)
    else SendMessage(s, env).(toEvent := BackoffMiddle(s.p.width, env.now, s.lease))
  }

  function TimeoutRenewing(s: Client, env: Env): Client {
    if !Before(env.now, s.t2) then TimeoutRebinding(ChangeState(s, Rebinding, env), env)
    else SendMessage(s, env).(toEvent := BackoffMiddle(s.p.width, env.now, s.t2))
  }

  function TimeoutBound(s: Client, env: Env): Client {
    if !Before(env.now, s.t1) then TimeoutRenewing(ChangeState(s, Renewing, env), env) else s
  }

  function TimeoutArpCheckGateway(s: Client, env: Env): Client {
    var b := Bump(s);
    if b.cnt >= s.p.arpcheckGateway then SendAndBackOff(ChangeState(b, InitReboot, env), env)
    else InHalfASecond(ProbeGateway(b), env.now)
  }

  function TimeoutArpCheck(s: Client, env: Env): Client {
    var b := Bump(s);
    if b.cnt >= s.p.arpcheck then BindOffered(b, env)
    else InHalfASecond(ProbeAddress(b), env.now)
  }

  function TimeoutRequesting(s: Client, env: Env): Client {
    BackOff(Bump(if s.cnt < 3 then SendMessage(s, env) else ChangeState(s, Init, env)), env)
  }

  function InSeconds(s: Client, now: TimeVal, secs: nat): Client {
    s.(toEvent := now.(sec := Wrap(s.p.width, now.sec + secs)))
  }

  function HandleTimeout(s: Client, env: Env): Client {
    if Before(env.now, s.toEvent) then s
    else match s.state
      case Rebooting => ChangeState(InSeconds(s, env.now, 1), Init, env)
      case Init => SendAndBackOff(s, env)
      case ArpCheckGateway => TimeoutArpCheckGateway(s, env)
      case InitReboot => if s.cnt != 0 then ChangeState(s, Init, env) else SendAndBackOff(s, env)
      case Requesting => TimeoutRequesting(s, env)
      case ArpCheck => TimeoutArpCheck(s, env)
      case Bound => TimeoutBound(s, env)
      case Renewing => TimeoutRenewing(s, env)
      case Rebinding => TimeoutRebinding(s, env)
      case _ => s
  }

  /** pt_nexttimeout: whether the record's to_event is waited for. */
  predicate HasTimeout(s: Client) {
    s.state != OperDown && s.state != Rebooting && s.state != Releasing && s.state != Declining
  }

  // ----- received messages -----

  /** A raw message that passed the parser, its options read. */
  datatype DhcpReply = DhcpReply(xid: u32, hlen: byte, chaddr: seq<byte>, cfg: Config)

  predicate MeantForUs(s: Client, m: DhcpReply) {
    m.xid == s.xid && m.hlen == 6 && m.chaddr == s.p.hwaddr
  }

  function AcceptOffer(s: Client, cfg: Config, env: Env): Client {
    SendAndBackOff(ChangeState(s.(offered := cfg), Requesting, env), env)
  }

  function CheckAddress(s: Client, env: Env): Client {
    InHalfASecond(ProbeAddress(ChangeState(s, ArpCheck, env)), env.now)
  }

  function AcceptAck(s: Client, cfg: Config, env: Env): Client {
    var o := s.(offered := cfg);
    if s.p.arpcheck != 0 && s.state == Requesting then CheckAddress(o, env) else BindOffered(o, env)
  }

  /** What a configuration meant for us does in the states that await an ACK. */
  function Answered(s: Client, cfg: Config, env: Env): Client {
    if cfg.msgType == ACK then AcceptAck(s, cfg, env)
    else if cfg.msgType == NAK then ChangeState(s, Init, env).(toEvent := CLEARED)
    else s
  }

  /** What a configuration meant for us does in each state. */
  function Heed(s: Client, cfg: Config, env: Env): Client {
    match s.state
    case Init => if cfg.msgType == OFFER then AcceptOffer(s, cfg, env) else s
    case Requesting | Renewing | Rebinding | InitReboot => Answered(s, cfg, env)
    case _ => s
  }

  function RecvDhcp(s: Client, reply: Option<DhcpReply>, env: Env): Client {
    if reply.None? || !MeantForUs(s, reply.value) then s
    else
      var cfg := reply.value.cfg.(recvtime := env.now);
      Heed(s.Note(Received(reply.value.xid, reply.value.chaddr, cfg)), cfg, env)
  }

  /** The address is in use: it is declined and the client starts over in ten seconds. */
  function Decline(s: Client, env: Env): Client {
    InSeconds(ChangeState(SendMessage(ChangeState(s, Declining, env), env), Init, env), env.now, 10)
  }

  predicate FromGateway(s: Client, a: Arp.Reply) {
    && s.current.gateway == a.senderIp
    && s.current.address == a.targetIp
    && a.targetMac == s.p.hwaddr
  }

  /** What an ARP reply does in each state. */
  function HeedArp(s: Client, a: Arp.Reply, toHost: bool, env: Env): Client {
    match s.state
    case ArpCheck => if toHost && a.senderIp == s.offered.address then Decline(s, env) else s
    case ArpCheckGateway => if FromGateway(s, a) && a.senderMac == s.defgw then BindOffered(s, env) else s
    case Bound => if FromGateway(s, a) then CloseSockets(s.(defgw := a.senderMac)) else s
    case _ => s
  }

  function RecvArp(s: Client, reply: Option<Arp.Reply>, toHost: bool, env: Env): Client {
    if reply.None? then s else HeedArp(s.Note(Heard(reply.value, toHost)), reply.value, toHost, env)
  }

  // ----- link state, SIGHUP, release -----

  /** The last binding is recent enough to be verified by asking its gateway. */
  predicate CanVerifyGateway(s: Client, now: TimeVal) {
    && s.p.arpcheckGateway != 0
    && s.current.gateway != 0
    && Before(now, s.t1)
    && now.sec - s.tBoundDown.sec < 60
    && s.defgw[0] != 255
  }

  function VerifyGateway(s: Client, env: Env): Client {
    InHalfASecond(ProbeGateway(ChangeState(s, ArpCheckGateway, env)), env.now)
  }

  function Reboot(s: Client, env: Env): Client {
    BackOff(SendMessage(ChangeState(s, InitReboot, env), env), env)
  }

  function StartOver(s: Client, env: Env): Client {
    BackOff(SendMessage(ChangeState(s.(toEvent := env.now), Init, env), env), env)
  }

  function OperState(s: Client, up: bool, env: Env): Client {
    if up && s.state == OperDown then
      if !HasLease(s) then StartOver(s, env)
      else if CanVerifyGateway(s, env.now) then VerifyGateway(s, env)
      else Reboot(s, env)
    else if !up && s.state != OperDown then
      ChangeState(if s.state == Bound then s.(tBoundDown := env.now) else s, OperDown, env)
    else s
  }

  function Hangup(s: Client, env: Env): Client {
    if s.state == Bound || s.state == Rebinding || s.state == Renewing then
      Reboot(s, env)
    else s
  }

  function Release(s: Client, env: Env): Client {
    if s.state == Bound then
      var r := SendMessage(ChangeState(s, Releasing, env), env);
      if s.p.setAddr then r.(addrs := {}) else r
    else s
  }

  // ----- runs -----

  /** The events of main()'s loop. */
  datatype Step =
    | Timeout
    | Dhcp(reply: Option<DhcpReply>)
    | ArpFrame(arp: Option<Arp.Reply>, toHost: bool)
    | LinkState(up: bool)
    | SigHup

  datatype Input = Input(step: Step, env: Env)

  /** A step the loop may take: frames are read only from an open raw socket. */
  predicate Enabled(s: Client, i: Input) {
    && EnvOk(s, i.env)
    && (i.step.Dhcp? || i.step.ArpFrame? ==> s.sockRaw != -1)
    && (i.step.Dhcp? && i.step.reply.Some? ==> WellSized(i.step.reply.value.cfg))
  }

  function Take(s: Client, i: Input): Client {
    match i.step
    case Timeout => HandleTimeout(s, i.env)
    case Dhcp(reply) => RecvDhcp(s, reply, i.env)
    case ArpFrame(arp, toHost) => RecvArp(s, arp, toHost, i.env)
    case LinkState(up) => OperState(s, up, i.env)
    case SigHup => Hangup(s, i.env)
  }
}
