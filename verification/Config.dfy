/** What a server's message says: struct dhcp_config and the meaning of each option in it. */
module Config {
  import opened Bytes
  import opened Time
  import opened Options

  const MAXOPTS := 3
  const HOST_NAME_MAX := 64

  const DISCOVER := 1
  const OFFER := 2
  const REQUEST := 3
  const DECLINE := 4
  const ACK := 5
  const NAK := 6
  const RELEASE := 7

  /** IPv4 addresses are numbers, most significant octet first; `dns` and the names are the C arrays. */
  datatype Config = Config(
    recvtime: TimeVal,
    server: u32,
    address: u32,
    netmask: u32,
    broadcast: u32,
    gateway: u32,
    dns: seq<u32>,
    dnsNum: nat,
    hostname: seq<byte>,
    domainname: seq<byte>,
    t1: u32,
    t2: u32,
    lease: u32,
    msgType: byte)

  /** A cleared struct. */
  const ZERO := Config(CLEARED, 0, 0, 0, 0, 0, [0, 0, 0], 0, Zeros(HOST_NAME_MAX), Zeros(HOST_NAME_MAX), 0, 0, 0, 0)

  predicate WellSized(c: Config) {
    |c.dns| == MAXOPTS && |c.hostname| == HOST_NAME_MAX && |c.domainname| == HOST_NAME_MAX
  }

  /** The first k name servers replaced by those in data. */
  function ReadServers(dns: seq<u32>, data: seq<byte>, k: nat): (r: seq<u32>)
    requires k <= |dns| && 4 * k <= |data|
    ensures |r| == |dns|
    ensures forall i :: 0 <= i < k ==> r[i] == Read32(data, 4 * i)
    ensures forall i :: k <= i < |dns| ==> r[i] == dns[i]
  {
    if k == 0 then dns else ReadServers(dns, data, k - 1)[k - 1 := Read32(data, 4 * (k - 1))]
  }

  /** A name cut to the field and terminated. */
  function ReadName(before: seq<byte>, data: seq<byte>): (r: seq<byte>)
    requires |before| == HOST_NAME_MAX
    ensures |r| == HOST_NAME_MAX
  {
    var n := if |data| >= HOST_NAME_MAX then HOST_NAME_MAX - 1 else |data|;
    Overwrite(before, 0, data[..n] + [0])
  }

  /** The effect of one option; malformed and unknown options have none. */
  function Apply(c: Config, o: Opt): (r: Config)
    requires WellSized(c)
    ensures WellSized(r)
  {
    var n := |o.data|;
    if o.code == TYPE then if n == 1 then c.(msgType := o.data[0]) else c
    else if o.code == SERVER then if n == 4 then c.(server := Read32(o.data, 0)) else c
    else if o.code == NETMASK then if n == 4 then c.(netmask := Read32(o.data, 0)) else c
    else if o.code == GATEWAY then if n >= 4 then c.(gateway := Read32(o.data, 0)) else c
    else if o.code == DNS then
      if n % 4 == 0 then
        var m := if n / 4 > MAXOPTS then MAXOPTS else n / 4;
        c.(dnsNum := m, dns := ReadServers(c.dns, o.data, m))
      else c
    else if o.code == HOSTNAME then c.(hostname := ReadName(c.hostname, o.data))
    else if o.code == DOMAIN then c.(domainname := ReadName(c.domainname, o.data))
    else if o.code == BROADCAST then if n == 4 then c.(broadcast := Read32(o.data, 0)) else c
    else if o.code == LEASE then if n == 4 then c.(lease := Read32(o.data, 0)) else c
    else if o.code == T1 then if n == 4 then c.(t1 := Read32(o.data, 0)) else c
    else if o.code == T2 then if n == 4 then c.(t2 := Read32(o.data, 0)) else c
    else c
  }

  function Interpret(c: Config, opts: seq<Opt>): (r: Config)
    requires WellSized(c)
    ensures WellSized(r)
    decreases |opts|
  {
    if opts == [] then c else Interpret(Apply(c, opts[0]), opts[1..])
  }

  /** The configuration before any option is read. */
  function Base(yiaddr: u32, siaddr: u32): Config {
    ZERO.(address := yiaddr, server := siaddr)
  }

  /** Whether option `code` of RFC 2132 may have a body of n octets. */
  predicate WellFormed(code: byte, n: nat) {
    match code
    case 53 => n == 1
    case 3 => n >= 4
    case 6 => n % 4 == 0
    case 12 | 15 => true
    case _ => n == 4
  }

  /** The body of the last well-formed option `code`. */
  function LastBody(opts: seq<Opt>, code: byte): (r: Option<seq<byte>>)
    ensures r.Some? ==> WellFormed(code, |r.value|)
    decreases |opts|
  {
    if opts == [] then None
    else
      var later := LastBody(opts[1..], code);
      if later.None? && opts[0].code == code && WellFormed(code, |opts[0].data|) then Some(opts[0].data) else later
  }

  /** The word at the head of the last option `code`, or `default`. */
  function LastWord(opts: seq<Opt>, code: byte, default: u32): u32
    requires code != 53 && code != 6 && code != 12 && code != 15
  {
    match LastBody(opts, code)
    case None => default
    case Some(data) => Read32(data, 0)
  }

  /** A C array holds a name, cut to fit and terminated. */
  predicate HoldsName(field: seq<byte>, name: seq<byte>) {
    var n := if |name| < HOST_NAME_MAX then |name| else HOST_NAME_MAX - 1;
    n < |field| && field[..n] == name[..n] && field[n] == 0
  }

  /** The first name servers listed, and how many. */
  predicate Lists(c: Config, data: seq<byte>)
    requires WellSized(c)
  {
    && c.dnsNum == (if |data| / 4 < MAXOPTS then |data| / 4 else MAXOPTS)
    && forall i :: 0 <= i < c.dnsNum ==> c.dns[i] == Read32(data, 4 * i)
  }

  /** The field a one-word option sets. */
  function WordOf(c: Config, code: byte): u32 {
    if code == SERVER then c.server
    else if code == NETMASK then c.netmask
    else if code == GATEWAY then c.gateway
    else if code == BROADCAST then c.broadcast
    else if code == LEASE then c.lease
    else if code == T1 then c.t1
    else c.t2
  }

  predicate IsWord(code: byte) {
    code == SERVER || code == NETMASK || code == GATEWAY || code == BROADCAST || code == LEASE || code == T1 || code == T2
  }

  lemma AppliesWord(c: Config, o: Opt, code: byte)
    requires WellSized(c) && IsWord(code)
    ensures WordOf(Apply(c, o), code)
         == if o.code == code && WellFormed(code, |o.data|) then Read32(o.data, 0) else WordOf(c, code)
  {
  }

  lemma {:induction false} LastWordDecides(c: Config, opts: seq<Opt>, code: byte)
    requires WellSized(c) && IsWord(code)
    ensures WordOf(Interpret(c, opts), code) == LastWord(opts, code, WordOf(c, code))
    decreases |opts|
  {
    if opts != [] {
      AppliesWord(c, opts[0], code);
      LastWordDecides(Apply(c, opts[0]), opts[1..], code);
    }
  }

  lemma {:induction false} LastTypeDecides(c: Config, opts: seq<Opt>)
    requires WellSized(c)
    ensures var r := Interpret(c, opts);
            && r.address == c.address && r.recvtime == c.recvtime
            && match LastBody(opts, TYPE)
               case None => r.msgType == c.msgType
               case Some(data) => r.msgType == data[0]
    decreases |opts|
  {
    if opts != [] {
      LastTypeDecides(Apply(c, opts[0]), opts[1..]);
    }
  }

  lemma {:induction false} LastServersDecide(c: Config, opts: seq<Opt>)
    requires WellSized(c)
    ensures var r := Interpret(c, opts);
            match LastBody(opts, DNS)
            case None => r.dns == c.dns && r.dnsNum == c.dnsNum
            case Some(data) => Lists(r, data)
    decreases |opts|
  {
    if opts != [] {
      LastServersDecide(Apply(c, opts[0]), opts[1..]);
    }
  }

  function NameOf(c: Config, code: byte): seq<byte> {
    if code == HOSTNAME then c.hostname else c.domainname
  }

  lemma AppliesName(c: Config, o: Opt, code: byte)
    requires WellSized(c) && (code == HOSTNAME || code == DOMAIN)
    ensures var after := NameOf(Apply(c, o), code);
            if o.code == code then HoldsName(after, o.data) else after == NameOf(c, code)
  {
    NameRead(NameOf(c, code), o.data);
  }

  lemma {:induction false} LastNameDecides(c: Config, opts: seq<Opt>, code: byte)
    requires WellSized(c) && (code == HOSTNAME || code == DOMAIN)
    ensures match LastBody(opts, code)
            case None => NameOf(Interpret(c, opts), code) == NameOf(c, code)
            case Some(data) => HoldsName(NameOf(Interpret(c, opts), code), data)
    decreases |opts|
  {
    if opts != [] {
      AppliesName(c, opts[0], code);
      LastNameDecides(Apply(c, opts[0]), opts[1..], code);
    }
  }

  /**
   * The configuration a list of options yields, field by field: the last
   * well-formed occurrence decides, and without one the field stays. The
   * address comes from the message, and the server address does unless an
   * option names one.
   */
  lemma LastOccurrenceDecides(c: Config, opts: seq<Opt>)
    requires WellSized(c)
    ensures var r := Interpret(c, opts);
            && r.address == c.address && r.recvtime == c.recvtime
            && r.server == LastWord(opts, SERVER, c.server)
            && r.netmask == LastWord(opts, NETMASK, c.netmask)
            && r.gateway == LastWord(opts, GATEWAY, c.gateway)
            && r.broadcast == LastWord(opts, BROADCAST, c.broadcast)
            && r.lease == LastWord(opts, LEASE, c.lease)
            && r.t1 == LastWord(opts, T1, c.t1)
            && r.t2 == LastWord(opts, T2, c.t2)
    ensures match LastBody(opts, TYPE)
            case None => Interpret(c, opts).msgType == c.msgType
            case Some(data) => Interpret(c, opts).msgType == data[0]
    ensures match LastBody(opts, DNS)
            case None => Interpret(c, opts).dns == c.dns && Interpret(c, opts).dnsNum == c.dnsNum
            case Some(data) => Lists(Interpret(c, opts), data)
    ensures match LastBody(opts, HOSTNAME)
            case None => Interpret(c, opts).hostname == c.hostname
            case Some(data) => HoldsName(Interpret(c, opts).hostname, data)
    ensures match LastBody(opts, DOMAIN)
            case None => Interpret(c, opts).domainname == c.domainname
            case Some(data) => HoldsName(Interpret(c, opts).domainname, data)
  {
    LastTypeDecides(c, opts);
    LastServersDecide(c, opts);
    LastNameDecides(c, opts, HOSTNAME);
    LastNameDecides(c, opts, DOMAIN);
    LastWordDecides(c, opts, SERVER);
    LastWordDecides(c, opts, NETMASK);
    LastWordDecides(c, opts, GATEWAY);
    LastWordDecides(c, opts, BROADCAST);
    LastWordDecides(c, opts, LEASE);
    LastWordDecides(c, opts, T1);
    LastWordDecides(c, opts, T2);
  }

  lemma NameRead(before: seq<byte>, data: seq<byte>)
    requires |before| == HOST_NAME_MAX
    ensures HoldsName(ReadName(before, data), data)
  {
    var n := if |data| >= HOST_NAME_MAX then HOST_NAME_MAX - 1 else |data|;
    var r := ReadName(before, data);
    var written := data[..n] + [0];
    assert r[0..0 + |written|] == written;
    assert r[..n] == r[0..|written|][..n];
    assert r[n] == r[0..|written|][n];
  }

  /**
   * What a message with these two addresses and these options says: each field
   * by its option number in RFC 2132, and zero without a well-formed one.
   */
  predicate Says(r: Config, yiaddr: u32, siaddr: u32, opts: seq<Opt>)
    requires WellSized(r)
  {
    && r.address == yiaddr
    && r.server == LastWord(opts, 54, siaddr)
    && r.netmask == LastWord(opts, 1, 0)
    && r.gateway == LastWord(opts, 3, 0)
    && r.broadcast == LastWord(opts, 28, 0)
    && r.lease == LastWord(opts, 51, 0)
    && r.t1 == LastWord(opts, 58, 0)
    && r.t2 == LastWord(opts, 59, 0)
    && r.recvtime == TimeVal(0, 0)
    && (match LastBody(opts, 53)
        case None => r.msgType == 0
        case Some(data) => r.msgType == data[0])
    && (match LastBody(opts, 6)
        case None => r.dnsNum == 0 && r.dns == [0, 0, 0]
        case Some(data) => Lists(r, data))
    && NameSaid(r.hostname, LastBody(opts, 12))
    && NameSaid(r.domainname, LastBody(opts, 15))
  }

  predicate NameSaid(field: seq<byte>, name: Option<seq<byte>>) {
    match name
    case None => field == Zeros(64)
    case Some(data) => HoldsName(field, data)
  }

  lemma InterpretSays(yiaddr: u32, siaddr: u32, opts: seq<Opt>)
    ensures Says(Interpret(Base(yiaddr, siaddr), opts), yiaddr, siaddr, opts)
  {
    LastOccurrenceDecides(Base(yiaddr, siaddr), opts);
  }
}
