/** The classic BPF program sockets.c attaches to the raw socket, and what it lets through. */
module Bpf {
  import opened Bytes
  import opened Checksum
  import Arp
  import Framing

  datatype Insn =
    | LdAbs(size: nat, k: nat)          // A := packet[k..k+size]
    | LdInd(size: nat, k: nat)          // A := packet[X+k..X+k+size]
    | LdxMsh(k: nat)                    // X := 4 * (packet[k] & 15)
    | JeqK(k: nat, jt: nat, jf: nat)    // skip jt or jf instructions
    | RetK(k: nat)

  const PASS := 0xffff_ffff
  const REJECT := 0

  /** The filter of sockets.c, instruction by instruction. */
  const INSNS: seq<Insn> := [
    LdAbs(1, 9),
    JeqK(17, 2, 0),
    LdAbs(4, 2),
    JeqK(0x0800_0604, 3, 4),
    LdxMsh(0),
    LdInd(2, 0),
    JeqK(67, 0, 1),
    RetK(PASS),
    RetK(REJECT)
  ]

  /** `size` octets at i, most significant first; None beyond the packet. */
  function Load(packet: seq<byte>, i: nat, size: nat): Option<nat> {
    if i + size > |packet| then None
    else if size == 1 then Some(packet[i])
    else if size == 2 then Some(Read16(packet, i))
    else if size == 4 then Some(Read32(packet, i))
    else None
  }

  /** The machine of net/core/filter.c: a load beyond the packet rejects it. */
  function Execute(prog: seq<Insn>, packet: seq<byte>, pc: nat, a: nat, x: nat): nat
    decreases if pc < |prog| then |prog| - pc else 0
  {
    if pc >= |prog| then REJECT
    else match prog[pc]
      case LdAbs(size, k) =>
        (match Load(packet, k, size)
         case None => REJECT
         case Some(v) => Execute(prog, packet, pc + 1, v, x))
      case LdInd(size, k) =>
        (match Load(packet, x + k, size)
         case None => REJECT
         case Some(v) => Execute(prog, packet, pc + 1, v, x))
      case LdxMsh(k) =>
        (match Load(packet, k, 1)
         case None => REJECT
         case Some(v) => Execute(prog, packet, pc + 1, a, 4 * (v % 0x10)))
      case JeqK(k, jt, jf) =>
        Execute(prog, packet, pc + 1 + (if a == k then jt else jf), a, x)
      case RetK(k) => k
  }

  predicate Passes(packet: seq<byte>) {
    Execute(INSNS, packet, 0, 0, 0) == PASS
  }

  /** A UDP datagram from the server port. */
  predicate UdpFromServer(packet: seq<byte>) {
    && 10 <= |packet| && packet[9] == 17
    && 4 * (packet[0] % 0x10) + 2 <= |packet|
    && Read16(packet, 4 * (packet[0] % 0x10)) == 67
  }

  /** IPv4 over 6-octet addresses, as ARP spells it. */
  predicate ArpForIpv4(packet: seq<byte>) {
    10 <= |packet| && packet[9] != 17 && Read32(packet, 2) == 0x0800_0604
  }

  /** Exactly what the filter lets through; everything else it rejects outright. */
  lemma PassesExactly(packet: seq<byte>)
    ensures Passes(packet) <==> UdpFromServer(packet) || ArpForIpv4(packet)
    ensures Passes(packet) || Execute(INSNS, packet, 0, 0, 0) == REJECT
  {
    if |packet| >= 10 {
      var nine := packet[9] as nat;
      assert Execute(INSNS, packet, 0, 0, 0) == Execute(INSNS, packet, 1, nine, 0);
      if nine == 17 {
        UdpBranch(packet);
      } else {
        ArpBranch(packet, nine);
      }
    }
  }

  lemma UdpBranch(packet: seq<byte>)
    requires 10 <= |packet|
    ensures var h := 4 * (packet[0] % 0x10);
            Execute(INSNS, packet, 1, 17, 0) ==
              if h + 2 <= |packet| && Read16(packet, h) == 67 then PASS else REJECT
  {
    var h: nat := 4 * (packet[0] % 0x10);
    assert Execute(INSNS, packet, 1, 17, 0) == Execute(INSNS, packet, 4, 17, 0) == Execute(INSNS, packet, 5, 17, h);
    if h + 2 <= |packet| {
      var port: nat := Read16(packet, h);
      assert Execute(INSNS, packet, 5, 17, h) == Execute(INSNS, packet, 6, port, h);
      assert Execute(INSNS, packet, 6, port, h) == Execute(INSNS, packet, if port == 67 then 7 else 8, port, h);
    }
  }

  lemma ArpBranch(packet: seq<byte>, nine: nat)
    requires 10 <= |packet| && nine != 17
    ensures Execute(INSNS, packet, 1, nine, 0) == if Read32(packet, 2) == 0x0800_0604 then PASS else REJECT
  {
    var v: nat := Read32(packet, 2);
    assert Execute(INSNS, packet, 1, nine, 0) == Execute(INSNS, packet, 2, nine, 0) == Execute(INSNS, packet, 3, v, 0);
    assert Execute(INSNS, packet, 3, v, 0) == Execute(INSNS, packet, if v == 0x0800_0604 then 7 else 8, v, 0);
  }

  /** No DHCP reply is lost: whatever the slow parser accepts passed the filter. */
  lemma DhcpPasses(o: Order, buf: seq<byte>, plen: nat)
    requires Framing.Received(buf, plen) && Framing.Parse(o, buf, plen).Some?
    ensures Passes(buf[..plen])
  {
    var packet := buf[..plen];
    PassesExactly(packet);
    var h := Framing.HeaderLength(buf);
    assert packet[0] == buf[0] && packet[9] == buf[9] && packet[h] == buf[h] && packet[h + 1] == buf[h + 1];
  }

  /**
   * An ARP reply passes exactly when the second octet of its sender's hardware
   * address is not 17: that octet stands where IP has its protocol field.
   */
  lemma ArpPassesUnless17(packet: seq<byte>)
    requires Arp.ParseReply(packet).Some?
    ensures Passes(packet) <==> Arp.ParseReply(packet).value.senderMac[1] != 17
  {
    PassesExactly(packet);
    assert packet[8..14][1] == packet[9];
    assert Read16(packet, 0) == 0x100 * packet[0] as int + packet[1] == 1;
    assert packet[0] == 0 && packet[1] == 1;
    assert Read32(packet, 2) == 0x1_0000 * Read16(packet, 2) + 0x100 * packet[4] as int + packet[5];
  }
}
