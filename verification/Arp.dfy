/** ARP queries and replies (arp.c). */
module Arp {
  import opened Bytes

  const LENGTH := 28
  const REQUEST_OP := 1
  const REPLY_OP := 2
  const ETHERNET := 1
  const IPV4 := 0x0800

  datatype Reply = Reply(senderMac: Mac, senderIp: u32, targetMac: Mac, targetIp: u32)

  /** The octets of an ARP packet for IPv4 over Ethernet (RFC 826). */
  function Packet(op: u16, sha: Mac, spa: u32, tha: Mac, tpa: u32): (p: seq<byte>)
    ensures |p| == LENGTH
  {
    Bytes16(ETHERNET) + Bytes16(IPV4) + [6, 4] + Bytes16(op) + sha + Bytes32(spa) + tha + Bytes32(tpa)
  }

  /** A reply: IPv4 over Ethernet, at least a whole packet; an Ethernet trailer may follow. */
  function ParseReply(frame: seq<byte>): Option<Reply> {
    if |frame| < LENGTH then None
    else if Read16(frame, 0) != ETHERNET || Read16(frame, 2) != IPV4 || frame[4] != 6 || frame[5] != 4
            || Read16(frame, 6) != REPLY_OP then None
    else Some(Reply(frame[8..14], Read32(frame, 14), frame[18..24], Read32(frame, 24)))
  }

  method ArParseReply(dframe: seq<byte>, plen: nat)
    returns (ok: bool, smac: Mac, sip: u32, dmac: Mac, dip: u32)
    requires plen <= |dframe|
    ensures ok <==> ParseReply(dframe[..plen]).Some?
    ensures ok ==> ParseReply(dframe[..plen]) == Some(Reply(smac, sip, dmac, dip))
  {
    smac, sip, dmac, dip := Zeros(6), 0, Zeros(6), 0;
    if plen < LENGTH { return false, smac, sip, dmac, dip; }
    if Read16(dframe, 0) != 1 || Read16(dframe, 2) != 0x0800 || dframe[4] != 6 || dframe[5] != 4
       || Read16(dframe, 6) != 2 {
      return false, smac, sip, dmac, dip;
    }
    smac, sip, dmac, dip := dframe[8..14], Read32(dframe, 14), dframe[18..24], Read32(dframe, 24);
    assert dframe[..plen][8..14] == smac && dframe[..plen][18..24] == dmac;
    ok := true;
  }

  /** Exactly the ARP replies are parsed, and a trailer does not matter. */
  lemma ParseInvertsPacket(op: u16, sha: Mac, spa: u32, tha: Mac, tpa: u32, trailer: seq<byte>)
    ensures ParseReply(Packet(op, sha, spa, tha, tpa) + trailer)
         == if op == REPLY_OP then Some(Reply(sha, spa, tha, tpa)) else None
  {
    var p := Packet(op, sha, spa, tha, tpa);
    var f := p + trailer;
    assert forall i :: 0 <= i < LENGTH ==> f[i] == p[i];
    assert p[6..8] == Bytes16(op);
    assert Read16(f, 6) == Read16(Bytes16(op), 0) by { assert f[6] == p[6..8][0] && f[7] == p[6..8][1]; }
    assert f[8..14] == p[8..14] == sha && f[18..24] == p[18..24] == tha;
    assert p[14..18] == Bytes32(spa);
    assert p[24..] == Bytes32(tpa) == p[24..28];
    assert forall i :: 0 <= i < 4 ==> f[14 + i] == p[14..18][i] && f[24 + i] == p[24..28][i];
  }

  /** The packet of a query: the source of RFC 5227 probes is the null address. */
  method ArSendQueryIp(myIp: u32, myMac: Mac, ip: u32) returns (packet: seq<byte>)
    ensures packet == Packet(REQUEST_OP, myMac, myIp, Zeros(6), ip)
  {
    var hdr := [0, 1, 8, 0, 6, 4, 0, 1] + Zeros(20);
    hdr := Overwrite(hdr, 8, myMac);
    hdr := Overwrite(hdr, 14, Bytes32(myIp));
    hdr := Overwrite(hdr, 18, Zeros(6));
    hdr := Overwrite(hdr, 24, Bytes32(ip));
    packet := hdr;
    assert packet == Packet(REQUEST_OP, myMac, myIp, Zeros(6), ip);
  }

  /** RFC 826: the fields of a packet by their octets. */
  lemma PacketOctets(op: u16, sha: Mac, spa: u32, tha: Mac, tpa: u32)
    ensures Packet(op, sha, spa, tha, tpa)
         == [0, 1, 8, 0, 6, 4] + Bytes16(op) + sha + Bytes32(spa) + tha + Bytes32(tpa)
  {
    assert Bytes16(ETHERNET) + Bytes16(IPV4) + [6, 4] == [0, 1, 8, 0, 6, 4];
  }
}
