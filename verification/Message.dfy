/** struct dhcp_message: the option writer, the option walker and the raw parser of dhcpmessage.c. */
module Message {
  import opened Bytes
  import opened Checksum
  import opened Options
  import opened Config
  import Framing

  /** The struct, and the memory behind it that a received message's bound may reach. */
  const MEMORY := SIZE + OPTIONS + 4 + OPTIONS

  class DhcpMessage {
    const mem: array<byte>
    var pos: nat
    var last: nat
    var overload: byte
    var block: nat

    ghost predicate Valid()
      reads this, mem
    {
      mem.Length == MEMORY
    }

    /** Where the option walk stands. */
    ghost predicate Walking()
      reads this, mem
    {
      && Valid()
      && overload <= 3
      && last <= mem.Length
      && ((block == 0 && OPTIONS + 4 <= pos && OPTIONS <= last)
          || (block == 1 && FILE <= pos && last == OPTIONS)
          || (block == 3 && SNAME <= pos && last == FILE))
    }

    ghost function Standing(): Cursor
      reads this
    {
      Cursor(pos, last, block)
    }

    /** Every option the walk will still return. */
    ghost function ToCome(): seq<Opt>
      requires Walking()
      reads this, mem
    {
      Remaining(mem[..], Standing(), overload)
    }

    /** A message on the stack: its contents are unknown. */
    constructor ()
      ensures Valid() && fresh(mem)
    {
      mem := new byte[MEMORY];
      pos, last, overload, block := 0, 0, 0, 0;
    }

    // ----- writing -----

    method Init()
      requires Valid()
      modifies this, mem
      ensures Valid() && pos == OPTIONS + 4
      ensures mem[..pos] == Zeros(OPTIONS) + COOKIE
    {
      forall i | 0 <= i < SIZE {
        mem[i] := 0;
      }
      pos, last, overload, block := 0, 0, 0, 0;
      pos := OPTIONS + 4;
      mem[OPTIONS], mem[OPTIONS + 1], mem[OPTIONS + 2], mem[OPTIONS + 3] := 99, 130, 83, 99;
    }

    /** Stores octets of the fixed header. */
    method Put(at: nat, data: seq<byte>)
      requires Valid() && at + |data| <= OPTIONS <= pos <= mem.Length
      modifies mem
      ensures mem[..pos] == Overwrite(old(mem[..pos]), at, data)
    {
      forall i | 0 <= i < |data| {
        mem[at + i] := data[i];
      }
      assert mem[..pos] == Overwrite(old(mem[..pos]), at, data);
    }

    /** Appends one option; where there is no room the source aborts, and nothing is written. */
    method AddOption(option: byte, length: byte, opt: seq<byte>) returns (done: bool)
      requires Valid() && length == |opt| && OPTIONS <= pos <= SIZE
      modifies this`pos, mem
      ensures done <==> SIZE - old(pos) >= length + 2
      ensures done ==> pos == old(pos) + 2 + length <= SIZE
                       && mem[..pos] == old(mem[..pos]) + EncodeOne(Opt(option, opt))
      ensures !done ==> pos == old(pos) && mem[..] == old(mem[..])
    {
      if SIZE - pos < length + 2 { return false; }
      var p := pos;
      mem[p] := option;
      p := p + 1;
      mem[p] := length;
      p := p + 1;
      forall i | 0 <= i < length {
        mem[p + i] := opt[i];
      }
      p := p + length;
      pos := p;
      assert mem[..pos] == old(mem[..pos]) + EncodeOne(Opt(option, opt));
      done := true;
    }

    /** Appends the end marker; the source aborts on a full field. */
    method FinishOptions() returns (done: bool)
      requires Valid() && OPTIONS <= pos <= SIZE
      modifies this`pos, mem
      ensures done <==> old(pos) < SIZE
      ensures done ==> pos == old(pos) + 1 && mem[..pos] == old(mem[..pos]) + [MARKER]
      ensures !done ==> pos == old(pos) && mem[..] == old(mem[..])
    {
      if pos == SIZE { return false; }
      mem[pos] := 255;
      pos := pos + 1;
      done := true;
    }

    // ----- walking -----

    /** The pad loop: stops on the first octet that is not padding. */
    method SkipPads(start: nat) returns (exhausted: bool, at: nat)
      requires Valid() && start < last <= mem.Length
      ensures exhausted ==> ReadBlock(mem[..], start, last) == Block([], false)
      ensures !exhausted ==> start <= at < last && mem[at] != PAD
      ensures !exhausted ==> ReadBlock(mem[..], start, last) == ReadBlock(mem[..], at, last)
    {
      at := start;
      while mem[at] == 0
        invariant start <= at < last
        invariant ReadBlock(mem[..], start, last) == ReadBlock(mem[..], at, last)
        decreases last - at
      {
        at := at + 1;
        if at >= last { return true, at; }
      }
      exhausted := false;
    }

    /** Moves on to the next overloaded block. */
    method EnterBlock() returns (at: nat)
      requires Walking() && block < overload
      modifies this`last, this`block
      ensures Walking() && Cursor(at, last, block) == NextBlock(old(block), overload)
    {
      block := block + 1;
      if overload % 2 == 1 && block % 2 == 1 {
        at := FILE;
        last := OPTIONS;
      } else {
        at := SNAME;
        last := FILE;
        block := 3;
      }
    }

    /** Skips padding and crosses end markers, up to the first octet of an option. */
    method Settle() returns (ended: bool, at: nat)
      requires Walking()
      modifies this`last, this`block
      ensures Walking()
      ensures ended ==> old(ToCome()) == []
      ensures !ended ==> BlockStart(block) <= at < last && mem[at] != PAD && mem[at] != MARKER
      ensures !ended ==> old(ToCome()) == Remaining(mem[..], Cursor(at, last, block), overload)
      ensures !ended ==> old(block) < block || (old(block) == block && pos <= at && last == old(last))
    {
      at := pos;
      ghost var m := mem[..];
      ghost var all := Remaining(m, Standing(), overload);
      if at >= last { return true, at; }
      ended, at := SkipPads(at);
      SameBlockSameWalk(m, pos, at, last, block, overload);
      if ended { return; }
      while mem[at] == 255
        invariant Walking() && BlockStart(block) <= at < last && mem[at] != PAD && !ended
        invariant old(block) <= block && (block == old(block) ==> pos <= at && last == old(last))
        invariant all == Remaining(m, Cursor(at, last, block), overload)
        decreases 3 - block
      {
        ended, at := CrossMarker(at);
        if ended { return; }
      }
    }

    /** Behind an end marker the walk goes on at the first octet of the next announced block that is not padding. */
    method CrossMarker(marker: nat) returns (ended: bool, at: nat)
      requires Walking() && marker < last && mem[marker] == MARKER
      modifies this`last, this`block
      ensures Walking()
      ensures ended ==> Remaining(mem[..], old(Cursor(marker, last, block)), overload) == []
      ensures !ended ==> old(block) < block && BlockStart(block) <= at < last && mem[at] != PAD
      ensures !ended ==>
                Remaining(mem[..], old(Cursor(marker, last, block)), overload)
                == Remaining(mem[..], Cursor(at, last, block), overload)
    {
      MarkerEndsBlock(mem[..], Cursor(marker, last, block), overload);
      if block >= overload { return true, marker; }
      at := EnterBlock();
      ghost var start := at;
      ended, at := SkipPads(at);
      SameBlockSameWalk(mem[..], start, at, last, block, overload);
    }

    /** The option found, if any, is the next of those to come and lies inside the current block. */
    method NextOption() returns (found: bool, at: nat)
      requires Walking()
      modifies this`pos, this`last, this`block
      ensures Walking()
      ensures !found ==> old(ToCome()) == []
      ensures found ==> BlockStart(block) <= at && at + 1 < last && at + 2 + mem[at + 1] == pos <= last
      ensures found ==> mem[at] != PAD && mem[at] != MARKER
      ensures found ==>
                old(ToCome()) == [OptionAt(mem[..], at)]
                               + Remaining(mem[..], Standing(), Announce(overload, OptionAt(mem[..], at)))
      ensures found ==> old(block) < block || (old(block) == block && old(pos) < pos && last == old(last))
    {
      var ended;
      ended, at := Settle();
      if ended { return false, at; }
      if at + 1 >= last { return false, at; }
      var length := mem[at + 1];
      if at + length + 2 > last { return false, at; }
      StepOver(at, length);
      found := true;
    }

    /** Leaves behind the option at `at`. */
    method StepOver(at: nat, length: byte)
      requires Walking() && BlockStart(block) <= at && at + 1 < last && mem[at] != PAD && mem[at] != MARKER
      requires length == mem[at + 1] && at + 2 + length <= last
      modifies this`pos
      ensures Walking() && pos == at + 2 + length
      ensures Remaining(mem[..], Cursor(at, last, block), overload)
           == [OptionAt(mem[..], at)] + Remaining(mem[..], Standing(), Announce(overload, OptionAt(mem[..], at)))
    {
      TakesOption(mem[..], Cursor(at, last, block), overload);
      pos := at + length + 2;
    }

    // ----- receiving -----

    /** Tests a raw frame and unpacks its message; the payload must fit the struct, as the copy presumes. */
    method ParseRaw(o: Order, dframe: seq<byte>, plen: nat) returns (ok: bool)
      requires Valid() && Framing.Received(dframe, plen) && Fits(o, dframe, plen)
      modifies this, mem
      ensures Valid()
      ensures ok <==> Framing.Parse(o, dframe, plen).Some?
      ensures ok ==> var payload := Framing.Parse(o, dframe, plen).value;
                     && OPTIONS + 4 <= |payload| <= SIZE
                     && mem[..] == Overwrite(old(mem[..]), 0, payload)
                     && Standing() == Start(payload) && overload == 0 && Walking()
      ensures ok ==> pos == 240 && block == 0 && last == 240 + |Framing.Parse(o, dframe, plen).value| + 236
    {
      ok := AcceptHeader(o, dframe, plen);
      if !ok { return; }
      var iphlen := Framing.HeaderLength(dframe);
      ok := AcceptDatagram(o, dframe, plen, iphlen);
      if !ok { return; }
      var udplen := Read16(dframe, iphlen + 4);
      if udplen - 8 < OPTIONS + 4 { return false; }
      var payload := dframe[iphlen + 8..iphlen + udplen];
      ok := Unpack(payload);
    }

    /** The copy into the struct, the test of the cookie, and the start of the walk. */
    method Unpack(payload: seq<byte>) returns (ok: bool)
      requires Valid() && OPTIONS + 4 <= |payload| <= SIZE
      modifies this, mem
      ensures Valid()
      ensures ok <==> payload[OPTIONS..OPTIONS + 4] == COOKIE
      ensures ok ==> mem[..] == Overwrite(old(mem[..]), 0, payload)
                     && Standing() == Start(payload) && overload == 0 && Walking()
    {
      Fill(payload);
      if mem[OPTIONS..OPTIONS + 4] != [99, 130, 83, 99] { return false; }
      pos := OPTIONS + 4;
      last := pos + |payload| + OPTIONS;
      overload := 0;
      block := 0;
      ok := true;
    }

    /** memcpy into the struct */
    method Fill(payload: seq<byte>)
      requires Valid() && OPTIONS + 4 <= |payload| <= SIZE
      modifies mem
      ensures mem[..] == Overwrite(old(mem[..]), 0, payload)
      ensures mem[OPTIONS..OPTIONS + 4] == payload[OPTIONS..OPTIONS + 4]
    {
      forall i | 0 <= i < |payload| {
        mem[i] := payload[i];
      }
      assert mem[..] == Overwrite(old(mem[..]), 0, payload);
    }

    /** The IP half of the test. */
    method AcceptHeader(o: Order, dframe: seq<byte>, plen: nat) returns (ok: bool)
      requires Framing.Received(dframe, plen)
      ensures ok <==> Framing.AcceptIp(o, dframe, plen)
    {
      if plen < 20 { return false; }
      var iphlen := 4 * (dframe[0] % 16);
      if dframe[0] / 16 != 4 { return false; }
      if plen < iphlen || iphlen < 20 { return false; }
      if plen < Read16(dframe, 2) { return false; }
      var checksum := InCksum(o, dframe[..iphlen], 0);
      if checksum != 0 { return false; }
      if dframe[9] != 17 { return false; }
      if Read16(dframe, 6) % 0x2000 != 0 { return false; }
      ok := true;
    }

    /** The UDP half of the test. */
    method AcceptDatagram(o: Order, dframe: seq<byte>, plen: nat, iphlen: nat) returns (ok: bool)
      requires Framing.Received(dframe, plen) && iphlen == Framing.HeaderLength(dframe) && 20 <= iphlen
      ensures ok <==> Framing.AcceptUdp(o, dframe, plen)
    {
      if Read16(dframe, iphlen) != 67 { return false; }
      if Read16(dframe, iphlen + 2) != 68 { return false; }
      var udplen := Read16(dframe, iphlen + 4);
      if iphlen + udplen > plen { return false; }
      var check := Word(o, dframe[iphlen + 6], dframe[iphlen + 7]);
      if check != 0 && check != 0xffff {
        ok := Framing.VerifyUdpChecksum(o, dframe, plen);
      } else {
        ok := true;
      }
    }

    /** One option of the switch; the overload option changes the walk itself. */
    method Absorb(before: Config, o: Opt) returns (cfg: Config)
      requires Walking() && WellSized(before)
      modifies this`overload
      ensures Walking() && WellSized(cfg) && cfg == Apply(before, o)
      ensures overload == Announce(old(overload), o)
    {
      cfg := ReadOption(before, o);
      if o.code == OVERLOAD && |o.data| == 1 && o.data[0] <= 3 {
        overload := o.data[0];
      }
    }

    /** Reads every option into a cleared configuration. */
    method ParseOptions() returns (cfg: Config)
      requires Walking()
      modifies this
      ensures cfg == Interpret(Base(Read32(mem[..], 16), Read32(mem[..], 20)), old(ToCome()))
      ensures Says(cfg, Read32(mem[..], 16), Read32(mem[..], 20), old(ToCome()))
    {
      InterpretSays(Read32(mem[..], 16), Read32(mem[..], 20), ToCome());
      cfg := ZERO;
      cfg := cfg.(address := Read32(mem[..], 16));
      cfg := cfg.(server := Read32(mem[..], 20));
      ghost var all := ToCome();
      ghost var result := Interpret(cfg, all);
      var found, at: nat := NextOption();
      while found
        invariant Walking()
        invariant !found ==> result == cfg
        invariant found ==> at + 1 < last && at + 2 + mem[at + 1] == pos <= last
        invariant WellSized(cfg)
        invariant found ==> result == Interpret(Apply(cfg, OptionAt(mem[..], at)),
                    Remaining(mem[..], Standing(), Announce(overload, OptionAt(mem[..], at))))
        decreases found, 3 - block, last - pos
      {
        cfg := Absorb(cfg, OptionAt(mem[..], at));
        ghost var rest := ToCome();
        assert result == Interpret(cfg, rest);
        found, at := NextOption();
        if found {
          ghost var next := OptionAt(mem[..], at);
          assert rest[0] == next && rest[1..] == Remaining(mem[..], Standing(), Announce(overload, next));
        }
      }
    }
  }

  /** The payload of an accepted frame fits struct dhcp_message. */
  predicate Fits(o: Order, buf: seq<byte>, plen: nat)
    requires Framing.Received(buf, plen)
  {
    Framing.AcceptIp(o, buf, plen) && Framing.AcceptUdp(o, buf, plen) ==> Framing.UdpLength(buf) <= 8 + SIZE
  }

  /** Where the walk over a received message starts; the bound lies past the data. */
  function Start(payload: seq<byte>): Cursor {
    Cursor(OPTIONS + 4, OPTIONS + 4 + |payload| + OPTIONS, 0)
  }

  /** The option switch: one case an option. */
  method ReadOption(before: Config, o: Opt) returns (cfg: Config)
    requires WellSized(before)
    ensures cfg == Apply(before, o)
  {
    cfg := before;
    var optsize := |o.data|;
    match o.code {
      case 53 =>
        if optsize == 1 { cfg := cfg.(msgType := o.data[0]); }
      case 54 =>
        if optsize == 4 { cfg := cfg.(server := Read32(o.data, 0)); }
      case 1 =>
        if optsize == 4 { cfg := cfg.(netmask := Read32(o.data, 0)); }
      case 3 =>
        if optsize >= 4 { cfg := cfg.(gateway := Read32(o.data, 0)); }
      case 6 =>
        if optsize % 4 == 0 {
          var m := optsize / 4;
          if m > MAXOPTS { m := MAXOPTS; }
          var dns := cfg.dns;
          for n := 0 to m
            invariant dns == ReadServers(before.dns, o.data, n)
          {
            dns := dns[n := Read32(o.data, 4 * n)];
          }
          cfg := cfg.(dnsNum := m, dns := dns);
        }
      case 12 =>
        if optsize >= HOST_NAME_MAX { optsize := HOST_NAME_MAX - 1; }
        cfg := cfg.(hostname := Overwrite(cfg.hostname, 0, o.data[..optsize] + [0]));
      case 15 =>
        if optsize >= HOST_NAME_MAX { optsize := HOST_NAME_MAX - 1; }
        cfg := cfg.(domainname := Overwrite(cfg.domainname, 0, o.data[..optsize] + [0]));
      case 28 =>
        if optsize == 4 { cfg := cfg.(broadcast := Read32(o.data, 0)); }
      case 51 =>
        if optsize == 4 { cfg := cfg.(lease := Read32(o.data, 0)); }
      case 58 =>
        if optsize == 4 { cfg := cfg.(t1 := Read32(o.data, 0)); }
      case 59 =>
        if optsize == 4 { cfg := cfg.(t2 := Read32(o.data, 0)); }
      case _ =>
    }
  }

  /** The walk from a position depends only on what its block holds from there on. */
  lemma SameBlockSameWalk(mem: seq<byte>, p: nat, q: nat, last: nat, block: nat, overload: byte)
    requires |mem| >= OPTIONS && last <= |mem|
    ensures ReadBlock(mem, p, last) == ReadBlock(mem, q, last) ==>
              Remaining(mem, Cursor(p, last, block), overload) == Remaining(mem, Cursor(q, last, block), overload)
    ensures ReadBlock(mem, p, last) == Block([], false) ==> Remaining(mem, Cursor(p, last, block), overload) == []
  {
  }

  function BlockStart(block: nat): nat {
    if block == 0 then OPTIONS + 4 else if block == 1 then FILE else SNAME
  }

  lemma MarkerEndsBlock(mem: seq<byte>, c: Cursor, overload: byte)
    requires |mem| >= OPTIONS && c.pos < c.last <= |mem| && mem[c.pos] == MARKER
    ensures Remaining(mem, c, overload) == AfterMarker(mem, c.block, overload)
  {
  }

  lemma TakesOption(mem: seq<byte>, c: Cursor, overload: byte)
    requires |mem| >= OPTIONS && c.pos + 1 < c.last <= |mem| && mem[c.pos] != PAD && mem[c.pos] != MARKER
    requires c.pos + 2 + mem[c.pos + 1] <= c.last
    ensures var o := OptionAt(mem, c.pos);
            Remaining(mem, c, overload) ==
              [o] + Remaining(mem, c.(pos := c.pos + 2 + mem[c.pos + 1]), Announce(overload, o))
  {
    var o := OptionAt(mem, c.pos);
    var rest := ReadBlock(mem, c.pos + 2 + mem[c.pos + 1], c.last);
    assert AnnounceAll(overload, [o] + rest.opts) == AnnounceAll(Announce(overload, o), rest.opts) by {
      assert ([o] + rest.opts)[1..] == rest.opts;
    }
  }
}
