/**
 * DHCP options as a language: how a list of options is laid out (RFC 2132
 * section 2) and which options a message carries when the option field is
 * overloaded into `file` and `sname` (RFC 2131 section 4.1, RFC 2132 9.3).
 */
module Options {
  import opened Bytes

  const PAD := 0
  const NETMASK := 1
  const GATEWAY := 3
  const DNS := 6
  const HOSTNAME := 12
  const DOMAIN := 15
  const BROADCAST := 28
  const REQADDR := 50
  const LEASE := 51
  const OVERLOAD := 52
  const TYPE := 53
  const SERVER := 54
  const OPTIONREQ := 55
  const T1 := 58
  const T2 := 59
  const CLIENT_IDENTIFIER := 61
  const MARKER := 255

  // Offsets in the message, counted from its `op` octet.
  const SNAME := 44
  const FILE := 108
  const OPTIONS := 236
  const SIZE := 748
  const COOKIE: seq<byte> := [99, 130, 83, 99]

  datatype Opt = Opt(code: byte, data: seq<byte>)

  predicate Encodable(o: Opt) {
    o.code != PAD && o.code != MARKER && |o.data| <= 255
  }

  predicate AllEncodable(opts: seq<Opt>) {
    forall i :: 0 <= i < |opts| ==> Encodable(opts[i])
  }

  function EncodeOne(o: Opt): (s: seq<byte>)
    requires |o.data| <= 255
    ensures |s| == 2 + |o.data|
  {
    [o.code, |o.data|] + o.data
  }

  function Encode(opts: seq<Opt>): seq<byte>
    requires forall i :: 0 <= i < |opts| ==> |opts[i].data| <= 255
  {
    if opts == [] then [] else EncodeOne(opts[0]) + Encode(opts[1..])
  }

  lemma {:induction false} EncodeAppend(opts: seq<Opt>, o: Opt)
    requires forall i :: 0 <= i < |opts| ==> |opts[i].data| <= 255
    requires |o.data| <= 255
    ensures Encode(opts + [o]) == Encode(opts) + EncodeOne(o)
  {
    if opts == [] {
      assert Encode([o]) == EncodeOne(o) + Encode([o][1..]);
    } else {
      EncodeAppend(opts[1..], o);
      assert (opts + [o])[1..] == opts[1..] + [o];
    }
  }

  // ----- one block -----

  /** The options of one block and whether an end marker closes it. */
  datatype Block = Block(opts: seq<Opt>, marked: bool)

  function ReadBlock(mem: seq<byte>, pos: nat, last: nat): Block
    requires last <= |mem|
    decreases last - pos
  {
    if pos >= last then Block([], false)
    else if mem[pos] == PAD then ReadBlock(mem, pos + 1, last)
    else if mem[pos] == MARKER then Block([], true)
    else if pos + 1 >= last || pos + 2 + mem[pos + 1] > last then Block([], false)
    else
      var rest := ReadBlock(mem, pos + 2 + mem[pos + 1], last);
      Block([OptionAt(mem, pos)] + rest.opts, rest.marked)
  }

  function OptionAt(mem: seq<byte>, pos: nat): Opt
    requires pos + 1 < |mem| && pos + 2 + mem[pos + 1] <= |mem|
  {
    Opt(mem[pos], mem[pos + 2..pos + 2 + mem[pos + 1]])
  }

  // ----- overload -----

  /** The overload announced so far, after one more option. */
  function Announce(overload: byte, o: Opt): byte {
    if o.code == OVERLOAD && |o.data| == 1 && o.data[0] <= 3 then o.data[0] else overload
  }

  function AnnounceAll(overload: byte, opts: seq<Opt>): byte
    decreases |opts|
  {
    if opts == [] then overload else AnnounceAll(Announce(overload, opts[0]), opts[1..])
  }

  /** Where the walk stands: block 0 is `options`, 1 is `file`, 3 is `sname`. */
  datatype Cursor = Cursor(pos: nat, last: nat, block: nat)

  /** The block after `block`: `file` if announced and not yet read, else `sname`. */
  function NextBlock(block: nat, overload: byte): Cursor {
    if block == 0 && overload % 2 == 1 then Cursor(FILE, OPTIONS, 1) else Cursor(SNAME, FILE, 3)
  }

  /** The rest of the walk after an end marker. */
  function AfterMarker(mem: seq<byte>, block: nat, overload: byte): seq<Opt>
    requires |mem| >= OPTIONS
    decreases 3 - block, 0
  {
    if block >= overload || block >= 3 then [] else Remaining(mem, NextBlock(block, overload), overload)
  }

  /** Every option still to be returned when the walk stands at c. */
  function Remaining(mem: seq<byte>, c: Cursor, overload: byte): seq<Opt>
    requires |mem| >= OPTIONS && c.last <= |mem|
    decreases 3 - c.block, 1
  {
    var b := ReadBlock(mem, c.pos, c.last);
    b.opts + if b.marked then AfterMarker(mem, c.block, AnnounceAll(overload, b.opts)) else []
  }

  /**
   * RFC 2131 section 4.1: the options field first, then `file`, then `sname`,
   * each at most once and only as the overload option announces.
   */
  function MessageOptions(mem: seq<byte>, last: nat): seq<Opt>
    requires OPTIONS <= last <= |mem|
  {
    var inOptions := ReadBlock(mem, 240, last);
    var inFile := ReadBlock(mem, 108, 236);
    var inSname := ReadBlock(mem, 44, 108);
    var first := AnnounceAll(0, inOptions.opts);
    var second := AnnounceAll(first, inFile.opts);
    if !inOptions.marked || first == 0 then inOptions.opts
    else if first == 2 then inOptions.opts + inSname.opts
    else if !inFile.marked || second < 2 then inOptions.opts + inFile.opts
    else inOptions.opts + inFile.opts + inSname.opts
  }

  lemma {:induction false} AnnounceBounded(overload: byte, opts: seq<Opt>)
    requires overload <= 3
    ensures AnnounceAll(overload, opts) <= 3
    decreases |opts|
  {
    if opts != [] {
      AnnounceBounded(Announce(overload, opts[0]), opts[1..]);
    }
  }

  lemma SnameIsLast(mem: seq<byte>, overload: byte)
    requires |mem| >= OPTIONS
    ensures Remaining(mem, Cursor(SNAME, FILE, 3), overload) == ReadBlock(mem, SNAME, FILE).opts
  {
  }

  lemma FileThenSname(mem: seq<byte>, overload: byte)
    requires |mem| >= OPTIONS && overload <= 3
    ensures var inFile := ReadBlock(mem, FILE, OPTIONS);
            Remaining(mem, Cursor(FILE, OPTIONS, 1), overload) ==
              inFile.opts + if inFile.marked && AnnounceAll(overload, inFile.opts) >= 2
                            then ReadBlock(mem, SNAME, FILE).opts else []
  {
    var inFile := ReadBlock(mem, FILE, OPTIONS);
    var second := AnnounceAll(overload, inFile.opts);
    SnameIsLast(mem, second);
    assert AfterMarker(mem, 1, second) == if second >= 2 then ReadBlock(mem, SNAME, FILE).opts else [];
  }

  /** The walk from the start of a received message is the order the RFC prescribes. */
  lemma WalkIsMessageOptions(mem: seq<byte>, last: nat)
    requires OPTIONS <= last <= |mem|
    ensures Remaining(mem, Cursor(OPTIONS + 4, last, 0), 0) == MessageOptions(mem, last)
  {
    var inOptions := ReadBlock(mem, OPTIONS + 4, last);
    var first := AnnounceAll(0, inOptions.opts);
    AnnounceBounded(0, inOptions.opts);
    if inOptions.marked {
      MarkerOfOptions(mem, inOptions.opts, first);
    }
  }

  lemma MarkerOfOptions(mem: seq<byte>, opts: seq<Opt>, first: byte)
    requires |mem| >= OPTIONS && first <= 3
    ensures var inFile, inSname := ReadBlock(mem, FILE, OPTIONS), ReadBlock(mem, SNAME, FILE);
            opts + AfterMarker(mem, 0, first) ==
              if first == 0 then opts
              else if first == 2 then opts + inSname.opts
              else if !inFile.marked || AnnounceAll(first, inFile.opts) < 2 then opts + inFile.opts
              else opts + inFile.opts + inSname.opts
  {
    SnameIsLast(mem, first);
    FileThenSname(mem, first);
  }

  lemma SameOption(mem: seq<byte>, pos: nat, last: nat, mem': seq<byte>)
    requires last <= |mem| && last <= |mem'| && mem[..last] == mem'[..last]
    requires pos + 1 < last && pos + 2 + mem[pos + 1] <= last
    ensures mem'[pos + 1] == mem[pos + 1] && OptionAt(mem', pos) == OptionAt(mem, pos)
  {
    var s, next := mem[..last], pos + 2 + mem[pos + 1];
    assert mem[pos] == s[pos] == mem'[pos];
    assert mem[pos + 1] == s[pos + 1] == mem'[pos + 1];
    assert mem[pos + 2..next] == s[pos + 2..next] == mem'[pos + 2..next];
  }

  /** A block closed by its marker reads the same however far its bound lies past the marker. */
  lemma {:induction false} MarkedBlockIgnoresBound(mem: seq<byte>, pos: nat, last: nat, mem': seq<byte>, last': nat)
    requires last <= last' && last <= |mem| && last' <= |mem'| && mem[..last] == mem'[..last]
    requires ReadBlock(mem, pos, last).marked
    ensures ReadBlock(mem', pos, last') == ReadBlock(mem, pos, last)
    decreases last - pos
  {
    assert mem[pos] == mem[..last][pos] == mem'[..last][pos] == mem'[pos];
    if mem[pos] == PAD {
      MarkedBlockIgnoresBound(mem, pos + 1, last, mem', last');
    } else if mem[pos] != MARKER {
      SameOption(mem, pos, last, mem');
      MarkedBlockIgnoresBound(mem, pos + 2 + mem[pos + 1], last, mem', last');
    }
  }

  lemma ReadsOne(mem: seq<byte>, pos: nat, o: Opt)
    requires |o.data| <= 255 && pos + 2 + |o.data| <= |mem|
    requires mem[pos..pos + 2 + |o.data|] == EncodeOne(o)
    ensures mem[pos] == o.code && mem[pos + 1] == |o.data| && OptionAt(mem, pos) == o
  {
    var s := mem[pos..pos + 2 + |o.data|];
    assert mem[pos] == s[0] && mem[pos + 1] == s[1];
    assert mem[pos + 2..pos + 2 + |o.data|] == s[2..];
  }

  /** An option that stands at pos is the next one read. */
  lemma ReadStep(mem: seq<byte>, pos: nat, last: nat, o: Opt, next: nat)
    requires Encodable(o) && next == pos + 2 + |o.data| <= last <= |mem|
    requires mem[pos..next] == EncodeOne(o)
    ensures ReadBlock(mem, pos, last)
         == var rest := ReadBlock(mem, next, last); Block([o] + rest.opts, rest.marked)
  {
    ReadsOne(mem, pos, o);
  }

  /** Reading back what was written: the marker ends the block, whatever follows. */
  lemma {:induction false} ReadEncoded(mem: seq<byte>, pos: nat, last: nat, opts: seq<Opt>)
    requires AllEncodable(opts)
    requires pos + |Encode(opts)| < last <= |mem|
    requires mem[pos..pos + |Encode(opts)|] == Encode(opts) && mem[pos + |Encode(opts)|] == MARKER
    ensures ReadBlock(mem, pos, last) == Block(opts, true)
    decreases |opts|
  {
    if opts != [] {
      var first, rest := opts[0], opts[1..];
      var next := pos + |EncodeOne(first)|;
      assert Encode(opts) == EncodeOne(first) + Encode(rest);
      SplitSlice(mem, pos, EncodeOne(first), Encode(rest));
      ReadStep(mem, pos, last, first, next);
      ReadEncoded(mem, next, last, rest);
      assert [first] + rest == opts;
    }
  }

  lemma {:induction false} NothingAnnounced(overload: byte, opts: seq<Opt>)
    requires forall i :: 0 <= i < |opts| ==> opts[i].code != OVERLOAD
    ensures AnnounceAll(overload, opts) == overload
    decreases |opts|
  {
    if opts != [] {
      assert opts[0].code != OVERLOAD;
      NothingAnnounced(overload, opts[1..]);
    }
  }

  /** The overload in force is the last well-formed announcement of option 52 (RFC 2132 section 9.3). */
  lemma {:induction false} LastAnnouncement(overload: byte, opts: seq<Opt>, o: Opt)
    ensures AnnounceAll(overload, opts + [o])
         == if o.code == 52 && |o.data| == 1 && o.data[0] <= 3 then o.data[0] else AnnounceAll(overload, opts)
    decreases |opts|
  {
    if opts == [] {
      assert [o][1..] == [];
    } else {
      assert (opts + [o])[1..] == opts[1..] + [o];
      LastAnnouncement(Announce(overload, opts[0]), opts[1..], o);
    }
  }

  /** Options with `pads[i]` octets of padding in front of the i-th, and the end marker. */
  function Padded(pads: seq<nat>, opts: seq<Opt>): seq<byte>
    requires |pads| == |opts| && forall i :: 0 <= i < |opts| ==> |opts[i].data| <= 255
  {
    if opts == [] then [255] else (Zeros(pads[0]) + EncodeOne(opts[0])) + Padded(pads[1..], opts[1..])
  }

  lemma {:induction false} PadsSkipped(mem: seq<byte>, pos: nat, last: nat, n: nat)
    requires pos + n <= last <= |mem| && mem[pos..pos + n] == Zeros(n)
    ensures ReadBlock(mem, pos, last) == ReadBlock(mem, pos + n, last)
    decreases n
  {
    if n > 0 {
      assert mem[pos] == mem[pos..pos + n][0];
      assert mem[pos + 1..pos + n] == mem[pos..pos + n][1..] == Zeros(n - 1);
      PadsSkipped(mem, pos + 1, last, n - 1);
    }
  }

  lemma ReadPaddedOne(mem: seq<byte>, pos: nat, last: nat, n: nat, o: Opt, next: nat)
    requires Encodable(o) && next == pos + n + 2 + |o.data| <= last <= |mem|
    requires mem[pos..next] == Zeros(n) + EncodeOne(o)
    ensures ReadBlock(mem, pos, last)
         == var rest := ReadBlock(mem, next, last); Block([o] + rest.opts, rest.marked)
  {
    SplitSlice(mem, pos, Zeros(n), EncodeOne(o));
    PadsSkipped(mem, pos, last, n);
    ReadStep(mem, pos + n, last, o, next);
  }

  /** RFC 2132 section 3.1: padding between options is not seen. */
  lemma {:induction false} ReadPadded(mem: seq<byte>, pos: nat, last: nat, pads: seq<nat>, opts: seq<Opt>)
    requires AllEncodable(opts) && |pads| == |opts|
    requires pos + |Padded(pads, opts)| <= last <= |mem|
    requires mem[pos..pos + |Padded(pads, opts)|] == Padded(pads, opts)
    ensures ReadBlock(mem, pos, last) == Block(opts, true)
    decreases |opts|
  {
    if opts == [] {
      assert mem[pos] == mem[pos..pos + 1][0];
    } else {
      var one, rest := Zeros(pads[0]) + EncodeOne(opts[0]), Padded(pads[1..], opts[1..]);
      SplitSlice(mem, pos, one, rest);
      ReadPaddedOne(mem, pos, last, pads[0], opts[0], pos + |one|);
      ReadPadded(mem, pos + |one|, last, pads[1..], opts[1..]);
      assert [opts[0]] + opts[1..] == opts;
    }
  }
}
