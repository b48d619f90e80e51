/** From a list of options through writer, frame, network, parser and walker, back to the same list. */
module RoundTrip {
  import opened Bytes
  import opened Checksum
  import opened Options
  import Framing
  import Message

  /** The message the writer leaves: fixed header, cookie, options, end marker. */
  function Written(header: seq<byte>, opts: seq<Opt>): seq<byte>
    requires AllEncodable(opts)
  {
    header + COOKIE + Encode(opts) + [MARKER]
  }

  /** Option lists that do not announce overloaded fields and fit the option field. */
  predicate Sendable(header: seq<byte>, opts: seq<Opt>) {
    && |header| == OPTIONS
    && AllEncodable(opts)
    && (forall i :: 0 <= i < |opts| ==> opts[i].code != OVERLOAD)
    && |Written(header, opts)| <= SIZE
  }

  /** Where the options and their end marker lie. */
  lemma WrittenLayout(header: seq<byte>, opts: seq<Opt>, mem: seq<byte>)
    requires |header| == OPTIONS && AllEncodable(opts) && Written(header, opts) <= mem
    ensures var n := |Encode(opts)|;
            && |Written(header, opts)| == OPTIONS + 5 + n
            && mem[OPTIONS + 4..OPTIONS + 4 + n] == Encode(opts)
            && mem[OPTIONS + 4 + n] == MARKER
  {
    var msg, n := Written(header, opts), |Encode(opts)|;
    assert mem[OPTIONS + 4..OPTIONS + 4 + n] == msg[OPTIONS + 4..OPTIONS + 4 + n] == Encode(opts);
    assert mem[OPTIONS + 4 + n] == msg[OPTIONS + 4 + n] == MARKER;
  }

  lemma WalkWritten(header: seq<byte>, opts: seq<Opt>, mem: seq<byte>, last: nat)
    requires Sendable(header, opts) && Written(header, opts) <= mem
    requires |Written(header, opts)| <= last <= |mem|
    ensures Remaining(mem, Cursor(OPTIONS + 4, last, 0), 0) == opts
    ensures MessageOptions(mem, last) == opts
  {
    WrittenLayout(header, opts, mem);
    ReadEncoded(mem, OPTIONS + 4, last, opts);
    NothingAnnounced(0, opts);
    WalkIsMessageOptions(mem, last);
  }

  /**
   * Hosts of any byte order, any addresses, any header, any contents of the
   * receive buffer behind the frame and of the memory behind the message: the
   * frame is accepted, the header survives and the walk yields exactly opts.
   */
  lemma EndToEnd(sender: Order, receiver: Order, from: seq<byte>, header: seq<byte>, opts: seq<Opt>,
                 buf: seq<byte>, stack: seq<byte>)
    requires Framing.IsAddr(from) && Sendable(header, opts)
    requires |buf| == Framing.ETH_DATA_LEN && |stack| == Message.MEMORY
    requires Framing.ExchangePorts(Framing.Frame(sender, from, Written(header, opts))) <= buf
    ensures var plen := Framing.HEADERS + |Written(header, opts)|;
            && Message.Fits(receiver, buf, plen)
            && Framing.Parse(receiver, buf, plen) == Some(Written(header, opts))
    ensures var mem := Overwrite(stack, 0, Written(header, opts));
            && mem[..OPTIONS] == header
            && Remaining(mem, Message.Start(Written(header, opts)), 0) == opts
            && MessageOptions(mem, Message.Start(Written(header, opts)).last) == opts
  {
    var msg := Written(header, opts);
    assert msg[OPTIONS..OPTIONS + 4] == COOKIE;
    Framing.ParseExchanged(sender, receiver, from, msg, buf);
    var mem := Overwrite(stack, 0, msg);
    assert msg <= mem;
    assert mem[..OPTIONS] == msg[..OPTIONS] == header;
    WalkWritten(header, opts, mem, Message.Start(msg).last);
  }

  /** The stored bound lies past the data; for options closed by a marker the exact bound reads the same. */
  lemma StoredBoundHarmless(mem: seq<byte>, payload: seq<byte>)
    requires payload <= mem && OPTIONS + 4 <= |payload| <= SIZE && |mem| == Message.MEMORY
    requires ReadBlock(mem, OPTIONS + 4, |payload|).marked
    ensures MessageOptions(mem, Message.Start(payload).last) == MessageOptions(mem, |payload|)
  {
    MarkedBlockIgnoresBound(mem, OPTIONS + 4, |payload|, mem, Message.Start(payload).last);
  }
}
