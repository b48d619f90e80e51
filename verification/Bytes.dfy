/** Octets, machine words and network byte order. */
module Bytes {
  type byte = x: int | 0 <= x < 0x100
  type u16 = x: int | 0 <= x < 0x1_0000
  type u32 = x: int | 0 <= x < 0x1_0000_0000

  /** An Ethernet hardware address. */
  type Mac = m: seq<byte> | |m| == 6 witness [0, 0, 0, 0, 0, 0]

  datatype Option<+T> = None | Some(value: T)

  /** The 16-bit word stored most significant octet first at s[i..i+2]. */
  function Read16(s: seq<byte>, i: nat): u16
    requires i + 2 <= |s|
  {
    0x100 * s[i] as int + s[i + 1]
  }

  /** The 32-bit word stored most significant octet first at s[i..i+4]. */
  function Read32(s: seq<byte>, i: nat): u32
    requires i + 4 <= |s|
  {
    0x100_0000 * s[i] as int + 0x1_0000 * s[i + 1] as int + 0x100 * s[i + 2] as int + s[i + 3]
  }

  function Bytes16(x: u16): (s: seq<byte>)
    ensures |s| == 2 && Read16(s, 0) == x
  {
    [x / 0x100, x % 0x100]
  }

  function Bytes32(x: u32): (s: seq<byte>)
    ensures |s| == 4 && Read32(s, 0) == x
  {
    [x / 0x100_0000, x / 0x1_0000 % 0x100, x / 0x100 % 0x100, x % 0x100]
  }

  function Zeros(n: nat): (s: seq<byte>)
    ensures |s| == n && forall i :: 0 <= i < n ==> s[i] == 0
  {
    seq(n, _ => 0)
  }

  /** Writes `data` over s at offset i, the effect of memcpy into a struct. */
  function Overwrite(s: seq<byte>, i: nat, data: seq<byte>): (r: seq<byte>)
    requires i + |data| <= |s|
    ensures |r| == |s| && r[i..i + |data|] == data
    ensures r[..i] == s[..i] && r[i + |data|..] == s[i + |data|..]
  {
    s[..i] + data + s[i + |data|..]
  }

  lemma SplitSlice(buf: seq<byte>, i: nat, x: seq<byte>, y: seq<byte>)
    requires i + |x| + |y| <= |buf| && buf[i..i + |x| + |y|] == x + y
    ensures buf[i..i + |x|] == x && buf[i + |x|..i + |x| + |y|] == y
  {
    var s := buf[i..i + |x| + |y|];
    assert buf[i..i + |x|] == s[..|x|];
    assert buf[i + |x|..i + |x| + |y|] == s[|x|..];
  }
}
