/** Bytes, addresses and the fixed-width big-endian fields the wire formats share. */
module Bytes {

  type byte = x: int | 0 <= x < 256
  type uint16 = x: int | 0 <= x < 0x1_0000
  type uint32 = x: int | 0 <= x < 0x1_0000_0000

  /** A hardware address. */
  type Mac = s: seq<byte> | |s| == 6 witness [0, 0, 0, 0, 0, 0]

  datatype Option<+T> = None | Some(value: T)

  function Min(a: int, b: int): int {
    if a <= b then a else b
  }

  /** copy() into a six-byte field that starts out zero. */
  function Padded(src: seq<byte>): (m: Mac)
  {
    if |src| >= 6 then src[..6] else src + seq(6 - |src|, _ => 0)
  }

  /** Six bytes of the source, or all of it and then zeros. */
  lemma PaddedBytes(src: seq<byte>, i: nat)
    requires i < 6
    ensures Padded(src)[i] == if i < |src| then src[i] else 0
  {
  }

  lemma {:induction false} SubsetSize<T>(a: set<T>, b: set<T>)
    requires a <= b
    ensures |a| <= |b|
    decreases |a|
  {
    if a != {} {
      var x :| x in a;
      SubsetSize(a - {x}, b - {x});
    }
  }

  // ------------------------------------------------------------ big-endian fields

  function Be16(x: uint16): (b: seq<byte>)
    ensures |b| == 2
  {
    [x / 256, x % 256]
  }

  function Un16(b: seq<byte>): uint16
    requires |b| == 2
  {
    (b[0] as int) * 256 + b[1] as int
  }

  function Be32(x: uint32): (b: seq<byte>)
    ensures |b| == 4
  {
    Be16(x / 0x1_0000) + Be16(x % 0x1_0000)
  }

  function Un32(b: seq<byte>): uint32
    requires |b| == 4
  {
    (Un16(b[..2]) as int) * 0x1_0000 + Un16(b[2..]) as int
  }

  /** Network order: the most significant byte comes first. */
  lemma NetworkOrder(x: uint32, y: uint16)
    ensures var b := Be32(x);
            x == (b[0] as int) * 0x100_0000 + (b[1] as int) * 0x1_0000 + (b[2] as int) * 256 + b[3] as int
    ensures var b := Be16(y); y == (b[0] as int) * 256 + b[1] as int
  {
  }

  lemma Un16Be16(x: uint16)
    ensures Un16(Be16(x)) == x
  {
  }

  lemma Be16Un16(b: seq<byte>)
    requires |b| == 2
    ensures Be16(Un16(b)) == b
  {
  }

  lemma Un32Be32(x: uint32)
    ensures Un32(Be32(x)) == x
  {
    var b := Be32(x);
    assert b[..2] == Be16(x / 0x1_0000) && b[2..] == Be16(x % 0x1_0000);
  }

  lemma Be32Un32(b: seq<byte>)
    requires |b| == 4
    ensures Be32(Un32(b)) == b
  {
    hide Un16, Be16;
    Be16Un16(b[..2]);
    Be16Un16(b[2..]);
    var hi: int, lo: int := Un16(b[..2]), Un16(b[2..]);
    assert (hi * 0x1_0000 + lo) / 0x1_0000 == hi && (hi * 0x1_0000 + lo) % 0x1_0000 == lo;
    assert b[..2] + b[2..] == b;
  }
}
