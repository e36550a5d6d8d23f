/** The byte type of Go, and the pieces of Go's `bytes` package and of its
    conversions that the codec relies on. A Go `string` is an immutable
    sequence of bytes, so it is modelled as `seq<byte>` as well. */
module Bytes {

  /** Go's `byte` (an alias of `uint8`). */
  type byte = bv8

  /** Go's `bytes.IndexByte(s, c)`: the index of the first occurrence of `c`
      in `s`, or -1 when `c` does not occur in `s`. */
  function IndexByte(s: seq<byte>, c: byte): (r: int)
    ensures -1 <= r < |s|
    ensures r == -1 <==> c !in s
    ensures 0 <= r ==> s[r] == c && forall j :: 0 <= j < r ==> s[j] != c
  {
    if |s| == 0 then -1
    else if s[0] == c then 0
    else
      var k := IndexByte(s[1..], c);
      if k == -1 then -1 else k + 1
  }

  /** Go's conversion `byte(x)` of an `int`: keeps the low eight bits of the
      two's-complement representation, so that `byte(-1)` is `0xff`. */
  function ToByte(x: int): (b: byte)
    ensures 0 <= x < 256 ==> b as int == x
    ensures x == -1 ==> b == 0xff
  {
    var b := ByteOfNat(x % 256);
    assert x == -1 ==> b == 0xff by {
      // byte(-1) has value 255, whose bit pattern is 0xff.
      if x == -1 { SameValue(b, 0xff); }
    }
    b
  }

  /** The byte whose value is `x`, built bit by bit from the most
      significant end. */
  function ByteOfNat(x: nat): (b: byte)
    requires x < 256
    ensures b as int == x
  {
    if x == 0 then 0
    else
      var bit: byte := if x % 2 == 1 then 1 else 0;
      AppendBit(ByteOfNat(x / 2), bit);
      (ByteOfNat(x / 2) << 1) | bit
  }

  /** Shifting a bit in on the right doubles the value and adds the bit. */
  lemma AppendBit(h: byte, bit: byte)
    requires h < 128 && bit < 2
    ensures ((h << 1) | bit) as int == 2 * h as int + bit as int
  {
  }

  /** Two bytes with the same numeric value are the same byte. */
  lemma SameValue(a: byte, b: byte)
    requires a as int == b as int
    ensures a == b
  {
  }

  /** The bytes of a Go string literal made of ASCII characters, i.e. what
      `[]byte("...")` yields for such a literal. */
  function Ascii(s: string): (b: seq<byte>)
    requires forall i :: 0 <= i < |s| ==> s[i] as int < 128
    ensures |b| == |s|
    ensures forall i :: 0 <= i < |s| ==> b[i] as int == s[i] as int
  {
    seq(|s|, i requires 0 <= i < |s| => AsciiByte(s[i]))
  }

  /** The byte of an ASCII character. */
  function AsciiByte(ch: char): (b: byte)
    requires ch as int < 128
    ensures b as int == ch as int
  {
    ByteOfNat(ch as int)
  }

  /** Go's `binary.BigEndian.PutUint64`: the eight bytes of `n`, most
      significant first. */
  function BigEndian(n: bv64): (b: seq<byte>)
    ensures |b| == 8
    ensures FromBigEndian(b) == n
  {
    seq(8, i requires 0 <= i < 8 => ByteAt(n, i))
  }

  /** Byte `i` of `n` in big-endian order: bits 63-8i down to 56-8i. */
  function ByteAt(n: bv64, i: nat): byte
    requires i < 8
  {
    var s := match i
      case 0 => n >> 56 case 1 => n >> 48 case 2 => n >> 40 case 3 => n >> 32
      case 4 => n >> 24 case 5 => n >> 16 case 6 => n >> 8  case _ => n;
    (s & 0xff) as byte
  }

  /** Go's `binary.BigEndian.Uint64`: the number whose big-endian bytes are
      `b[0..8]`. */
  function FromBigEndian(b: seq<byte>): (n: bv64)
    requires |b| == 8
    ensures forall i :: 0 <= i < 8 ==> ByteAt(n, i) == b[i]
  {
    (b[0] as bv64 << 56) | (b[1] as bv64 << 48) | (b[2] as bv64 << 40) | (b[3] as bv64 << 32) |
    (b[4] as bv64 << 24) | (b[5] as bv64 << 16) | (b[6] as bv64 << 8) | b[7] as bv64
  }

  /** Go's built-in `copy(dst, src)` for a source that fits: the first
      `|src|` bytes of `dst` become `src`, the others are left alone. */
  method Copy(dst: array<byte>, src: seq<byte>)
    requires |src| <= dst.Length
    modifies dst
    ensures dst[..|src|] == src
    ensures dst[|src|..] == old(dst[|src|..])
  {
    for i := 0 to |src|
      invariant dst[..i] == src[..i]
      invariant dst[|src|..] == old(dst[|src|..])
    {
      dst[i] := src[i];
    }
  }
}
