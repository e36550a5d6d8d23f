/** A reference definition of the base 32 encoding of section 6 of RFC 4648,
    written from the standard alone: Table 3 (the alphabet, here in lower
    case), 40-bit input groups split into eight 5-bit groups, and a final
    quantum of fewer than 40 bits completed with zero bits. The "=" padding
    characters are not produced. */
module Rfc4648 {
  import opened Bytes

  /** Whether `c` is a symbol of Table 3 in lower case: `a`-`z` or `2`-`7`. */
  predicate IsSymbol(c: byte)
  {
    0x61 <= c <= 0x7a || 0x32 <= c <= 0x37
  }

  /** Table 3: the values 0-25 are written `a`-`z`, the values 26-31 `2`-`7`. */
  function Symbol(v: bv8): (c: byte)
    requires v < 32
    ensures IsSymbol(c)
  {
    if v < 26 then 0x61 + v else 0x32 + (v - 26)
  }

  /** The character code of the symbol of `v`. */
  lemma SymbolCode(v: bv8)
    requires v < 32
    ensures Symbol(v) as int == if v < 26 then 0x61 + v as int else 0x32 + v as int - 26
  {
  }

  /** Table 3 read backwards: the value that symbol `c` stands for. */
  function Value(c: byte): (v: bv8)
    requires IsSymbol(c)
    ensures v < 32 && Symbol(v) == c
  {
    if c >= 0x61 then c - 0x61 else c - 0x32 + 26
  }

  /** The value of symbol `c`, from its character code. */
  lemma ValueCode(c: byte)
    requires IsSymbol(c)
    ensures Value(c) as int == if c >= 0x61 then c as int - 0x61 else c as int - 0x32 + 26
  {
  }

  /** `IsSymbol` in terms of character codes. */
  lemma IsSymbolCode(c: byte)
    ensures IsSymbol(c) <==> 0x61 <= c as int <= 0x7a || 0x32 <= c as int <= 0x37
  {
  }

  /** Five octets concatenated into one 40-bit input group, first octet
      leftmost (most significant). */
  function InputGroup(q: seq<byte>): bv40
    requires |q| == 5
  {
    (q[0] as bv40 << 32) | (q[1] as bv40 << 24) | (q[2] as bv40 << 16) |
    (q[3] as bv40 << 8) | q[4] as bv40
  }

  /** The 5-bit group `j` (0-7) of a 40-bit input group, counted from the left. */
  function FiveBits(v: bv40, j: nat): (g: bv8)
    requires j < 8
    ensures g < 32
  {
    var s := match j
      case 0 => v >> 35 case 1 => v >> 30 case 2 => v >> 25 case 3 => v >> 20
      case 4 => v >> 15 case 5 => v >> 10 case 6 => v >> 5  case _ => v;
    (s & 0x1f) as bv8
  }

  /** How many symbols carry the bits of `k` octets: ceil(8k / 5). */
  function SymbolCount(k: nat): nat
  {
    (8 * k + 4) / 5
  }

  /** One quantum of 1 to 5 octets: zero bits are added on the right to fill
      40 bits, and the 5-bit groups that hold at least one input bit are
      written as symbols (2, 4, 5, 7 or 8 of them). */
  function EncodeQuantum(q: seq<byte>): (r: seq<byte>)
    requires 1 <= |q| <= 5
    ensures |r| == SymbolCount(|q|)
    ensures forall j :: 0 <= j < |r| ==> IsSymbol(r[j])
  {
    var v := InputGroup(q + seq(5 - |q|, _ => 0));
    seq(SymbolCount(|q|), j requires 0 <= j < SymbolCount(|q|) => Symbol(FiveBits(v, j)))
  }

  /** Unpadded base 32 encoding of `data`: its quanta encoded from left to
      right. */
  function EncodeNoPad(data: seq<byte>): (r: seq<byte>)
    ensures |r| == SymbolCount(|data|)
    ensures forall j :: 0 <= j < |r| ==> IsSymbol(r[j])
    decreases |data|
  {
    if |data| == 0 then []
    else if |data| <= 5 then EncodeQuantum(data)
    else EncodeQuantum(data[..5]) + EncodeNoPad(data[5..])
  }
}
