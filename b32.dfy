/** Package b32: a `uint64` written as exactly 13 symbols of the lower-case
    RFC 4648 base 32 alphabet, without padding, and read back. */
module B32 {
  import opened Bytes
  import Rfc4648

  // ---------------------------------------------------------------------
  // The alphabet and the two tables built from it by `init`
  // ---------------------------------------------------------------------

  /** The RFC 4648 base 32 alphabet in lower case. */
  const StdEncoding: string := "abcdefghijklmnopqrstuvwxyz234567"

  /** `encMap` as `init` leaves it: the bytes of `StdEncoding`. */
  const EncMap: seq<byte> := Ascii(StdEncoding)

  /** `decMap` as `init` leaves it: entry `c` for each of the 256 byte values. */
  function DecMap(): (d: seq<byte>)
    ensures |d| == 256
  {
    seq(256, i requires 0 <= i < 256 => DecMapEntry(ToByte(i)))
  }

  /** What `init` stores for byte `c`: its index in `encMap` converted to a
      byte, so that a byte missing from the alphabet gets `byte(-1)`. */
  function DecMapEntry(c: byte): (v: byte)
    ensures c in EncMap ==> v < 32 && EncMap[v as int] == c
    ensures c !in EncMap ==> v == 0xff
  {
    ToByte(IndexByte(EncMap, c))
  }

  /** `init`: copies the alphabet into `encMap`, then gives every byte value
      its entry in `decMap` by searching `encMap` for it. */
  method Init(encMap: array<byte>, decMap: array<byte>)
    requires encMap.Length == 32 && decMap.Length == 256 && encMap != decMap
    modifies encMap, decMap
    ensures encMap[..] == EncMap
    ensures decMap[..] == DecMap()
  {
    Copy(encMap, Ascii(StdEncoding));
    assert encMap[..] == encMap[..32];
    FillDecMap(encMap, decMap);
  }

  /** The loop of `init` over the 256 byte values, once `encMap` holds the
      alphabet. */
  method FillDecMap(encMap: array<byte>, decMap: array<byte>)
    requires decMap.Length == 256 && encMap != decMap
    requires encMap[..] == EncMap
    modifies decMap
    ensures decMap[..] == DecMap()
  {
    for c := 0 to 256
      invariant encMap[..] == EncMap
      invariant forall j :: 0 <= j < c ==> decMap[j] == DecMapEntry(ToByte(j))
    {
      decMap[c] := ToByte(IndexByte(encMap[..], ToByte(c)));
    }
    DecMapOfEntries(decMap[..]);
  }

  /** A table holding entry `DecMapEntry(byte(i))` at every index `i` is `decMap`. */
  lemma DecMapOfEntries(d: seq<byte>)
    requires |d| == 256
    requires forall j :: 0 <= j < 256 ==> d[j] == DecMapEntry(ToByte(j))
    ensures d == DecMap()
  {
  }

  /** `encMap[g]`, the symbol of the 5-bit value `g`, in closed form: the
      entry of Table 3 of RFC 4648 in lower case (`EncSymbolIsEncMap` shows
      that this is the entry `init` stores). */
  function EncSymbol(g: bv5): (c: byte)
    ensures Rfc4648.IsSymbol(c)
  {
    Rfc4648.Symbol(g as bv8)
  }

  /** `decMap[c]` in closed form: the value of symbol `c`, or 0xff when `c`
      is not a symbol (`DecMapIsLookup` shows that this is the entry `init`
      stores). */
  function Lookup(c: byte): (v: byte)
    ensures Rfc4648.IsSymbol(c) <==> v < 32
    ensures !Rfc4648.IsSymbol(c) ==> v == 0xff
  {
    if Rfc4648.IsSymbol(c) then Rfc4648.Value(c) else 0xff
  }

  /** The character codes of `StdEncoding`: `a`-`z`, then `2`-`7`. */
  lemma StdEncodingAt(k: nat)
    requires k < 32
    ensures StdEncoding[k] as int == if k < 26 then 0x61 + k else 0x32 + k - 26
  {
  }

  /** The alphabet is Table 3 of RFC 4648, in lower case: entry `v` of
      `encMap` is the symbol of `v`. */
  lemma EncMapIsRfcAlphabet(v: bv8)
    requires v < 32
    ensures |EncMap| == 32
    ensures EncMap[v as int] == Rfc4648.Symbol(v)
  {
    StdEncodingAt(v as int);
    Rfc4648.SymbolCode(v);
    SameValue(EncMap[v as int], Rfc4648.Symbol(v));
  }

  /** `EncSymbol(g)` is entry `g` of `encMap`. */
  lemma EncSymbolIsEncMap(g: bv5)
    ensures |EncMap| == 32
    ensures EncSymbol(g) == EncMap[g as int]
  {
    EncMapIsRfcAlphabet(g as bv8);
    assert (g as bv8) as int == g as int;
  }

  /** A byte is one of the 32 bytes of `encMap` exactly when it is a symbol of
      the lower-case RFC 4648 alphabet. */
  lemma SymbolInEncMap(c: byte)
    ensures Rfc4648.IsSymbol(c) <==> c in EncMap
  {
    if Rfc4648.IsSymbol(c) {
      EncMapIsRfcAlphabet(Rfc4648.Value(c));
    }
    if c in EncMap {
      var k :| 0 <= k < |EncMap| && EncMap[k] == c;
      StdEncodingAt(k);
      Rfc4648.IsSymbolCode(c);
    }
  }

  /** The entry `init` stores for `c` is `Lookup(c)`: the index of `c` in
      `encMap` for a symbol, 0xff for any other byte. */
  lemma DecMapIsLookup(c: byte)
    ensures DecMapEntry(c) == Lookup(c)
  {
    SymbolInEncMap(c);
    var r := IndexByte(EncMap, c);
    if r >= 0 {
      StdEncodingAt(r);
      Rfc4648.ValueCode(c);
      SameValue(ToByte(r), Rfc4648.Value(c));
    }
  }

  /** Entry `c` of `decMap` is `Lookup(c)`. */
  lemma DecMapAt(c: byte)
    ensures |DecMap()| == 256
    ensures DecMap()[c as int] == Lookup(c)
  {
    DecMapIsLookup(c);
    SameValue(ToByte(c as int), c);
  }

  /** `decMap` inverts `encMap`: `decMap[encMap[g]] == g` for each of the 32
      values `g`. */
  lemma DecMapInvertsEncMap(g: bv5)
    ensures |EncMap| == 32 && |DecMap()| == 256
    ensures DecMap()[EncMap[g as int] as int] == g as byte
  {
    EncSymbolIsEncMap(g);
    DecMapAt(EncSymbol(g));
    LookupOfSymbol(g);
  }

  /** Every byte outside the alphabet maps to 0xff in `decMap`. */
  lemma DecMapRejectsForeign(c: byte)
    requires c !in EncMap
    ensures |DecMap()| == 256
    ensures DecMap()[c as int] == 0xff
  {
    DecMapAt(c);
    SymbolInEncMap(c);
  }

  /** The symbol of `g` looks up to `g`. */
  lemma LookupOfSymbol(g: bv5)
    ensures Lookup(EncSymbol(g)) == g as byte
  {
  }

  /** A symbol is the symbol of its looked-up value. */
  lemma SymbolOfLookup(c: byte)
    requires Rfc4648.IsSymbol(c)
    ensures EncSymbol(Lookup(c) as bv5) == c
  {
  }

  // ---------------------------------------------------------------------
  // Encoding
  // ---------------------------------------------------------------------

  /** The 5-bit group `i` (0-12, from the left) of the 65 bits made of `n`
      followed by one zero bit. */
  function Group(n: bv64, i: nat): (g: bv5)
    requires i < 13
    ensures i == 12 ==> g & 1 == 0
  {
    var w := n as bv65 << 1;
    (match i
      case 0 => (w >> 60) & 0x1f
      case 1 => (w >> 55) & 0x1f
      case 2 => (w >> 50) & 0x1f
      case 3 => (w >> 45) & 0x1f
      case 4 => (w >> 40) & 0x1f
      case 5 => (w >> 35) & 0x1f
      case 6 => (w >> 30) & 0x1f
      case 7 => (w >> 25) & 0x1f
      case 8 => (w >> 20) & 0x1f
      case 9 => (w >> 15) & 0x1f
      case 10 => (w >> 10) & 0x1f
      case 11 => (w >> 5) & 0x1f
      case _ => w & 0x1f) as bv5
  }

  /** The 13 symbols of the encoding of `n`: symbol `i` is the symbol of
      group `i`. */
  function Encode(n: bv64): (s: seq<byte>)
    ensures |s| == 13
  {
    seq(13, i requires 0 <= i < 13 => EncSymbol(Group(n, i)))
  }

  /** The shift and mask the source uses for each symbol select group `i`
      of `n` followed by a zero bit. */
  lemma GroupAsWritten(n: bv64)
    ensures (n >> 59) as bv5 == Group(n, 0)
    ensures ((n >> 54) & 0x1f) as bv5 == Group(n, 1)
    ensures ((n >> 49) & 0x1f) as bv5 == Group(n, 2)
    ensures ((n >> 44) & 0x1f) as bv5 == Group(n, 3)
    ensures ((n >> 39) & 0x1f) as bv5 == Group(n, 4)
    ensures ((n >> 34) & 0x1f) as bv5 == Group(n, 5)
    ensures ((n >> 29) & 0x1f) as bv5 == Group(n, 6)
    ensures ((n >> 24) & 0x1f) as bv5 == Group(n, 7)
    ensures ((n >> 19) & 0x1f) as bv5 == Group(n, 8)
    ensures ((n >> 14) & 0x1f) as bv5 == Group(n, 9)
    ensures ((n >> 9) & 0x1f) as bv5 == Group(n, 10)
    ensures ((n >> 4) & 0x1f) as bv5 == Group(n, 11)
    ensures ((n & 0xf) << 1) as bv5 == Group(n, 12)
  {
  }

  /** Symbol `i` of the encoding is the entry of `encMap`, that is the
      character of `StdEncoding`, at index group `i` of `n`. */
  lemma EncodeAt(n: bv64, i: nat)
    requires i < 13
    ensures |EncMap| == 32
    ensures Encode(n)[i] == EncMap[Group(n, i) as int]
    ensures Encode(n)[i] as int == StdEncoding[Group(n, i) as int] as int
  {
    EncSymbolIsEncMap(Group(n, i));
  }

  /** Every symbol of the encoding is an entry of `encMap`, and so a symbol
      of the lower-case RFC 4648 alphabet. */
  lemma EncodeInAlphabet(n: bv64)
    ensures forall i :: 0 <= i < 13 ==> Encode(n)[i] in EncMap && Rfc4648.IsSymbol(Encode(n)[i])
  {
    forall i | 0 <= i < 13
      ensures Encode(n)[i] in EncMap && Rfc4648.IsSymbol(Encode(n)[i])
    {
      EncSymbolIsEncMap(Group(n, i));
    }
  }

  /** `EncodeUint64`: writes the encoding of `n` into `dst[0..13]`, last
      symbol first, and leaves the rest of `dst` alone. */
  method EncodeUint64(n: bv64, dst: array<byte>)
    requires dst.Length >= 13
    modifies dst
    ensures dst[..13] == Encode(n)
    ensures dst[13..] == old(dst[13..])
  {
    dst[12] := EncSymbol(((n & 0xf) << 1) as bv5);
    dst[11] := EncSymbol(((n >> 4) & 0x1f) as bv5);
    dst[10] := EncSymbol(((n >> 9) & 0x1f) as bv5);
    dst[9] := EncSymbol(((n >> 14) & 0x1f) as bv5);
    dst[8] := EncSymbol(((n >> 19) & 0x1f) as bv5);
    dst[7] := EncSymbol(((n >> 24) & 0x1f) as bv5);
    dst[6] := EncSymbol(((n >> 29) & 0x1f) as bv5);
    dst[5] := EncSymbol(((n >> 34) & 0x1f) as bv5);
    dst[4] := EncSymbol(((n >> 39) & 0x1f) as bv5);
    dst[3] := EncSymbol(((n >> 44) & 0x1f) as bv5);
    dst[2] := EncSymbol(((n >> 49) & 0x1f) as bv5);
    dst[1] := EncSymbol(((n >> 54) & 0x1f) as bv5);
    dst[0] := EncSymbol((n >> 59) as bv5);
    EncodeAsWritten(n, dst[..13]);
  }

  /** The 13 symbols, each with the shift and mask the source writes for it,
      make up `Encode(n)`. */
  lemma EncodeAsWritten(n: bv64, s: seq<byte>)
    requires |s| == 13
    requires s[0] == EncSymbol((n >> 59) as bv5)
    requires s[1] == EncSymbol(((n >> 54) & 0x1f) as bv5)
    requires s[2] == EncSymbol(((n >> 49) & 0x1f) as bv5)
    requires s[3] == EncSymbol(((n >> 44) & 0x1f) as bv5)
    requires s[4] == EncSymbol(((n >> 39) & 0x1f) as bv5)
    requires s[5] == EncSymbol(((n >> 34) & 0x1f) as bv5)
    requires s[6] == EncSymbol(((n >> 29) & 0x1f) as bv5)
    requires s[7] == EncSymbol(((n >> 24) & 0x1f) as bv5)
    requires s[8] == EncSymbol(((n >> 19) & 0x1f) as bv5)
    requires s[9] == EncSymbol(((n >> 14) & 0x1f) as bv5)
    requires s[10] == EncSymbol(((n >> 9) & 0x1f) as bv5)
    requires s[11] == EncSymbol(((n >> 4) & 0x1f) as bv5)
    requires s[12] == EncSymbol(((n & 0xf) << 1) as bv5)
    ensures s == Encode(n)
  {
  }

  /** Two 13-symbol sequences that agree at every position are equal. */
  lemma EqualBySymbols(s: seq<byte>, t: seq<byte>)
    requires |s| == 13 && |t| == 13
    requires s[0] == t[0] && s[1] == t[1] && s[2] == t[2] && s[3] == t[3] && s[4] == t[4]
    requires s[5] == t[5] && s[6] == t[6] && s[7] == t[7] && s[8] == t[8] && s[9] == t[9]
    requires s[10] == t[10] && s[11] == t[11] && s[12] == t[12]
    ensures s == t
  {
  }

  /** `EncodeUint64ToString`: the encoding of `n` as a fresh 13-byte string. */
  method EncodeUint64ToString(n: bv64) returns (s: seq<byte>)
    ensures s == Encode(n)
  {
    var buf := new byte[13];
    EncodeUint64(n, buf);
    s := buf[..];
  }

  /** The last symbol stands for an even value: its low bit carries no bit
      of `n`. */
  lemma LastSymbolEven(n: bv64)
    ensures Lookup(Encode(n)[12]) < 32
    ensures Lookup(Encode(n)[12]) & 1 == 0
  {
  }

  // ---------------------------------------------------------------------
  // Decoding
  // ---------------------------------------------------------------------

  /** `DecodeUint64`: ORs the values of the 13 symbols back into their places
      (the last one shifted right by one, which drops its low bit) and
      accepts the input when no looked-up value has any of the bits 0xe0
      set. The number returned with `false` has no meaning. */
  function DecodeUint64(src: seq<byte>): (r: (bv64, bool))
    requires |src| >= 13
    ensures r.1 <==> forall i :: 0 <= i < 13 ==> Rfc4648.IsSymbol(src[i])
  {
    var n := (Lookup(src[12]) as bv64 >> 1) |
      (Lookup(src[11]) as bv64 << 4) |
      (Lookup(src[10]) as bv64 << 9) |
      (Lookup(src[9]) as bv64 << 14) |
      (Lookup(src[8]) as bv64 << 19) |
      (Lookup(src[7]) as bv64 << 24) |
      (Lookup(src[6]) as bv64 << 29) |
      (Lookup(src[5]) as bv64 << 34) |
      (Lookup(src[4]) as bv64 << 39) |
      (Lookup(src[3]) as bv64 << 44) |
      (Lookup(src[2]) as bv64 << 49) |
      (Lookup(src[1]) as bv64 << 54) |
      (Lookup(src[0]) as bv64 << 59);
    var m := Lookup(src[12]) | Lookup(src[11]) | Lookup(src[10]) | Lookup(src[9]) |
      Lookup(src[8]) | Lookup(src[9]) | Lookup(src[8]) | Lookup(src[7]) |
      Lookup(src[6]) | Lookup(src[5]) | Lookup(src[4]) | Lookup(src[3]) |
      Lookup(src[2]) | Lookup(src[1]) | Lookup(src[0]);
    // Unrolling the quantifier and the mask separately keeps this proof small.
    AllSymbols(src);
    MaskOfThirteen(Lookup(src[0]), Lookup(src[1]), Lookup(src[2]), Lookup(src[3]),
      Lookup(src[4]), Lookup(src[5]), Lookup(src[6]), Lookup(src[7]), Lookup(src[8]),
      Lookup(src[9]), Lookup(src[10]), Lookup(src[11]), Lookup(src[12]));
    (n, m & 0xe0 == 0)
  }

  /** All of the first 13 bytes are symbols when each of them is. */
  lemma AllSymbols(src: seq<byte>)
    requires |src| >= 13
    ensures (forall i :: 0 <= i < 13 ==> Rfc4648.IsSymbol(src[i])) <==>
      Rfc4648.IsSymbol(src[0]) && Rfc4648.IsSymbol(src[1]) && Rfc4648.IsSymbol(src[2]) &&
      Rfc4648.IsSymbol(src[3]) && Rfc4648.IsSymbol(src[4]) && Rfc4648.IsSymbol(src[5]) &&
      Rfc4648.IsSymbol(src[6]) && Rfc4648.IsSymbol(src[7]) && Rfc4648.IsSymbol(src[8]) &&
      Rfc4648.IsSymbol(src[9]) && Rfc4648.IsSymbol(src[10]) && Rfc4648.IsSymbol(src[11]) &&
      Rfc4648.IsSymbol(src[12])
  {
  }

  /** For looked-up values, each below 32 or 0xff, the OR of them (with two
      of them repeated, as in the source) clears the bits 0xe0 exactly when
      all are below 32. */
  lemma MaskOfThirteen(a0: byte, a1: byte, a2: byte, a3: byte, a4: byte, a5: byte, a6: byte,
                       a7: byte, a8: byte, a9: byte, a10: byte, a11: byte, a12: byte)
    requires a0 < 32 || a0 == 0xff
    requires a1 < 32 || a1 == 0xff
    requires a2 < 32 || a2 == 0xff
    requires a3 < 32 || a3 == 0xff
    requires a4 < 32 || a4 == 0xff
    requires a5 < 32 || a5 == 0xff
    requires a6 < 32 || a6 == 0xff
    requires a7 < 32 || a7 == 0xff
    requires a8 < 32 || a8 == 0xff
    requires a9 < 32 || a9 == 0xff
    requires a10 < 32 || a10 == 0xff
    requires a11 < 32 || a11 == 0xff
    requires a12 < 32 || a12 == 0xff
    ensures (a12 | a11 | a10 | a9 | a8 | a9 | a8 | a7 | a6 | a5 | a4 | a3 | a2 | a1 | a0) & 0xe0 == 0
      <==> a0 < 32 && a1 < 32 && a2 < 32 && a3 < 32 && a4 < 32 && a5 < 32 && a6 < 32 &&
           a7 < 32 && a8 < 32 && a9 < 32 && a10 < 32 && a11 < 32 && a12 < 32
  {
  }

  /** `DecodeUint64` accepts its input exactly when the first 13 bytes are
      all in `encMap`. */
  lemma DecodeAcceptsAlphabet(src: seq<byte>)
    requires |src| >= 13
    ensures DecodeUint64(src).1 <==> forall i :: 0 <= i < 13 ==> src[i] in EncMap
  {
    forall i | 0 <= i < 13
      ensures Rfc4648.IsSymbol(src[i]) <==> src[i] in EncMap
    {
      SymbolInEncMap(src[i]);
    }
  }

  /** `DecodeUint64FromString`: decodes the bytes of the string `s`. */
  function DecodeUint64FromString(s: seq<byte>): (r: (bv64, bool))
    requires |s| >= 13
    ensures r.1 <==> forall i :: 0 <= i < 13 ==> Rfc4648.IsSymbol(s[i])
  {
    DecodeUint64(s)
  }

  // ---------------------------------------------------------------------
  // Round trips
  // ---------------------------------------------------------------------

  /** Decoding the encoding of `n` gives back `n` and accepts the input. */
  lemma DecodeEncode(n: bv64)
    ensures DecodeUint64(Encode(n)) == (n, true)
  {
  }

  /** The value decoded from accepted input has the looked-up values of its
      symbols as its groups. */
  lemma DecodedGroups(src: seq<byte>)
    requires |src| >= 13
    requires DecodeUint64(src).1
    ensures Group(DecodeUint64(src).0, 0) as byte == Lookup(src[0])
    ensures Group(DecodeUint64(src).0, 1) as byte == Lookup(src[1])
    ensures Group(DecodeUint64(src).0, 2) as byte == Lookup(src[2])
    ensures Group(DecodeUint64(src).0, 3) as byte == Lookup(src[3])
    ensures Group(DecodeUint64(src).0, 4) as byte == Lookup(src[4])
    ensures Group(DecodeUint64(src).0, 5) as byte == Lookup(src[5])
    ensures Group(DecodeUint64(src).0, 6) as byte == Lookup(src[6])
    ensures Group(DecodeUint64(src).0, 7) as byte == Lookup(src[7])
    ensures Group(DecodeUint64(src).0, 8) as byte == Lookup(src[8])
    ensures Group(DecodeUint64(src).0, 9) as byte == Lookup(src[9])
    ensures Group(DecodeUint64(src).0, 10) as byte == Lookup(src[10])
    ensures Group(DecodeUint64(src).0, 11) as byte == Lookup(src[11])
    ensures Group(DecodeUint64(src).0, 12) as byte == Lookup(src[12]) & 0x1e
  {
  }

  /** Accepted input is the encoding of the value decoded from it, up to the
      low bit of the last symbol, which the encoding always clears. */
  lemma EncodeDecode(src: seq<byte>)
    requires |src| >= 13
    requires DecodeUint64(src).1
    ensures Encode(DecodeUint64(src).0) ==
      src[..12] + [EncSymbol((Lookup(src[12]) & 0x1e) as bv5)]
  {
    DecodedGroups(src);
    EncodeOfGroups(DecodeUint64(src).0, src);
  }

  /** A value whose groups are the looked-up values of 13 symbols, the last
      with its low bit cleared, encodes to those symbols. */
  lemma EncodeOfGroups(m: bv64, src: seq<byte>)
    requires |src| >= 13
    requires forall i :: 0 <= i < 13 ==> Rfc4648.IsSymbol(src[i])
    requires Group(m, 0) as byte == Lookup(src[0])
    requires Group(m, 1) as byte == Lookup(src[1])
    requires Group(m, 2) as byte == Lookup(src[2])
    requires Group(m, 3) as byte == Lookup(src[3])
    requires Group(m, 4) as byte == Lookup(src[4])
    requires Group(m, 5) as byte == Lookup(src[5])
    requires Group(m, 6) as byte == Lookup(src[6])
    requires Group(m, 7) as byte == Lookup(src[7])
    requires Group(m, 8) as byte == Lookup(src[8])
    requires Group(m, 9) as byte == Lookup(src[9])
    requires Group(m, 10) as byte == Lookup(src[10])
    requires Group(m, 11) as byte == Lookup(src[11])
    requires Group(m, 12) as byte == Lookup(src[12]) & 0x1e
    ensures Encode(m) == src[..12] + [EncSymbol((Lookup(src[12]) & 0x1e) as bv5)]
  {
    // Comparing symbol by symbol is what keeps this within the solver's budget.
    EqualBySymbols(Encode(m), src[..12] + [EncSymbol((Lookup(src[12]) & 0x1e) as bv5)]);
  }

  /** An input whose last symbol has its low bit set decodes as the one whose
      last symbol has it clear: the two differ only in a bit that
      `DecodeUint64` shifts out. */
  lemma DecodeIgnoresLowBit(src: seq<byte>, t: seq<byte>)
    requires |src| >= 13 && |t| >= 13
    requires forall i :: 0 <= i < 12 ==> src[i] == t[i]
    requires Rfc4648.IsSymbol(src[12]) && Rfc4648.IsSymbol(t[12])
    requires Lookup(src[12]) & 0x1e == Lookup(t[12]) & 0x1e
    ensures DecodeUint64(src) == DecodeUint64(t)
  {
    // Without this step the solver does not find that the shift drops bit 0.
    ShiftDropsLowBit(Lookup(src[12]), Lookup(t[12]));
  }

  /** Two values below 32 that differ at most in bit 0 agree once shifted
      right by one. */
  lemma ShiftDropsLowBit(a: byte, b: byte)
    requires a < 32 && b < 32 && a & 0x1e == b & 0x1e
    ensures a as bv64 >> 1 == b as bv64 >> 1
  {
  }
}
