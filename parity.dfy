/** The encoding of `b32` against the unpadded base 32 encoding of
    section 6 of RFC 4648 applied to the eight big-endian bytes of the
    number, which is what the package's own tests compare it with. */
module B32Parity {
  import opened Bytes
  import Rfc4648
  import B32

  /** The bytes of `n` in big-endian order, one by one. */
  lemma BigEndianAt(n: bv64)
    ensures |BigEndian(n)| == 8
    ensures BigEndian(n)[0] == ((n >> 56) & 0xff) as byte
    ensures BigEndian(n)[1] == ((n >> 48) & 0xff) as byte
    ensures BigEndian(n)[2] == ((n >> 40) & 0xff) as byte
    ensures BigEndian(n)[3] == ((n >> 32) & 0xff) as byte
    ensures BigEndian(n)[4] == ((n >> 24) & 0xff) as byte
    ensures BigEndian(n)[5] == ((n >> 16) & 0xff) as byte
    ensures BigEndian(n)[6] == ((n >> 8) & 0xff) as byte
    ensures BigEndian(n)[7] == (n & 0xff) as byte
  {
  }

  /** The first five bytes of `n` form the 40-bit input group `n >> 24`. */
  lemma FirstInputGroup(n: bv64)
    ensures Rfc4648.InputGroup(BigEndian(n)[..5] + seq(0, _ => 0)) == (n >> 24) as bv40
  {
  }

  /** The last three bytes of `n`, with two zero bytes added, form the 40-bit
      input group `(n & 0xffffff) << 16`. */
  lemma SecondInputGroup(n: bv64)
    ensures Rfc4648.InputGroup(BigEndian(n)[5..] + seq(2, _ => 0)) == ((n & 0xff_ffff) as bv40) << 16
  {
  }

  /** The eight 5-bit groups of the first input group are the groups 0-7 of
      `b32`. */
  lemma FirstFiveBits(n: bv64)
    ensures Rfc4648.FiveBits((n >> 24) as bv40, 0) == B32.Group(n, 0) as bv8
    ensures Rfc4648.FiveBits((n >> 24) as bv40, 1) == B32.Group(n, 1) as bv8
    ensures Rfc4648.FiveBits((n >> 24) as bv40, 2) == B32.Group(n, 2) as bv8
    ensures Rfc4648.FiveBits((n >> 24) as bv40, 3) == B32.Group(n, 3) as bv8
    ensures Rfc4648.FiveBits((n >> 24) as bv40, 4) == B32.Group(n, 4) as bv8
    ensures Rfc4648.FiveBits((n >> 24) as bv40, 5) == B32.Group(n, 5) as bv8
    ensures Rfc4648.FiveBits((n >> 24) as bv40, 6) == B32.Group(n, 6) as bv8
    ensures Rfc4648.FiveBits((n >> 24) as bv40, 7) == B32.Group(n, 7) as bv8
  {
  }

  /** The first five 5-bit groups of the second input group are the groups
      8-12 of `b32`: the zero bits that complete the last group are the
      zero bit `b32` appends. */
  lemma SecondFiveBits(n: bv64)
    ensures Rfc4648.FiveBits(((n & 0xff_ffff) as bv40) << 16, 0) == B32.Group(n, 8) as bv8
    ensures Rfc4648.FiveBits(((n & 0xff_ffff) as bv40) << 16, 1) == B32.Group(n, 9) as bv8
    ensures Rfc4648.FiveBits(((n & 0xff_ffff) as bv40) << 16, 2) == B32.Group(n, 10) as bv8
    ensures Rfc4648.FiveBits(((n & 0xff_ffff) as bv40) << 16, 3) == B32.Group(n, 11) as bv8
    ensures Rfc4648.FiveBits(((n & 0xff_ffff) as bv40) << 16, 4) == B32.Group(n, 12) as bv8
  {
  }

  /** The eight symbols of the first quantum are the first eight of `b32`. */
  lemma FirstQuantum(n: bv64)
    ensures |BigEndian(n)| == 8
    ensures |Rfc4648.EncodeQuantum(BigEndian(n)[..5])| == 8
    ensures Rfc4648.EncodeQuantum(BigEndian(n)[..5])[0] == B32.Encode(n)[0]
    ensures Rfc4648.EncodeQuantum(BigEndian(n)[..5])[1] == B32.Encode(n)[1]
    ensures Rfc4648.EncodeQuantum(BigEndian(n)[..5])[2] == B32.Encode(n)[2]
    ensures Rfc4648.EncodeQuantum(BigEndian(n)[..5])[3] == B32.Encode(n)[3]
    ensures Rfc4648.EncodeQuantum(BigEndian(n)[..5])[4] == B32.Encode(n)[4]
    ensures Rfc4648.EncodeQuantum(BigEndian(n)[..5])[5] == B32.Encode(n)[5]
    ensures Rfc4648.EncodeQuantum(BigEndian(n)[..5])[6] == B32.Encode(n)[6]
    ensures Rfc4648.EncodeQuantum(BigEndian(n)[..5])[7] == B32.Encode(n)[7]
  {
    FirstInputGroup(n);
    FirstFiveBits(n);
  }

  /** The five symbols of the final three-byte quantum are the last five of
      `b32`. */
  lemma SecondQuantum(n: bv64)
    ensures |BigEndian(n)| == 8
    ensures |Rfc4648.EncodeQuantum(BigEndian(n)[5..])| == 5
    ensures Rfc4648.EncodeQuantum(BigEndian(n)[5..])[0] == B32.Encode(n)[8]
    ensures Rfc4648.EncodeQuantum(BigEndian(n)[5..])[1] == B32.Encode(n)[9]
    ensures Rfc4648.EncodeQuantum(BigEndian(n)[5..])[2] == B32.Encode(n)[10]
    ensures Rfc4648.EncodeQuantum(BigEndian(n)[5..])[3] == B32.Encode(n)[11]
    ensures Rfc4648.EncodeQuantum(BigEndian(n)[5..])[4] == B32.Encode(n)[12]
  {
    SecondInputGroup(n);
    SecondFiveBits(n);
  }

  /** Eight bytes are encoded as a quantum of five bytes and one of three. */
  lemma EncodeNoPadOfEight(b: seq<byte>)
    requires |b| == 8
    ensures Rfc4648.EncodeNoPad(b) == Rfc4648.EncodeQuantum(b[..5]) + Rfc4648.EncodeQuantum(b[5..])
  {
  }

  /** `EncodeUint64` writes the unpadded RFC 4648 base 32 encoding, in the
      lower-case alphabet, of the big-endian bytes of `n`. */
  lemma EncodeMatchesRfc4648(n: bv64)
    ensures B32.Encode(n) == Rfc4648.EncodeNoPad(BigEndian(n))
  {
    var b := BigEndian(n);
    EncodeNoPadOfEight(b);
    FirstQuantum(n);
    SecondQuantum(n);
  }

  /** `DecodeUint64` reads the unpadded RFC 4648 encoding of the big-endian
      bytes of any `n` back as `n`, and accepts it. */
  lemma DecodeMatchesRfc4648(n: bv64)
    ensures |Rfc4648.EncodeNoPad(BigEndian(n))| == 13
    ensures B32.DecodeUint64(Rfc4648.EncodeNoPad(BigEndian(n))) == (n, true)
    ensures FromBigEndian(BigEndian(n)) == n
  {
    EncodeMatchesRfc4648(n);
    B32.DecodeEncode(n);
  }
}
