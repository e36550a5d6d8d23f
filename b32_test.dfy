/** The package's test vectors and corrupt inputs, stated about the model:
    each vector is encoded to its 13 symbols and decoded back, each corrupt
    input is rejected. */
module B32Test {
  import opened Bytes
  import Rfc4648
  import opened B32

  /** The alphabet has no symbol twice: any two positions of `encMap` hold
      different bytes. */
  lemma AlphabetUnique()
    ensures forall i, j :: 0 <= i < 32 && 0 <= j < 32 && i != j ==> EncMap[i] != EncMap[j]
  {
    forall i, j | 0 <= i < 32 && 0 <= j < 32 && i != j
      ensures EncMap[i] != EncMap[j]
    {
      StdEncodingAt(i);
      StdEncodingAt(j);
      assert EncMap[i] as int != EncMap[j] as int;
    }
  }

  /** The bytes of "". */
  lemma VectorEmpty()
    ensures Encode(0x00_00_00_00_00_00_00_00) == Ascii("aaaaaaaaaaaaa")
    ensures DecodeUint64(Ascii("aaaaaaaaaaaaa")) == (0x00_00_00_00_00_00_00_00, true)
    ensures DecodeUint64FromString(Ascii("aaaaaaaaaaaaa")) == (0x00_00_00_00_00_00_00_00, true)
  {
    DecodeEncode(0x00_00_00_00_00_00_00_00);
  }

  /** The bytes of "f", zero-filled. */
  lemma VectorF()
    ensures Encode(0x66_00_00_00_00_00_00_00) == Ascii("myaaaaaaaaaaa")
    ensures DecodeUint64(Ascii("myaaaaaaaaaaa")) == (0x66_00_00_00_00_00_00_00, true)
    ensures DecodeUint64FromString(Ascii("myaaaaaaaaaaa")) == (0x66_00_00_00_00_00_00_00, true)
  {
    DecodeEncode(0x66_00_00_00_00_00_00_00);
  }

  /** The bytes of "fo", zero-filled. */
  lemma VectorFo()
    ensures Encode(0x66_6f_00_00_00_00_00_00) == Ascii("mzxqaaaaaaaaa")
    ensures DecodeUint64(Ascii("mzxqaaaaaaaaa")) == (0x66_6f_00_00_00_00_00_00, true)
    ensures DecodeUint64FromString(Ascii("mzxqaaaaaaaaa")) == (0x66_6f_00_00_00_00_00_00, true)
  {
    DecodeEncode(0x66_6f_00_00_00_00_00_00);
  }

  /** The bytes of "foo", zero-filled. */
  lemma VectorFoo()
    ensures Encode(0x66_6f_6f_00_00_00_00_00) == Ascii("mzxw6aaaaaaaa")
    ensures DecodeUint64(Ascii("mzxw6aaaaaaaa")) == (0x66_6f_6f_00_00_00_00_00, true)
    ensures DecodeUint64FromString(Ascii("mzxw6aaaaaaaa")) == (0x66_6f_6f_00_00_00_00_00, true)
  {
    DecodeEncode(0x66_6f_6f_00_00_00_00_00);
  }

  /** The bytes of "foob", zero-filled. */
  lemma VectorFoob()
    ensures Encode(0x66_6f_6f_62_00_00_00_00) == Ascii("mzxw6yqaaaaaa")
    ensures DecodeUint64(Ascii("mzxw6yqaaaaaa")) == (0x66_6f_6f_62_00_00_00_00, true)
    ensures DecodeUint64FromString(Ascii("mzxw6yqaaaaaa")) == (0x66_6f_6f_62_00_00_00_00, true)
  {
    DecodeEncode(0x66_6f_6f_62_00_00_00_00);
  }

  /** The bytes of "fooba", zero-filled. */
  lemma VectorFooba()
    ensures Encode(0x66_6f_6f_62_61_00_00_00) == Ascii("mzxw6ytbaaaaa")
    ensures DecodeUint64(Ascii("mzxw6ytbaaaaa")) == (0x66_6f_6f_62_61_00_00_00, true)
    ensures DecodeUint64FromString(Ascii("mzxw6ytbaaaaa")) == (0x66_6f_6f_62_61_00_00_00, true)
  {
    DecodeEncode(0x66_6f_6f_62_61_00_00_00);
  }

  /** The bytes of "foobar", zero-filled. */
  lemma VectorFoobar()
    ensures Encode(0x66_6f_6f_62_61_72_00_00) == Ascii("mzxw6ytboiaaa")
    ensures DecodeUint64(Ascii("mzxw6ytboiaaa")) == (0x66_6f_6f_62_61_72_00_00, true)
    ensures DecodeUint64FromString(Ascii("mzxw6ytboiaaa")) == (0x66_6f_6f_62_61_72_00_00, true)
  {
    DecodeEncode(0x66_6f_6f_62_61_72_00_00);
  }

  /** The bytes of "sure.", zero-filled. */
  lemma VectorSureDot()
    ensures Encode(0x73_75_72_65_2e_00_00_00) == Ascii("on2xezjoaaaaa")
    ensures DecodeUint64(Ascii("on2xezjoaaaaa")) == (0x73_75_72_65_2e_00_00_00, true)
    ensures DecodeUint64FromString(Ascii("on2xezjoaaaaa")) == (0x73_75_72_65_2e_00_00_00, true)
  {
    DecodeEncode(0x73_75_72_65_2e_00_00_00);
  }

  /** The bytes of "sure", zero-filled. */
  lemma VectorSure()
    ensures Encode(0x73_75_72_65_00_00_00_00) == Ascii("on2xeziaaaaaa")
    ensures DecodeUint64(Ascii("on2xeziaaaaaa")) == (0x73_75_72_65_00_00_00_00, true)
    ensures DecodeUint64FromString(Ascii("on2xeziaaaaaa")) == (0x73_75_72_65_00_00_00_00, true)
  {
    DecodeEncode(0x73_75_72_65_00_00_00_00);
  }

  /** The bytes of "sur", zero-filled. */
  lemma VectorSur()
    ensures Encode(0x73_75_72_00_00_00_00_00) == Ascii("on2xeaaaaaaaa")
    ensures DecodeUint64(Ascii("on2xeaaaaaaaa")) == (0x73_75_72_00_00_00_00_00, true)
    ensures DecodeUint64FromString(Ascii("on2xeaaaaaaaa")) == (0x73_75_72_00_00_00_00_00, true)
  {
    DecodeEncode(0x73_75_72_00_00_00_00_00);
  }

  /** The bytes of "su", zero-filled. */
  lemma VectorSu()
    ensures Encode(0x73_75_00_00_00_00_00_00) == Ascii("on2qaaaaaaaaa")
    ensures DecodeUint64(Ascii("on2qaaaaaaaaa")) == (0x73_75_00_00_00_00_00_00, true)
    ensures DecodeUint64FromString(Ascii("on2qaaaaaaaaa")) == (0x73_75_00_00_00_00_00_00, true)
  {
    DecodeEncode(0x73_75_00_00_00_00_00_00);
  }

  /** The bytes of "leasure.". */
  lemma VectorLeasureDot()
    ensures Encode(0x6c_65_61_73_75_72_65_2e) == Ascii("nrswc43vojss4")
    ensures DecodeUint64(Ascii("nrswc43vojss4")) == (0x6c_65_61_73_75_72_65_2e, true)
    ensures DecodeUint64FromString(Ascii("nrswc43vojss4")) == (0x6c_65_61_73_75_72_65_2e, true)
  {
    DecodeEncode(0x6c_65_61_73_75_72_65_2e);
  }

  /** The bytes of "easure.", zero-filled. */
  lemma VectorEasureDot()
    ensures Encode(0x65_61_73_75_72_65_2e_00) == Ascii("mvqxg5lsmuxaa")
    ensures DecodeUint64(Ascii("mvqxg5lsmuxaa")) == (0x65_61_73_75_72_65_2e_00, true)
    ensures DecodeUint64FromString(Ascii("mvqxg5lsmuxaa")) == (0x65_61_73_75_72_65_2e_00, true)
  {
    DecodeEncode(0x65_61_73_75_72_65_2e_00);
  }

  /** The bytes of "asure.", zero-filled. */
  lemma VectorAsureDot()
    ensures Encode(0x61_73_75_72_65_2e_00_00) == Ascii("mfzxk4tffyaaa")
    ensures DecodeUint64(Ascii("mfzxk4tffyaaa")) == (0x61_73_75_72_65_2e_00_00, true)
    ensures DecodeUint64FromString(Ascii("mfzxk4tffyaaa")) == (0x61_73_75_72_65_2e_00_00, true)
  {
    DecodeEncode(0x61_73_75_72_65_2e_00_00);
  }

  /** all 64 bits set. */
  lemma VectorAllOnes()
    ensures Encode(0xff_ff_ff_ff_ff_ff_ff_ff) == Ascii("7777777777776")
    ensures DecodeUint64(Ascii("7777777777776")) == (0xff_ff_ff_ff_ff_ff_ff_ff, true)
    ensures DecodeUint64FromString(Ascii("7777777777776")) == (0xff_ff_ff_ff_ff_ff_ff_ff, true)
  {
    DecodeEncode(0xff_ff_ff_ff_ff_ff_ff_ff);
  }

  /** all bits set but the lowest. */
  lemma VectorAllOnesButLowBit()
    ensures Encode(0xff_ff_ff_ff_ff_ff_ff_fe) == Ascii("7777777777774")
    ensures DecodeUint64(Ascii("7777777777774")) == (0xff_ff_ff_ff_ff_ff_ff_fe, true)
    ensures DecodeUint64FromString(Ascii("7777777777774")) == (0xff_ff_ff_ff_ff_ff_ff_fe, true)
  {
    DecodeEncode(0xff_ff_ff_ff_ff_ff_ff_fe);
  }

  /** 0x01ff_ffff_ffff_fffa. */
  lemma Vector01FF()
    ensures Encode(0x01_ff_ff_ff_ff_ff_ff_fa) == Ascii("ah7777777777u")
    ensures DecodeUint64(Ascii("ah7777777777u")) == (0x01_ff_ff_ff_ff_ff_ff_fa, true)
    ensures DecodeUint64FromString(Ascii("ah7777777777u")) == (0x01_ff_ff_ff_ff_ff_ff_fa, true)
  {
    DecodeEncode(0x01_ff_ff_ff_ff_ff_ff_fa);
  }

  /** the bytes 1 to 8. */
  lemma VectorCounting()
    ensures Encode(0x01_02_03_04_05_06_07_08) == Ascii("aebagbafaydqq")
    ensures DecodeUint64(Ascii("aebagbafaydqq")) == (0x01_02_03_04_05_06_07_08, true)
    ensures DecodeUint64FromString(Ascii("aebagbafaydqq")) == (0x01_02_03_04_05_06_07_08, true)
  {
    DecodeEncode(0x01_02_03_04_05_06_07_08);
  }

  /** 0x1234_5678_9abc_cdef. */
  lemma VectorMixed()
    ensures Encode(0x12_34_56_78_9a_bc_cd_ef) == Ascii("ci2fm6e2xtg66")
    ensures DecodeUint64(Ascii("ci2fm6e2xtg66")) == (0x12_34_56_78_9a_bc_cd_ef, true)
    ensures DecodeUint64FromString(Ascii("ci2fm6e2xtg66")) == (0x12_34_56_78_9a_bc_cd_ef, true)
  {
    DecodeEncode(0x12_34_56_78_9a_bc_cd_ef);
  }

  /** 0x8877_6655_4433_2211. */
  lemma VectorDescending()
    ensures Encode(0x88_77_66_55_44_33_22_11) == Ascii("rb3wmvkegmrbc")
    ensures DecodeUint64(Ascii("rb3wmvkegmrbc")) == (0x88_77_66_55_44_33_22_11, true)
    ensures DecodeUint64FromString(Ascii("rb3wmvkegmrbc")) == (0x88_77_66_55_44_33_22_11, true)
  {
    DecodeEncode(0x88_77_66_55_44_33_22_11);
  }

  /** "1234567890123" is rejected: byte 0 is not a symbol. */
  lemma CorruptDigits()
    ensures !DecodeUint64FromString(Ascii("1234567890123")).1
  {
    assert !Rfc4648.IsSymbol(Ascii("1234567890123")[0]);
  }

  /** "caazbaywxamm1" is rejected: byte 12 is not a symbol. */
  lemma CorruptLastOne()
    ensures !DecodeUint64FromString(Ascii("caazbaywxamm1")).1
  {
    assert !Rfc4648.IsSymbol(Ascii("caazbaywxamm1")[12]);
  }

  /** "aaaaaaaaaaa8a" is rejected: byte 11 is not a symbol. */
  lemma CorruptEight()
    ensures !DecodeUint64FromString(Ascii("aaaaaaaaaaa8a")).1
  {
    assert !Rfc4648.IsSymbol(Ascii("aaaaaaaaaaa8a")[11]);
  }

  /** "kbezvysgla9au" is rejected: byte 10 is not a symbol. */
  lemma CorruptNine()
    ensures !DecodeUint64FromString(Ascii("kbezvysgla9au")).1
  {
    assert !Rfc4648.IsSymbol(Ascii("kbezvysgla9au")[10]);
  }

  /** "cmyzzwaxy0aaa" is rejected: byte 9 is not a symbol. */
  lemma CorruptZero()
    ensures !DecodeUint64FromString(Ascii("cmyzzwaxy0aaa")).1
  {
    assert !Rfc4648.IsSymbol(Ascii("cmyzzwaxy0aaa")[9]);
  }

  /** "rb9wmvkegmrbc" is rejected: byte 2 is not a symbol. */
  lemma CorruptNineEarly()
    ensures !DecodeUint64FromString(Ascii("rb9wmvkegmrbc")).1
  {
    assert !Rfc4648.IsSymbol(Ascii("rb9wmvkegmrbc")[2]);
  }

  /** The digits 0, 1, 8 and 9 and the upper-case letters are not symbols:
      `decMap` maps each of them to 0xff and `DecodeUint64` rejects any input
      holding one of them among its first 13 bytes. */
  lemma ForeignBytesRejected(c: byte, src: seq<byte>, i: nat)
    requires c == 0x30 || c == 0x31 || c == 0x38 || c == 0x39 || 0x41 <= c <= 0x5a
    requires |src| >= 13 && i < 13 && src[i] == c
    ensures c !in EncMap
    ensures DecMap()[c as int] == 0xff
    ensures !DecodeUint64(src).1
  {
    SymbolInEncMap(c);
    DecMapRejectsForeign(c);
  }
}
