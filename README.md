# b32 — a verified model

The Go package `b32` writes an unsigned 64-bit integer as exactly 13
characters of the RFC 4648 base 32 alphabet. It uses lower case and no
padding, and reads such characters back. Its 65-bit view is the 64 bits of
`n` followed by one zero bit, split into thirteen 5-bit groups, most
significant first. Each group is written as the `encMap` entry it indexes.
Decoding looks each byte up in `decMap`, ORs the values back into place and
accepts the input when no looked-up value had any of the bits `0xe0` set.

The project has five modules:

- `Bytes` (`bytes.dfy`): Go's `byte`, plus the library pieces the package
  uses. These are `bytes.IndexByte`, the conversion `byte(int)`,
  `[]byte("…")` of an ASCII literal, `copy`, and `binary.BigEndian`.
- `Rfc4648` (`rfc4648.dfy`): a reference definition of the unpadded base 32
  encoding of section 6 of RFC 4648. It covers Table 3 in lower case,
  40-bit input groups and final partial quanta.
- `B32` (`b32.dfy`): the package itself.
  - `StdEncoding`.
  - The tables `init` builds. `EncMap` and `DecMap()` are their values, and
    `Init`/`FillDecMap` are `init` on arrays.
  - `EncodeUint64`, a method writing into an `array<byte>`, and
    `EncodeUint64ToString`.
  - `DecodeUint64` and `DecodeUint64FromString`.
  - The round-trip properties.
- `B32Parity` (`parity.dfy`): the encoding equals the RFC 4648 unpadded
  encoding of the eight big-endian bytes of `n`, and decoding that text
  gives `n` back.
- `B32Test` (`b32_test.dfy`): the package's test vectors, its alphabet
  checks and its corrupt inputs, each stated as a lemma.

`Encode(n)` is the specification of the encoder: symbol `i` is the symbol of
`Group(n, i)`. `EncSymbol` and `Lookup` are closed forms of `encMap[g]` and
`decMap[c]`. `EncSymbolIsEncMap`, `DecMapIsLookup` and `DecMapAt` prove that
they agree with every entry `init` stores. The encoder and decoder are
written with these closed forms, using the source's own shifts, masks and
ORs.

## Model

| member | source | states |
|---|---|---|
| B32.Init | b32.go:77-82 | after `init`, `encMap` holds the bytes of `StdEncoding` and `decMap` holds, for every byte, its `IndexByte` in `encMap` converted to a byte |
| B32.FillDecMap | b32.go:79-81 | the loop over the 256 byte values fills all of `decMap` with `byte(IndexByte(encMap, c))`, and the loop invariant keeps the entries filled so far |
| B32.DecMap | b32.go:79-81 | `decMap` as `init` leaves it: one entry per byte value (256), entry `i` being `DecMapEntry(byte(i))`; `DecMapAt` gives each entry |
| B32.DecMapEntry | b32.go:80 | the expression `byte(bytes.IndexByte(encMap[:], byte(i)))`: for a byte of `encMap` it is an index below 32 holding that byte, for any other byte it is 0xff |
| B32.Lookup | b32.go:80 | closed form of a `decMap` entry, equal to `DecMapEntry` by `DecMapIsLookup`: below 32 exactly for the bytes of the alphabet, 0xff for every other byte |
| B32.StdEncodingAt | b32.go:8-9 | the constant `StdEncoding` is `a`–`z` followed by `2`–`7` |
| B32.EncMapIsRfcAlphabet | b32.go:12 | the constant `EncMap`, which is `encMap` after the copy at b32.go:78, has 32 entries, and entry `v` is the symbol of value `v` in Table 3 of RFC 4648, in lower case (the length is what TestAlphabetLength checks) |
| B32.EncSymbol | b32.go:19-31 | closed form of the `encMap[...]` reads of the encoder: always a lower-case RFC 4648 symbol, and equal to `encMap[g]` by `EncSymbolIsEncMap` |
| B32.EncSymbolIsEncMap | b32.go:19-31 | the symbol the encoder writes for group `g` is `encMap[g]` |
| B32.SymbolInEncMap | b32.go:9 | a byte occurs in `encMap` exactly when it is a lower-case RFC 4648 symbol |
| B32.DecMapIsLookup | b32.go:79-81 | the entry `init` computes for `c` is the value of `c` for a symbol and 0xff for any other byte |
| B32.DecMapAt | b32.go:79-81 | `decMap` has 256 entries, and entry `c` is `Lookup(c)` |
| B32.DecMapInvertsEncMap | b32.go:77-82 | `decMap[encMap[g]] == g` for every 5-bit `g` |
| B32.DecMapRejectsForeign | b32.go:80 | every byte missing from `encMap` has `decMap` entry 0xff, which is `byte(-1)` |
| B32.LookupOfSymbol | b32.go:80 | looking up the symbol of `g` gives `g` |
| B32.SymbolOfLookup | b32.go:80 | a symbol is the symbol of the value it looks up to |
| B32.Group | b32.go:19-31 | group `i` of the 65 bits made of `n` and a zero bit; the last group always has bit 0 clear (`GroupAsWritten` ties each group to the source's shift and mask) |
| B32.Encode | b32.go:16-31 | the encoding is exactly 13 bytes long |
| B32.GroupAsWritten | b32.go:19-31 | each shift and mask the encoder applies to `n` selects the corresponding 5-bit group of `n` followed by a zero bit, and symbol 12 takes the low four bits shifted left by one |
| B32.EncodeAt | b32.go:19-31 | symbol `i` of the encoding is `encMap[group i]`, that is the character of `StdEncoding` at that index |
| B32.EncodeInAlphabet | b32.go:16-31 | every symbol of the encoding is an entry of `encMap` and a lower-case RFC 4648 symbol |
| B32.EncodeUint64 | b32.go:16-32 | writes exactly `dst[0..13]`, with the encoding of `n`, and leaves `dst[13..]` unchanged |
| B32.EncodeAsWritten | b32.go:19-31 | the 13 stores of the encoder, each with its own shift and mask, together produce `Encode(n)` |
| B32.EncodeUint64ToString | b32.go:34-40 | returns the 13 bytes `EncodeUint64` writes |
| B32.LastSymbolEven | b32.go:19 | the last symbol stands for an even value, below 32 |
| B32.DecodeUint64 | b32.go:42-67 | `ok` holds exactly when each of the first 13 bytes is a symbol of the alphabet |
| B32.MaskOfThirteen | b32.go:61-66 | the OR of the 15 looked-up values, with `src[8]` and `src[9]` repeated as written, has none of the bits 0xe0 set exactly when every value is below 32 |
| B32.DecodeAcceptsAlphabet | b32.go:61-66 | `ok` holds exactly when each of the first 13 bytes occurs in `encMap` |
| B32.DecodeUint64FromString | b32.go:69-75 | the string variant accepts exactly the same inputs |
| B32.DecodeEncode | b32_test.go:219-235 | decoding the encoding of any `n` gives `(n, true)` |
| B32.DecodedGroups | b32.go:47-59 | each group of an accepted decode is the looked-up value of the corresponding byte, and the last group has its low bit cleared |
| B32.EncodeDecode | b32.go:46-66 | accepted input re-encodes to itself, except that the low bit of the last symbol is cleared |
| B32.EncodeOfGroups | b32.go:19-31 | a value whose groups are the looked-up values of 13 symbols encodes back to those symbols |
| B32.DecodeIgnoresLowBit | b32.go:47 | two accepted inputs that differ only in bit 0 of the last symbol's value decode to the same result |
| Bytes.IndexByte | b32.go:80 | `bytes.IndexByte` returns the first index of `c`, or -1 exactly when `c` is absent |
| Bytes.ToByte | b32.go:80 | `byte(x)` keeps `x` for 0–255, and maps -1 to 0xff |
| Bytes.Ascii | b32.go:78 | `[]byte` of an ASCII literal has one byte per character, each with the same code |
| Bytes.Copy | b32.go:78 | `copy` overwrites the prefix of `dst` with `src` and leaves the rest unchanged |
| Bytes.BigEndian | b32_test.go:185-189 | `binary.BigEndian.PutUint64` writes 8 bytes, which `Uint64` reads back as `n` |
| Bytes.FromBigEndian | b32_test.go:195 | `binary.BigEndian.Uint64`: the number whose big-endian byte `i` is `b[i]` for each of the 8 positions |
| Rfc4648.Value | b32_test.go:182-183 | reading Table 3 backwards gives the value whose symbol is `c` |
| Rfc4648.EncodeNoPad | b32_test.go:182-189 | the unpadded encoding of `k` bytes is `ceil(8k/5)` alphabet symbols |
| B32Parity.BigEndianAt | b32_test.go:187 | byte `k` of the big-endian form of `n` is the low eight bits of `n >> (56 - 8k)` |
| B32Parity.EncodeMatchesRfc4648 | b32_test.go:146-161 | `EncodeUint64`'s output equals the unpadded lower-case RFC 4648 encoding of the big-endian bytes of `n`, for every `n` |
| B32Parity.DecodeMatchesRfc4648 | b32_test.go:163-180 | decoding the RFC 4648 encoding of the big-endian bytes of `n` gives `(n, true)`, as the big-endian decode does |
| B32Test.AlphabetUnique | b32_test.go:51-61 | any two different positions of `encMap` hold different bytes |
| B32Test.VectorEmpty | b32_test.go:17 | the vector encodes to its text, and both decoders give it back |
| B32Test.VectorF | b32_test.go:18 | the same, for this vector |
| B32Test.VectorFo | b32_test.go:19 | the same, for this vector |
| B32Test.VectorFoo | b32_test.go:20 | the same, for this vector |
| B32Test.VectorFoob | b32_test.go:21 | the same, for this vector |
| B32Test.VectorFooba | b32_test.go:22 | the same, for this vector |
| B32Test.VectorFoobar | b32_test.go:23 | the same, for this vector |
| B32Test.VectorSureDot | b32_test.go:25 | the same, for this vector |
| B32Test.VectorSure | b32_test.go:26 | the same, for this vector |
| B32Test.VectorSur | b32_test.go:27 | the same, for this vector |
| B32Test.VectorSu | b32_test.go:28 | the same, for this vector |
| B32Test.VectorLeasureDot | b32_test.go:29 | the same, for this vector |
| B32Test.VectorEasureDot | b32_test.go:30 | the same, for this vector |
| B32Test.VectorAsureDot | b32_test.go:31 | the same, for this vector |
| B32Test.VectorAllOnes | b32_test.go:33 | the same, for this vector |
| B32Test.VectorAllOnesButLowBit | b32_test.go:34 | the same, for this vector |
| B32Test.Vector01FF | b32_test.go:35 | the same, for this vector |
| B32Test.VectorCounting | b32_test.go:36 | the same, for this vector |
| B32Test.VectorMixed | b32_test.go:37 | the same, for this vector |
| B32Test.VectorDescending | b32_test.go:38 | the same, for this vector |
| B32Test.CorruptDigits | b32_test.go:134 | `"1234567890123"` is rejected |
| B32Test.CorruptLastOne | b32_test.go:134 | `"caazbaywxamm1"` is rejected |
| B32Test.CorruptEight | b32_test.go:134 | `"aaaaaaaaaaa8a"` is rejected |
| B32Test.CorruptNine | b32_test.go:135 | `"kbezvysgla9au"` is rejected |
| B32Test.CorruptZero | b32_test.go:135 | `"cmyzzwaxy0aaa"` is rejected |
| B32Test.CorruptNineEarly | b32_test.go:135 | `"rb9wmvkegmrbc"` is rejected |
| B32Test.ForeignBytesRejected | b32_test.go:130-144 | `0`, `1`, `8`, `9` and upper-case letters are not in `encMap`, map to 0xff in `decMap`, and make any input holding one of them among its first 13 bytes invalid |

## Left out

- B32.EncodeUint64: requires `len(dst) >= 13` instead of modelling the
  index-out-of-range panic. The same applies to `B32.DecodeUint64` and
  `B32.DecodeUint64FromString`, which require 13 bytes.
- B32.DecodeUint64: the number returned alongside `false` is computed as
  written, but no property is stated about it. The package gives it no
  meaning.
- B32.EncodeUint64: writes each symbol as `EncSymbol(group)` rather than
  reading the array `encMap`. `EncSymbolIsEncMap` and `EncodeAt` prove that
  this equals the `encMap` entry for every group. Likewise `DecodeUint64`
  uses `Lookup(c)`, which `DecMapAt` proves equal to every `decMap` entry.
  The method therefore does not capture reads of a table changed after
  `init`. The package never changes the tables.
- The package-level variables and the run-once ordering of `init` are not
  modelled as global state. The tables are the values `EncMap` and
  `DecMap()`, and `Init` shows that `init` produces exactly them in two
  arrays.
- Go strings are immutable byte sequences. `string(buf[:])` and
  `[]byte(s)` are the identity on `seq<byte>`, and no UTF-8 decoding takes
  place.
- `encoding/base32` from Go's standard library is not part of this model.
  The test comparisons against it are stated against `Rfc4648.EncodeNoPad`,
  a definition written from the standard. No RFC 4648 decoder or `=`
  padding is modelled, and the decoder side of the comparison is stated
  through the big-endian bytes.
- Benchmarks, the fuzzing harness and its seeding, and `t.Parallel` are
  test plumbing, not behaviour. The fuzz properties appear as the
  all-inputs lemmas `DecodeEncode` and `EncodeMatchesRfc4648`.
