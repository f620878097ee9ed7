/**
 The vector expressions of the SSSE3 and AVX2 dumps (src/dump_ssse3.cpp, src/dump_avx2.cpp): a register is a
 sequence of bytes, lowest address first, and every instruction used is spelled out on those bytes.
 */
module VectorDump {
  import opened HexText

  type Xmm = v: seq<Byte> | |v| == 16 witness [0, 0, 0, 0, 0, 0, 0, 0, 0, 0, 0, 0, 0, 0, 0, 0]

  // ---------------------------------------------------------------------------------------------
  // Instructions
  // ---------------------------------------------------------------------------------------------

  function Set1(b: Byte): (r: Xmm)
  {
    seq(16, _ => b)
  }

  /** Bitwise and with 0x0F in every byte. */
  function And15(v: Xmm): (r: Xmm)
  {
    seq(16, i requires 0 <= i < 16 => v[i] % 16)
  }

  /** Shift of each 16-bit lane right by four bits. */
  function ShiftRight4(v: Xmm): (r: Xmm)
  {
    seq(16, i requires 0 <= i < 16 =>
      if i % 2 == 0 then ((v[i] as int + 256 * v[i + 1] as int) / 16) % 256
      else (v[i - 1] as int + 256 * v[i] as int) / 16 / 256)
  }

  /** Byte shuffle: an index with its top bit set gives zero. */
  function Shuffle(table: Xmm, index: Xmm): (r: Xmm)
  {
    seq(16, i requires 0 <= i < 16 => if index[i] >= 0x80 then 0 else table[index[i] % 16])
  }

  function UnpackLow(a: Xmm, b: Xmm): (r: Xmm)
  {
    seq(16, i requires 0 <= i < 16 => if i % 2 == 0 then a[i / 2] else b[i / 2])
  }

  function UnpackHigh(a: Xmm, b: Xmm): (r: Xmm)
  {
    seq(16, i requires 0 <= i < 16 => if i % 2 == 0 then a[8 + i / 2] else b[8 + i / 2])
  }

  /** The concatenation of two registers, low one first, shifted down by `n` bytes. */
  function AlignRight(high: Xmm, low: Xmm, n: nat): (r: Xmm)
    requires n <= 16
  {
    (low + high)[n..n + 16]
  }

  function MaxBytes(a: Xmm, b: Xmm): (r: Xmm)
  {
    seq(16, i requires 0 <= i < 16 => if a[i] >= b[i] then a[i] else b[i])
  }

  function Signed(b: Byte): (n: int)
  {
    if b < 128 then b else b - 256
  }

  function CompareGreater(a: Xmm, b: Xmm): (r: Xmm)
  {
    seq(16, i requires 0 <= i < 16 => if Signed(a[i]) > Signed(b[i]) then 0xFF else 0)
  }

  /** Bitwise and with a register whose bytes are 0 or 0xFF. */
  function AndMask(v: Xmm, mask: Xmm): (r: Xmm)
  {
    seq(16, i requires 0 <= i < 16 => if mask[i] == 0 then 0 else v[i])
  }

  function AddBytes(a: Xmm, b: Xmm): (r: Xmm)
  {
    seq(16, i requires 0 <= i < 16 => (a[i] as int + b[i] as int) % 256)
  }

  // ---------------------------------------------------------------------------------------------
  // Dumping a pack of 16 bytes
  // ---------------------------------------------------------------------------------------------

  const SHUFFLE_PATTERN_1: Xmm := [0x80, 0, 1, 0x80, 2, 3, 0x80, 4, 5, 0x80, 6, 7, 0x80, 8, 9, 0x80]
  const SHUFFLE_PATTERN_2: Xmm := [0, 1, 0x80, 2, 3, 0x80, 4, 5, 0x80, 6, 7, 0x80, 8, 9, 0x80, 10]
  const SHUFFLE_PATTERN_3: Xmm := [5, 0x80, 6, 7, 0x80, 8, 9, 0x80, 10, 11, 0x80, 12, 13, 0x80, 14, 15]

  function CharTable(upper: bool): (t: Xmm)
  {
    seq(16, i requires 0 <= i < 16 => Digit(upper, i))
  }

  datatype Pack = Pack(o1: Xmm, o2: Xmm, o3: Xmm)

  /** Digits of the high and the low half-bytes, interleaved and spread out with spaces. */
  function Spread(high: Xmm, low: Xmm): (p: Pack)
  {
    var mm1 := UnpackLow(high, low);
    var mm2 := UnpackHigh(high, low);
    Pack(MaxBytes(Shuffle(mm1, SHUFFLE_PATTERN_1), Set1(0x20)),
         MaxBytes(Shuffle(AlignRight(mm2, mm1, 10), SHUFFLE_PATTERN_2), Set1(0x20)),
         MaxBytes(Shuffle(mm2, SHUFFLE_PATTERN_3), Set1(0x20)))
  }

  /** `dump_pack`: digits by table lookup. */
  function DumpPack(table: Xmm, input: Xmm): (p: Pack)
  {
    Spread(Shuffle(table, And15(ShiftRight4(input))), Shuffle(table, And15(input)))
  }

  /** Digits by arithmetic: add '0', and for values above nine the distance to the letters. */
  function Stringize(tenToA: Xmm, half: Xmm): (r: Xmm)
  {
    AddBytes(AddBytes(half, Set1(0x30)), AndMask(tenToA, CompareGreater(half, Set1(9))))
  }

  /** `dump_pack_slow_pshufb`. */
  function DumpPackSlow(tenToA: Xmm, input: Xmm): (p: Pack)
  {
    Spread(Stringize(tenToA, And15(ShiftRight4(input))), Stringize(tenToA, And15(input)))
  }

  /** The addend the slow variant uses, by letter case. */
  function TenToA(upper: bool): (r: Xmm)
  {
    if upper then Set1(0x07) else Set1(0x27)
  }

  lemma LaneShiftDigits(a: nat, b: nat, c: nat, d: nat)
    requires a < 16 && b < 16 && c < 16 && d < 16
    ensures (16 * a + b + 256 * (16 * c + d)) / 16 == a + 16 * d + 256 * c
    ensures (a + 16 * d + 256 * c) % 256 == a + 16 * d
    ensures (a + 16 * d + 256 * c) / 256 == c
    ensures (a + 16 * d) % 16 == a
  {
  }

  /** The shift crosses byte borders inside a lane; the mask removes what came across. */
  lemma LaneShift(low: Byte, high: Byte)
    ensures ((low as int + 256 * high as int) / 16) % 256 % 16 == low / 16
    ensures (low as int + 256 * high as int) / 16 / 256 % 16 == high / 16
  {
    LaneShiftDigits(low / 16, low % 16, high / 16, high % 16);
  }

  lemma HighHalf(input: Xmm, i: nat)
    requires i < 16
    ensures And15(ShiftRight4(input))[i] == input[i] / 16
  {
    if i % 2 == 0 {
      LaneShift(input[i], input[i + 1]);
    } else {
      LaneShift(input[i - 1], input[i]);
    }
  }

  lemma TableDigits(upper: bool, half: Xmm, i: nat)
    requires i < 16 && half[i] < 16
    ensures Shuffle(CharTable(upper), half)[i] == Digit(upper, half[i])
  {
  }

  lemma ArithmeticDigits(upper: bool, half: Xmm, i: nat)
    requires i < 16 && half[i] < 16
    ensures Stringize(TenToA(upper), half)[i] == Digit(upper, half[i])
  {
  }

  /** Both variants produce the same register contents, for every input and letter case. */
  lemma SlowEqualsTable(upper: bool, input: Xmm)
    ensures DumpPackSlow(TenToA(upper), input) == DumpPack(CharTable(upper), input)
  {
    var high, low := And15(ShiftRight4(input)), And15(input);
    forall i | 0 <= i < 16
      ensures Stringize(TenToA(upper), high)[i] == Shuffle(CharTable(upper), high)[i]
      ensures Stringize(TenToA(upper), low)[i] == Shuffle(CharTable(upper), low)[i]
    {
      HighHalf(input, i);
      ArithmeticDigits(upper, high, i);
      ArithmeticDigits(upper, low, i);
      TableDigits(upper, high, i);
      TableDigits(upper, low, i);
    }
    hide Stringize, Shuffle;
    assert Stringize(TenToA(upper), high) == Shuffle(CharTable(upper), high);
    assert Stringize(TenToA(upper), low) == Shuffle(CharTable(upper), low);
  }

  /** Digit number `j` of a pack: high and low half-bytes in turn. */
  function PairAt(high: Xmm, low: Xmm, j: nat): (b: Byte)
    requires j < 32
  {
    if j % 2 == 0 then high[j / 2] else low[j / 2]
  }

  /** What position `k` of the 48 characters takes: a space, or a digit. */
  function SpreadAt(high: Xmm, low: Xmm, k: nat): (b: Byte)
    requires k < 48
  {
    if k % 3 == 0 then 0x20
    else var d := PairAt(high, low, 2 * (k / 3) + k % 3 - 1); if d >= 0x20 then d else 0x20
  }

  /** Where position `k` of the 48 characters comes from, in the numbering of the given register. */
  function Index(k: nat, first: nat): (n: int)
  {
    if k % 3 == 0 then 0x80 else 2 * (k / 3) + k % 3 - 1 - first
  }

  lemma Pattern1Is(i: nat)
    requires i < 16
    ensures SHUFFLE_PATTERN_1[i] == Index(i, 0)
  {
  }

  lemma Pattern2Is(i: nat)
    requires i < 16
    ensures SHUFFLE_PATTERN_2[i] == Index(16 + i, 10)
  {
  }

  lemma Pattern3Is(i: nat)
    requires i < 16
    ensures SHUFFLE_PATTERN_3[i] == Index(32 + i, 16)
  {
  }

  lemma UnpackedPairs(high: Xmm, low: Xmm, j: nat)
    requires j < 32
    ensures j < 16 ==> UnpackLow(high, low)[j] == PairAt(high, low, j)
    ensures j >= 16 ==> UnpackHigh(high, low)[j - 16] == PairAt(high, low, j)
    ensures 10 <= j < 26 ==> AlignRight(UnpackHigh(high, low), UnpackLow(high, low), 10)[j - 10] == PairAt(high, low, j)
  {
    var mm1: seq<Byte> := UnpackLow(high, low);
    var mm2: seq<Byte> := UnpackHigh(high, low);
    if 10 <= j < 26 {
      assert AlignRight(mm2, mm1, 10)[j - 10] == (mm1 + mm2)[j];
    }
  }

  lemma SpreadFirst(high: Xmm, low: Xmm, i: nat)
    requires i < 16
    ensures Spread(high, low).o1[i] == SpreadAt(high, low, i)
  {
    hide SHUFFLE_PATTERN_1, SHUFFLE_PATTERN_2, SHUFFLE_PATTERN_3, UnpackLow, UnpackHigh, PairAt;
    Pattern1Is(i);
    if i % 3 != 0 {
      UnpackedPairs(high, low, Index(i, 0));
    }
  }

  lemma SpreadSecond(high: Xmm, low: Xmm, i: nat)
    requires i < 16
    ensures Spread(high, low).o2[i] == SpreadAt(high, low, 16 + i)
  {
    hide SHUFFLE_PATTERN_1, SHUFFLE_PATTERN_2, SHUFFLE_PATTERN_3, UnpackLow, UnpackHigh, PairAt, AlignRight;
    Pattern2Is(i);
    if (16 + i) % 3 != 0 {
      UnpackedPairs(high, low, Index(16 + i, 0));
    }
  }

  lemma SpreadThird(high: Xmm, low: Xmm, i: nat)
    requires i < 16
    ensures Spread(high, low).o3[i] == SpreadAt(high, low, 32 + i)
  {
    hide SHUFFLE_PATTERN_1, SHUFFLE_PATTERN_2, SHUFFLE_PATTERN_3, UnpackLow, UnpackHigh, PairAt;
    Pattern3Is(i);
    if (32 + i) % 3 != 0 {
      UnpackedPairs(high, low, Index(32 + i, 0));
    }
  }

  /** The 48 characters of a pack, in the order they are stored. */
  function Characters(p: Pack): (s: seq<Code>)
    ensures |s| == 48
  {
    p.o1 + p.o2 + p.o3
  }

  lemma SpreadCharacters(high: Xmm, low: Xmm, k: nat)
    requires k < 48
    ensures Characters(Spread(high, low))[k] == SpreadAt(high, low, k)
  {
    if k < 16 {
      SpreadFirst(high, low, k);
    } else if k < 32 {
      SpreadSecond(high, low, k - 16);
    } else {
      SpreadThird(high, low, k - 32);
    }
    hide Spread, SpreadAt;
  }

  lemma PackDigits(upper: bool, input: Xmm, i: nat)
    requires i < 16
    ensures Shuffle(CharTable(upper), And15(ShiftRight4(input)))[i] == Digit(upper, input[i] / 16)
    ensures Shuffle(CharTable(upper), And15(input))[i] == Digit(upper, input[i] % 16)
  {
    hide Shuffle, ShiftRight4, Digit, CharTable;
    HighHalf(input, i);
    TableDigits(upper, And15(ShiftRight4(input)), i);
    TableDigits(upper, And15(input), i);
  }

  lemma PackCharacter(upper: bool, input: Xmm, i: nat)
    requires i < 16
    ensures Characters(DumpPack(CharTable(upper), input))[3 * i] == SPACE
    ensures Characters(DumpPack(CharTable(upper), input))[3 * i + 1] == Digit(upper, input[i] / 16)
    ensures Characters(DumpPack(CharTable(upper), input))[3 * i + 2] == Digit(upper, input[i] % 16)
  {
    hide Spread, Characters, Shuffle, ShiftRight4, And15, CharTable, Digit;
    var high := Shuffle(CharTable(upper), And15(ShiftRight4(input)));
    var low := Shuffle(CharTable(upper), And15(input));
    SpreadCharacters(high, low, 3 * i);
    SpreadCharacters(high, low, 3 * i + 1);
    SpreadCharacters(high, low, 3 * i + 2);
    PackDigits(upper, input, i);
  }

  /** `dump_pack` turns any 16 bytes into their buffer form. */
  lemma DumpPackIsSpaced(upper: bool, input: Xmm)
    ensures Characters(DumpPack(CharTable(upper), input)) == Spaced(upper, input)
  {
    hide DumpPack, Characters, Spaced, Digit;
    var s, t := Characters(DumpPack(CharTable(upper), input)), Spaced(upper, input);
    forall k | 0 <= k < 48
      ensures s[k] == t[k]
    {
      PackCharacter(upper, input, k / 3);
      SpacedAt(upper, input, k / 3);
    }
  }

  // ---------------------------------------------------------------------------------------------
  // Dumping a pack of 32 bytes: the 256-bit instructions work on the two 128-bit lanes separately
  // ---------------------------------------------------------------------------------------------

  datatype Ymm = Ymm(low: Xmm, high: Xmm)

  function Broadcast(v: Xmm): (r: Ymm)
  {
    Ymm(v, v)
  }

  function And15Wide(v: Ymm): (r: Ymm)
  {
    Ymm(And15(v.low), And15(v.high))
  }

  function ShiftRight4Wide(v: Ymm): (r: Ymm)
  {
    Ymm(ShiftRight4(v.low), ShiftRight4(v.high))
  }

  function ShuffleWide(table: Ymm, index: Ymm): (r: Ymm)
  {
    Ymm(Shuffle(table.low, index.low), Shuffle(table.high, index.high))
  }

  function UnpackLowWide(a: Ymm, b: Ymm): (r: Ymm)
  {
    Ymm(UnpackLow(a.low, b.low), UnpackLow(a.high, b.high))
  }

  function UnpackHighWide(a: Ymm, b: Ymm): (r: Ymm)
  {
    Ymm(UnpackHigh(a.low, b.low), UnpackHigh(a.high, b.high))
  }

  function AlignRightWide(high: Ymm, low: Ymm, n: nat): (r: Ymm)
    requires n <= 16
  {
    Ymm(AlignRight(high.low, low.low, n), AlignRight(high.high, low.high, n))
  }

  function MaxBytesWide(a: Ymm, b: Ymm): (r: Ymm)
  {
    Ymm(MaxBytes(a.low, b.low), MaxBytes(a.high, b.high))
  }

  datatype WidePack = WidePack(o1: Ymm, o2: Ymm, o3: Ymm)

  function DumpPackWide(table: Ymm, input: Ymm): (p: WidePack)
  {
    var high := ShuffleWide(table, And15Wide(ShiftRight4Wide(input)));
    var low := ShuffleWide(table, And15Wide(input));
    var mm1 := UnpackLowWide(high, low);
    var mm2 := UnpackHighWide(high, low);
    WidePack(MaxBytesWide(ShuffleWide(mm1, Broadcast(SHUFFLE_PATTERN_1)), Broadcast(Set1(0x20))),
             MaxBytesWide(ShuffleWide(AlignRightWide(mm2, mm1, 10), Broadcast(SHUFFLE_PATTERN_2)), Broadcast(Set1(0x20))),
             MaxBytesWide(ShuffleWide(mm2, Broadcast(SHUFFLE_PATTERN_3)), Broadcast(Set1(0x20))))
  }

  /** `store_characters_x3`: the three low lanes, then the three high lanes. */
  function WideCharacters(p: WidePack): (s: seq<Code>)
    ensures |s| == 96
  {
    p.o1.low + p.o2.low + p.o3.low + p.o1.high + p.o2.high + p.o3.high
  }

  /** The AVX2 `dump_pack` with its store order turns any 32 bytes into their buffer form. */
  lemma DumpPackWideIsSpaced(upper: bool, input: Ymm)
    ensures WideCharacters(DumpPackWide(Broadcast(CharTable(upper)), input)) == Spaced(upper, input.low + input.high)
  {
    DumpPackIsSpaced(upper, input.low);
    DumpPackIsSpaced(upper, input.high);
    SpacedAppends(upper, input.low, input.high);
    hide Shuffle, ShiftRight4, And15, UnpackLow, UnpackHigh, AlignRight, MaxBytes, Spaced, CharTable;
    var p := DumpPackWide(Broadcast(CharTable(upper)), input);
    var a, b := DumpPack(CharTable(upper), input.low), DumpPack(CharTable(upper), input.high);
    assert p == WidePack(Ymm(a.o1, b.o1), Ymm(a.o2, b.o2), Ymm(a.o3, b.o3));
    assert WideCharacters(p) == Characters(a) + Characters(b);
  }

  // ---------------------------------------------------------------------------------------------
  // Storing 16 characters as code units of one, two or four bytes
  // ---------------------------------------------------------------------------------------------

  predicate IsWidth(width: nat)
  {
    width == 1 || width == 2 || width == 4
  }

  function UnpackLow16(a: Xmm, b: Xmm): (r: Xmm)
  {
    seq(16, i requires 0 <= i < 16 => if i % 4 < 2 then a[2 * (i / 4) + i % 4] else b[2 * (i / 4) + i % 4 - 2])
  }

  function UnpackHigh16(a: Xmm, b: Xmm): (r: Xmm)
  {
    seq(16, i requires 0 <= i < 16 => if i % 4 < 2 then a[8 + 2 * (i / 4) + i % 4] else b[8 + 2 * (i / 4) + i % 4 - 2])
  }

  /** The bytes the SSSE3 `store_characters` puts in memory. */
  function StoredImage(width: nat, chars: Xmm): (s: seq<Byte>)
    requires IsWidth(width)
    ensures |s| == 16 * width
  {
    var zero := Set1(0);
    if width == 1 then chars
    else if width == 2 then UnpackLow(chars, zero) + UnpackHigh(chars, zero)
    else
      var a, b := UnpackLow(chars, zero), UnpackHigh(chars, zero);
      UnpackLow16(a, zero) + UnpackHigh16(a, zero) + (UnpackLow16(b, zero) + UnpackHigh16(b, zero))
  }

  /** The upper half of a register, twice. */
  function UnpackHigh64(a: Xmm): (r: Xmm)
  {
    a[8..] + a[8..]
  }

  /** Zero extension of the first `256 / (8 * width)` bytes to units of `width` bytes. */
  function ZeroExtend(width: nat, v: Xmm): (s: seq<Byte>)
    requires width == 2 || width == 4
    ensures |s| == 32
  {
    seq(32, i requires 0 <= i < 32 =>
      if width == 2 then if i % 2 == 0 then v[i / 2] else 0
      else if i % 4 == 0 then v[i / 4] else 0)
  }

  /** The bytes the AVX2 `store_characters` puts in memory. */
  function StoredImageWide(width: nat, chars: Xmm): (s: seq<Byte>)
    requires IsWidth(width)
    ensures |s| == 16 * width
  {
    if width == 1 then chars
    else if width == 2 then ZeroExtend(2, chars)
    else ZeroExtend(4, chars) + ZeroExtend(4, UnpackHigh64(chars))
  }

  /** Code unit number `i` of a little-endian byte image. */
  function UnitAt(width: nat, image: seq<Byte>, i: nat): (c: Code)
    requires IsWidth(width) && |image| == 16 * width && i < 16
  {
    if width == 1 then image[i]
    else if width == 2 then image[2 * i] as int + 256 * image[2 * i + 1] as int
    else image[4 * i] as int + 256 * image[4 * i + 1] as int + 65536 * image[4 * i + 2] as int + 16777216 * image[4 * i + 3] as int
  }

  lemma Doubled(chars: Xmm, i: nat)
    requires i < 16
    ensures (UnpackLow(chars, Set1(0)) + UnpackHigh(chars, Set1(0)))[2 * i] == chars[i]
    ensures (UnpackLow(chars, Set1(0)) + UnpackHigh(chars, Set1(0)))[2 * i + 1] == 0
  {
  }

  lemma DoubledAgain(half: Xmm, j: nat)
    requires j < 8
    ensures (UnpackLow16(half, Set1(0)) + UnpackHigh16(half, Set1(0)))[4 * j] == half[2 * j]
    ensures (UnpackLow16(half, Set1(0)) + UnpackHigh16(half, Set1(0)))[4 * j + 1] == half[2 * j + 1]
    ensures (UnpackLow16(half, Set1(0)) + UnpackHigh16(half, Set1(0)))[4 * j + 2] == 0
    ensures (UnpackLow16(half, Set1(0)) + UnpackHigh16(half, Set1(0)))[4 * j + 3] == 0
  {
  }

  lemma Unit4(chars: Xmm, i: nat)
    requires i < 16
    ensures UnitAt(4, StoredImage(4, chars), i) == chars[i]
  {
    hide UnpackLow, UnpackHigh, UnpackLow16, UnpackHigh16, Set1;
    Doubled(chars, i);
    DoubledAgain(UnpackLow(chars, Set1(0)), i % 8);
    DoubledAgain(UnpackHigh(chars, Set1(0)), i % 8);
  }

  /** Read back as code units of any width, what was stored is the characters themselves. */
  lemma StoredImageHoldsCharacters(width: nat, chars: Xmm, i: nat)
    requires IsWidth(width) && i < 16
    ensures UnitAt(width, StoredImage(width, chars), i) == chars[i]
  {
    if width == 2 {
      hide UnpackLow, UnpackHigh, Set1;
      Doubled(chars, i);
    } else if width == 4 {
      hide StoredImage;
      Unit4(chars, i);
    }
  }

  /** Read back as code units, what the AVX2 store leaves is the characters too. */
  lemma StoredImagesAgree(width: nat, chars: Xmm, i: nat)
    requires IsWidth(width) && i < 16
    ensures UnitAt(width, StoredImageWide(width, chars), i) == chars[i]
  {
    var s := StoredImageWide(width, chars);
    if width == 2 {
      assert s[2 * i] == chars[i] && s[2 * i + 1] == 0;
    } else if width == 4 {
      assert s[4 * i] == chars[i];
      assert s[4 * i + 1] == 0 && s[4 * i + 2] == 0 && s[4 * i + 3] == 0;
    }
  }

  // ---------------------------------------------------------------------------------------------
  // Alignment of the temporary buffer
  // ---------------------------------------------------------------------------------------------

  /** The byte offset of the aligned buffer in its storage. */
  function BufferOffset(address: nat, alignment: nat): (n: nat)
    requires alignment == 16 || alignment == 32
  {
    alignment - address % alignment
  }

  /** The buffer is aligned and lies inside the storage, for every storage address and character width. */
  lemma BufferFits(address: nat, alignment: nat, width: nat, chars: nat)
    requires alignment == 16 || alignment == 32
    requires IsWidth(width)
    ensures (address + BufferOffset(address, alignment)) % alignment == 0
    ensures BufferOffset(address, alignment) + width * chars <= width * (chars + alignment)
  {
    assert width * (chars + alignment) == width * chars + width * alignment;
  }

  /** Byte address of the code unit with index `at`. */
  function UnitAddress(base: nat, width: nat, at: nat): (n: nat)
    requires IsWidth(width)
  {
    if width == 1 then base + at else if width == 2 then base + 2 * at else base + 4 * at
  }

  lemma MultipleOf16(k: nat)
    ensures (16 * k) % 16 == 0
  {
  }

  lemma MultipleOf32(k: nat)
    ensures (32 * k) % 32 == 0
  {
  }

  lemma UnitAddressMultiple(m: nat, k: nat, width: nat)
    requires IsWidth(width)
    ensures UnitAddress(16 * m, width, 16 * k) % 16 == 0
    ensures width > 1 ==> UnitAddress(32 * m, width, 16 * k) % 32 == 0
  {
    MultipleOf16(m + if width == 1 then k else if width == 2 then 2 * k else 4 * k);
    MultipleOf32(m + if width == 2 then k else 2 * k);
  }

  /** Every store at a character position that is a multiple of 16 meets the alignment its instruction needs. */
  lemma StoreAligned(base: nat, alignment: nat, width: nat, at: nat)
    requires alignment == 16 || alignment == 32
    requires IsWidth(width) && base % alignment == 0 && at % 16 == 0
    ensures UnitAddress(base, width, at) % 16 == 0
    ensures alignment == 32 && width > 1 ==> UnitAddress(base, width, at) % 32 == 0
  {
    hide UnitAddress;
    if alignment == 16 {
      UnitAddressMultiple(base / 16, at / 16, width);
    } else {
      UnitAddressMultiple(base / 32, at / 16, width);
      UnitAddressMultiple(2 * (base / 32), at / 16, width);
    }
  }
}
