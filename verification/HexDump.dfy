/**
 The three implementations of the binary dump: scalar (src/dump.cpp), SSSE3 (src/dump_ssse3.cpp) and AVX2
 (src/dump_avx2.cpp). Each fills a temporary buffer and writes it to the stream; the stream is the sequence of
 characters written. All three are proved to write the same text.
 */
module HexDump {
  import opened HexText
  import opened VectorDump

  /** The buffer begins with the buffer form of bytes `p .. q-1`. */
  ghost predicate Filled(buf: array<Code>, upper: bool, data: seq<Byte>, p: nat, q: nat)
    reads buf
  {
    p <= q <= |data| && 3 * (q - p) <= buf.Length && buf[..3 * (q - p)] == Spaced(upper, data[p..q])
  }

  lemma FilledGrows(upper: bool, data: seq<Byte>, p: nat, q: nat, r: nat, before: seq<Code>, added: seq<Code>)
    requires p <= q <= r <= |data|
    requires before == Spaced(upper, data[p..q])
    requires added == Spaced(upper, data[q..r])
    ensures before + added == Spaced(upper, data[p..r])
  {
    assert data[p..r] == data[p..q] + data[q..r];
    SpacedAppends(upper, data[p..q], data[q..r]);
  }

  // ---------------------------------------------------------------------------------------------
  // Filling the buffer
  // ---------------------------------------------------------------------------------------------

  method PutByte(buf: array<Code>, upper: bool, data: seq<Byte>, p: nat, q: nat)
    requires Filled(buf, upper, data, p, q)
    requires q < |data| && 3 * (q + 1 - p) <= buf.Length
    modifies buf
    ensures Filled(buf, upper, data, p, q + 1)
  {
    hide Digit;
    ghost var before := buf[..3 * (q - p)];
    var b := 3 * (q - p);
    var n := data[q];
    buf[b] := SPACE;
    buf[b + 1] := Digit(upper, n / 16);
    buf[b + 2] := Digit(upper, n % 16);
    assert Spaced(upper, data[q..q + 1]) == [SPACE] + Hex(upper, n) + Spaced(upper, []);
    FilledGrows(upper, data, p, q, q + 1, before, [SPACE] + Hex(upper, n));
    assert buf[..3 * (q + 1 - p)] == before + ([SPACE] + Hex(upper, n));
  }

  /** The scalar loop, one byte at a time. */
  method FillBytes(buf: array<Code>, upper: bool, data: seq<Byte>, p: nat, q: nat, r: nat)
    requires Filled(buf, upper, data, p, q)
    requires q <= r <= |data| && 3 * (r - p) <= buf.Length
    modifies buf
    ensures Filled(buf, upper, data, p, r)
  {
    hide Spaced;
    var i := q;
    while i < r
      invariant q <= i <= r
      invariant Filled(buf, upper, data, p, i)
    {
      PutByte(buf, upper, data, p, i);
      i := i + 1;
    }
  }

  /** `store_characters`: 16 characters as code units of the stream's width, at an aligned place of the buffer. */
  method StoreCharacters(buf: array<Code>, base: nat, alignment: nat, width: nat, at: nat, chars: Xmm)
    requires alignment == 16 || alignment == 32
    requires IsWidth(width) && base % alignment == 0
    requires at % 16 == 0 && at + 16 <= buf.Length
    modifies buf
    ensures buf[..at] == old(buf[..at])
    ensures buf[at..at + 16] == chars
  {
    hide StoredImage, StoredImageWide, UnitAt;
    StoreAligned(base, alignment, width, at);
    var image := if alignment == 32 then StoredImageWide(width, chars) else StoredImage(width, chars);
    var i := 0;
    while i < 16
      invariant i <= 16
      invariant buf[..at] == old(buf[..at])
      invariant buf[at..at + i] == chars[..i]
    {
      if alignment == 32 {
        StoredImagesAgree(width, chars, i);
      } else {
        StoredImageHoldsCharacters(width, chars, i);
      }
      buf[at + i] := UnitAt(width, image, i);
      i := i + 1;
    }
  }

  method StorePack(buf: array<Code>, base: nat, alignment: nat, width: nat, at: nat, pack: Pack)
    requires alignment == 16 || alignment == 32
    requires IsWidth(width) && base % alignment == 0
    requires at % 16 == 0 && at + 48 <= buf.Length
    modifies buf
    ensures buf[..at + 48] == old(buf[..at]) + Characters(pack)
  {
    StoreCharacters(buf, base, alignment, width, at, pack.o1);
    assert buf[..at + 16] == old(buf[..at]) + pack.o1;
    StoreCharacters(buf, base, alignment, width, at + 16, pack.o2);
    assert buf[..at + 32] == old(buf[..at]) + pack.o1 + pack.o2;
    StoreCharacters(buf, base, alignment, width, at + 32, pack.o3);
    assert buf[..at + 48] == old(buf[..at]) + pack.o1 + pack.o2 + pack.o3;
  }

  /** Bytes `q .. q+15` in a register, by an aligned load. */
  method LoadAligned(data: seq<Byte>, address: nat, q: nat) returns (v: Xmm)
    requires (address + q) % 16 == 0 && q + 16 <= |data|
    ensures v == data[q..q + 16]
  {
    v := data[q..q + 16];
  }

  /** Dump of one register: by table lookup, or by arithmetic where byte shuffles are slow. */
  function PackOf(upper: bool, slow: bool, input: Xmm): (p: Pack)
    ensures Characters(p) == Spaced(upper, input)
  {
    DumpPackIsSpaced(upper, input);
    SlowEqualsTable(upper, input);
    if slow then DumpPackSlow(TenToA(upper), input) else DumpPack(CharTable(upper), input)
  }

  method FillPack(buf: array<Code>, base: nat, alignment: nat, width: nat, upper: bool, slow: bool,
                  data: seq<Byte>, p: nat, q: nat, input: Xmm)
    requires alignment == 16 || alignment == 32
    requires IsWidth(width) && base % alignment == 0
    requires Filled(buf, upper, data, p, q) && (q - p) % 16 == 0
    requires q + 16 <= |data| && input == data[q..q + 16]
    requires 3 * (q + 16 - p) <= buf.Length
    modifies buf
    ensures Filled(buf, upper, data, p, q + 16)
  {
    hide PackOf, Characters, Spaced;
    ghost var before := buf[..3 * (q - p)];
    var pack := PackOf(upper, slow, input);
    StorePack(buf, base, alignment, width, 3 * (q - p), pack);
    FilledGrows(upper, data, p, q, q + 16, before, Characters(pack));
  }

  /** Packs of 16 bytes from `q` on, as long as `r` allows. */
  method FillPacks(buf: array<Code>, base: nat, alignment: nat, width: nat, upper: bool, slow: bool,
                   data: seq<Byte>, address: nat, p: nat, r: nat) returns (q: nat)
    requires alignment == 16 || alignment == 32
    requires IsWidth(width) && base % alignment == 0
    requires (address + p) % 16 == 0
    requires p <= r <= |data| && 3 * (r - p) <= buf.Length
    modifies buf
    ensures p <= q <= r && (q - p) % 16 == 0 && r - q < 16
    ensures Filled(buf, upper, data, p, q)
  {
    q := p;
    assert Spaced(upper, data[p..p]) == [];
    hide Spaced;
    while r - q >= 16
      invariant p <= q <= r && (q - p) % 16 == 0
      invariant (address + q) % 16 == 0
      invariant Filled(buf, upper, data, p, q)
      decreases r - q
    {
      var input := LoadAligned(data, address, q);
      FillPack(buf, base, alignment, width, upper, slow, data, p, q, input);
      q := q + 16;
    }
  }

  /** A tail shorter than a stride: packs of 16 bytes, then single bytes. */
  method FillTail(buf: array<Code>, base: nat, alignment: nat, width: nat, upper: bool, slow: bool,
                  data: seq<Byte>, address: nat, p: nat)
    requires alignment == 16 || alignment == 32
    requires IsWidth(width) && base % alignment == 0
    requires (address + p) % 16 == 0
    requires p <= |data| && 3 * (|data| - p) <= buf.Length
    modifies buf
    ensures Filled(buf, upper, data, p, |data|)
  {
    hide Filled;
    var q := FillPacks(buf, base, alignment, width, upper, slow, data, address, p, |data|);
    FillBytes(buf, upper, data, p, q, |data|);
  }

  method StoreWidePack(buf: array<Code>, base: nat, width: nat, at: nat, pack: WidePack)
    requires IsWidth(width) && base % 32 == 0
    requires at % 16 == 0 && at + 96 <= buf.Length
    modifies buf
    ensures buf[..at + 96] == old(buf[..at]) + WideCharacters(pack)
  {
    var low := Pack(pack.o1.low, pack.o2.low, pack.o3.low);
    var high := Pack(pack.o1.high, pack.o2.high, pack.o3.high);
    assert WideCharacters(pack) == Characters(low) + Characters(high);
    hide WideCharacters, Characters;
    StorePack(buf, base, 32, width, at, low);
    StorePack(buf, base, 32, width, at + 48, high);
    assert old(buf[..at]) + Characters(low) + Characters(high) == old(buf[..at]) + (Characters(low) + Characters(high));
  }

  method FillWidePack(buf: array<Code>, base: nat, width: nat, upper: bool, data: seq<Byte>, p: nat, q: nat)
    requires IsWidth(width) && base % 32 == 0
    requires Filled(buf, upper, data, p, q) && (q - p) % 16 == 0
    requires q + 32 <= |data| && 3 * (q + 32 - p) <= buf.Length
    modifies buf
    ensures Filled(buf, upper, data, p, q + 32)
  {
    hide Characters, Spaced, DumpPackWide, WideCharacters, CharTable, Broadcast;
    ghost var before := buf[..3 * (q - p)];
    var input := Ymm(data[q..q + 16], data[q + 16..q + 32]);
    assert input.low + input.high == data[q..q + 32];
    var pack := DumpPackWide(Broadcast(CharTable(upper)), input);
    DumpPackWideIsSpaced(upper, input);
    StoreWidePack(buf, base, width, 3 * (q - p), pack);
    FilledGrows(upper, data, p, q, q + 32, before, WideCharacters(pack));
  }

  /** A whole stride of 32 packs of 32 bytes, loaded from aligned places. */
  method FillWideStride(buf: array<Code>, base: nat, width: nat, upper: bool, data: seq<Byte>, address: nat, p: nat)
    requires IsWidth(width) && base % 32 == 0
    requires Aligned32(address + p)
    requires p + 1024 <= |data| && buf.Length == 3 * 1024
    modifies buf
    ensures Filled(buf, upper, data, p, p + 1024)
  {
    assert Spaced(upper, data[p..p]) == [];
    hide Spaced;
    var j := 0;
    while j < 32
      invariant 0 <= j <= 32
      invariant Filled(buf, upper, data, p, p + 32 * j)
    {
      assert (address + (p + 32 * j)) % 32 == 0;
      FillWidePack(buf, base, width, upper, data, p, p + 32 * j);
      j := j + 1;
    }
  }

  // ---------------------------------------------------------------------------------------------
  // The dumps
  // ---------------------------------------------------------------------------------------------

  /** `strm.write`: the buffer from `begin` up to the characters of byte `q-1`. */
  method Write(buf: array<Code>, upper: bool, data: seq<Byte>, p: nat, q: nat, filled: nat, begin: nat, out: seq<Code>)
    returns (next: seq<Code>)
    requires p < q <= filled <= |data| && Filled(buf, upper, data, p, filled)
    requires begin == Skip(p)
    requires out == Text(upper, data, p)
    ensures next == Text(upper, data, q)
  {
    next := out + buf[begin..3 * (q - p)];
    assert data[p..filled] == data[p..q] + data[q..filled];
    SpacedAppends(upper, data[p..q], data[q..filled]);
    hide Spaced, Text;
    assert buf[begin..3 * (q - p)] == Spaced(upper, data[p..q])[begin..];
    TextGrows(upper, data, p, q);
  }

  /** The scalar dump writes the hexadecimal text of the data, for every size. */
  method DumpGeneric(data: seq<Byte>, upper: bool) returns (out: seq<Code>)
    ensures out == Joined(upper, data)
  {
    var buf := new Code[768];
    var p, begin := 0, 1;
    out := [];
    assert Spaced(upper, data[p..p]) == [];
    while |data| - p >= 256
      invariant p <= |data| && begin == Skip(p)
      invariant out == Text(upper, data, p)
      decreases |data| - p
    {
      assert Spaced(upper, data[p..p]) == [];
      hide Spaced, Text;
      FillBytes(buf, upper, data, p, p, p + 256);
      out := Write(buf, upper, data, p, p + 256, p + 256, begin, out);
      p, begin := p + 256, 0;
    }
    if p < |data| {
      assert Spaced(upper, data[p..p]) == [];
      FillBytes(buf, upper, data, p, p, |data|);
      out := Write(buf, upper, data, p, |data|, |data|, begin, out);
    }
    TextIsDump(upper, data);
  }

  /** Bytes up to the next 16-byte boundary. */
  function Prealign16(address: nat): (n: nat)
    ensures n < 16 && (address + n) % 16 == 0
  {
    (16 - address % 16) % 16
  }

  /** Bytes up to the next 32-byte boundary. */
  function Prealign32(address: nat): (n: nat)
    ensures n < 32 && Aligned32(address + n)
  {
    (32 - address % 32) % 32
  }

  /** The SSSE3 dump, both variants: whatever the address of the data, the text is that of the scalar dump. */
  method DumpSsse3(data: seq<Byte>, address: nat, base: nat, width: nat, upper: bool, slow: bool)
    returns (out: seq<Code>)
    requires |data| >= 16
    requires IsWidth(width) && base % 16 == 0
    ensures out == Joined(upper, data)
  {
    hide Spaced, Text, Filled, Prealign16;
    var buf := new Code[3 * 512];
    var p, begin := 0, 1;
    out := [];
    EmptyText(upper, data);
    var prealign := Prealign16(address);
    if prealign > 0 {
      EmptyBuffer(buf, upper, data, 0);
      FillPack(buf, base, 16, width, upper, slow, data, 0, 0, data[0..16]);
      out := Write(buf, upper, data, 0, prealign, 16, begin, out);
      p, begin := prealign, 0;
    }
    while |data| - p >= 512
      invariant p <= |data| && begin == Skip(p)
      invariant (address + p) % 16 == 0
      invariant out == Text(upper, data, p)
      decreases |data| - p
    {
      var q := FillPacks(buf, base, 16, width, upper, slow, data, address, p, p + 512);
      out := Write(buf, upper, data, p, q, q, begin, out);
      p, begin := q, 0;
    }
    if p < |data| {
      FillTail(buf, base, 16, width, upper, slow, data, address, p);
      out := Write(buf, upper, data, p, |data|, |data|, begin, out);
    }
    TextIsDump(upper, data);
  }

  lemma EmptyText(upper: bool, data: seq<Byte>)
    ensures Text(upper, data, 0) == []
  {
  }

  lemma EmptyBuffer(buf: array<Code>, upper: bool, data: seq<Byte>, p: nat)
    requires p <= |data|
    ensures Filled(buf, upper, data, p, p)
  {
    assert Spaced(upper, data[p..p]) == [];
  }

  predicate Aligned32(n: nat)
  {
    n % 32 == 0
  }

  lemma AlignedFurther(n: nat)
    requires Aligned32(n)
    ensures Aligned32(n + 1024) && n % 16 == 0
  {
  }

  /** The AVX2 dump, which takes exactly 32 bytes in one go. */
  method DumpAvx2(data: seq<Byte>, address: nat, base: nat, width: nat, upper: bool) returns (out: seq<Code>)
    requires |data| >= 32
    requires IsWidth(width) && base % 32 == 0
    ensures out == Joined(upper, data)
  {
    hide Spaced, Text, Filled, Prealign32, Aligned32;
    var buf := new Code[3 * 1024];
    var p, begin := 0, 1;
    out := [];
    EmptyText(upper, data);
    var prealign := if |data| == 32 then 32 else Prealign32(address);
    if prealign > 0 {
      EmptyBuffer(buf, upper, data, 0);
      FillWidePack(buf, base, width, upper, data, 0, 0);
      out := Write(buf, upper, data, 0, prealign, 32, begin, out);
      p, begin := prealign, 0;
    }
    while |data| - p >= 1024
      invariant p <= |data| && begin == Skip(p)
      invariant p < |data| ==> Aligned32(address + p)
      invariant out == Text(upper, data, p)
      decreases |data| - p
    {
      AlignedFurther(address + p);
      FillWideStride(buf, base, width, upper, data, address, p);
      out := Write(buf, upper, data, p, p + 1024, p + 1024, begin, out);
      p, begin := p + 1024, 0;
    }
    if p < |data| {
      AlignedFurther(address + p);
      FillTail(buf, base, 32, width, upper, false, data, address, p);
      out := Write(buf, upper, data, p, |data|, |data|, begin, out);
    }
    TextIsDump(upper, data);
  }

  datatype Cpu = Scalar | Ssse3 | Ssse3SlowShuffle | Avx2

  /** The exported entry points: short data goes to the scalar dump. The text depends on nothing but the data. */
  method DumpData(cpu: Cpu, data: seq<Byte>, address: nat, storage: nat, width: nat, upper: bool)
    returns (out: seq<Code>)
    requires IsWidth(width)
    ensures out == Joined(upper, data)
  {
    if (cpu.Ssse3? || cpu.Ssse3SlowShuffle?) && |data| >= 16 {
      BufferFits(storage, 16, width, 3 * 512);
      out := DumpSsse3(data, address, storage + BufferOffset(storage, 16), width, upper, cpu.Ssse3SlowShuffle?);
    } else if cpu.Avx2? && |data| >= 32 {
      BufferFits(storage, 32, width, 3 * 1024);
      out := DumpAvx2(data, address, storage + BufferOffset(storage, 32), width, upper);
    } else {
      out := DumpGeneric(data, upper);
    }
  }
}
