/**
 The byte ring of the interprocess message queue (src/posix/ipc_reliable_message_queue.cpp).

 The ring is `capacity` blocks of `blockSize` bytes. A message starts with a 32-byte header slot whose
 first four bytes hold its length; its payload follows and, when it reaches the end of the ring, goes
 on at block 0 without another header. `Holds` says which queue of messages a memory image represents.
 */
module MessageRing {
  import opened Wrappers

  const HEADER_OVERHEAD: nat := 32

  type Byte = b: int | 0 <= b < 256

  type Message = seq<Byte>

  // ---------------------------------------------------------------------------------------------
  // Block arithmetic
  // ---------------------------------------------------------------------------------------------

  function Pow2(n: nat): (r: nat)
    ensures r >= 1
  {
    if n == 0 then 1 else 2 * Pow2(n - 1)
  }

  lemma {:induction false} Pow2Adds(a: nat, b: nat)
    ensures Pow2(a + b) == Pow2(a) * Pow2(b)
  {
    if a != 0 {
      Pow2Adds(a - 1, b);
      assert Pow2(a + b) == 2 * Pow2(a - 1 + b);
      hide Pow2;
    }
  }

  lemma MulLe(a: nat, b: nat, c: nat)
    requires a <= b
    ensures a * c <= b * c
  {
  }

  lemma MulCancel(a: nat, b: nat, c: nat)
    requires a * c < b * c
    ensures a < b
  {
    if b <= a {
      MulLe(b, a, c);
    }
  }

  lemma DivBounds(x: nat, d: nat)
    requires d > 0
    ensures (x / d) * d <= x < (x / d + 1) * d
  {
    assert x == (x / d) * d + x % d;
  }

  lemma DivGe(q: nat, x: nat, d: nat)
    requires d > 0 && q * d <= x
    ensures q <= x / d
  {
    DivBounds(x, d);
    MulCancel(q, x / d + 1, d);
  }

  lemma DivExact(q: nat, d: nat)
    requires d > 0
    ensures (q * d) / d == q && (q * d) % d == 0
  {
    DivBounds(q * d, d);
    DivGe(q, q * d, d);
    MulCancel(q * d / d, q + 1, d);
  }

  lemma {:induction false} Pow2Grows(a: nat, b: nat)
    requires a < b
    ensures Pow2(a) < Pow2(b)
  {
    if a + 1 < b {
      Pow2Grows(a, b - 1);
    }
  }

  /** Whether the low bits of a power of two are all zero, and what is left after shifting them out. */
  lemma LowBits(k: nat, m: nat, d: nat)
    requires d == Pow2(m)
    ensures Pow2(k) % d == 0 <==> k >= m
    ensures k >= m ==> Pow2(k) / d == Pow2(k - m)
  {
    hide Pow2;
    if k >= m {
      Pow2Adds(k - m, m);
      DivExact(Pow2(k - m), d);
    } else {
      Pow2Grows(k, m);
      SmallMod(Pow2(k), d);
    }
  }

  lemma SmallMod(x: nat, d: nat)
    requires 0 < x < d
    ensures x % d != 0
  {
  }

  lemma HalvingMasks()
    ensures Pow2(1) == 2 && Pow2(2) == 4 && Pow2(4) == 0x10 && Pow2(8) == 0x100 && Pow2(16) == 0x1_0000
  {
    Pow2Adds(4, 4);
    Pow2Adds(8, 8);
  }

  /** One halving of `InitBlockSize`: drop `m` low bits if they are all zero. */
  method DropZeroBits(m: nat, d: nat, rest: nat, log2: nat, ghost k: nat) returns (rest': nat, log2': nat)
    requires d == Pow2(m) && rest == Pow2(k)
    ensures rest' == Pow2(if k >= m then k - m else k)
    ensures log2' == if k >= m then log2 + m else log2
  {
    LowBits(k, m, d);
    rest', log2' := rest, log2;
    if rest % d == 0 {
      rest' := rest / d;
      log2' := log2 + m;
    }
  }

  /** The position of the single bit set in a block size, found by five halvings of the word. */
  method InitBlockSize(blockSize: nat, ghost k: nat) returns (mask: nat, log2: nat)
    requires k < 32 && blockSize == Pow2(k)
    ensures Pow2(log2) == blockSize && log2 == k && mask == blockSize - 1
  {
    mask := blockSize - 1;
    HalvingMasks();
    hide Pow2;
    var rest: nat;
    rest, log2 := DropZeroBits(16, 0x1_0000, blockSize, 0, k);
    rest, log2 := DropZeroBits(8, 0x100, rest, log2, k - log2);
    rest, log2 := DropZeroBits(4, 0x10, rest, log2, k - log2);
    rest, log2 := DropZeroBits(2, 4, rest, log2, k - log2);
    rest, log2 := DropZeroBits(1, 2, rest, log2, k - log2);
  }

  /** Bytes in `n` blocks. Defined by repeated addition, which keeps products out of the invariants. */
  function Bytes(n: nat, blockSize: nat): (b: nat)
  {
    if n == 0 then 0 else Bytes(n - 1, blockSize) + blockSize
  }

  lemma {:induction false} BytesIsMul(n: nat, blockSize: nat)
    ensures Bytes(n, blockSize) == n * blockSize
  {
    if n != 0 {
      BytesIsMul(n - 1, blockSize);
    }
  }

  lemma {:induction false} BytesAdds(a: nat, b: nat, blockSize: nat)
    ensures Bytes(a + b, blockSize) == Bytes(a, blockSize) + Bytes(b, blockSize)
  {
    if b != 0 {
      BytesAdds(a, b - 1, blockSize);
    }
  }

  /** How many blocks of `d` bytes are needed for `x` bytes. */
  function CeilDiv(x: nat, d: nat): (n: nat)
    requires d > 0
  {
    if x == 0 then 0 else if x <= d then 1 else 1 + CeilDiv(x - d, d)
  }

  /** The least number of blocks with room for `x` bytes. */
  lemma {:induction false} CeilDivIsLeast(x: nat, d: nat)
    requires x > 0 && d > 0
    ensures CeilDiv(x, d) >= 1
    ensures Bytes(CeilDiv(x, d) - 1, d) < x <= Bytes(CeilDiv(x, d), d)
  {
    if x > d {
      CeilDivIsLeast(x - d, d);
    }
  }

  /** Rounding up by adding `d - 1` before the division, as the source does. */
  lemma {:induction false} CeilDivIsShift(x: nat, d: nat)
    requires x > 0 && d > 0
    ensures CeilDiv(x, d) == (x + d - 1) / d
  {
    var n := CeilDiv(x, d);
    CeilDivIsLeast(x, d);
    BytesIsMul(n, d);
    DivGe(n, x + d - 1, d);
    DivBounds(x + d - 1, d);
    MulCancel((x + d - 1) / d, n + 1, d);
  }

  /** Number of blocks a message with `size` bytes of payload takes. */
  function Blocks(blockSize: nat, size: nat): (n: nat)
    requires blockSize > 0
  {
    CeilDiv(size + HEADER_OVERHEAD, blockSize)
  }

  /** Bytes those blocks span. */
  function Extent(blockSize: nat, size: nat): (n: nat)
    requires blockSize > 0
  {
    Bytes(Blocks(blockSize, size), blockSize)
  }

  /** `Extent` is the least multiple of the block size that has room for header and payload. */
  lemma ExtentIsLeast(blockSize: nat, size: nat)
    requires blockSize > 0
    ensures Blocks(blockSize, size) >= 1
    ensures size + HEADER_OVERHEAD <= Extent(blockSize, size) < size + HEADER_OVERHEAD + blockSize
  {
    CeilDivIsLeast(size + HEADER_OVERHEAD, blockSize);
  }

  /** The block count as the source computes it, in 32 bits. */
  function EstimateBlockCount(blockSize: nat, size: nat): (n: nat)
    requires blockSize > 0
  {
    Low32(size + HEADER_OVERHEAD + (blockSize - 1)) / blockSize
  }

  /** Whether the 32-bit block count of a message is computed without wrap-around. */
  predicate SizeFits(blockSize: nat, size: nat)
  {
    size + HEADER_OVERHEAD + blockSize - 1 < WORD
  }

  /** The 32-bit estimate is the number of blocks needed precisely when its sum does not wrap. */
  lemma EstimateExactIff(blockSize: nat, size: nat)
    requires 0 < blockSize < WORD && size < WORD
    ensures EstimateBlockCount(blockSize, size) == Blocks(blockSize, size) <==> SizeFits(blockSize, size)
  {
    CeilDivIsShift(size + HEADER_OVERHEAD, blockSize);
    if !SizeFits(blockSize, size) {
      var x := size + HEADER_OVERHEAD + blockSize - 1;
      assert Low32(x) <= x - WORD;
      DivLess(Low32(x), x, blockSize);
    }
  }

  lemma DivLess(y: nat, x: nat, d: nat)
    requires 0 < d && y + d <= x
    ensures y / d < x / d
  {
    DivBounds(y, d);
    DivGe(y / d + 1, x, d);
  }

  /** Bytes of payload that fit between the header at block `pos` and the end of the ring, in 32 bits. */
  function RoomToEnd(capacity: nat, blockSize: nat, pos: nat): (n: nat)
    requires pos < capacity
  {
    Low32(Low32((capacity - pos) * blockSize) - HEADER_OVERHEAD)
  }

  /** Within a ring of at most 2^32 bytes the 32-bit room computation is exact, even at exactly 2^32. */
  lemma RoomExact(capacity: nat, blockSize: nat, pos: nat)
    requires pos < capacity && HEADER_OVERHEAD <= blockSize
    requires Bytes(capacity, blockSize) <= WORD
    ensures RoomToEnd(capacity, blockSize, pos) == Bytes(capacity - pos, blockSize) - HEADER_OVERHEAD
  {
    BytesIsMul(capacity, blockSize);
    BytesIsMul(capacity - pos, blockSize);
    MulLe(1, capacity - pos, blockSize);
    MulLe(capacity - pos, capacity, blockSize);
  }

  /** Whether the first copy of a message that does not wrap covers all of it, wherever it is put. */
  ghost predicate CopiesWhole(capacity: nat, blockSize: nat, pos: nat, size: nat)
    requires pos < capacity && blockSize > 0
  {
    (SizeFits(blockSize, size) && pos + Blocks(blockSize, size) < capacity)
    ==> size <= RoomToEnd(capacity, blockSize, pos)
  }

  /**
   A message that ends before the end of the ring is copied whole, at every position, exactly when the
   ring is no larger than 2^32 bytes. A larger ring drops payload bytes: the copy is cut to the
   truncated room, and nothing copies the rest.
   */
  lemma NoBytesLostIff(capacity: nat, blockSize: nat)
    requires HEADER_OVERHEAD <= blockSize && 2 * blockSize < WORD && WORD % blockSize == 0
    ensures (forall pos, size :: 0 <= pos < capacity && 0 <= size ==> CopiesWhole(capacity, blockSize, pos, size))
      <==> capacity * blockSize <= WORD
  {
    if capacity * blockSize <= WORD {
      forall pos, size | 0 <= pos < capacity && 0 <= size
        ensures CopiesWhole(capacity, blockSize, pos, size)
      {
        SmallRingCopiesWhole(capacity, blockSize, pos, size);
      }
    } else {
      LargeRingCutsCopy(capacity, blockSize);
    }
  }

  lemma SmallRingCopiesWhole(capacity: nat, blockSize: nat, pos: nat, size: nat)
    requires HEADER_OVERHEAD <= blockSize && pos < capacity && capacity * blockSize <= WORD
    ensures CopiesWhole(capacity, blockSize, pos, size)
  {
    var n := Blocks(blockSize, size);
    if pos + n < capacity {
      BytesIsMul(capacity, blockSize);
      RoomExact(capacity, blockSize, pos);
      ExtentIsLeast(blockSize, size);
      BytesAdds(n, capacity - pos - n, blockSize);
    }
  }

  /** In a larger ring there is a position from which the room wraps to less than one block. */
  lemma LargeRingCutsCopy(capacity: nat, blockSize: nat)
    requires HEADER_OVERHEAD <= blockSize && 2 * blockSize < WORD && WORD % blockSize == 0
    requires capacity * blockSize > WORD
    ensures exists pos :: 0 <= pos < capacity && !CopiesWhole(capacity, blockSize, pos, blockSize)
  {
    var q := WORD / blockSize;
    assert q * blockSize == WORD;
    MulCancel(q, capacity, blockSize);
    MulCancel(2, q, blockSize);
    var pos := capacity - q - 1;
    assert Blocks(blockSize, blockSize) == 2 by {
      assert CeilDiv(HEADER_OVERHEAD, blockSize) == 1;
    }
    RoomOfLarge(capacity, blockSize, q);
    hide RoomToEnd, Blocks;
    assert !CopiesWhole(capacity, blockSize, pos, blockSize);
  }

  lemma RoomOfLarge(capacity: nat, blockSize: nat, q: nat)
    requires HEADER_OVERHEAD <= blockSize < WORD && q < capacity && q * blockSize == WORD
    ensures RoomToEnd(capacity, blockSize, capacity - q - 1) == blockSize - HEADER_OVERHEAD
  {
    assert (q + 1) * blockSize == WORD + blockSize;
  }

  // ---------------------------------------------------------------------------------------------
  // What a memory image means
  // ---------------------------------------------------------------------------------------------

  /** One step back to the start of a ring of `n` cells. */
  function Wrap(x: nat, n: nat): (r: nat)
  {
    if x < n then x else x - n
  }

  /** The byte `i` places behind byte `at` in ring order. */
  function Cell(data: seq<Byte>, at: nat, i: nat): (b: Byte)
    requires at < |data| && i < |data|
  {
    data[Wrap(at + i, |data|)]
  }

  /** The four bytes of a length field. */
  function SizeField(n: nat): (s: seq<Byte>)
    requires n < WORD
    ensures |s| == 4
  {
    [n % 256, n / 256 % 256, n / 256 / 256 % 256, n / 256 / 256 / 256]
  }

  function ReadSize(data: seq<Byte>, at: nat): (n: nat)
    requires at + 4 <= |data|
  {
    data[at] as int + 0x100 * data[at + 1] as int + 0x1_0000 * data[at + 2] as int + 0x100_0000 * data[at + 3] as int
  }

  /** A message whose header slot starts at byte `at`; its payload may wrap. */
  ghost predicate IsStored(data: seq<Byte>, at: nat, msg: Message)
  {
    && at + HEADER_OVERHEAD <= |data|
    && HEADER_OVERHEAD + |msg| <= |data|
    && ReadSize(data, at) == |msg|
    && forall i :: 0 <= i < |msg| ==> Cell(data, at, HEADER_OVERHEAD + i) == msg[i]
  }

  /** The `extent` bytes of the ring that start at byte `at` hold exactly the queue `msgs`. */
  ghost predicate Holds(data: seq<Byte>, blockSize: nat, at: nat, extent: nat, msgs: seq<Message>)
    requires blockSize > 0
    decreases |msgs|
  {
    if msgs == [] then
      extent == 0
    else
      var n := Extent(blockSize, |msgs[0]|);
      && at < |data| && n <= extent <= |data|
      && SizeFits(blockSize, |msgs[0]|)
      && IsStored(data, at, msgs[0])
      && Holds(data, blockSize, Wrap(at + n, |data|), extent - n, msgs[1..])
  }

  /** A memory image represents at most one queue. */
  lemma {:induction false} HoldsUnique(data: seq<Byte>, blockSize: nat, at: nat, extent: nat, a: seq<Message>, b: seq<Message>)
    requires blockSize > 0
    requires Holds(data, blockSize, at, extent, a) && Holds(data, blockSize, at, extent, b)
    ensures a == b
    decreases |a|
  {
    if a == [] || b == [] {
      if a != [] {
        ExtentIsLeast(blockSize, |a[0]|);
      }
      if b != [] {
        ExtentIsLeast(blockSize, |b[0]|);
      }
    } else {
      assert a[0] == b[0];
      var n := Extent(blockSize, |a[0]|);
      HoldsUnique(data, blockSize, Wrap(at + n, |data|), extent - n, a[1..], b[1..]);
      assert a == [a[0]] + a[1..] && b == [b[0]] + b[1..];
    }
  }

  /** Memory images that agree on the bytes in use represent the same queue. */
  lemma {:induction false} HoldsFrame(data: seq<Byte>, data': seq<Byte>, blockSize: nat, at: nat, extent: nat, msgs: seq<Message>)
    requires blockSize > 0 && |data| == |data'|
    requires at < |data| && extent <= |data|
    requires forall i :: 0 <= i < extent ==> Cell(data, at, i) == Cell(data', at, i)
    requires Holds(data, blockSize, at, extent, msgs)
    ensures Holds(data', blockSize, at, extent, msgs)
    decreases |msgs|
  {
    hide Bytes, Blocks, Extent;
    if msgs != [] {
      var len := |msgs[0]|;
      var n := Extent(blockSize, len);
      ExtentIsLeast(blockSize, len);
      assert ReadSize(data', at) == len by {
        assert Cell(data, at, 0) == Cell(data', at, 0) && Cell(data, at, 1) == Cell(data', at, 1);
        assert Cell(data, at, 2) == Cell(data', at, 2) && Cell(data, at, 3) == Cell(data', at, 3);
      }
      var at' := Wrap(at + n, |data|);
      forall i | 0 <= i < extent - n
        ensures Cell(data, at', i) == Cell(data', at', i)
      {
        assert Cell(data, at, n + i) == Cell(data', at, n + i);
      }
      HoldsFrame(data, data', blockSize, at', extent - n, msgs[1..]);
    }
  }

  /** A message stored right behind the bytes in use extends the queue. */
  lemma {:induction false} HoldsAppend(data: seq<Byte>, blockSize: nat, at: nat, extent: nat, msgs: seq<Message>, msg: Message)
    requires blockSize > 0 && at < |data|
    requires extent + Extent(blockSize, |msg|) <= |data|
    requires Holds(data, blockSize, at, extent, msgs)
    requires SizeFits(blockSize, |msg|)
    requires IsStored(data, Wrap(at + extent, |data|), msg)
    ensures Holds(data, blockSize, at, extent + Extent(blockSize, |msg|), msgs + [msg])
    decreases |msgs|
  {
    hide Bytes, Blocks, Extent;
    var all := msgs + [msg];
    ExtentIsLeast(blockSize, |msg|);
    if msgs == [] {
      assert all[1..] == [];
    } else {
      var n := Extent(blockSize, |msgs[0]|);
      ExtentIsLeast(blockSize, |msgs[0]|);
      var at' := Wrap(at + n, |data|);
      assert Wrap(at' + (extent - n), |data|) == Wrap(at + extent, |data|);
      HoldsAppend(data, blockSize, at', extent - n, msgs[1..], msg);
      assert all[1..] == msgs[1..] + [msg];
    }
  }

  /** Blocks taken by a whole queue. */
  function TotalBlocks(blockSize: nat, msgs: seq<Message>): (n: nat)
    requires blockSize > 0
  {
    if msgs == [] then 0 else Blocks(blockSize, |msgs[0]|) + TotalBlocks(blockSize, msgs[1..])
  }

  /** The bytes in use are exactly the blocks of the queued messages. */
  lemma {:induction false} ExtentIsTotal(data: seq<Byte>, blockSize: nat, at: nat, extent: nat, msgs: seq<Message>)
    requires blockSize > 0 && Holds(data, blockSize, at, extent, msgs)
    ensures extent == Bytes(TotalBlocks(blockSize, msgs), blockSize)
    decreases |msgs|
  {
    if msgs != [] {
      var n := Extent(blockSize, |msgs[0]|);
      ExtentIsTotal(data, blockSize, Wrap(at + n, |data|), extent - n, msgs[1..]);
      BytesAdds(Blocks(blockSize, |msgs[0]|), TotalBlocks(blockSize, msgs[1..]), blockSize);
    }
  }
}
