/**
 The queue operations that run under the queue mutex, over a real byte array:
 enqueue, dequeue and clear (src/posix/ipc_reliable_message_queue.cpp).
 */
module MessageQueue {
  import opened Wrappers
  import opened MessageRing

  /** The chunks a message is delivered in: the part up to the end of the ring and, if any, the rest. */
  function Concat(chunks: seq<Message>): (m: Message)
  {
    if chunks == [] then [] else chunks[0] + Concat(chunks[1..])
  }

  /** Feeding chunks to a receive handler; `None` stands for an exception thrown by the handler. */
  function Deliver<S>(handler: (S, Message) -> Option<S>, state: S, chunks: seq<Message>): (r: Option<S>)
  {
    if chunks == [] then Some(state)
    else match handler(state, chunks[0])
      case None => None
      case Some(next) => Deliver(handler, next, chunks[1..])
  }

  /** State of the fixed buffer receive handler: what was copied so far and the room left. */
  datatype FixedBuffer = FixedBuffer(data: Message, room: nat)

  function FixedBufferHandler(b: FixedBuffer, chunk: Message): (r: Option<FixedBuffer>)
  {
    if |chunk| > b.room then None
    else Some(FixedBuffer(b.data + chunk, b.room - |chunk|))
  }

  /**
   However a message is cut into chunks, the fixed buffer handler takes it exactly when the whole
   message fits, and then the buffer holds the message byte for byte.
   */
  lemma {:induction false} FixedBufferTakesWholeMessage(b: FixedBuffer, chunks: seq<Message>)
    ensures Deliver(FixedBufferHandler, b, chunks) ==
            if |Concat(chunks)| <= b.room
            then Some(FixedBuffer(b.data + Concat(chunks), b.room - |Concat(chunks)|))
            else None
    decreases |chunks|
  {
    if chunks == [] {
      assert b.data + [] == b.data;
    } else {
      match FixedBufferHandler(b, chunks[0])
      case None =>
      case Some(next) =>
        FixedBufferTakesWholeMessage(next, chunks[1..]);
        assert b.data + chunks[0] + Concat(chunks[1..]) == b.data + (chunks[0] + Concat(chunks[1..]));
    }
  }

  // ---------------------------------------------------------------------------------------------
  // The memory image after an enqueue
  // ---------------------------------------------------------------------------------------------

  /** A memory image after a `memcpy` of `src` to byte `at`. */
  function Copied(image: seq<Byte>, at: nat, src: Message): (image': seq<Byte>)
    requires at + |src| <= |image|
    ensures |image'| == |image|
  {
    image[..at] + src + image[at + |src|..]
  }

  /** The three copies of an enqueue: length field, payload up to the end of the ring, payload tail. */
  function Written(image: seq<Byte>, base: nat, data: Message): (image': seq<Byte>)
    requires |data| < WORD
    requires base + HEADER_OVERHEAD <= |image| && HEADER_OVERHEAD + |data| <= |image|
    ensures |image'| == |image|
  {
    var head := Min(|image| - base - HEADER_OVERHEAD, |data|);
    Copied(Copied(Copied(image, base, SizeField(|data|)), base + HEADER_OVERHEAD, data[..head]), 0, data[head..])
  }

  /** Each byte after the copies, by address. */
  lemma WrittenByte(image: seq<Byte>, base: nat, data: Message, j: nat)
    requires |data| < WORD && j < |image|
    requires base + HEADER_OVERHEAD <= |image| && HEADER_OVERHEAD + |data| <= |image|
    ensures var head := Min(|image| - base - HEADER_OVERHEAD, |data|);
            Written(image, base, data)[j] ==
            if j < |data| - head then data[head + j]
            else if base <= j < base + 4 then SizeField(|data|)[j - base]
            else if base + HEADER_OVERHEAD <= j < base + HEADER_OVERHEAD + head then data[j - base - HEADER_OVERHEAD]
            else image[j]
  {
    var head := Min(|image| - base - HEADER_OVERHEAD, |data|);
    var one := Copied(image, base, SizeField(|data|));
    var two := Copied(one, base + HEADER_OVERHEAD, data[..head]);
    assert Written(image, base, data) == Copied(two, 0, data[head..]);
    CopiedByte(image, base, SizeField(|data|), j);
    CopiedByte(one, base + HEADER_OVERHEAD, data[..head], j);
    CopiedByte(two, 0, data[head..], j);
  }

  /** The copies store the message and touch no byte outside its header slot and payload. */
  lemma WrittenStores(image: seq<Byte>, base: nat, data: Message)
    requires |data| < WORD
    requires base + HEADER_OVERHEAD <= |image| && HEADER_OVERHEAD + |data| <= |image|
    ensures IsStored(Written(image, base, data), base, data)
    ensures forall i :: HEADER_OVERHEAD + |data| <= i < |image| ==>
                          Cell(Written(image, base, data), base, i) == Cell(image, base, i)
  {
    hide Written, SizeField;
    var w := Written(image, base, data);
    forall k | 0 <= k < 4
      ensures w[base..base + 4][k] == SizeField(|data|)[k]
    {
      WrittenByte(image, base, data, base + k);
    }
    assert w[base..base + 4] == SizeField(|data|);
    SizeFieldRoundTrip(w, base, |data|);
    forall i | 0 <= i < |data|
      ensures Cell(w, base, HEADER_OVERHEAD + i) == data[i]
    {
      WrittenByte(image, base, data, Wrap(base + (HEADER_OVERHEAD + i), |image|));
    }
    forall i | HEADER_OVERHEAD + |data| <= i < |image|
      ensures Cell(w, base, i) == Cell(image, base, i)
    {
      WrittenByte(image, base, data, Wrap(base + i, |image|));
    }
  }

  lemma CopiedByte(image: seq<Byte>, at: nat, src: Message, j: nat)
    requires at + |src| <= |image| && j < |image|
    ensures Copied(image, at, src)[j] == if at <= j < at + |src| then src[j - at] else image[j]
  {
  }

  lemma SizeFieldRoundTrip(image: seq<Byte>, at: nat, n: nat)
    requires n < WORD && at + 4 <= |image|
    requires image[at..at + 4] == SizeField(n)
    ensures ReadSize(image, at) == n
  {
    var f := image[at..at + 4];
    assert image[at] == f[0] && image[at + 1] == f[1] && image[at + 2] == f[2] && image[at + 3] == f[3];
  }

  /** Scaling a wrapped block index to a wrapped byte offset. */
  lemma WrapScales(x: nat, n: nat, k: nat)
    requires x < 2 * n && k > 0
    ensures Bytes(Wrap(x, n), k) == Wrap(Bytes(x, k), Bytes(n, k))
  {
    if x < n {
      BytesAdds(x, n - x, k);
    } else {
      BytesAdds(x - n, n, k);
    }
  }

  /** Wrapping once is the remainder, for a sum of two positions. */
  lemma WrapIsMod(x: nat, n: nat)
    requires x < 2 * n
    ensures Wrap(x, n) == x % n
  {
    if n <= x {
      DivGe(1, x, n);
      DivBounds(x, n);
      MulCancel(x / n, 2, n);
    }
  }

  /** Writing a message right behind the bytes in use appends it to the queue, and keeps the rest. */
  lemma WrittenAppends(image: seq<Byte>, blockSize: nat, at: nat, extent: nat, msgs: seq<Message>, data: Message)
    requires HEADER_OVERHEAD <= blockSize && SizeFits(blockSize, |data|)
    requires at < |image| && extent + Extent(blockSize, |data|) <= |image|
    requires Holds(image, blockSize, at, extent, msgs)
    requires Wrap(at + extent, |image|) + HEADER_OVERHEAD <= |image| && HEADER_OVERHEAD + |data| <= |image|
    ensures Holds(Written(image, Wrap(at + extent, |image|), data), blockSize, at, extent + Extent(blockSize, |data|), msgs + [data])
  {
    var base := Wrap(at + extent, |image|);
    var w := Written(image, base, data);
    WrittenStores(image, base, data);
    ExtentIsLeast(blockSize, |data|);
    forall i | 0 <= i < extent
      ensures Cell(image, at, i) == Cell(w, at, i)
    {
      var j := i + |image| - extent;
      assert Cell(image, base, j) == Cell(w, base, j);
    }
    HoldsFrame(image, w, blockSize, at, extent, msgs);
    HoldsAppend(w, blockSize, at, extent, msgs, data);
  }

  /** The write position, in blocks and in bytes. */
  lemma WritePosition(capacity: nat, blockSize: nat, getPos: nat, size: nat)
    requires HEADER_OVERHEAD <= blockSize
    requires getPos < capacity && size <= capacity
    ensures var pos := Wrap(getPos + size, capacity);
            && Bytes(pos, blockSize) == Wrap(Bytes(getPos, blockSize) + Bytes(size, blockSize), Bytes(capacity, blockSize))
            && Bytes(pos, blockSize) + blockSize <= Bytes(capacity, blockSize)
            && Bytes(getPos, blockSize) < Bytes(capacity, blockSize)
  {
    var pos := Wrap(getPos + size, capacity);
    WrapScales(getPos + size, capacity, blockSize);
    BytesAdds(getPos, size, blockSize);
    BytesGrow(getPos, capacity, blockSize);
    BytesGrow(pos, capacity, blockSize);
  }

  lemma BytesGrow(a: nat, b: nat, blockSize: nat)
    requires a < b
    ensures Bytes(a, blockSize) + blockSize <= Bytes(b, blockSize)
  {
    BytesAdds(a, b - a, blockSize);
  }

  lemma BytesInjective(a: nat, b: nat, blockSize: nat)
    requires blockSize > 0 && Bytes(a, blockSize) == Bytes(b, blockSize)
    ensures a == b
  {
    if a < b {
      BytesGrow(a, b, blockSize);
    } else if b < a {
      BytesGrow(b, a, blockSize);
    }
  }

  /** A message that fits the free blocks fits the free bytes. */
  lemma MessageFits(capacity: nat, blockSize: nat, size: nat, len: nat)
    requires HEADER_OVERHEAD <= blockSize
    requires size + Blocks(blockSize, len) <= capacity
    ensures Bytes(size, blockSize) + Extent(blockSize, len) == Bytes(size + Blocks(blockSize, len), blockSize)
    ensures HEADER_OVERHEAD + len <= Extent(blockSize, len)
    ensures Bytes(size, blockSize) + Extent(blockSize, len) <= Bytes(capacity, blockSize)
  {
    var n := Blocks(blockSize, len);
    ExtentIsLeast(blockSize, len);
    BytesAdds(size, n, blockSize);
    BytesAdds(size + n, capacity - (size + n), blockSize);
  }

  /** A message that goes past the last byte of the ring goes past its last block. */
  lemma ReachesEnd(capacity: nat, blockSize: nat, pos: nat, len: nat)
    requires HEADER_OVERHEAD <= blockSize
    requires Bytes(capacity, blockSize) < Bytes(pos, blockSize) + HEADER_OVERHEAD + len
    ensures capacity <= pos + Blocks(blockSize, len)
  {
    var n := Blocks(blockSize, len);
    ExtentIsLeast(blockSize, len);
    BytesAdds(pos, n, blockSize);
    if pos + n < capacity {
      BytesGrow(pos + n, capacity, blockSize);
    }
  }

  /** An enqueue in block terms: the queue grows by the message. */
  lemma EnqueueAppends(capacity: nat, blockSize: nat, getPos: nat, size: nat, image: seq<Byte>, msgs: seq<Message>, data: Message)
    requires HEADER_OVERHEAD <= blockSize && |image| == Bytes(capacity, blockSize)
    requires SizeFits(blockSize, |data|)
    requires getPos < capacity && size + Blocks(blockSize, |data|) <= capacity
    requires Holds(image, blockSize, Bytes(getPos, blockSize), Bytes(size, blockSize), msgs)
    ensures var base := Bytes(Wrap(getPos + size, capacity), blockSize);
            && base + blockSize <= |image| && HEADER_OVERHEAD + |data| <= |image|
            && Holds(Written(image, base, data), blockSize, Bytes(getPos, blockSize),
                     Bytes(size + Blocks(blockSize, |data|), blockSize), msgs + [data])
  {
    hide Holds, Written;
    WritePosition(capacity, blockSize, getPos, size);
    MessageFits(capacity, blockSize, size, |data|);
    WrittenAppends(image, blockSize, Bytes(getPos, blockSize), Bytes(size, blockSize), msgs, data);
  }

  /** A queue without messages uses no blocks, and conversely. */
  lemma EmptyIffNoBlocks(image: seq<Byte>, blockSize: nat, at: nat, size: nat, msgs: seq<Message>)
    requires blockSize > 0 && Holds(image, blockSize, at, Bytes(size, blockSize), msgs)
    ensures msgs == [] <==> size == 0
  {
    if msgs != [] {
      ExtentIsLeast(blockSize, |msgs[0]|);
    }
  }

  /** `memcpy` into the ring. */
  method CopyIn(blocks: array<Byte>, at: nat, src: Message)
    requires at + |src| <= blocks.Length
    modifies blocks
    ensures blocks[..] == Copied(old(blocks[..]), at, src)
  {
    for i := 0 to |src|
      invariant blocks[..] == old(blocks[..])[..at] + src[..i] + old(blocks[..])[at + i..]
    {
      ghost var before := blocks[..];
      blocks[at + i] := src[i];
      assert blocks[..] == before[at + i := src[i]];
      assert src[..i + 1] == src[..i] + [src[i]];
    }
    assert src[..|src|] == src;
  }

  datatype SendError = MessageExceedsCapacity

  datatype ReceiveError = BufferTooSmall

  /** The block count as the source computes it in 32 bits. */
  method BlockCount(blockSize: nat, size: nat) returns (n: nat)
    requires HEADER_OVERHEAD <= blockSize && SizeFits(blockSize, size)
    ensures n == Blocks(blockSize, size)
  {
    n := EstimateBlockCount(blockSize, size);
    EstimateExactIff(blockSize, size);
  }

  /** One or two handler calls. */
  lemma TwoChunks<S>(handler: (S, Message) -> Option<S>, state: S, first: Message, second: Message)
    ensures Concat([first]) == first && Concat([first, second]) == first + second
    ensures Deliver(handler, state, [first]) == handler(state, first)
    ensures Deliver(handler, state, [first, second]) ==
            match handler(state, first)
            case None => None
            case Some(next) => handler(next, second)
  {
    assert [first, second][1..] == [second];
    assert Concat([first]) == first + [] == first && Concat([second]) == second + [] == second;
    match handler(state, first)
    case None =>
    case Some(next) =>
      assert Deliver(handler, next, [second]) == handler(next, second);
  }

  /** The room for payload behind a header at block `pos`, as the source computes it in 32 bits. */
  method PayloadRoom(capacity: nat, blockSize: nat, pos: nat) returns (room: nat)
    requires HEADER_OVERHEAD <= blockSize && pos < capacity && Bytes(capacity, blockSize) <= WORD
    ensures Bytes(pos, blockSize) + HEADER_OVERHEAD + room == Bytes(capacity, blockSize)
  {
    room := RoomToEnd(capacity, blockSize, pos);
    RoomExact(capacity, blockSize, pos);
    BytesAdds(pos, capacity - pos, blockSize);
  }

  /** The copies of an enqueue; the tail goes to block 0 when the message reaches the end of the ring. */
  method CopyMessage(blocks: array<Byte>, base: nat, room: nat, reachesEnd: bool, data: Message)
    requires |data| < WORD
    requires base + HEADER_OVERHEAD + room == blocks.Length && HEADER_OVERHEAD + |data| <= blocks.Length
    requires room < |data| ==> reachesEnd
    modifies blocks
    ensures blocks[..] == Written(old(blocks[..]), base, data)
  {
    CopyIn(blocks, base, SizeField(|data|));
    var writeSize := Min(room, |data|);
    CopyIn(blocks, base + HEADER_OVERHEAD, data[..writeSize]);
    if reachesEnd && |data| - writeSize > 0 {
      CopyIn(blocks, 0, data[writeSize..]);
    } else {
      assert data[writeSize..] == [];
    }
  }

  /** A stored message is the bytes behind its header up to the end of the ring, then bytes from block 0. */
  lemma StoredChunks(image: seq<Byte>, base: nat, room: nat, msg: Message)
    requires IsStored(image, base, msg) && base + HEADER_OVERHEAD + room == |image|
    ensures var head := Min(room, |msg|);
            image[base + HEADER_OVERHEAD..base + HEADER_OVERHEAD + head] + image[..|msg| - head] == msg
  {
    var head := Min(room, |msg|);
    var whole := image[base + HEADER_OVERHEAD..base + HEADER_OVERHEAD + head] + image[..|msg| - head];
    forall i | 0 <= i < |msg|
      ensures whole[i] == msg[i]
    {
      assert Cell(image, base, HEADER_OVERHEAD + i) == msg[i];
    }
  }

  /** A dequeue in block terms: dropping the first message leaves the rest of the queue. */
  lemma DequeueDrops(capacity: nat, blockSize: nat, getPos: nat, size: nat, image: seq<Byte>, msgs: seq<Message>)
    requires HEADER_OVERHEAD <= blockSize && |image| == Bytes(capacity, blockSize)
    requires getPos < capacity && size <= capacity && msgs != []
    requires Holds(image, blockSize, Bytes(getPos, blockSize), Bytes(size, blockSize), msgs)
    ensures var n := Blocks(blockSize, |msgs[0]|);
            && 1 <= n <= size && SizeFits(blockSize, |msgs[0]|)
            && IsStored(image, Bytes(getPos, blockSize), msgs[0])
            && Holds(image, blockSize, Bytes(Wrap(getPos + n, capacity), blockSize), Bytes(size - n, blockSize), msgs[1..])
  {
    var n := Blocks(blockSize, |msgs[0]|);
    ExtentIsLeast(blockSize, |msgs[0]|);
    if size < n {
      BytesGrow(size, n, blockSize);
    }
    hide Blocks;
    BytesAdds(size - n, n, blockSize);
    WrapScales(getPos + n, capacity, blockSize);
    BytesAdds(getPos, n, blockSize);
  }

  class ReliableMessageQueue {
    const capacity: nat
    const blockSize: nat
    const blocks: array<Byte>
    var size: nat
    var putPos: nat
    var getPos: nat
    /** The queue this memory represents, oldest message first. */
    ghost var messages: seq<Message>

    ghost predicate Valid()
      reads this, blocks
    {
      && HEADER_OVERHEAD <= blockSize
      && blocks.Length == Bytes(capacity, blockSize) <= WORD
      && size <= capacity
      && (if capacity == 0 then getPos == putPos == 0
          else getPos < capacity && putPos == Wrap(getPos + size, capacity))
      && Holds(blocks[..], blockSize, Bytes(getPos, blockSize), Bytes(size, blockSize), messages)
    }

    /** A queue in a freshly created region: empty. */
    constructor (capacity: nat, blockSize: nat)
      requires HEADER_OVERHEAD <= blockSize && Bytes(capacity, blockSize) <= WORD
      ensures Valid() && messages == []
      ensures this.capacity == capacity && this.blockSize == blockSize && fresh(blocks)
    {
      this.capacity, this.blockSize := capacity, blockSize;
      blocks := new Byte[Bytes(capacity, blockSize)](_ => 0);
      size, putPos, getPos := 0, 0, 0;
      messages := [];
    }

    /** Appends a message whose block count the caller has checked against the free blocks. */
    method EnqueueMessage(data: Message, blockCount: nat) returns (notifyReader: bool)
      requires Valid()
      requires SizeFits(blockSize, |data|)
      requires blockCount == Blocks(blockSize, |data|) <= capacity - size
      modifies this, blocks
      ensures Valid()
      ensures messages == old(messages) + [data]
      ensures size == old(size) + Blocks(blockSize, |data|) && getPos == old(getPos)
      ensures notifyReader == (old(messages) == [])
    {
      hide Holds, Written, Blocks, Bytes;
      ExtentIsLeast(blockSize, |data|);
      EnqueueAppends(capacity, blockSize, getPos, size, blocks[..], messages, data);
      EmptyIffNoBlocks(blocks[..], blockSize, Bytes(getPos, blockSize), size, messages);

      var pos := putPos;
      var room := PayloadRoom(capacity, blockSize, pos);
      if room < |data| {
        ReachesEnd(capacity, blockSize, pos, |data|);
      }
      CopyMessage(blocks, Bytes(pos, blockSize), room, pos + blockCount >= capacity, data);
      pos := pos + blockCount;
      if pos >= capacity {
        pos := pos - capacity;
      }
      putPos := pos;
      notifyReader := size == 0;
      size := size + blockCount;
      messages := messages + [data];
    }

    /** Hands the first message to the handler and removes it; a throwing handler leaves everything as it was. */
    method DequeueMessage<S>(handler: (S, Message) -> Option<S>, state: S) returns (r: Option<S>, ghost chunks: seq<Message>)
      requires Valid() && size > 0
      modifies this
      ensures Valid()
      ensures old(messages) != [] && Concat(chunks) == old(messages)[0]
      ensures r == Deliver(handler, state, chunks)
      ensures r.None? ==> messages == old(messages) && size == old(size) && getPos == old(getPos)
      ensures r.Some? ==> messages == old(messages)[1..] && size == old(size) - Blocks(blockSize, |old(messages)[0]|)
      ensures putPos == old(putPos)
    {
      hide Holds, Blocks, Bytes, Concat, Deliver;
      EmptyIffNoBlocks(blocks[..], blockSize, Bytes(getPos, blockSize), size, messages);
      DequeueDrops(capacity, blockSize, getPos, size, blocks[..], messages);
      ghost var msg := messages[0];

      var pos := getPos;
      var base := Bytes(pos, blockSize);
      var messageSize := ReadSize(blocks[..], base);
      var blockCount := BlockCount(blockSize, messageSize);
      var room := PayloadRoom(capacity, blockSize, pos);
      StoredChunks(blocks[..], base, room, msg);
      if room < messageSize {
        ReachesEnd(capacity, blockSize, pos, messageSize);
      }
      var readSize := Min(room, messageSize);
      var first := blocks[base + HEADER_OVERHEAD..base + HEADER_OVERHEAD + readSize];
      var second := blocks[..messageSize - readSize];
      TwoChunks(handler, state, first, second);
      chunks := if second == [] then [first] else [first, second];
      r := handler(state, first);
      if r == None {
        return;
      }
      pos := pos + blockCount;
      if pos >= capacity {
        pos := pos - capacity;
        if |second| > 0 {
          r := handler(r.value, second);
          if r == None {
            return;
          }
        }
      }
      getPos := pos;
      size := size - blockCount;
      messages := messages[1..];
    }

    /** The header fields in terms of the queue: the used blocks, and the distance between the positions. */
    lemma Positions()
      requires Valid()
      ensures size == TotalBlocks(blockSize, messages)
      ensures capacity > 0 ==> putPos == (getPos + size) % capacity
    {
      ExtentIsTotal(blocks[..], blockSize, Bytes(getPos, blockSize), Bytes(size, blockSize), messages);
      BytesInjective(size, TotalBlocks(blockSize, messages), blockSize);
      if capacity > 0 {
        WrapIsMod(getPos + size, capacity);
      }
    }

    /** Empties the queue: the positions go back to block 0. */
    method ClearQueue()
      requires Valid()
      modifies this
      ensures Valid() && messages == [] && size == 0
    {
      size, putPos, getPos := 0, 0, 0;
      messages := [];
    }

    /**
     `try_send` with the stop flag of the calling handle. A message that can never fit is an error;
     otherwise the message is queued exactly when the handle is not stopped and there is room now.
     */
    method TrySend(data: Message, stopped: bool) returns (r: Result<bool, SendError>)
      requires Valid() && SizeFits(blockSize, |data|)
      modifies this, blocks
      ensures Valid()
      ensures r.Failure? <==> Blocks(blockSize, |data|) > capacity
      ensures r == Success(true) <==> !stopped && Blocks(blockSize, |data|) <= capacity - old(size)
      ensures messages == if r == Success(true) then old(messages) + [data] else old(messages)
    {
      var blockCount := BlockCount(blockSize, |data|);
      if blockCount > capacity {
        return Failure(MessageExceedsCapacity);
      }
      if stopped || capacity - size < blockCount {
        return Success(false);
      }
      var notifyReader := EnqueueMessage(data, blockCount);
      return Success(true);
    }

    /**
     `try_receive` with the fixed buffer handler. A message longer than the buffer makes the handler
     throw and stays in the queue; otherwise the buffer receives the first message byte for byte.
     */
    method TryReceive(bufferSize: nat, stopped: bool) returns (r: Result<Option<Message>, ReceiveError>)
      requires Valid()
      modifies this
      ensures Valid()
      ensures r == Success(None) <==> stopped || old(messages) == []
      ensures r.Failure? <==> !stopped && old(messages) != [] && |old(messages)[0]| > bufferSize
      ensures r.Success? && r.value.Some? ==>
                old(messages) != [] && r.value.value == old(messages)[0] && messages == old(messages)[1..]
      ensures r.Failure? || r == Success(None) ==> messages == old(messages)
    {
      hide Holds, Blocks, Bytes;
      EmptyIffNoBlocks(blocks[..], blockSize, Bytes(getPos, blockSize), size, messages);
      if stopped || size == 0 {
        return Success(None);
      }
      var got: Option<FixedBuffer>;
      ghost var chunks: seq<Message>;
      got, chunks := DequeueMessage(FixedBufferHandler, FixedBuffer([], bufferSize));
      FixedBufferTakesWholeMessage(FixedBuffer([], bufferSize), chunks);
      match got
      case None =>
        return Failure(BufferTooSmall);
      case Some(buffer) =>
        assert [] + Concat(chunks) == Concat(chunks);
        return Success(Some(buffer.data));
    }
  }
}
