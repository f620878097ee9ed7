/**
 The interprocess queue as every process sees it (src/posix/ipc_reliable_message_queue.cpp,
 src/posix/ipc_sync_wrappers.hpp): threads of several processes share one robust mutex, two condition
 variables and the ring. Every store inside a critical section is a step of its own, and a process may
 die between any two steps. The mutex follows POSIX.1-2008: when its owner dies, the next thread to
 acquire it is told so and holds it in an inconsistent state; unlocking it without marking it
 consistent makes it unusable for good.
 */
module QueueProtocol {
  import opened Wrappers
  import opened MessageRing
  import opened MessageQueue

  /** Geometry of the ring. */
  datatype Config = Config(capacity: nat, blockSize: nat)

  /** The shared memory: ring bytes and the three header fields. */
  datatype Memory = Memory(image: seq<Byte>, size: nat, put: nat, get: nat)

  /** A thread of a process that has the queue open. */
  datatype Thread = Thread(process: nat, index: nat)

  datatype Operation =
    | Send(msg: Message, blocking: bool)
    | Receive(blocking: bool)
    | Clear
    | Stop

  /** Where a thread is. From `Recovering` on, the thread holds the mutex. */
  datatype Pc =
    | Idle
    | Dead
    | Locking(op: Operation)
    | Waiting(op: Operation, notified: bool)
    | Recovering(op: Operation, done: nat)
    | Deciding(op: Operation)
    | StoringLength(msg: Message)
    | Copying(msg: Message, copied: nat)
    | AdvancingPut(msg: Message)
    | Growing(msg: Message)
    | SignallingReader(msg: Message, wasEmpty: bool)
    | Sent(msg: Message)
    | Reading
    | ReadingTail(head: Message)
    | AdvancingGet(got: Message)
    | Shrinking(got: Message)
    | SignallingWriters(got: Message)
    | Received(got: Message)
    | Clearing(done: nat)
    | Stopping(done: nat)
    | Leaving
    | WaitFailed

  predicate InCritical(pc: Pc)
  {
    !(pc.Idle? || pc.Dead? || pc.Locking? || pc.Waiting?)
  }

  datatype Mutex = Free | Held(t: Thread) | OwnerDead | Unusable

  /** A completed receive: which completed send it returned, the bytes, and the epoch it happened in. */
  datatype Delivery = Delivery(id: nat, bytes: Message, epoch: nat)

  /**
   `sent` lists the completed sends of the whole run; `next` is the first of them not yet received,
   and `epoch` the number of sends completed before the last clear or recovery.
   */
  datatype State = State(
    mem: Memory, mutex: Mutex, threads: map<Thread, Pc>, stopped: set<nat>,
    sent: seq<Message>, next: nat, epoch: nat, delivered: seq<Delivery>)

  /** What a step may choose: whether a call throws, and which waiting readers a signal wakes. */
  datatype Choice = Choice(throws: bool, woken: set<Thread>)

  datatype Action =
    | Begin(t: Thread, op: Operation)
    | Step(t: Thread, choice: Choice)
    | Reset(process: nat)
    | Die(process: nat)

  // ---------------------------------------------------------------------------------------------
  // Steps
  // ---------------------------------------------------------------------------------------------

  /** The ring has at most 2^32 bytes: beyond that the 32-bit room computation of the code cuts payload. */
  ghost predicate Valid(c: Config)
  {
    HEADER_OVERHEAD <= c.blockSize && c.capacity > 0 && Bytes(c.capacity, c.blockSize) <= WORD
  }

  function Init(c: Config, threads: set<Thread>): (s: State)
  {
    State(Memory(seq(Bytes(c.capacity, c.blockSize), _ => 0), 0, 0, 0), Free,
          map t | t in threads :: Idle, {}, [], 0, 0, [])
  }

  /** Whether the stores and loads of a step stay inside the ring. */
  predicate InBounds(c: Config, m: Memory, pc: Pc)
    requires c.blockSize > 0
  {
    match pc
    case StoringLength(msg) => |msg| < WORD && Bytes(m.put, c.blockSize) + 4 <= |m.image|
    case Copying(msg, k) =>
      k < |msg| ==> var base := Bytes(m.put, c.blockSize); base < |m.image| && HEADER_OVERHEAD + k < |m.image|
    case Reading =>
      var base := Bytes(m.get, c.blockSize); base + HEADER_OVERHEAD <= |m.image|
    case ReadingTail(head) =>
      var base := Bytes(m.get, c.blockSize);
      base + HEADER_OVERHEAD <= |m.image| && |head| <= ReadSize(m.image, base) <= |m.image|
    case Shrinking(got) => Blocks(c.blockSize, |got|) <= m.size
    case _ => true
  }

  /** The first chunk of the message at the read position: up to the end of the ring. */
  function HeadChunk(c: Config, m: Memory): (head: Message)
    requires c.blockSize > 0 && InBounds(c, m, Reading)
  {
    var base := Bytes(m.get, c.blockSize);
    m.image[base + HEADER_OVERHEAD..
            base + HEADER_OVERHEAD + Min(|m.image| - base - HEADER_OVERHEAD, ReadSize(m.image, base))]
  }

  /** Memory after the store of a step. */
  function StepMemory(c: Config, m: Memory, pc: Pc): (m': Memory)
    requires c.blockSize > 0 && InBounds(c, m, pc)
  {
    match pc
    case StoringLength(msg) => m.(image := Copied(m.image, Bytes(m.put, c.blockSize), SizeField(|msg|)))
    case Copying(msg, k) =>
      if k < |msg|
      then m.(image := m.image[Wrap(Bytes(m.put, c.blockSize) + HEADER_OVERHEAD + k, |m.image|) := msg[k]])
      else m
    case AdvancingPut(msg) => m.(put := Wrap(m.put + Blocks(c.blockSize, |msg|), c.capacity))
    case Growing(msg) => m.(size := m.size + Blocks(c.blockSize, |msg|))
    case AdvancingGet(got) => m.(get := Wrap(m.get + Blocks(c.blockSize, |got|), c.capacity))
    case Shrinking(got) => m.(size := m.size - Blocks(c.blockSize, |got|))
    case Recovering(_, k) => Reclaim(m, k)
    case Clearing(k) => Reclaim(m, k)
    case _ => m
  }

  /**
   The chunks of the steps are those the code computes in 32 bits: the first one, stored or read, has the smaller of
   the room behind the header and the message size, and the rest goes to the start of the ring.
   */
  lemma ChunksAreThoseOfTheCode(c: Config, m: Memory, pos: nat, size: nat, k: nat)
    requires Valid(c) && |m.image| == Bytes(c.capacity, c.blockSize) && pos < c.capacity && HEADER_OVERHEAD + size <= |m.image|
    ensures var base, first := Bytes(pos, c.blockSize), Min(RoomToEnd(c.capacity, c.blockSize, pos), size);
      && base + HEADER_OVERHEAD <= |m.image|
      && (m.get == pos && ReadSize(m.image, base) == size ==> InBounds(c, m, Reading) && |HeadChunk(c, m)| == first)
      && (k < size ==>
            Wrap(base + HEADER_OVERHEAD + k, |m.image|) == if k < first then base + HEADER_OVERHEAD + k else k - first)
  {
    hide ReadSize, RoomToEnd;
    RoomBehind(c, pos);
    hide Bytes;
  }

  lemma RoomBehind(c: Config, pos: nat)
    requires Valid(c) && pos < c.capacity
    ensures Bytes(pos, c.blockSize) + HEADER_OVERHEAD + RoomToEnd(c.capacity, c.blockSize, pos) == Bytes(c.capacity, c.blockSize)
  {
    hide RoomToEnd;
    RoomExact(c.capacity, c.blockSize, pos);
    BytesAdds(pos, c.capacity - pos, c.blockSize);
  }

  /** The stores of `clear_queue`, one at a time. */
  function Reclaim(m: Memory, k: nat): (m': Memory)
  {
    if k == 0 then m.(size := 0) else if k == 1 then m.(put := 0) else if k == 2 then m.(get := 0) else m
  }

  /** Where the holder of the mutex goes next. */
  function StepPc(c: Config, m: Memory, pc: Pc, stopped: bool, choice: Choice): (pc': Pc)
    requires c.blockSize > 0 && InCritical(pc) && InBounds(c, m, pc)
  {
    match pc
    case Recovering(op, k) => if k < 4 then Recovering(op, k + 1) else if choice.throws then Idle else Deciding(op)
    case Deciding(op) => Decide(c, m, op, stopped)
    case StoringLength(msg) => Copying(msg, 0)
    case Copying(msg, k) => if k < |msg| then Copying(msg, k + 1) else AdvancingPut(msg)
    case AdvancingPut(msg) => Growing(msg)
    case Growing(msg) => SignallingReader(msg, m.size == 0)
    case SignallingReader(msg, _) => Sent(msg)
    case Reading =>
      var head := HeadChunk(c, m);
      if choice.throws then Leaving
      else if |head| < ReadSize(m.image, Bytes(m.get, c.blockSize)) then ReadingTail(head)
      else AdvancingGet(head)
    case ReadingTail(head) =>
      if choice.throws then Leaving
      else AdvancingGet(head + m.image[..ReadSize(m.image, Bytes(m.get, c.blockSize)) - |head|])
    case AdvancingGet(got) => Shrinking(got)
    case Shrinking(got) => SignallingWriters(got)
    case SignallingWriters(got) => Received(got)
    case Clearing(k) => if k < 4 then Clearing(k + 1) else Idle
    case Stopping(k) => if k < 3 then Stopping(k + 1) else Idle
    case Sent(_) => Idle
    case Received(_) => Idle
    case Leaving => Idle
    case WaitFailed => Idle
  }

  /** The body of the wait loops, and of the single checks of the non-blocking forms. */
  function Decide(c: Config, m: Memory, op: Operation, stopped: bool): (pc': Pc)
    requires c.blockSize > 0
  {
    match op
    case Send(msg, blocking) =>
      if stopped then Leaving
      else if c.capacity - m.size >= Blocks(c.blockSize, |msg|) then StoringLength(msg)
      else if !blocking then Leaving
      else Waiting(op, false)
    case Receive(blocking) =>
      if blocking && stopped then Leaving
      else if m.size > 0 then Reading
      else if !blocking then Leaving
      else Waiting(op, false)
    case Clear => Clearing(0)
    case Stop => Stopping(0)
  }

  /** The waiting threads a step wakes: writers by broadcast, readers by signal or, on stop, by broadcast. */
  predicate Wakes(pc: Pc, other: Pc, chosen: bool)
  {
    && other.Waiting?
    && match pc
       case Recovering(_, k) => k == 3 && other.op.Send?
       case Clearing(k) => k == 3 && other.op.Send?
       case SignallingWriters(_) => other.op.Send?
       case SignallingReader(_, wasEmpty) => wasEmpty && other.op.Receive? && chosen
       case Stopping(k) => (k == 1 && other.op.Receive?) || (k == 2 && other.op.Send?)
       case _ => false
  }

  function NotifyAll(threads: map<Thread, Pc>, pc: Pc, woken: set<Thread>): (threads': map<Thread, Pc>)
  {
    map t | t in threads :: if Wakes(pc, threads[t], t in woken) then threads[t].(notified := true) else threads[t]
  }

  /** A step of the thread that holds the mutex. */
  function CriticalStep(c: Config, s: State, t: Thread, choice: Choice): (s': State)
    requires c.blockSize > 0 && t in s.threads && InCritical(s.threads[t]) && InBounds(c, s.mem, s.threads[t])
  {
    var pc := s.threads[t];
    var pc' := StepPc(c, s.mem, pc, t.process in s.stopped, choice);
    var s1 := s.(
      mem := StepMemory(c, s.mem, pc),
      threads := NotifyAll(s.threads, pc, choice.woken)[t := pc'],
      mutex := if InCritical(pc') then s.mutex
               else if pc.WaitFailed? || pc.Recovering? then Unusable
               else Free);
    match pc
    case Sent(msg) => s1.(sent := s.sent + [msg])
    case Received(got) => s1.(next := s.next + 1, delivered := s.delivered + [Delivery(s.next, got, s.epoch)])
    case Recovering(_, k) => if k == 4 then s1.(next := |s.sent|, epoch := |s.sent|) else s1
    case Clearing(k) => if k == 4 then s1.(next := |s.sent|, epoch := |s.sent|) else s1
    case Stopping(k) => if k == 0 then s1.(stopped := s.stopped + {t.process}) else s1
    case _ => s1
  }

  /** `lock_queue`, or the end of a wait on a condition variable. */
  function Acquire(s: State, t: Thread, op: Operation, afterWait: bool): (s': State)
  {
    match s.mutex
    case Free => s.(mutex := Held(t), threads := s.threads[t := Deciding(op)])
    case OwnerDead =>
      s.(mutex := Held(t), threads := s.threads[t := if afterWait then WaitFailed else Recovering(op, 0)])
    case Unusable => s.(threads := s.threads[t := Idle])
    case Held(_) => s
  }

  predicate Enabled(c: Config, s: State, a: Action)
    requires c.blockSize > 0
  {
    match a
    case Begin(t, op) =>
      && t in s.threads && s.threads[t].Idle?
      && (op.Clear? || t.process !in s.stopped)
      && (op.Send? ==> SizeFits(c.blockSize, |op.msg|) && Blocks(c.blockSize, |op.msg|) <= c.capacity)
    case Step(t, choice) =>
      && t in s.threads
      && var pc := s.threads[t];
         if pc.Idle? || pc.Dead? then false
         else if pc.Locking? || pc.Waiting? then !s.mutex.Held?
         else InBounds(c, s.mem, pc) && SignalReaches(s.threads, pc, choice.woken)
    case Reset(_) => true
    case Die(_) => true
  }

  /** A signal wakes at least one of the threads waiting on the condition variable, if there are any. */
  predicate SignalReaches(threads: map<Thread, Pc>, pc: Pc, woken: set<Thread>)
  {
    pc.SignallingReader? ==>
      (exists t :: t in threads && threads[t].Waiting? && threads[t].op.Receive? && !threads[t].notified) ==>
        exists t :: t in threads && threads[t].Waiting? && threads[t].op.Receive? && !threads[t].notified && t in woken
  }

  function Apply(c: Config, s: State, a: Action): (s': State)
    requires c.blockSize > 0 && Enabled(c, s, a)
  {
    match a
    case Begin(t, op) => s.(threads := s.threads[t := Locking(op)])
    case Step(t, choice) =>
      var pc := s.threads[t];
      if pc.Locking? then Acquire(s, t, pc.op, false)
      else if pc.Waiting? then Acquire(s, t, pc.op, true)
      else CriticalStep(c, s, t, choice)
    case Reset(p) => s.(stopped := s.stopped - {p})
    case Die(p) =>
      s.(threads := map t | t in s.threads :: if t.process == p then Dead else s.threads[t],
         mutex := if s.mutex.Held? && s.mutex.t.process == p then OwnerDead else s.mutex)
  }

  /** Runs: sequences of actions each of which is enabled when it is taken. */
  predicate Legal(c: Config, threads: set<Thread>, run: seq<Action>)
    requires c.blockSize > 0
    decreases |run|, 0
  {
    run == [] ||
    (Legal(c, threads, run[..|run| - 1]) && Enabled(c, After(c, threads, run[..|run| - 1]), run[|run| - 1]))
  }

  function After(c: Config, threads: set<Thread>, run: seq<Action>): (s: State)
    requires c.blockSize > 0 && Legal(c, threads, run)
    decreases |run|, 1
  {
    if run == [] then Init(c, threads)
    else Apply(c, After(c, threads, run[..|run| - 1]), run[|run| - 1])
  }

  /** The next step of a thread, with no call throwing and every waiting reader reached by a signal. */
  function Go(s: State, t: Thread): (a: Action)
  {
    Step(t, Choice(false, s.threads.Keys))
  }

  /** The state after `n` uninterrupted steps, if the thread can take them. */
  function Runs(c: Config, s: State, t: Thread, n: nat): (r: Option<State>)
    requires c.blockSize > 0
    decreases n
  {
    if n == 0 then Some(s)
    else if Enabled(c, s, Go(s, t)) then Runs(c, Apply(c, s, Go(s, t)), t, n - 1) else None
  }

  // ---------------------------------------------------------------------------------------------
  // What the memory means while the mutex is held
  // ---------------------------------------------------------------------------------------------

  /** The memory represents the queue `q`. */
  ghost predicate Intact(c: Config, m: Memory, q: seq<Message>)
    requires c.blockSize > 0
  {
    && |m.image| == Bytes(c.capacity, c.blockSize)
    && m.get < c.capacity && m.size <= c.capacity && m.put == Wrap(m.get + m.size, c.capacity)
    && Holds(m.image, c.blockSize, Bytes(m.get, c.blockSize), Bytes(m.size, c.blockSize), q)
  }

  ghost predicate Fits(c: Config, m: Memory, msg: Message)
    requires c.blockSize > 0
  {
    SizeFits(c.blockSize, |msg|) && m.size + Blocks(c.blockSize, |msg|) <= c.capacity
  }

  /** The length field and the first `k` payload bytes of a message are in place at the write position. */
  ghost predicate PartlyStored(c: Config, m: Memory, msg: Message, k: nat)
  {
    var base := Bytes(m.put, c.blockSize);
    && k <= |msg|
    && base + HEADER_OVERHEAD <= |m.image| && HEADER_OVERHEAD + |msg| <= |m.image|
    && ReadSize(m.image, base) == |msg|
    && forall i :: 0 <= i < k ==> Cell(m.image, base, HEADER_OVERHEAD + i) == msg[i]
  }

  /** `clear_queue` after `k` of its stores. */
  ghost predicate Reclaimed(c: Config, m: Memory, k: nat)
  {
    && |m.image| == Bytes(c.capacity, c.blockSize)
    && (k >= 1 ==> m.size == 0) && (k >= 2 ==> m.put == 0) && (k >= 3 ==> m.get == 0)
  }

  /** The memory while the holder of the mutex is at `pc`; `q` are the sends not yet received. */
  ghost predicate MemoryAt(c: Config, m: Memory, q: seq<Message>, pc: Pc)
    requires c.blockSize > 0
  {
    match pc
    case Recovering(_, k) => k <= 4 && Reclaimed(c, m, k)
    case Clearing(k) => if k == 0 then Intact(c, m, q) else k <= 4 && Reclaimed(c, m, k)
    case WaitFailed => true
    case StoringLength(msg) => Intact(c, m, q) && Fits(c, m, msg)
    case Copying(msg, k) => Intact(c, m, q) && Fits(c, m, msg) && PartlyStored(c, m, msg, k)
    case AdvancingPut(msg) => Intact(c, m, q) && Fits(c, m, msg) && IsStored(m.image, Bytes(m.put, c.blockSize), msg)
    case Growing(msg) =>
      var before := m.(put := Wrap(m.get + m.size, c.capacity));
      && Intact(c, before, q) && Fits(c, m, msg) && IsStored(m.image, Bytes(before.put, c.blockSize), msg)
      && m.put == Wrap(before.put + Blocks(c.blockSize, |msg|), c.capacity)
    case SignallingReader(msg, wasEmpty) => Intact(c, m, q + [msg]) && (wasEmpty <==> q == [])
    case Sent(msg) => Intact(c, m, q + [msg])
    case Reading => Intact(c, m, q) && q != []
    case ReadingTail(head) =>
      Intact(c, m, q) && q != [] && InBounds(c, m, Reading) && head == HeadChunk(c, m) && |head| < |q[0]|
    case AdvancingGet(got) => Intact(c, m, q) && q != [] && got == q[0]
    case Shrinking(got) =>
      && q != [] && got == q[0] && Blocks(c.blockSize, |got|) <= m.size
      && Intact(c, m.(size := m.size - Blocks(c.blockSize, |got|)), q[1..]) && m.size <= c.capacity
    case SignallingWriters(got) => q != [] && got == q[0] && Intact(c, m, q[1..])
    case Received(got) => q != [] && got == q[0] && Intact(c, m, q[1..])
    case _ => Intact(c, m, q)
  }

  /** Sends not yet received once the holder has left `pc`. */
  function QueueAfter(q: seq<Message>, pc: Pc): (q': seq<Message>)
  {
    match pc
    case Sent(msg) => q + [msg]
    case Received(_) => if q == [] then [] else q[1..]
    case Recovering(_, k) => if k == 4 then [] else q
    case Clearing(k) => if k == 4 then [] else q
    case _ => q
  }

  /** What one step of the holder must establish. */
  ghost predicate StepKeepsMemory(c: Config, m: Memory, q: seq<Message>, pc: Pc, stopped: bool, choice: Choice)
    requires c.blockSize > 0
  {
    && InBounds(c, m, pc)
    && (InCritical(pc) ==>
          var pc' := StepPc(c, m, pc, stopped, choice);
          var m' := StepMemory(c, m, pc);
          if InCritical(pc') then MemoryAt(c, m', QueueAfter(q, pc), pc')
          else pc.WaitFailed? || pc.Recovering? || Intact(c, m', QueueAfter(q, pc)))
  }

  lemma EmptyRingIntact(c: Config, m: Memory)
    requires Valid(c) && Reclaimed(c, m, 3)
    ensures Intact(c, m, [])
  {
  }

  lemma RecoverStep(c: Config, m: Memory, q: seq<Message>, pc: Pc, stopped: bool, choice: Choice)
    requires Valid(c) && MemoryAt(c, m, q, pc) && (pc.Recovering? || pc.Clearing? || pc.WaitFailed?)
    ensures StepKeepsMemory(c, m, q, pc, stopped, choice)
  {
    if !pc.WaitFailed? && pc.done == 4 {
      EmptyRingIntact(c, m);
    }
  }

  lemma DecideStep(c: Config, m: Memory, q: seq<Message>, pc: Pc, stopped: bool, choice: Choice)
    requires Valid(c) && MemoryAt(c, m, q, pc) && pc.Deciding?
    requires pc.op.Send? ==> SizeFits(c.blockSize, |pc.op.msg|)
    ensures StepKeepsMemory(c, m, q, pc, stopped, choice)
  {
    hide Holds, Blocks, Bytes;
    EmptyIffNoBlocks(m.image, c.blockSize, Bytes(m.get, c.blockSize), m.size, q);
  }

  /** Stores to the free bytes behind the queue leave it as it is. */
  lemma FreeStore(c: Config, m: Memory, m': Memory, q: seq<Message>, msg: Message)
    requires Valid(c) && Intact(c, m, q) && Fits(c, m, msg)
    requires m' == m.(image := m'.image) && |m'.image| == |m.image|
    requires Bytes(m.put, c.blockSize) < |m.image|
    requires forall i :: HEADER_OVERHEAD + |msg| <= i < |m.image| ==>
                           Cell(m'.image, Bytes(m.put, c.blockSize), i) == Cell(m.image, Bytes(m.put, c.blockSize), i)
    ensures Intact(c, m', q)
  {
    hide Holds, Blocks, Bytes;
    var at := Bytes(m.get, c.blockSize);
    var extent := Bytes(m.size, c.blockSize);
    var base := Bytes(m.put, c.blockSize);
    var n := |m.image|;
    WritePosition(c.capacity, c.blockSize, m.get, m.size);
    MessageFits(c.capacity, c.blockSize, m.size, |msg|);
    forall i | 0 <= i < extent
      ensures Cell(m.image, at, i) == Cell(m'.image, at, i)
    {
      assert Cell(m'.image, base, i + n - extent) == Cell(m.image, base, i + n - extent);
    }
    HoldsFrame(m.image, m'.image, c.blockSize, at, extent, q);
  }

  lemma StoreLengthStep(c: Config, m: Memory, q: seq<Message>, pc: Pc, stopped: bool, choice: Choice)
    requires Valid(c) && MemoryAt(c, m, q, pc) && pc.StoringLength?
    ensures StepKeepsMemory(c, m, q, pc, stopped, choice)
  {
    hide Holds, Blocks, Bytes, SizeField;
    var msg := pc.msg;
    var base := Bytes(m.put, c.blockSize);
    WritePosition(c.capacity, c.blockSize, m.get, m.size);
    MessageFits(c.capacity, c.blockSize, m.size, |msg|);
    var m' := StepMemory(c, m, pc);
    assert m'.image[base..base + 4] == SizeField(|msg|);
    SizeFieldRoundTrip(m'.image, base, |msg|);
    forall i | HEADER_OVERHEAD + |msg| <= i < |m.image|
      ensures Cell(m'.image, base, i) == Cell(m.image, base, i)
    {
      CopiedByte(m.image, base, SizeField(|msg|), Wrap(base + i, |m.image|));
    }
    FreeStore(c, m, m', q, msg);
  }

  lemma CopyStep(c: Config, m: Memory, q: seq<Message>, pc: Pc, stopped: bool, choice: Choice)
    requires Valid(c) && MemoryAt(c, m, q, pc) && pc.Copying?
    ensures StepKeepsMemory(c, m, q, pc, stopped, choice)
  {
    hide Holds, Blocks, Bytes;
    var msg, k := pc.msg, pc.copied;
    var base := Bytes(m.put, c.blockSize);
    if k < |msg| {
      var m' := StepMemory(c, m, pc);
      forall i | 0 <= i < |m.image| && i != HEADER_OVERHEAD + k
        ensures Cell(m'.image, base, i) == Cell(m.image, base, i)
      {
      }
      assert ReadSize(m'.image, base) == |msg| by {
        assert Cell(m'.image, base, 0) == Cell(m.image, base, 0) && Cell(m'.image, base, 1) == Cell(m.image, base, 1);
        assert Cell(m'.image, base, 2) == Cell(m.image, base, 2) && Cell(m'.image, base, 3) == Cell(m.image, base, 3);
      }
      FreeStore(c, m, m', q, msg);
    }
  }

  lemma PublishStep(c: Config, m: Memory, q: seq<Message>, pc: Pc, stopped: bool, choice: Choice)
    requires Valid(c) && MemoryAt(c, m, q, pc)
    requires pc.AdvancingPut? || pc.Growing? || pc.SignallingReader? || pc.Sent?
    ensures StepKeepsMemory(c, m, q, pc, stopped, choice)
  {
    hide Holds, Blocks, Bytes;
    if pc.Growing? {
      var msg := pc.msg;
      EmptyIffNoBlocks(m.image, c.blockSize, Bytes(m.get, c.blockSize), m.size, q);
      WritePosition(c.capacity, c.blockSize, m.get, m.size);
      MessageFits(c.capacity, c.blockSize, m.size, |msg|);
      HoldsAppend(m.image, c.blockSize, Bytes(m.get, c.blockSize), Bytes(m.size, c.blockSize), q, msg);
    }
  }

  lemma ReadStep(c: Config, m: Memory, q: seq<Message>, pc: Pc, stopped: bool, choice: Choice)
    requires Valid(c) && MemoryAt(c, m, q, pc) && (pc.Reading? || pc.ReadingTail?)
    ensures StepKeepsMemory(c, m, q, pc, stopped, choice)
  {
    hide Holds, Blocks, Bytes, Intact;
    FirstMessage(c, m, q);
  }

  /** The two chunks at the read position are the first message. */
  lemma FirstMessage(c: Config, m: Memory, q: seq<Message>)
    requires Valid(c) && Intact(c, m, q) && q != []
    ensures InBounds(c, m, Reading) && ReadSize(m.image, Bytes(m.get, c.blockSize)) == |q[0]| <= |m.image|
    ensures var head := HeadChunk(c, m);
            |head| <= |q[0]| && head + m.image[..|q[0]| - |head|] == q[0] && (|head| == |q[0]| ==> head == q[0])
  {
    hide Holds, Blocks, Bytes;
    DequeueDrops(c.capacity, c.blockSize, m.get, m.size, m.image, q);
    var base := Bytes(m.get, c.blockSize);
    StoredChunks(m.image, base, |m.image| - base - HEADER_OVERHEAD, q[0]);
  }

  lemma RemoveStep(c: Config, m: Memory, q: seq<Message>, pc: Pc, stopped: bool, choice: Choice)
    requires Valid(c) && MemoryAt(c, m, q, pc)
    requires pc.AdvancingGet? || pc.Shrinking? || pc.SignallingWriters? || pc.Received?
    ensures StepKeepsMemory(c, m, q, pc, stopped, choice)
  {
    hide Holds, Blocks, Bytes;
    if pc.AdvancingGet? {
      DequeueDrops(c.capacity, c.blockSize, m.get, m.size, m.image, q);
    }
  }

  /** One step of the mutex holder: it stays inside the ring and keeps the meaning of the memory. */
  lemma HolderStep(c: Config, m: Memory, q: seq<Message>, pc: Pc, stopped: bool, choice: Choice)
    requires Valid(c) && InCritical(pc) && MemoryAt(c, m, q, pc)
    requires pc.Deciding? && pc.op.Send? ==> SizeFits(c.blockSize, |pc.op.msg|)
    ensures StepKeepsMemory(c, m, q, pc, stopped, choice)
  {
    hide Holds, Blocks, Bytes;
    if pc.Recovering? || pc.Clearing? || pc.WaitFailed? {
      RecoverStep(c, m, q, pc, stopped, choice);
    } else if pc.Deciding? {
      DecideStep(c, m, q, pc, stopped, choice);
    } else if pc.StoringLength? {
      StoreLengthStep(c, m, q, pc, stopped, choice);
    } else if pc.Copying? {
      CopyStep(c, m, q, pc, stopped, choice);
    } else if pc.AdvancingPut? || pc.Growing? || pc.SignallingReader? || pc.Sent? {
      PublishStep(c, m, q, pc, stopped, choice);
    } else if pc.Reading? || pc.ReadingTail? {
      ReadStep(c, m, q, pc, stopped, choice);
    } else if pc.AdvancingGet? || pc.Shrinking? || pc.SignallingWriters? || pc.Received? {
      RemoveStep(c, m, q, pc, stopped, choice);
    }
  }
}
