/**
 The operations of the interprocess queue do their work: a thread that is left alone completes a send that has room
 and a receive that has a message, and the history records exactly that. The steps are those of QueueProtocol.
 */
module QueueProgress {
  import opened Wrappers
  import opened MessageRing
  import opened MessageQueue
  import opened QueueProtocol
  import opened QueueSafety

  /** Nothing but the given sends and deliveries were added to the history. */
  predicate Adds(s: State, s': State, sent: seq<Message>, delivered: seq<Delivery>)
  {
    s'.sent == s.sent + sent && s'.delivered == s.delivered + delivered && s'.next == s.next + |delivered| && s'.epoch == s.epoch
  }

  /** Of the other threads, those the step of a thread at `pc` wakes are notified and the rest stay where they are. */
  ghost predicate OthersAfter(s: State, s': State, t: Thread, pc: Pc)
  {
    && s'.threads.Keys == s.threads.Keys
    && forall u :: u in s.threads && u != t ==>
                     s'.threads[u] == if Wakes(pc, s.threads[u], true) then s.threads[u].(notified := true) else s.threads[u]
  }

  /** No process was stopped, and the other threads are where they were, some of those that wait perhaps notified. */
  ghost predicate OthersStay(s: State, s': State, t: Thread)
  {
    && s'.stopped == s.stopped && s'.threads.Keys == s.threads.Keys
    && forall u :: u in s.threads && u != t ==>
                     s'.threads[u] == s.threads[u] || (s.threads[u].Waiting? && s'.threads[u] == s.threads[u].(notified := true))
  }

  /** A step of the holder, as far as progress is concerned. */
  lemma HolderGoes(c: Config, s: State, t: Thread)
    requires Valid(c) && Inv(c, s) && t in s.threads && InCritical(s.threads[t])
    ensures InBounds(c, s.mem, s.threads[t]) && Enabled(c, s, Go(s, t))
    ensures var s' := Apply(c, s, Go(s, t));
      Inv(c, s') && s' == CriticalStep(c, s, t, Go(s, t).choice)
  {
    hide Holds, Bytes, Blocks, Intact, CriticalStep, MemoryAt, InBounds;
    InvParts(c, s);
    assert OperationFits(c, s.threads[t]);
    HolderStep(c, s.mem, Pending(s), s.threads[t], false, Choice(false, {}));
    ApplyInv(c, s, Go(s, t));
  }

  /** What a step of the holder does to its place, the mutex and the history, by its place. */
  lemma HolderStepEffect(c: Config, s: State, t: Thread)
    requires c.blockSize > 0 && t in s.threads && InCritical(s.threads[t]) && InBounds(c, s.mem, s.threads[t]) && s.mutex == Held(t)
    requires var pc := s.threads[t]; !pc.Recovering? && !pc.Clearing? && !pc.Stopping? && !pc.WaitFailed?
    ensures var pc, s' := s.threads[t], CriticalStep(c, s, t, Go(s, t).choice);
      var pc' := StepPc(c, s.mem, pc, t.process in s.stopped, Go(s, t).choice);
      && t in s'.threads && s'.threads[t] == pc' && s'.mutex == (if InCritical(pc') then Held(t) else Free)
      && s'.mem == StepMemory(c, s.mem, pc) && s'.stopped == s.stopped && OthersAfter(s, s', t, pc)
      && Adds(s, s', if pc.Sent? then [pc.msg] else [], if pc.Received? then [Delivery(s.next, pc.got, s.epoch)] else [])
  {
    hide StepPc, StepMemory, InBounds;
  }

  /** Steps a sender still has to take. */
  function SendSteps(pc: Pc): (n: nat)
  {
    match pc
    case StoringLength(msg) => |msg| + 6
    case Copying(msg, k) => if k <= |msg| then |msg| - k + 5 else 5
    case AdvancingPut(_) => 4
    case Growing(_) => 3
    case SignallingReader(_, _) => 2
    case Sent(_) => 1
    case _ => 0
  }

  predicate Sending(pc: Pc)
  {
    pc.StoringLength? || pc.Copying? || pc.AdvancingPut? || pc.Growing? || pc.SignallingReader? || pc.Sent?
  }

  lemma SendStep(c: Config, m: Memory, pc: Pc, stopped: bool, choice: Choice)
    requires c.blockSize > 0 && Sending(pc) && InBounds(c, m, pc)
    requires pc.Copying? ==> pc.copied <= |pc.msg|
    ensures var pc' := StepPc(c, m, pc, stopped, choice);
      && (pc.Sent? ==> pc' == Idle)
      && (!pc.Sent? ==> Sending(pc') && pc'.msg == pc.msg && SendSteps(pc') + 1 == SendSteps(pc))
      && (pc'.Copying? ==> pc'.copied <= |pc'.msg|)
  {
    hide InBounds;
  }

  lemma {:induction false} SenderFinishes(c: Config, s: State, t: Thread)
    requires Valid(c) && Inv(c, s) && s.mutex == Held(t) && t in s.threads && Sending(s.threads[t])
    requires s.threads[t].Copying? ==> s.threads[t].copied <= |s.threads[t].msg|
    ensures var r := Runs(c, s, t, SendSteps(s.threads[t]));
      && r.Some? && r.value.mutex == Free && t in r.value.threads && r.value.threads[t] == Idle
      && Adds(s, r.value, [s.threads[t].msg], []) && OthersStay(s, r.value, t) && Inv(c, r.value)
    decreases SendSteps(s.threads[t])
  {
    hide Inv, Enabled, Apply, CriticalStep, InBounds, StepPc, StepMemory;
    var pc := s.threads[t];
    HolderGoes(c, s, t);
    HolderStepEffect(c, s, t);
    SendStep(c, s.mem, pc, t.process in s.stopped, Go(s, t).choice);
    var s' := Apply(c, s, Go(s, t));
    if !pc.Sent? {
      SenderFinishes(c, s', t);
    }
  }

  /** Steps a receiver still has to take. */
  function ReceiveSteps(c: Config, m: Memory, pc: Pc): (n: nat)
    requires c.blockSize > 0
  {
    match pc
    case Reading =>
      if InBounds(c, m, Reading) && |HeadChunk(c, m)| < ReadSize(m.image, Bytes(m.get, c.blockSize)) then 6 else 5
    case ReadingTail(_) => 5
    case AdvancingGet(_) => 4
    case Shrinking(_) => 3
    case SignallingWriters(_) => 2
    case Received(_) => 1
    case _ => 0
  }

  predicate Receiving(pc: Pc)
  {
    pc.Reading? || pc.ReadingTail? || pc.AdvancingGet? || pc.Shrinking? || pc.SignallingWriters? || pc.Received?
  }

  lemma ReceiveStep(c: Config, m: Memory, pc: Pc, stopped: bool, choice: Choice)
    requires c.blockSize > 0 && Receiving(pc) && InBounds(c, m, pc) && !choice.throws
    ensures var pc', m' := StepPc(c, m, pc, stopped, choice), StepMemory(c, m, pc);
      && (pc.Received? ==> pc' == Idle)
      && (!pc.Received? ==> Receiving(pc') && ReceiveSteps(c, m', pc') + 1 == ReceiveSteps(c, m, pc))
  {
    hide Holds, Bytes, Blocks, ReadSize, HeadChunk;
  }

  /** What the receiver has read is the first send not yet received. */
  lemma ReceivedIsFirst(c: Config, s: State, t: Thread)
    requires Valid(c) && Inv(c, s) && s.mutex == Held(t) && t in s.threads && Receiving(s.threads[t])
    ensures s.next < |s.sent|
    ensures s.threads[t].Received? ==> s.threads[t].got == s.sent[s.next]
  {
    hide Holds, Bytes, Blocks, Intact, InBounds, HeadChunk;
    assert MemoryAt(c, s.mem, Pending(s), s.threads[t]);
  }

  lemma {:induction false} ReceiverFinishes(c: Config, s: State, t: Thread)
    requires Valid(c) && Inv(c, s) && s.mutex == Held(t) && t in s.threads && Receiving(s.threads[t])
    ensures s.next < |s.sent|
    ensures var r := Runs(c, s, t, ReceiveSteps(c, s.mem, s.threads[t]));
      && r.Some? && r.value.mutex == Free && t in r.value.threads && r.value.threads[t] == Idle
      && Adds(s, r.value, [], [Delivery(s.next, s.sent[s.next], s.epoch)]) && OthersStay(s, r.value, t) && Inv(c, r.value)
    decreases ReceiveSteps(c, s.mem, s.threads[t])
  {
    hide Inv, Enabled, Apply, CriticalStep, InBounds, StepPc, StepMemory, ReceiveSteps;
    var pc := s.threads[t];
    ReceivedIsFirst(c, s, t);
    HolderGoes(c, s, t);
    HolderStepEffect(c, s, t);
    ReceiveStep(c, s.mem, pc, t.process in s.stopped, Go(s, t).choice);
    ReceivedHasOneStep(c, s.mem, pc);
    var s' := Apply(c, s, Go(s, t));
    if !pc.Received? {
      ReceiverFinishes(c, s', t);
    }
  }

  lemma ReceivedHasOneStep(c: Config, m: Memory, pc: Pc)
    requires c.blockSize > 0
    ensures pc.Received? ==> ReceiveSteps(c, m, pc) == 1
    ensures Receiving(pc) ==> ReceiveSteps(c, m, pc) >= 1
  {
  }

  /** A thread that wants the mutex, at the start of an operation or at the end of a wait. */
  predicate WantsMutex(pc: Pc)
  {
    pc.Locking? || pc.Waiting?
  }

  /** Taking a free mutex leads to the decision of the operation. */
  lemma Locks(c: Config, s: State, t: Thread)
    requires Valid(c) && Inv(c, s) && s.mutex == Free && t in s.threads && WantsMutex(s.threads[t])
    ensures Enabled(c, s, Go(s, t))
    ensures var s' := Apply(c, s, Go(s, t));
      && Inv(c, s') && s'.mutex == Held(t) && t in s'.threads && s'.threads[t] == Deciding(s.threads[t].op)
      && s'.mem == s.mem && s'.stopped == s.stopped && OthersStay(s, s', t) && Adds(s, s', [], [])
  {
    hide Inv;
    ApplyInv(c, s, Go(s, t));
  }

  lemma StaysThen(s: State, s1: State, s': State, t: Thread)
    requires OthersStay(s, s1, t) && OthersStay(s1, s', t)
    ensures OthersStay(s, s', t)
  {
  }

  lemma StaysAfter(s: State, s1: State, s': State, t: Thread)
    requires OthersStay(s, s1, t) && t in s1.threads && OthersAfter(s1, s', t, s1.threads[t]) && s'.stopped == s1.stopped
    ensures OthersStay(s, s', t)
  {
    assert OthersStay(s1, s', t);
    StaysThen(s, s1, s', t);
  }

  /** In a reachable state with a free mutex, a send that has room and is left alone completes. */
  lemma SendCompletes(c: Config, s: State, t: Thread)
    requires Valid(c) && Inv(c, s) && s.mutex == Free && t in s.threads && WantsMutex(s.threads[t]) && s.threads[t].op.Send?
    requires t.process !in s.stopped && Blocks(c.blockSize, |s.threads[t].op.msg|) <= c.capacity - s.mem.size
    ensures var msg := s.threads[t].op.msg; var r := Runs(c, s, t, |msg| + 8);
      && r.Some? && r.value.mutex == Free && t in r.value.threads && r.value.threads[t] == Idle
      && Adds(s, r.value, [msg], []) && OthersStay(s, r.value, t) && Inv(c, r.value)
  {
    hide Inv, Enabled, Apply, CriticalStep, InBounds, StepMemory, Blocks, OthersStay, OthersAfter;
    Locks(c, s, t);
    var s1 := Apply(c, s, Go(s, t));
    HolderGoes(c, s1, t);
    HolderStepEffect(c, s1, t);
    var s2 := Apply(c, s1, Go(s1, t));
    assert s2.threads[t] == StoringLength(s.threads[t].op.msg);
    StaysAfter(s, s1, s2, t);
    SenderFinishes(c, s2, t);
    StaysThen(s, s2, Runs(c, s2, t, |s.threads[t].op.msg| + 6).value, t);
    TwoMore(c, s, t, |s.threads[t].op.msg| + 6);
  }

  lemma TwoMore(c: Config, s: State, t: Thread, n: nat)
    requires c.blockSize > 0 && Enabled(c, s, Go(s, t))
    requires var s1 := Apply(c, s, Go(s, t)); Enabled(c, s1, Go(s1, t))
    ensures var s1 := Apply(c, s, Go(s, t)); Runs(c, s, t, n + 2) == Runs(c, Apply(c, s1, Go(s1, t)), t, n)
  {
    hide Apply, Enabled;
  }

  /** In a reachable state with a free mutex, a receive that has a message and is left alone completes. */
  lemma ReceiveCompletes(c: Config, s: State, t: Thread) returns (n: nat)
    requires Valid(c) && Inv(c, s) && s.mutex == Free && t in s.threads && WantsMutex(s.threads[t]) && s.threads[t].op.Receive?
    requires (t.process in s.stopped ==> !s.threads[t].op.blocking) && s.mem.size > 0
    ensures n <= 8 && s.next < |s.sent|
    ensures var r := Runs(c, s, t, n);
      && r.Some? && r.value.mutex == Free && t in r.value.threads && r.value.threads[t] == Idle
      && Adds(s, r.value, [], [Delivery(s.next, s.sent[s.next], s.epoch)]) && OthersStay(s, r.value, t) && Inv(c, r.value)
  {
    hide Inv, Enabled, Apply, CriticalStep, InBounds, StepMemory, HeadChunk, OthersStay, OthersAfter;
    Locks(c, s, t);
    var s1 := Apply(c, s, Go(s, t));
    HolderGoes(c, s1, t);
    HolderStepEffect(c, s1, t);
    var s2 := Apply(c, s1, Go(s1, t));
    assert s2.threads[t] == Reading;
    StaysAfter(s, s1, s2, t);
    ReceiverFinishes(c, s2, t);
    n := ReceiveSteps(c, s2.mem, Reading) + 2;
    StaysThen(s, s2, Runs(c, s2, t, n - 2).value, t);
    TwoMore(c, s, t, n - 2);
  }

  // ---------------------------------------------------------------------------------------------
  // Operations that do not send or receive
  // ---------------------------------------------------------------------------------------------

  /** The operation has nothing to wait for: it was stopped, or it does not block and cannot be done. */
  predicate GivesUp(c: Config, s: State, t: Thread, op: Operation)
    requires c.blockSize > 0
  {
    match op
    case Send(msg, blocking) => t.process in s.stopped || (!blocking && c.capacity < s.mem.size + Blocks(c.blockSize, |msg|))
    case Receive(blocking) => (blocking && t.process in s.stopped) || (!blocking && s.mem.size == 0)
    case _ => false
  }

  /** The operation blocks, was not stopped, and cannot be done now. */
  predicate MustWait(c: Config, s: State, t: Thread, op: Operation)
    requires c.blockSize > 0
  {
    && (op.Send? || op.Receive?) && op.blocking && t.process !in s.stopped
    && if op.Send? then c.capacity < s.mem.size + Blocks(c.blockSize, |op.msg|) else s.mem.size == 0
  }

  /**
   From a reachable state with a free mutex, a `try_send` without room, a `try_receive` on an empty queue and an operation
   of a stopped process, left alone, return after three steps and have changed nothing.
   */
  lemma ReturnsAtOnce(c: Config, s: State, t: Thread)
    requires Valid(c) && Inv(c, s) && s.mutex == Free && t in s.threads && WantsMutex(s.threads[t])
    requires GivesUp(c, s, t, s.threads[t].op)
    ensures var r := Runs(c, s, t, 3);
      r.Some? && r.value == s.(threads := s.threads[t := Idle])
  {
    hide Inv, CriticalStep, Blocks, InBounds, StepMemory, OthersStay, Adds;
    Locks(c, s, t);
    var s1 := Apply(c, s, Go(s, t));
    assert s1 == s.(mutex := Held(t), threads := s.threads[t := Deciding(s.threads[t].op)]);
    hide Enabled, Apply;
    HolderGoes(c, s1, t);
    QuietHolder(c, s1, t);
    var s2 := Apply(c, s1, Go(s1, t));
    assert s2 == s1.(threads := s1.threads[t := Leaving]);
    HolderGoes(c, s2, t);
    QuietHolder(c, s2, t);
    var s3 := Apply(c, s2, Go(s2, t));
    assert s3.threads == s.threads[t := Idle];
    assert Runs(c, s2, t, 1) == Runs(c, s3, t, 0) == Some(s3);
    TwoMore(c, s, t, 1);
  }

  /** A step that decides or leaves changes nothing but the place of its thread, and the mutex when it lets go. */
  lemma QuietHolder(c: Config, s: State, t: Thread)
    requires c.blockSize > 0 && t in s.threads && InCritical(s.threads[t]) && InBounds(c, s.mem, s.threads[t]) && s.mutex == Held(t)
    requires s.threads[t].Deciding? || s.threads[t].Leaving?
    ensures var pc' := StepPc(c, s.mem, s.threads[t], t.process in s.stopped, Go(s, t).choice);
      CriticalStep(c, s, t, Go(s, t).choice) == s.(threads := s.threads[t := pc'], mutex := if InCritical(pc') then Held(t) else Free)
  {
    hide StepPc;
    assert NotifyAll(s.threads, s.threads[t], Go(s, t).choice.woken) == s.threads;
  }

  /** A blocking send without room and a blocking receive on an empty queue, not stopped, come to wait with the mutex free. */
  lemma WaitsWithoutMutex(c: Config, s: State, t: Thread)
    requires Valid(c) && Inv(c, s) && s.mutex == Free && t in s.threads && WantsMutex(s.threads[t])
    requires MustWait(c, s, t, s.threads[t].op)
    ensures var r := Runs(c, s, t, 2);
      r.Some? && r.value == s.(threads := s.threads[t := Waiting(s.threads[t].op, false)])
  {
    hide Inv, CriticalStep, Blocks, InBounds, StepMemory, OthersStay, Adds;
    Locks(c, s, t);
    var s1 := Apply(c, s, Go(s, t));
    assert s1 == s.(mutex := Held(t), threads := s.threads[t := Deciding(s.threads[t].op)]);
    hide Enabled, Apply;
    HolderGoes(c, s1, t);
    QuietHolder(c, s1, t);
    var s2 := Apply(c, s1, Go(s1, t));
    assert s2.threads == s.threads[t := Waiting(s.threads[t].op, false)];
    TwoMore(c, s, t, 0);
  }

  /** The threads with `t` gone idle and everybody told who waits in a send, if `writers`, or in a receive, if `readers`. */
  function Told(threads: map<Thread, Pc>, t: Thread, writers: bool, readers: bool): (r: map<Thread, Pc>)
  {
    (map u | u in threads ::
       if threads[u].Waiting? && ((writers && threads[u].op.Send?) || (readers && threads[u].op.Receive?))
       then Waiting(threads[u].op, true) else threads[u])[t := Idle]
  }

  /** What clearing has still to store before its `k`-th step. */
  function Emptied(m: Memory, k: nat): (m': Memory)
  {
    if k == 0 then m.(size := 0, put := 0, get := 0) else if k == 1 then m.(put := 0, get := 0) else if k == 2 then m.(get := 0) else m
  }

  lemma {:induction false} ClearFinishes(c: Config, s: State, t: Thread, k: nat)
    requires Valid(c) && Inv(c, s) && s.mutex == Held(t) && t in s.threads && s.threads[t] == Clearing(k) && k <= 4
    ensures var r := Runs(c, s, t, 5 - k);
      r.Some? && r.value == s.(mem := Emptied(s.mem, k), mutex := Free, threads := Told(s.threads, t, k <= 3, false),
                               next := |s.sent|, epoch := |s.sent|)
    decreases 4 - k
  {
    hide Inv, InBounds, Enabled, Apply;
    HolderGoes(c, s, t);
    ClearStep(c, s, t, k);
    hide CriticalStep;
    var s' := Apply(c, s, Go(s, t));
    if k < 4 {
      hide NotifyAll;
      ClearFinishes(c, s', t, k + 1);
      TellsOnce(s.threads, t, k);
    } else {
      assert s'.threads == Told(s.threads, t, false, false);
      assert Runs(c, s', t, 0) == Some(s');
    }
  }

  lemma ClearStep(c: Config, s: State, t: Thread, k: nat)
    requires Valid(c) && t in s.threads && s.threads[t] == Clearing(k) && k <= 4 && s.mutex == Held(t)
    ensures var s', told := CriticalStep(c, s, t, Go(s, t).choice), NotifyAll(s.threads, Clearing(k), s.threads.Keys);
      && (k < 4 ==> s' == s.(mem := Reclaim(s.mem, k), threads := told[t := Clearing(k + 1)]))
      && (k == 4 ==> s' == s.(threads := told[t := Idle], mutex := Free, next := |s.sent|, epoch := |s.sent|))
  {
    hide NotifyAll;
  }

  lemma TellsOnce(threads: map<Thread, Pc>, t: Thread, k: nat)
    requires t in threads && threads[t] == Clearing(k) && k < 4
    ensures Told(NotifyAll(threads, Clearing(k), threads.Keys)[t := Clearing(k + 1)], t, k + 1 <= 3, false) == Told(threads, t, true, false)
  {
  }

  /** `clear`, left alone: the queue is empty, all waiting writers are told, and nothing else has changed. */
  lemma ClearCompletes(c: Config, s: State, t: Thread)
    requires Valid(c) && Inv(c, s) && s.mutex == Free && t in s.threads && s.threads[t] == Locking(Clear)
    ensures var r := Runs(c, s, t, 7);
      r.Some? && r.value == s.(mem := s.mem.(size := 0, put := 0, get := 0), threads := Told(s.threads, t, true, false),
                               next := |s.sent|, epoch := |s.sent|)
  {
    hide Inv, CriticalStep, InBounds, StepMemory, OthersStay, Adds;
    Locks(c, s, t);
    var s1 := Apply(c, s, Go(s, t));
    assert s1 == s.(mutex := Held(t), threads := s.threads[t := Deciding(Clear)]);
    hide Enabled, Apply;
    HolderGoes(c, s1, t);
    QuietHolder(c, s1, t);
    var s2 := Apply(c, s1, Go(s1, t));
    ClearFinishes(c, s2, t, 0);
    assert Told(s2.threads, t, true, false) == Told(s.threads, t, true, false);
    TwoMore(c, s, t, 5);
  }

  lemma {:induction false} StopFinishes(c: Config, s: State, t: Thread, k: nat)
    requires Valid(c) && Inv(c, s) && s.mutex == Held(t) && t in s.threads && s.threads[t] == Stopping(k) && k <= 3
    ensures var r := Runs(c, s, t, 4 - k);
      r.Some? && r.value == s.(mutex := Free, threads := Told(s.threads, t, k <= 2, k <= 1),
                               stopped := if k == 0 then s.stopped + {t.process} else s.stopped)
    decreases 3 - k
  {
    hide Inv, InBounds, Enabled, Apply;
    HolderGoes(c, s, t);
    StopStep(c, s, t, k);
    hide CriticalStep;
    var s' := Apply(c, s, Go(s, t));
    if k < 3 {
      hide NotifyAll;
      StopFinishes(c, s', t, k + 1);
      StopTells(s.threads, t, k);
    } else {
      assert s'.threads == Told(s.threads, t, false, false);
      assert Runs(c, s', t, 0) == Some(s');
    }
  }

  lemma StopStep(c: Config, s: State, t: Thread, k: nat)
    requires Valid(c) && t in s.threads && s.threads[t] == Stopping(k) && k <= 3 && s.mutex == Held(t)
    ensures var s', told := CriticalStep(c, s, t, Go(s, t).choice), NotifyAll(s.threads, Stopping(k), s.threads.Keys);
      && (k < 3 ==> s' == s.(threads := told[t := Stopping(k + 1)], stopped := if k == 0 then s.stopped + {t.process} else s.stopped))
      && (k == 3 ==> s' == s.(threads := told[t := Idle], mutex := Free))
  {
    hide NotifyAll;
  }

  lemma StopTells(threads: map<Thread, Pc>, t: Thread, k: nat)
    requires t in threads && threads[t] == Stopping(k) && k < 3
    ensures Told(NotifyAll(threads, Stopping(k), threads.Keys)[t := Stopping(k + 1)], t, k + 1 <= 2, k + 1 <= 1)
         == Told(threads, t, true, k <= 1)
  {
  }

  /** `stop_local`, left alone: its process is stopped, everybody who waits is told, and nothing else has changed. */
  lemma StopCompletes(c: Config, s: State, t: Thread)
    requires Valid(c) && Inv(c, s) && s.mutex == Free && t in s.threads && s.threads[t] == Locking(Stop)
    ensures var r := Runs(c, s, t, 6);
      r.Some? && r.value == s.(threads := Told(s.threads, t, true, true), stopped := s.stopped + {t.process})
  {
    hide Inv, CriticalStep, InBounds, StepMemory, OthersStay, Adds;
    Locks(c, s, t);
    var s1 := Apply(c, s, Go(s, t));
    assert s1 == s.(mutex := Held(t), threads := s.threads[t := Deciding(Stop)]);
    hide Enabled, Apply;
    HolderGoes(c, s1, t);
    QuietHolder(c, s1, t);
    var s2 := Apply(c, s1, Go(s1, t));
    StopFinishes(c, s2, t, 0);
    assert Told(s2.threads, t, true, true) == Told(s.threads, t, true, true);
    TwoMore(c, s, t, 4);
  }
}
