/** No lost wake-ups: who may be waiting un-notified in a reachable state of QueueProtocol. */
module QueueWakeups {
  import opened Wrappers
  import opened MessageRing
  import opened MessageQueue
  import opened QueueProtocol
  import opened QueueSafety

  ghost predicate WaitsUnnotified(s: State, t: Thread)
  {
    t in s.threads && s.threads[t].Waiting? && !s.threads[t].notified
  }

  /** The holder of the mutex has freed blocks, or may have, and has not yet broadcast to the writers. */
  predicate OwesWriters(pc: Pc)
  {
    || pc.SignallingWriters? || pc.WaitFailed?
    || (pc.Recovering? && pc.done <= 3) || (pc.Clearing? && 1 <= pc.done <= 3)
  }

  /** The holder of the mutex has made the queue non-empty, or may have, and has not yet signalled a reader. */
  predicate OwesReader(pc: Pc)
  {
    pc.WaitFailed? || (pc.Recovering? && pc.done == 0) || (pc.SignallingReader? && pc.wasEmpty)
  }

  /** The mutex is free, or its holder owes nothing. */
  ghost predicate Settled(s: State, owes: Pc -> bool)
  {
    match s.mutex
    case Free => true
    case Held(t) => t in s.threads && !owes(s.threads[t])
    case _ => false
  }

  /** No waiting writer that was not notified has room for its message. */
  ghost predicate WritersLackRoom(c: Config, s: State)
    requires c.blockSize > 0
  {
    forall t :: WaitsUnnotified(s, t) && s.threads[t].op.Send? ==>
                  c.capacity - s.mem.size < Blocks(c.blockSize, |s.threads[t].op.msg|)
  }

  /** No waiting reader that was not notified has something to read. */
  ghost predicate ReadersLackMessages(s: State)
  {
    forall t :: WaitsUnnotified(s, t) && s.threads[t].op.Receive? ==> s.mem.size == 0
  }

  /** Threads of a stopped process wait un-notified only while that process is still broadcasting the stop. */
  ghost predicate StopReachesWaiters(s: State)
  {
    forall t :: WaitsUnnotified(s, t) && t.process in s.stopped ==>
                  && s.mutex.Held? && s.mutex.t in s.threads && s.mutex.t.process == t.process
                  && var pc := s.threads[s.mutex.t];
                     pc.Stopping? && (pc.done == 1 || (pc.done == 2 && s.threads[t].op.Send?))
  }

  /** A thread that has still to decide whether there is something to receive. */
  predicate SeeksMessage(pc: Pc)
  {
    (pc.Locking? || pc.Waiting? || pc.Recovering? || pc.Deciding?) && pc.op.Receive?
  }

  /** No thread but `r` seeks a message. */
  ghost predicate OnlyReader(s: State, r: Thread)
  {
    forall t :: t in s.threads && SeeksMessage(s.threads[t]) ==> t == r
  }

  ghost predicate NobodySeeks(s: State)
  {
    forall t :: t in s.threads ==> !SeeksMessage(s.threads[t])
  }

  /**
   Receives do not overlap: a thread of any process begins one only when no thread seeks a message. A reader whose process
   died seeks none any more.
   */
  ghost predicate ReceivesInTurn(c: Config, threads: set<Thread>, run: seq<Action>)
    requires c.blockSize > 0 && Legal(c, threads, run)
    decreases |run|
  {
    run == [] ||
    (var before, a := run[..|run| - 1], run[|run| - 1];
     ReceivesInTurn(c, threads, before) && (a.Begin? && a.op.Receive? ==> NobodySeeks(After(c, threads, before))))
  }

  ghost predicate WakeInv(c: Config, s: State)
    requires c.blockSize > 0
  {
    && (Settled(s, OwesWriters) ==> WritersLackRoom(c, s))
    && StopReachesWaiters(s)
  }

  ghost predicate ReaderInv(s: State, r: Thread)
  {
    && OnlyReader(s, r)
    && (Settled(s, OwesReader) ==> ReadersLackMessages(s))
  }

  /** How the size changes and who is waiting after a step of the holder. */
  lemma WaitersAfter(c: Config, s: State, t: Thread, choice: Choice, u: Thread)
    requires Valid(c) && Inv(c, s) && t in s.threads && InCritical(s.threads[t]) && InBounds(c, s.mem, s.threads[t])
    requires WaitsUnnotified(CriticalStep(c, s, t, choice), u)
    ensures var s' := CriticalStep(c, s, t, choice);
            if u == t then s.threads[t].Deciding? && s'.threads[t] == Waiting(s.threads[t].op, false)
            else s'.threads[u] == s.threads[u] && !Wakes(s.threads[t], s.threads[u], u in choice.woken)
  {
    hide Holds, Blocks, Bytes, Intact, StepMemory, MemoryAt, InBounds, Inv;
  }

  lemma CriticalWakeWriters(c: Config, s: State, t: Thread, choice: Choice)
    requires Valid(c) && Inv(c, s) && t in s.threads && InCritical(s.threads[t]) && InBounds(c, s.mem, s.threads[t])
    requires WakeInv(c, s)
    ensures var s' := CriticalStep(c, s, t, choice); Settled(s', OwesWriters) ==> WritersLackRoom(c, s')
  {
    hide Holds, Blocks, Bytes, Intact;
    var s' := CriticalStep(c, s, t, choice);
    var pc := s.threads[t];
    if Settled(s', OwesWriters) {
      forall u | WaitsUnnotified(s', u) && s'.threads[u].op.Send?
        ensures c.capacity - s'.mem.size < Blocks(c.blockSize, |s'.threads[u].op.msg|)
      {
        WaitersAfter(c, s, t, choice, u);
        if u != t {
          assert WaitsUnnotified(s, u);
        }
      }
    }
  }

  lemma CriticalWakeStops(c: Config, s: State, t: Thread, choice: Choice)
    requires Valid(c) && Inv(c, s) && t in s.threads && InCritical(s.threads[t]) && InBounds(c, s.mem, s.threads[t])
    requires WakeInv(c, s)
    ensures StopReachesWaiters(CriticalStep(c, s, t, choice))
  {
    hide Holds, Blocks, Bytes, Intact, StepMemory, MemoryAt;
    var s' := CriticalStep(c, s, t, choice);
    forall u | WaitsUnnotified(s', u) && u.process in s'.stopped
      ensures s'.mutex.Held? && s'.mutex.t in s'.threads && s'.mutex.t.process == u.process
      ensures var pc := s'.threads[s'.mutex.t];
              pc.Stopping? && (pc.done == 1 || (pc.done == 2 && s'.threads[u].op.Send?))
    {
      WaitersAfter(c, s, t, choice, u);
      if u != t {
        assert WaitsUnnotified(s, u);
      }
    }
  }

  lemma CriticalOnlyReader(c: Config, s: State, t: Thread, choice: Choice, r: Thread)
    requires Valid(c) && Inv(c, s) && t in s.threads && InCritical(s.threads[t]) && InBounds(c, s.mem, s.threads[t])
    requires OnlyReader(s, r)
    ensures OnlyReader(CriticalStep(c, s, t, choice), r)
  {
    hide Holds, Blocks, Bytes, Intact, StepMemory, MemoryAt, InBounds, Inv;
  }

  /** The size only leaves zero with a signal owed to a reader. */
  lemma SizeLeavesZero(c: Config, m: Memory, q: seq<Message>, pc: Pc, stopped: bool, choice: Choice)
    requires Valid(c) && InCritical(pc) && MemoryAt(c, m, q, pc) && InBounds(c, m, pc)
    ensures m.size == 0 && StepMemory(c, m, pc).size != 0 ==> StepPc(c, m, pc, stopped, choice) == SignallingReader(pc.msg, true)
    ensures OwesReader(pc) && !pc.SignallingReader? && InCritical(StepPc(c, m, pc, stopped, choice)) ==> StepMemory(c, m, pc).size == 0
  {
    hide Holds, Bytes, Intact;
  }

  lemma CriticalWakeReader(c: Config, s: State, t: Thread, choice: Choice, r: Thread)
    requires Valid(c) && Inv(c, s) && t in s.threads && InCritical(s.threads[t]) && InBounds(c, s.mem, s.threads[t])
    requires SignalReaches(s.threads, s.threads[t], choice.woken)
    requires ReaderInv(s, r)
    ensures var s' := CriticalStep(c, s, t, choice);
            Settled(s', OwesReader) ==> ReadersLackMessages(s')
  {
    hide Holds, Blocks, Bytes, Intact, MemoryAt, StepMemory, InBounds;
    var s' := CriticalStep(c, s, t, choice);
    var pc := s.threads[t];
    SizeLeavesZero(c, s.mem, Pending(s), pc, t.process in s.stopped, choice);
    if Settled(s', OwesReader) {
      forall u | WaitsUnnotified(s', u) && s'.threads[u].op.Receive?
        ensures s'.mem.size == 0
      {
        WaitersAfter(c, s, t, choice, u);
        if u == t {
          WaitsOnEmpty(c, s, t, choice);
        } else {
          assert WaitsUnnotified(s, u);
        }
      }
    }
  }

  lemma WaitsOnEmpty(c: Config, s: State, t: Thread, choice: Choice)
    requires Valid(c) && Inv(c, s) && t in s.threads && s.threads[t].Deciding? && s.threads[t].op.Receive?
    requires CriticalStep(c, s, t, choice).threads[t].Waiting?
    ensures CriticalStep(c, s, t, choice).mem.size == 0
  {
    hide Holds, Blocks, Bytes, Intact, Inv;
  }

  /** Steps other than those of the mutex holder change neither memory nor who waits un-notified, or only shrink it. */
  lemma OutsideWaiters(c: Config, s: State, a: Action)
    requires Valid(c) && Inv(c, s) && Enabled(c, s, a)
    requires a.Step? ==> !InCritical(s.threads[a.t])
    ensures var s' := Apply(c, s, a);
            && s'.mem == s.mem && s'.stopped <= s.stopped
            && forall u :: WaitsUnnotified(s', u) ==> WaitsUnnotified(s, u) && s'.threads[u] == s.threads[u]
  {
    hide Holds, Blocks, Bytes, Intact, MemoryAt;
  }

  lemma OutsideWake(c: Config, s: State, a: Action)
    requires Valid(c) && Inv(c, s) && WakeInv(c, s) && Enabled(c, s, a)
    requires a.Step? ==> !InCritical(s.threads[a.t])
    ensures WakeInv(c, Apply(c, s, a))
  {
    hide Holds, Blocks, Bytes, Intact, MemoryAt;
    OutsideWaiters(c, s, a);
    var s' := Apply(c, s, a);
    assert Settled(s', OwesWriters) ==> Settled(s, OwesWriters);
    forall u | WaitsUnnotified(s', u) && u.process in s'.stopped
      ensures s'.mutex == s.mutex && s.mutex.Held? && s'.threads[s.mutex.t] == s.threads[s.mutex.t]
    {
      assert WaitsUnnotified(s, u);
    }
  }

  lemma OutsideReader(c: Config, s: State, a: Action, r: Thread)
    requires Valid(c) && Inv(c, s) && ReaderInv(s, r) && Enabled(c, s, a)
    requires a.Step? ==> !InCritical(s.threads[a.t])
    requires a.Begin? && a.op.Receive? ==> a.t == r
    ensures ReaderInv(Apply(c, s, a), r)
  {
    hide Holds, Blocks, Bytes, Intact, MemoryAt;
    OutsideWaiters(c, s, a);
    var s' := Apply(c, s, a);
    assert Settled(s', OwesReader) ==> Settled(s, OwesReader);
  }

  lemma ApplyWake(c: Config, s: State, a: Action)
    requires Valid(c) && Inv(c, s) && WakeInv(c, s) && Enabled(c, s, a)
    ensures WakeInv(c, Apply(c, s, a))
  {
    hide Holds, Blocks, Bytes, Intact, MemoryAt, CriticalStep, Inv;
    if a.Step? && InCritical(s.threads[a.t]) {
      CriticalWakeWriters(c, s, a.t, a.choice);
      CriticalWakeStops(c, s, a.t, a.choice);
    } else {
      OutsideWake(c, s, a);
    }
  }

  lemma ApplyReader(c: Config, s: State, a: Action, r: Thread)
    requires Valid(c) && Inv(c, s) && ReaderInv(s, r) && Enabled(c, s, a)
    requires a.Begin? && a.op.Receive? ==> a.t == r
    ensures ReaderInv(Apply(c, s, a), r)
  {
    hide Holds, Blocks, Bytes, Intact, MemoryAt, CriticalStep, Inv;
    if a.Step? && InCritical(s.threads[a.t]) {
      CriticalWakeReader(c, s, a.t, a.choice, r);
      CriticalOnlyReader(c, s, a.t, a.choice, r);
    } else {
      OutsideReader(c, s, a, r);
    }
  }

  lemma {:induction false} RunWake(c: Config, threads: set<Thread>, run: seq<Action>)
    requires Valid(c) && Legal(c, threads, run)
    ensures WakeInv(c, After(c, threads, run))
    decreases |run|
  {
    hide Inv, Apply, Enabled;
    if run != [] {
      var before := run[..|run| - 1];
      RunWake(c, threads, before);
      RunInv(c, threads, before);
      ApplyWake(c, After(c, threads, before), run[|run| - 1]);
    }
  }

  /** After every run whose receives do not overlap there is at most one reader. */
  lemma {:induction false} RunReader(c: Config, threads: set<Thread>, run: seq<Action>) returns (r: Thread)
    requires Valid(c) && Legal(c, threads, run) && ReceivesInTurn(c, threads, run)
    ensures ReaderInv(After(c, threads, run), r)
    decreases |run|
  {
    hide Inv, Apply, Enabled, SeeksMessage;
    if run == [] {
      r := Thread(0, 0);
      assert NobodySeeks(Init(c, threads)) by {
        IdleSeeksNothing();
      }
    } else {
      var before, a := run[..|run| - 1], run[|run| - 1];
      r := RunReader(c, threads, before);
      if a.Begin? && a.op.Receive? {
        r := a.t;
      }
      RunInv(c, threads, before);
      ApplyReader(c, After(c, threads, before), a, r);
    }
  }

  lemma IdleSeeksNothing()
    ensures !SeeksMessage(Idle)
  {
  }

  /**
   In every reachable state whose mutex is free or has a living holder that owes the writers no broadcast, no writer waits
   un-notified although its message fits. In every reachable state whatever, a thread of a stopped process waits un-notified
   only while the stop is being broadcast.
   */
  lemma NoWriterIsStranded(c: Config, threads: set<Thread>, run: seq<Action>)
    requires Valid(c) && Legal(c, threads, run)
    ensures var s := After(c, threads, run);
            && (Settled(s, OwesWriters) ==>
                  forall t :: WaitsUnnotified(s, t) && s.threads[t].op.Send? ==>
                                c.capacity - s.mem.size < Blocks(c.blockSize, |s.threads[t].op.msg|))
            && (forall t :: WaitsUnnotified(s, t) && t.process in s.stopped ==>
                              && s.mutex.Held? && s.mutex.t in s.threads && s.mutex.t.process == t.process
                              && s.threads[s.mutex.t].Stopping?)
  {
    RunWake(c, threads, run);
  }

  /**
   As long as receives do not overlap, in whatever threads and processes they are made, then in every reachable state whose
   mutex is free or has a living holder that owes a reader no signal nobody waits un-notified on a queue with a message.
   */
  lemma ReaderInTurnIsNotStranded(c: Config, threads: set<Thread>, run: seq<Action>, t: Thread)
    requires Valid(c) && Legal(c, threads, run) && ReceivesInTurn(c, threads, run)
    ensures var s := After(c, threads, run);
            Settled(s, OwesReader) && WaitsUnnotified(s, t) && s.threads[t].op.Receive? ==>
              && s.mem.size == 0
              && (s.mutex.Free? ==> s.next <= |s.sent| && s.sent[s.next..] == [])
  {
    var r := RunReader(c, threads, run);
    RunInv(c, threads, run);
    var s := After(c, threads, run);
    if s.mutex.Free? && WaitsUnnotified(s, t) && s.threads[t].op.Receive? {
      hide Holds, Bytes, Blocks, Legal, After;
      EmptyIffNoBlocks(s.mem.image, c.blockSize, Bytes(s.mem.get, c.blockSize), s.mem.size, Pending(s));
    }
  }
}
