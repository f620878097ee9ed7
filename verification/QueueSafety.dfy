/**
 Safety of the interprocess queue in every run of QueueProtocol: what is delivered, what the memory holds, and what
 becomes of the queue when a process dies.
 */
module QueueSafety {
  import opened Wrappers
  import opened MessageRing
  import opened MessageQueue
  import opened QueueProtocol

  /** Completed sends that are still to be received. */
  function Pending(s: State): (q: seq<Message>)
    requires s.next <= |s.sent|
  {
    s.sent[s.next..]
  }

  /** Only the thread recorded as holder is inside a critical section. */
  ghost predicate Exclusive(s: State)
  {
    && (s.mutex.Held? ==> s.mutex.t in s.threads && InCritical(s.threads[s.mutex.t]))
    && forall t :: t in s.threads && InCritical(s.threads[t]) ==> s.mutex == Held(t)
  }

  ghost predicate OperationFits(c: Config, pc: Pc)
    requires c.blockSize > 0
  {
    && ((pc.Locking? || pc.Waiting? || pc.Recovering? || pc.Deciding?) && pc.op.Send? ==> SizeFits(c.blockSize, |pc.op.msg|))
    && (pc.Waiting? ==> (pc.op.Send? || pc.op.Receive?) && pc.op.blocking)
  }

  /** Deliveries are whole sends of their own epoch, each at most once and in the order sent. */
  ghost predicate Log(s: State)
  {
    && s.epoch <= s.next <= |s.sent|
    && (forall i :: 0 <= i < |s.delivered| ==>
          var d := s.delivered[i];
          d.epoch <= d.id < s.next && d.bytes == s.sent[d.id])
    && (forall i, j :: 0 <= i < j < |s.delivered| ==> s.delivered[i].id < s.delivered[j].id)
  }

  ghost predicate MemoryMeaning(c: Config, s: State)
    requires c.blockSize > 0 && Exclusive(s) && Log(s)
  {
    && |s.mem.image| == Bytes(c.capacity, c.blockSize)
    && match s.mutex
       case Free => Intact(c, s.mem, Pending(s))
       case Held(t) => MemoryAt(c, s.mem, Pending(s), s.threads[t])
       case _ => true
  }

  ghost predicate Inv(c: Config, s: State)
    requires c.blockSize > 0
  {
    && Exclusive(s)
    && (forall t :: t in s.threads ==> OperationFits(c, s.threads[t]))
    && Log(s)
    && MemoryMeaning(c, s)
  }

  lemma InitInv(c: Config, threads: set<Thread>)
    requires Valid(c)
    ensures Inv(c, Init(c, threads))
  {
    EmptyRingIntact(c, Init(c, threads).mem);
  }

  lemma AcquireInv(c: Config, s: State, t: Thread, op: Operation, afterWait: bool)
    requires Valid(c) && Inv(c, s) && t in s.threads && !s.mutex.Held?
    requires s.threads[t] == Locking(op) || (s.threads[t].Waiting? && s.threads[t].op == op)
    ensures Inv(c, Acquire(s, t, op, afterWait))
  {
    hide Holds, Blocks, Bytes, Intact;
    var s' := Acquire(s, t, op, afterWait);
    assert Exclusive(s');
  }

  lemma LengthKept(c: Config, m: Memory, pc: Pc)
    requires c.blockSize > 0 && InBounds(c, m, pc)
    ensures |StepMemory(c, m, pc).image| == |m.image|
  {
  }

  /** What a critical step does to the history. */
  lemma HistoryStep(c: Config, s: State, t: Thread, choice: Choice)
    requires Valid(c) && Inv(c, s) && t in s.threads && InCritical(s.threads[t]) && InBounds(c, s.mem, s.threads[t])
    ensures var s' := CriticalStep(c, s, t, choice);
            Log(s') && Pending(s') == QueueAfter(Pending(s), s.threads[t])
  {
    hide Holds, Blocks, Bytes, StepPc, StepMemory, NotifyAll, Intact;
    var pc := s.threads[t];
    var s' := CriticalStep(c, s, t, choice);
    assert MemoryAt(c, s.mem, Pending(s), pc);
    assert s.sent <= s'.sent;
  }

  lemma CriticalInv(c: Config, s: State, t: Thread, choice: Choice)
    requires Valid(c) && Inv(c, s) && t in s.threads && InCritical(s.threads[t]) && InBounds(c, s.mem, s.threads[t])
    ensures Inv(c, CriticalStep(c, s, t, choice))
  {
    hide Holds, Blocks, Bytes, Intact, StepMemory;
    var pc := s.threads[t];
    var s' := CriticalStep(c, s, t, choice);
    HolderStep(c, s.mem, Pending(s), pc, t.process in s.stopped, choice);
    HistoryStep(c, s, t, choice);
    LengthKept(c, s.mem, pc);
    OthersKept(c, s, t, choice);
  }

  /** Another thread stays where it is, except for being notified. */
  lemma OtherKept(c: Config, s: State, t: Thread, choice: Choice, u: Thread)
    requires Valid(c) && Inv(c, s) && t in s.threads && InCritical(s.threads[t]) && InBounds(c, s.mem, s.threads[t])
    requires u != t
    ensures var s' := CriticalStep(c, s, t, choice);
            && (u in s'.threads <==> u in s.threads)
            && (u in s.threads ==> OperationFits(c, s'.threads[u]) && !InCritical(s'.threads[u]))
  {
    hide Holds, Blocks, Bytes, Intact, StepMemory, StepPc, MemoryAt, InBounds;
    if u in s.threads {
      assert OperationFits(c, s.threads[u]);
    }
  }

  lemma HolderKept(c: Config, s: State, t: Thread, choice: Choice)
    requires Valid(c) && Inv(c, s) && t in s.threads && InCritical(s.threads[t]) && InBounds(c, s.mem, s.threads[t])
    ensures var s' := CriticalStep(c, s, t, choice);
            && t in s'.threads && OperationFits(c, s'.threads[t])
            && s'.mutex.Held? == InCritical(s'.threads[t]) && (s'.mutex.Held? ==> s'.mutex == Held(t))
  {
    hide Holds, Blocks, Bytes, Intact, StepMemory, MemoryAt, InBounds, NotifyAll;
    assert OperationFits(c, s.threads[t]);
  }

  lemma OthersKept(c: Config, s: State, t: Thread, choice: Choice)
    requires Valid(c) && Inv(c, s) && t in s.threads && InCritical(s.threads[t]) && InBounds(c, s.mem, s.threads[t])
    ensures var s' := CriticalStep(c, s, t, choice);
            Exclusive(s') && forall u :: u in s'.threads ==> OperationFits(c, s'.threads[u])
  {
    hide Holds, Blocks, Bytes, Intact, StepMemory, StepPc, MemoryAt, InBounds, CriticalStep, Inv, OperationFits;
    var s' := CriticalStep(c, s, t, choice);
    HolderKept(c, s, t, choice);
    forall u | u in s'.threads && u != t
      ensures OperationFits(c, s'.threads[u]) && !InCritical(s'.threads[u])
    {
      OtherKept(c, s, t, choice, u);
    }
  }

  lemma DieInv(c: Config, s: State, p: nat)
    requires Valid(c) && Inv(c, s)
    ensures Inv(c, Apply(c, s, Die(p)))
  {
    hide Holds, Blocks, Bytes, Intact;
  }

  lemma ApplyInv(c: Config, s: State, a: Action)
    requires Valid(c) && Inv(c, s) && Enabled(c, s, a)
    ensures Inv(c, Apply(c, s, a))
  {
    hide Holds, Blocks, Bytes, Intact, MemoryAt, CriticalStep, Acquire;
    match a
    case Begin(t, op) =>
    case Reset(_) =>
    case Die(p) => DieInv(c, s, p);
    case Step(t, choice) =>
      var pc := s.threads[t];
      if pc.Locking? || pc.Waiting? {
        AcquireInv(c, s, t, pc.op, pc.Waiting?);
      } else {
        CriticalInv(c, s, t, choice);
      }
  }

  lemma {:induction false} RunInv(c: Config, threads: set<Thread>, run: seq<Action>)
    requires Valid(c) && Legal(c, threads, run)
    ensures Inv(c, After(c, threads, run))
    decreases |run|
  {
    hide Inv, Apply, Enabled;
    if run == [] {
      InitInv(c, threads);
    } else {
      var before := run[..|run| - 1];
      RunInv(c, threads, before);
      ApplyInv(c, After(c, threads, before), run[|run| - 1]);
    }
  }

  /**
   In every run, whatever processes die and wherever: the completed receives return whole messages,
   each of a send completed in the epoch of the receive, no send twice, and in the order of sending.
   */
  lemma DeliveriesAreWholeAndOrdered(c: Config, threads: set<Thread>, run: seq<Action>)
    requires Valid(c) && Legal(c, threads, run)
    ensures var s := After(c, threads, run);
            && (forall i :: 0 <= i < |s.delivered| ==>
                  var d := s.delivered[i];
                  d.epoch <= d.id < |s.sent| && d.bytes == s.sent[d.id])
            && (forall i, j :: 0 <= i < j < |s.delivered| ==> s.delivered[i].id < s.delivered[j].id)
  {
    RunInv(c, threads, run);
  }

  /** In every reachable state with a free mutex the ring holds exactly the sends not received since the epoch. */
  lemma FreeMutexMeansIntactRing(c: Config, threads: set<Thread>, run: seq<Action>)
    requires Valid(c) && Legal(c, threads, run)
    ensures var s := After(c, threads, run);
            s.mutex.Free? ==> s.epoch <= s.next <= |s.sent| && Intact(c, s.mem, s.sent[s.next..])
  {
    RunInv(c, threads, run);
  }

  /** No step of any run reads or writes outside the ring. */
  lemma StepsStayInRing(c: Config, threads: set<Thread>, run: seq<Action>, t: Thread)
    requires Valid(c) && Legal(c, threads, run)
    ensures var s := After(c, threads, run);
            t in s.threads && InCritical(s.threads[t]) ==> InBounds(c, s.mem, s.threads[t])
  {
    hide Holds, Blocks, Bytes, MemoryAt, InBounds, Legal;
    RunInv(c, threads, run);
    var s := After(c, threads, run);
    if t in s.threads && InCritical(s.threads[t]) {
      assert OperationFits(c, s.threads[t]);
      HolderStep(c, s.mem, Pending(s), s.threads[t], false, Choice(false, {}));
    }
  }

  /** In every run only blocking sends and receives wait: `try_send` and `try_receive` never do. */
  lemma OnlyBlockingWaits(c: Config, threads: set<Thread>, run: seq<Action>, t: Thread)
    requires Valid(c) && Legal(c, threads, run)
    ensures var s := After(c, threads, run);
            t in s.threads && s.threads[t].Waiting? ==> (s.threads[t].op.Send? || s.threads[t].op.Receive?) && s.threads[t].op.blocking
  {
    hide Legal;
    RunInv(c, threads, run);
    var s := After(c, threads, run);
    if t in s.threads {
      assert OperationFits(c, s.threads[t]);
    }
  }

  lemma RecoveryAdvances(c: Config, s: State, t: Thread, k: nat)
    requires Valid(c) && Inv(c, s) && k <= 4
    requires t in s.threads && s.threads[t].Recovering? && s.threads[t].done == k
    ensures Enabled(c, s, Go(s, t))
    ensures var s' := Apply(c, s, Go(s, t));
            && Inv(c, s') && s'.mutex == Held(t) && t in s'.threads
            && s'.threads[t] == (if k < 4 then Recovering(s.threads[t].op, k + 1) else Deciding(s.threads[t].op))
            && (k == 4 ==> s'.next == |s'.sent|)
  {
    hide Holds, Bytes, Blocks, Intact, Inv;
    assert InBounds(c, s.mem, s.threads[t]);
    ApplyInv(c, s, Go(s, t));
    assert s.mutex == Held(t) by {
      assert Exclusive(s) by {
        InvParts(c, s);
      }
    }
  }

  lemma InvParts(c: Config, s: State)
    requires Valid(c) && Inv(c, s)
    ensures Exclusive(s) && Log(s) && MemoryMeaning(c, s)
  {
  }

  /**
   After the death of a holder the queue survives exactly when the first thread to get the mutex is one
   that locks it: that thread empties the queue and marks the mutex consistent. A thread that comes out
   of a wait reports an error and unlocks instead, which leaves the mutex unusable.
   */
  lemma OwnerDeathOutcome(c: Config, s: State, t: Thread)
    requires Valid(c) && Inv(c, s) && s.mutex.OwnerDead? && t in s.threads
    requires s.threads[t].Locking? || s.threads[t].Waiting?
    ensures s.threads[t].Waiting? ==> Runs(c, s, t, 2).Some? && Runs(c, s, t, 2).value.mutex == Unusable
    ensures s.threads[t].Locking? ==>
              && Runs(c, s, t, 6).Some?
              && var s' := Runs(c, s, t, 6).value;
                 && s'.mutex == Held(t) && t in s'.threads && s'.threads[t] == Deciding(s.threads[t].op)
                 && s'.next == |s'.sent| && Intact(c, s'.mem, [])
  {
    hide Holds, Bytes, Blocks, Intact, Inv;
    var s1 := Apply(c, s, Go(s, t));
    ApplyInv(c, s, Go(s, t));
    if s.threads[t].Waiting? {
      assert Runs(c, s1, t, 1) == Some(Apply(c, s1, Go(s1, t)));
    } else {
      RecoveryFinishes(c, s1, t, 0);
      var s' := Runs(c, s, t, 6).value;
      InvParts(c, s');
      assert s'.sent[s'.next..] == [];
    }
  }

  lemma {:induction false} RecoveryFinishes(c: Config, s: State, t: Thread, k: nat)
    requires Valid(c) && k <= 4 && Inv(c, s)
    requires t in s.threads && s.threads[t].Recovering? && s.threads[t].done == k
    ensures Runs(c, s, t, 5 - k).Some?
    ensures var s' := Runs(c, s, t, 5 - k).value;
            && Inv(c, s') && s'.mutex == Held(t) && t in s'.threads
            && s'.threads[t] == Deciding(s.threads[t].op) && s'.next == |s'.sent|
    decreases 4 - k
  {
    hide Inv, Apply, Enabled;
    RecoveryAdvances(c, s, t, k);
    if k < 4 {
      RecoveryFinishes(c, Apply(c, s, Go(s, t)), t, k + 1);
    } else {
      assert Runs(c, Apply(c, s, Go(s, t)), t, 0) == Some(Apply(c, s, Go(s, t)));
    }
  }

  /** One more action that is enabled makes a longer run. */
  lemma Extended(c: Config, threads: set<Thread>, run: seq<Action>, a: Action)
    requires Valid(c) && Legal(c, threads, run) && Enabled(c, After(c, threads, run), a)
    ensures Legal(c, threads, run + [a]) && After(c, threads, run + [a]) == Apply(c, After(c, threads, run), a)
  {
    hide Enabled, Apply;
    assert (run + [a])[..|run|] == run;
  }

  lemma UnusableStays(c: Config, s: State, a: Action)
    requires Valid(c) && Inv(c, s) && s.mutex.Unusable? && Enabled(c, s, a)
    ensures var s' := Apply(c, s, a); s'.mutex.Unusable? && s'.delivered == s.delivered && s'.sent == s.sent
  {
  }

  /** From the moment the mutex is unusable it stays so to the end of the run, and nothing is sent or delivered any more. */
  lemma {:induction false} UnusableForGood(c: Config, threads: set<Thread>, run: seq<Action>, k: nat)
    requires Valid(c) && Legal(c, threads, run) && k <= |run|
    ensures Legal(c, threads, run[..k])
    ensures var s, s' := After(c, threads, run[..k]), After(c, threads, run);
            s.mutex.Unusable? ==> s'.mutex.Unusable? && s'.delivered == s.delivered && s'.sent == s.sent
    decreases |run|
  {
    hide Enabled, Apply, Inv;
    if k < |run| {
      var before := run[..|run| - 1];
      UnusableForGood(c, threads, before, k);
      assert before[..k] == run[..k];
      if After(c, threads, run[..k]).mutex.Unusable? {
        RunInv(c, threads, before);
        UnusableStays(c, After(c, threads, before), run[|run| - 1]);
      }
    } else {
      assert run[..k] == run;
    }
  }
}
