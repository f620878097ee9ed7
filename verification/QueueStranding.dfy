/**
 How threads come to wait un-notified for what is already there, at runs of QueueProtocol: a reader or a writer dies
 between changing the size and signalling; a wait that ends while the owner of the mutex is dead makes the queue unusable,
 after which nobody is notified any more; and of two waiting readers only one is signalled.
 */
module QueueStranding {
  import opened Wrappers
  import opened MessageRing
  import opened MessageQueue
  import opened QueueProtocol
  import opened QueueSafety
  import opened QueueProgress
  import opened QueueWakeups

  /** Nothing changed but the place of one thread, the mutex and the memory. */
  ghost predicate Aside(s: State, s': State, t: Thread)
  {
    && s'.stopped == s.stopped && s'.threads.Keys == s.threads.Keys && Adds(s, s', [], [])
    && forall u :: u in s.threads && u != t ==> s'.threads[u] == s.threads[u]
  }

  lemma AsideThen(s: State, s1: State, s': State, t: Thread)
    requires Aside(s, s1, t) && Aside(s1, s', t)
    ensures Aside(s, s', t)
  {
  }

  lemma RunsZero(c: Config, s: State, t: Thread)
    requires c.blockSize > 0
    ensures Runs(c, s, t, 0) == Some(s)
  {
  }

  /** Steps that wake nobody. */
  predicate Quiet(pc: Pc)
  {
    || pc.Deciding? || pc.StoringLength? || pc.Copying? || pc.AdvancingPut? || pc.Growing?
    || pc.Reading? || pc.AdvancingGet? || pc.Shrinking?
  }

  lemma QuietStep(c: Config, s: State, t: Thread)
    requires Valid(c) && Inv(c, s) && s.mutex == Held(t) && t in s.threads && Quiet(s.threads[t])
    ensures InBounds(c, s.mem, s.threads[t]) && Enabled(c, s, Go(s, t))
    ensures var s' := Apply(c, s, Go(s, t));
      var pc' := StepPc(c, s.mem, s.threads[t], t.process in s.stopped, Go(s, t).choice);
      && Inv(c, s') && Aside(s, s', t) && t in s'.threads && s'.threads[t] == pc'
      && s'.mutex == (if InCritical(pc') then Held(t) else Free) && s'.mem == StepMemory(c, s.mem, s.threads[t])
  {
    hide Inv, Enabled, Apply, CriticalStep, InBounds, StepPc, StepMemory;
    HolderGoes(c, s, t);
    HolderStepEffect(c, s, t);
  }

  /** Two steps lead from `lock_queue` to what the operation decides. */
  lemma Decides(c: Config, s: State, t: Thread)
    requires Valid(c) && Inv(c, s) && s.mutex == Free && t in s.threads && s.threads[t].Locking?
    ensures Runs(c, s, t, 2).Some?
    ensures var s', pc' := Runs(c, s, t, 2).value, Decide(c, s.mem, s.threads[t].op, t.process in s.stopped);
      && Inv(c, s') && Aside(s, s', t) && t in s'.threads && s'.threads[t] == pc'
      && s'.mutex == (if InCritical(pc') then Held(t) else Free) && s'.mem == s.mem
  {
    hide Inv, Decide, CriticalStep;
    Locks(c, s, t);
    var s1 := Apply(c, s, Go(s, t));
    assert Aside(s, s1, t);
    hide Enabled, Apply;
    QuietStep(c, s1, t);
    TwoMore(c, s, t, 0);
  }

  lemma SizeStays(c: Config, m: Memory, pc: Pc)
    requires c.blockSize > 0 && InBounds(c, m, pc) && (pc.StoringLength? || pc.Copying? || pc.AdvancingPut?)
    ensures StepMemory(c, m, pc).size == m.size
  {
  }

  lemma SizeGrows(c: Config, m: Memory, pc: Pc)
    requires c.blockSize > 0 && InBounds(c, m, pc) && pc.Growing?
    ensures StepMemory(c, m, pc).size == m.size + Blocks(c.blockSize, |pc.msg|)
  {
  }

  lemma CopiesEmpty(c: Config, s: State, t: Thread)
    requires Valid(c) && Inv(c, s) && s.mutex == Held(t) && t in s.threads && s.threads[t] == StoringLength([])
    ensures Enabled(c, s, Go(s, t))
    ensures var s1 := Apply(c, s, Go(s, t));
      && Enabled(c, s1, Go(s1, t))
      && var s' := Apply(c, s1, Go(s1, t));
         && Inv(c, s') && Aside(s, s', t) && t in s'.threads && s'.threads[t] == AdvancingPut([])
         && s'.mutex == Held(t) && s'.mem.size == s.mem.size
  {
    hide Inv, Enabled, Apply, StepMemory, Aside, InBounds;
    QuietStep(c, s, t);
    var s1 := Apply(c, s, Go(s, t));
    SizeStays(c, s.mem, s.threads[t]);
    QuietStep(c, s1, t);
    SizeStays(c, s1.mem, s1.threads[t]);
    AsideThen(s, s1, Apply(c, s1, Go(s1, t)), t);
  }

  lemma PublishesEmpty(c: Config, s: State, t: Thread)
    requires Valid(c) && Inv(c, s) && s.mutex == Held(t) && t in s.threads && s.threads[t] == AdvancingPut([])
    ensures Runs(c, s, t, 2).Some?
    ensures var s' := Runs(c, s, t, 2).value;
      && Inv(c, s') && Aside(s, s', t) && t in s'.threads && s'.threads[t] == SignallingReader([], s.mem.size == 0)
      && s'.mutex == Held(t) && s'.mem.size == s.mem.size + Blocks(c.blockSize, 0) && s'.mem.size > 0
  {
    hide Inv, Enabled, Apply, StepMemory, Aside, InBounds, Runs, Blocks;
    QuietStep(c, s, t);
    var s1 := Apply(c, s, Go(s, t));
    SizeStays(c, s.mem, s.threads[t]);
    QuietStep(c, s1, t);
    SizeGrows(c, s1.mem, s1.threads[t]);
    var s' := Apply(c, s1, Go(s1, t));
    AsideThen(s, s1, s', t);
    RunsZero(c, s', t);
    TwoMore(c, s, t, 0);
    SomethingThere(c, s', t);
  }

  lemma SomethingThere(c: Config, s: State, t: Thread)
    requires Valid(c) && Inv(c, s) && s.mutex == Held(t) && t in s.threads && s.threads[t].SignallingReader?
    ensures s.mem.size > 0
  {
    hide Holds, Bytes, Blocks;
    EmptyIffNoBlocks(s.mem.image, c.blockSize, Bytes(s.mem.get, c.blockSize), s.mem.size, Pending(s) + [s.threads[t].msg]);
  }

  /** From the decision to send an empty message to the signal it owes. */
  lemma StoresEmpty(c: Config, s: State, t: Thread)
    requires Valid(c) && Inv(c, s) && s.mutex == Held(t) && t in s.threads && s.threads[t] == StoringLength([])
    ensures Runs(c, s, t, 4).Some?
    ensures var s' := Runs(c, s, t, 4).value;
      && Inv(c, s') && Aside(s, s', t) && t in s'.threads && s'.threads[t] == SignallingReader([], s.mem.size == 0)
      && s'.mutex == Held(t) && s'.mem.size == s.mem.size + Blocks(c.blockSize, 0) && s'.mem.size > 0
  {
    hide Inv, Enabled, Apply, Aside, Runs, Blocks;
    CopiesEmpty(c, s, t);
    var s1 := Apply(c, s, Go(s, t));
    var s2 := Apply(c, s1, Go(s1, t));
    PublishesEmpty(c, s2, t);
    TwoMore(c, s, t, 2);
    AsideThen(s, s2, Runs(c, s2, t, 2).value, t);
  }

  /** From the decision to receive to the broadcast it owes, when the first message queued is empty. */
  lemma TakesEmpty(c: Config, s: State, t: Thread)
    requires Valid(c) && Inv(c, s) && s.mutex == Held(t) && t in s.threads && s.threads[t] == Reading
    requires s.next < |s.sent| && s.sent[s.next] == []
    ensures Runs(c, s, t, 3).Some?
    ensures var s' := Runs(c, s, t, 3).value;
      && Inv(c, s') && Aside(s, s', t) && t in s'.threads && s'.threads[t] == SignallingWriters([]) && s'.mutex == Held(t)
  {
    hide Inv, Enabled, Apply, Bytes, Blocks, Aside, InBounds, HeadChunk, ReadSize, StepMemory;
    ReadsEmpty(c, s, t);
    QuietStep(c, s, t);
    var s1 := Apply(c, s, Go(s, t));
    QuietStep(c, s1, t);
    var s2 := Apply(c, s1, Go(s1, t));
    AsideThen(s, s1, s2, t);
    QuietStep(c, s2, t);
    var s3 := Apply(c, s2, Go(s2, t));
    AsideThen(s, s2, s3, t);
    assert Runs(c, s2, t, 1) == Runs(c, s3, t, 0);
    TwoMore(c, s, t, 1);
  }

  lemma ReadsEmpty(c: Config, s: State, t: Thread)
    requires Valid(c) && Inv(c, s) && s.mutex == Held(t) && t in s.threads && s.threads[t] == Reading
    requires s.next < |s.sent| && s.sent[s.next] == []
    ensures InBounds(c, s.mem, Reading) && HeadChunk(c, s.mem) == [] && ReadSize(s.mem.image, Bytes(s.mem.get, c.blockSize)) == 0
  {
    hide Holds, Bytes, Blocks, Intact, HeadChunk;
    FirstMessage(c, s.mem, Pending(s));
  }

  lemma NothingLeft(c: Config, s: State, t: Thread)
    requires Valid(c) && Inv(c, s) && s.mutex == Held(t) && t in s.threads && s.threads[t].SignallingWriters?
    requires s.next + 1 == |s.sent|
    ensures s.mem.size == 0
  {
    hide Holds, Bytes, Blocks;
    assert Pending(s)[1..] == [];
    EmptyIffNoBlocks(s.mem.image, c.blockSize, Bytes(s.mem.get, c.blockSize), s.mem.size, []);
  }

  // ---------------------------------------------------------------------------------------------
  // Runs made of these steps
  // ---------------------------------------------------------------------------------------------

  lemma Begun(c: Config, threads: set<Thread>, run: seq<Action>, t: Thread, op: Operation) returns (longer: seq<Action>)
    requires Valid(c) && Legal(c, threads, run)
    requires Enabled(c, After(c, threads, run), Begin(t, op))
    ensures longer == run + [Begin(t, op)] && Legal(c, threads, longer)
    ensures var s, s' := After(c, threads, run), After(c, threads, longer);
      && Inv(c, s') && s' == s.(threads := s'.threads) && Aside(s, s', t) && t in s'.threads && s'.threads[t] == Locking(op)
  {
    hide Inv;
    longer := run + [Begin(t, op)];
    Extended(c, threads, run, Begin(t, op));
    RunInv(c, threads, longer);
    hide Legal, After;
  }

  lemma {:induction false} RunOn(c: Config, threads: set<Thread>, run: seq<Action>, t: Thread, n: nat) returns (longer: seq<Action>)
    requires Valid(c) && Legal(c, threads, run) && Runs(c, After(c, threads, run), t, n).Some?
    ensures run <= longer && Legal(c, threads, longer)
    ensures Runs(c, After(c, threads, run), t, n) == Some(After(c, threads, longer))
    decreases n
  {
    hide Enabled, Apply, Legal, After;
    longer := run;
    if n > 0 {
      var go := Go(After(c, threads, run), t);
      Extended(c, threads, run, go);
      longer := RunOn(c, threads, run + [go], t, n - 1);
    }
  }

  /** A thread takes an operation as far as its decision. */
  lemma Starts(c: Config, threads: set<Thread>, run: seq<Action>, t: Thread, op: Operation) returns (longer: seq<Action>)
    requires Valid(c) && Legal(c, threads, run)
    requires After(c, threads, run).mutex == Free && Enabled(c, After(c, threads, run), Begin(t, op))
    ensures run <= longer && Legal(c, threads, longer)
    ensures var s, s', pc' := After(c, threads, run), After(c, threads, longer),
                              Decide(c, After(c, threads, run).mem, op, t.process in After(c, threads, run).stopped);
      && Inv(c, s') && Aside(s, s', t) && t in s'.threads && s'.threads[t] == pc'
      && s'.mutex == (if InCritical(pc') then Held(t) else Free) && s'.mem == s.mem
  {
    hide Inv, Legal, After, Enabled, Decide, Runs;
    var begun := Begun(c, threads, run, t, op);
    Decides(c, After(c, threads, begun), t);
    longer := RunOn(c, threads, begun, t, 2);
  }

  // ---------------------------------------------------------------------------------------------
  // Owners that die
  // ---------------------------------------------------------------------------------------------

  /** A thread waits un-notified although what it waits for has come. */
  ghost predicate Stranded(c: Config, s: State, t: Thread)
    requires c.blockSize > 0
  {
    && WaitsUnnotified(s, t)
    && match s.threads[t].op
       case Send(msg, _) => Blocks(c.blockSize, |msg|) <= c.capacity - s.mem.size
       case Receive(_) => s.mem.size > 0
       case _ => false
  }

  /** A ring of one block, and three threads of which `r` belongs to a process of its own. */
  ghost predicate OneBlock(c: Config, w: Thread, x: Thread, r: Thread)
  {
    && Valid(c) && c.capacity == 1 && SizeFits(c.blockSize, 0)
    && w != x && r.process != w.process && r.process != x.process
  }

  /** All threads are idle, the mutex is free, and the ring is full with one empty message. */
  ghost predicate Full(c: Config, s: State, threads: set<Thread>)
    requires c.blockSize > 0
  {
    && Inv(c, s) && s.mutex == Free && s.stopped == {} && s.next == 0 && s.sent == [[]] && s.mem.size == 1
    && s.threads.Keys == threads && forall t :: t in s.threads ==> s.threads[t] == Idle
  }

  lemma BecomesFull(c: Config, w: Thread, x: Thread, r: Thread) returns (run: seq<Action>)
    requires OneBlock(c, w, x, r)
    ensures Legal(c, {w, x, r}, run) && Full(c, After(c, {w, x, r}, run), {w, x, r})
  {
    hide Inv, Bytes, Runs;
    var threads := {w, x, r};
    var op := Send([], true);
    var begun := Begun(c, threads, [], w, op);
    var s := After(c, threads, begun);
    hide Legal, After;
    SendCompletes(c, s, w);
    run := RunOn(c, threads, begun, w, 8);
    var s' := After(c, threads, run);
    OneMessage(c, s');
    assert s'.sent == [[]];
  }

  lemma OneMessage(c: Config, s: State)
    requires Valid(c) && Inv(c, s) && s.mutex == Free && c.capacity == 1 && s.next < |s.sent|
    ensures s.mem.size == 1
  {
    hide Holds, Bytes;
    EmptyIffNoBlocks(s.mem.image, c.blockSize, Bytes(s.mem.get, c.blockSize), s.mem.size, Pending(s));
  }

  /** One step of a death: the owner and its process are gone, and everybody else is where they were. */
  lemma Dies(c: Config, threads: set<Thread>, run: seq<Action>, t: Thread)
    requires Valid(c) && Legal(c, threads, run) && After(c, threads, run).mutex == Held(t)
    ensures Legal(c, threads, run + [Die(t.process)])
    ensures var s, s' := After(c, threads, run), After(c, threads, run + [Die(t.process)]);
      && s'.mutex == OwnerDead && s'.mem == s.mem && s'.threads.Keys == s.threads.Keys
      && forall u :: u in s.threads && u.process != t.process ==> s'.threads[u] == s.threads[u]
  {
    Extended(c, threads, run, Die(t.process));
    hide Legal, After;
  }

  /** A writer whose message has no room comes to wait. */
  lemma ComesToWait(c: Config, threads: set<Thread>, run: seq<Action>, t: Thread) returns (longer: seq<Action>)
    requires Valid(c) && c.capacity == 1 && SizeFits(c.blockSize, 0) && Legal(c, threads, run)
    requires var s := After(c, threads, run);
      s.mutex == Free && s.stopped == {} && s.mem.size == 1 && t in s.threads && s.threads[t] == Idle
    ensures run <= longer && Legal(c, threads, longer)
    ensures var s, s' := After(c, threads, run), After(c, threads, longer);
      && Aside(s, s', t) && t in s'.threads && s'.threads[t] == Waiting(Send([], true), false)
      && s'.mutex == Free && s'.mem == s.mem && Inv(c, s')
  {
    hide Inv, Legal, After, Aside;
    longer := Starts(c, threads, run, t, Send([], true));
  }

  /**
   A reader that dies after it has shrunk the queue and before it has told the writers leaves them waiting un-notified
   although there is room.
   */
  lemma DeadReaderStrandsWriters(c: Config, w: Thread, x: Thread, r: Thread) returns (run: seq<Action>)
    requires OneBlock(c, w, x, r)
    ensures Legal(c, {w, x, r}, run)
    ensures var s := After(c, {w, x, r}, run);
      s.mutex == OwnerDead && Stranded(c, s, w) && Stranded(c, s, x) && s.threads[w].op.Send? && s.threads[x].op.Send?
  {
    hide Inv, Legal, After, Bytes, Runs;
    var threads := {w, x, r};
    run := BecomesFull(c, w, x, r);
    run := ComesToWait(c, threads, run, w);
    run := ComesToWait(c, threads, run, x);
    run := Starts(c, threads, run, r, Receive(true));
    TakesEmpty(c, After(c, threads, run), r);
    run := RunOn(c, threads, run, r, 3);
    NothingLeft(c, After(c, threads, run), r);
    Dies(c, threads, run, r);
    run := run + [Die(r.process)];
  }

  /** Out of a wait with a dead owner: two steps make the mutex unusable, and whoever waits goes on waiting. */
  lemma WaitEndsFirst(c: Config, threads: set<Thread>, run: seq<Action>, t: Thread) returns (longer: seq<Action>)
    requires Valid(c) && Legal(c, threads, run)
    requires var s := After(c, threads, run); s.mutex == OwnerDead && t in s.threads && s.threads[t].Waiting?
    ensures run <= longer && |longer| == |run| + 2 && Legal(c, threads, longer)
    ensures var s, s' := After(c, threads, run), After(c, threads, longer);
      && s'.mutex == Unusable && s'.mem == s.mem && s'.threads.Keys == s.threads.Keys
      && forall u :: u in s.threads && u != t ==> s'.threads[u] == s.threads[u]
  {
    hide Legal, After, Bytes, Blocks;
    var a := Step(t, Choice(false, {}));
    Extended(c, threads, run, a);
    Extended(c, threads, run + [a], a);
    longer := run + [a] + [a];
  }

  /** When another writer's wait ends first, the queue is unusable and the writer stays as it is. */
  lemma DeadReaderEndsQueue(c: Config, w: Thread, x: Thread, r: Thread) returns (run: seq<Action>)
    requires OneBlock(c, w, x, r)
    ensures Legal(c, {w, x, r}, run)
    ensures var s := After(c, {w, x, r}, run); s.mutex == Unusable && Stranded(c, s, w) && s.threads[w].op.Send?
  {
    hide Legal, After;
    run := DeadReaderStrandsWriters(c, w, x, r);
    run := WaitEndsFirst(c, {w, x, r}, run, x);
  }

  /** A reader waits on an empty queue, and a writer has stored a message and is about to signal. */
  lemma WriterAtSignal(c: Config, w: Thread, r: Thread) returns (run: seq<Action>)
    requires Valid(c) && SizeFits(c.blockSize, 0) && w != r
    ensures Legal(c, {w, r}, run)
    ensures var s := After(c, {w, r}, run);
      && Inv(c, s) && s.mutex == Held(w) && s.mem.size > 0
      && s.threads == map[w := SignallingReader([], true), r := Waiting(Receive(true), false)]
  {
    hide Inv, Bytes, Runs;
    var threads := {w, r};
    run := Starts(c, threads, [], r, Receive(true));
    hide Legal, After;
    run := Starts(c, threads, run, w, Send([], true));
    StoresEmpty(c, After(c, threads, run), w);
    run := RunOn(c, threads, run, w, 4);
  }

  /** A writer that dies after it has stored into an empty queue and before it has signalled leaves a reader waiting. */
  lemma DeadWriterStrandsReader(c: Config, w: Thread, r: Thread) returns (run: seq<Action>)
    requires Valid(c) && SizeFits(c.blockSize, 0) && w.process != r.process
    ensures Legal(c, {w, r}, run)
    ensures var s := After(c, {w, r}, run); s.mutex == OwnerDead && Stranded(c, s, r) && s.threads[r].op.Receive?
  {
    hide Inv, Legal, After;
    run := WriterAtSignal(c, w, r);
    Dies(c, {w, r}, run, w);
    run := run + [Die(w.process)];
  }

  /** A step that signals, with the readers it is chosen to wake. */
  lemma SignalStep(c: Config, s: State, t: Thread, woken: set<Thread>)
    requires Valid(c) && Inv(c, s) && s.mutex == Held(t) && t in s.threads
    requires s.threads[t].SignallingReader? && SignalReaches(s.threads, s.threads[t], woken)
    ensures Enabled(c, s, Step(t, Choice(false, woken)))
    ensures var s' := Apply(c, s, Step(t, Choice(false, woken)));
      && Inv(c, s') && s'.mutex == Held(t) && s'.mem == s.mem && s'.stopped == s.stopped && Adds(s, s', [], [])
      && t in s'.threads && s'.threads[t] == Sent(s.threads[t].msg) && s'.threads.Keys == s.threads.Keys
      && forall u :: u in s.threads && u != t ==>
           s'.threads[u] == if Wakes(s.threads[t], s.threads[u], u in woken) then s.threads[u].(notified := true) else s.threads[u]
  {
    hide Inv, SignalReaches;
    ApplyInv(c, s, Step(t, Choice(false, woken)));
  }

  /**
   An owner dies after it has signalled a reader and before it has unlocked. The reader comes out of its wait, as it was told
   to, and is the first to get the mutex; the queue is unusable.
   */
  lemma WaitEndsFirstEndsQueue(c: Config, w: Thread, r: Thread) returns (run: seq<Action>)
    requires Valid(c) && SizeFits(c.blockSize, 0) && w.process != r.process
    ensures |run| >= 2 && Legal(c, {w, r}, run) && Legal(c, {w, r}, run[..|run| - 2])
    ensures var s := After(c, {w, r}, run[..|run| - 2]);
      s.mutex == OwnerDead && r in s.threads && s.threads[r] == Waiting(Receive(true), true)
    ensures After(c, {w, r}, run).mutex == Unusable
  {
    hide Inv, Legal, After, Apply, Enabled;
    var before := WriterAtSignal(c, w, r);
    SignalStep(c, After(c, {w, r}, before), w, {r});
    Extended(c, {w, r}, before, Step(w, Choice(false, {r})));
    before := before + [Step(w, Choice(false, {r}))];
    Dies(c, {w, r}, before, w);
    before := before + [Die(w.process)];
    run := WaitEndsFirst(c, {w, r}, before, r);
    assert run[..|run| - 2] == before;
  }

  // ---------------------------------------------------------------------------------------------
  // Two readers
  // ---------------------------------------------------------------------------------------------

  /** The last step of an operation that has sent or received. */
  lemma LastStep(c: Config, s: State, t: Thread)
    requires Valid(c) && Inv(c, s) && s.mutex == Held(t) && t in s.threads && (s.threads[t].Sent? || s.threads[t].Received?)
    ensures Enabled(c, s, Go(s, t))
    ensures var s' := Apply(c, s, Go(s, t));
      && Inv(c, s') && s'.mutex == Free && s'.mem == s.mem && s'.stopped == s.stopped && s'.threads == s.threads[t := Idle]
      && s'.sent == s.sent + (if s.threads[t].Sent? then [s.threads[t].msg] else [])
      && s'.next == s.next + (if s.threads[t].Sent? then 0 else 1)
  {
    hide Inv;
    ApplyInv(c, s, Go(s, t));
    assert NotifyAll(s.threads, s.threads[t], s.threads.Keys) == s.threads;
  }

  /** A run goes on with a send of an empty message, up to the signal it owes. */
  lemma Stores(c: Config, threads: set<Thread>, run: seq<Action>, t: Thread) returns (longer: seq<Action>)
    requires Valid(c) && SizeFits(c.blockSize, 0) && Legal(c, threads, run)
    requires var s := After(c, threads, run);
      s.mutex == Free && s.stopped == {} && t in s.threads && s.threads[t] == Idle && s.mem.size < c.capacity
    ensures run <= longer && Legal(c, threads, longer)
    ensures var s, s' := After(c, threads, run), After(c, threads, longer);
      && Inv(c, s') && Aside(s, s', t) && s'.mutex == Held(t) && t in s'.threads
      && s'.threads[t] == SignallingReader([], s.mem.size == 0) && s'.mem.size == s.mem.size + 1
  {
    hide Inv, Legal, After, Runs, Bytes, Aside;
    longer := Starts(c, threads, run, t, Send([], true));
    var s1 := After(c, threads, longer);
    StoresEmpty(c, s1, t);
    longer := RunOn(c, threads, longer, t, 4);
    AsideThen(After(c, threads, run), s1, After(c, threads, longer), t);
  }

  /** The whole send; it wakes the chosen readers if the queue was empty. */
  lemma Sends(c: Config, threads: set<Thread>, run: seq<Action>, t: Thread, woken: set<Thread>) returns (longer: seq<Action>)
    requires Valid(c) && SizeFits(c.blockSize, 0) && Legal(c, threads, run)
    requires var s := After(c, threads, run);
      && s.mutex == Free && s.stopped == {} && t in s.threads && s.threads[t] == Idle && s.mem.size < c.capacity
      && (exists r :: r in woken && r != t && WaitsUnnotified(s, r) && s.threads[r].op.Receive?)
    ensures run <= longer && Legal(c, threads, longer)
    ensures var s, s' := After(c, threads, run), After(c, threads, longer);
      && Inv(c, s') && s'.mutex == Free && s'.stopped == {} && s'.threads.Keys == s.threads.Keys && s'.threads[t] == Idle
      && s'.mem.size == s.mem.size + 1 && s'.sent == s.sent + [[]] && s'.next == s.next
      && forall u :: u in s.threads && u != t ==>
           s'.threads[u] == if s.mem.size == 0 && s.threads[u].Waiting? && s.threads[u].op.Receive? && u in woken
                            then s.threads[u].(notified := true) else s.threads[u]
  {
    hide Inv, Legal, After, Enabled, Apply;
    longer := Stores(c, threads, run, t);
    SignalStep(c, After(c, threads, longer), t, woken);
    Extended(c, threads, longer, Step(t, Choice(false, woken)));
    longer := longer + [Step(t, Choice(false, woken))];
    var s2 := After(c, threads, longer);
    LastStep(c, s2, t);
    Extended(c, threads, longer, Go(s2, t));
    longer := longer + [Go(s2, t)];
  }

  /** A waiting reader gets the free mutex and goes on to read. */
  lemma WaitEnds(c: Config, s: State, t: Thread)
    requires Valid(c) && Inv(c, s) && s.mutex == Free && s.mem.size > 0 && t.process !in s.stopped
    requires t in s.threads && s.threads[t].Waiting? && s.threads[t].op.Receive?
    ensures Runs(c, s, t, 2).Some?
    ensures var s' := Runs(c, s, t, 2).value;
      && Inv(c, s') && Aside(s, s', t) && s'.mutex == Held(t) && t in s'.threads && s'.threads[t] == Reading
  {
    hide Inv, CriticalStep;
    var s1 := Apply(c, s, Go(s, t));
    ApplyInv(c, s, Go(s, t));
    assert Aside(s, s1, t);
    hide Enabled, Apply;
    QuietStep(c, s1, t);
    TwoMore(c, s, t, 0);
  }

  /** Two more steps end the receive; they wake writers only. */
  lemma ReceiveEnds(c: Config, s: State, t: Thread)
    requires Valid(c) && Inv(c, s) && s.mutex == Held(t) && t in s.threads && s.threads[t].SignallingWriters?
    ensures Runs(c, s, t, 2).Some?
    ensures var s' := Runs(c, s, t, 2).value;
      && Inv(c, s') && s'.mutex == Free && s'.threads.Keys == s.threads.Keys && s'.threads[t] == Idle
      && s'.sent == s.sent && s'.next == s.next + 1
      && (forall u :: u in s.threads && s.threads[u] == Idle ==> s'.threads[u] == Idle)
      && (forall u :: u in s.threads && u != t && s.threads[u].Waiting? && s.threads[u].op.Receive? ==> s'.threads[u] == s.threads[u])
  {
    hide Inv, Enabled, Apply, CriticalStep, InBounds, StepMemory;
    HolderGoes(c, s, t);
    HolderStepEffect(c, s, t);
    var s1 := Apply(c, s, Go(s, t));
    LastStep(c, s1, t);
    TwoMore(c, s, t, 0);
  }

  /** A waiting reader receives an empty message. */
  lemma Receives(c: Config, threads: set<Thread>, run: seq<Action>, t: Thread) returns (longer: seq<Action>)
    requires Valid(c) && Legal(c, threads, run)
    requires var s := After(c, threads, run);
      && Inv(c, s) && s.mutex == Free && s.mem.size > 0 && t.process !in s.stopped && s.next < |s.sent| && s.sent[s.next] == []
      && t in s.threads && s.threads[t].Waiting? && s.threads[t].op.Receive?
    ensures run <= longer && Legal(c, threads, longer)
    ensures var s, s' := After(c, threads, run), After(c, threads, longer);
      && Inv(c, s') && s'.mutex == Free && s'.threads.Keys == s.threads.Keys && s'.threads[t] == Idle
      && s'.sent == s.sent && s'.next == s.next + 1
      && (forall u :: u in s.threads && s.threads[u] == Idle ==> s'.threads[u] == Idle)
      && (forall u :: u in s.threads && u != t && s.threads[u].Waiting? && s.threads[u].op.Receive? ==> s'.threads[u] == s.threads[u])
  {
    hide Inv, Legal, After, Runs;
    WaitEnds(c, After(c, threads, run), t);
    longer := RunOn(c, threads, run, t, 2);
    TakesEmpty(c, After(c, threads, longer), t);
    longer := RunOn(c, threads, longer, t, 3);
    ReceiveEnds(c, After(c, threads, longer), t);
    longer := RunOn(c, threads, longer, t, 2);
  }

  lemma MessageTakesSpace(c: Config, s: State)
    requires Valid(c) && Inv(c, s) && s.mutex == Free && s.next < |s.sent|
    ensures s.mem.size > 0
  {
    hide Holds, Bytes;
    EmptyIffNoBlocks(s.mem.image, c.blockSize, Bytes(s.mem.get, c.blockSize), s.mem.size, Pending(s));
  }

  lemma BothWait(c: Config, w: Thread, r: Thread, x: Thread) returns (run: seq<Action>)
    requires Valid(c) && w != r && w != x && r != x
    ensures Legal(c, {w, r, x}, run)
    ensures var s := After(c, {w, r, x}, run);
      && Inv(c, s) && s.mutex == Free && s.stopped == {} && s.mem.size == 0 && s.sent == [] && s.next == 0
      && s.threads == map[w := Idle, r := Waiting(Receive(true), false), x := Waiting(Receive(true), false)]
  {
    hide Inv;
    var threads := {w, r, x};
    run := Starts(c, threads, [], r, Receive(true));
    hide Legal, After;
    run := Starts(c, threads, run, x, Receive(true));
  }

  /**
   With two readers waiting, two sends signal only one of them. When that one has received and gone, nobody has died, the
   mutex is free and a message is there, and the other reader waits un-notified.
   */
  lemma SecondReaderIsStranded(c: Config, w: Thread, r: Thread, x: Thread) returns (run: seq<Action>)
    requires Valid(c) && c.capacity >= 2 && SizeFits(c.blockSize, 0) && w != r && w != x && r != x
    ensures Legal(c, {w, r, x}, run)
    ensures var s := After(c, {w, r, x}, run);
      && s.mutex == Free && s.threads.Keys == {w, r, x} && s.threads[w] == Idle && s.threads[r] == Idle
      && Stranded(c, s, x) && s.threads[x].op.Receive?
  {
    hide Inv, Legal, After;
    var threads := {w, r, x};
    run := BothWait(c, w, r, x);
    assert WaitsUnnotified(After(c, threads, run), r);
    run := Sends(c, threads, run, w, {r});
    assert WaitsUnnotified(After(c, threads, run), x);
    run := Sends(c, threads, run, w, {x});
    assert After(c, threads, run).sent == [[], []];
    run := Receives(c, threads, run, r);
    MessageTakesSpace(c, After(c, threads, run));
  }

  /** With an unusable mutex nobody is notified: a waiting thread stays as it is unless its own wait ends or its process dies. */
  lemma NobodyNotifies(c: Config, s: State, a: Action, u: Thread)
    requires Valid(c) && Inv(c, s) && s.mutex.Unusable? && Enabled(c, s, a) && u in s.threads && s.threads[u].Waiting?
    requires !(a.Step? && a.t == u) && !(a.Die? && a.process == u.process)
    ensures var s' := Apply(c, s, a); u in s'.threads && s'.threads[u] == s.threads[u]
  {
    hide Holds, Bytes, Blocks;
  }

  /** The same for the rest of any run. */
  lemma {:induction false} StrandedForGood(c: Config, threads: set<Thread>, run: seq<Action>, k: nat, u: Thread)
    requires Valid(c) && Legal(c, threads, run) && k <= |run|
    requires forall i :: k <= i < |run| ==> !(run[i].Step? && run[i].t == u) && !(run[i].Die? && run[i].process == u.process)
    ensures Legal(c, threads, run[..k])
    ensures var s, s' := After(c, threads, run[..k]), After(c, threads, run);
      s.mutex.Unusable? && WaitsUnnotified(s, u) ==> s'.mutex.Unusable? && WaitsUnnotified(s', u) && s'.threads[u] == s.threads[u]
    decreases |run|
  {
    hide Inv, Enabled, Apply;
    if k < |run| {
      var before := run[..|run| - 1];
      StrandedForGood(c, threads, before, k, u);
      assert before[..k] == run[..k];
      var s := After(c, threads, run[..k]);
      if s.mutex.Unusable? && WaitsUnnotified(s, u) {
        RunInv(c, threads, before);
        UnusableStays(c, After(c, threads, before), run[|run| - 1]);
        NobodyNotifies(c, After(c, threads, before), run[|run| - 1], u);
      }
    } else {
      assert run[..k] == run;
    }
  }
}
