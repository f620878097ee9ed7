/**
 The two-lock queue (src/threadsafe_queue.cpp) and its wrapper (include/boost/log/detail/threadsafe_queue.hpp),
 taken as single pointer steps of any number of threads. Nodes are addresses; a freed address may be
 allocated again at once, by any thread.
 */
module TwoLockQueue {
  import opened Wrappers

  type Addr = nat

  /** Elements are moved around, never inspected; a number names one. */
  type Value = nat

  /** Where a thread is. `Linking`, `MovingTail` and `LeavingTail` hold the tail lock. */
  datatype Pc =
    | Idle
    | Clearing(p: Addr)                       // push: about to reset the link of the new node
    | LockingTail(p: Addr)
    | Linking(p: Addr)
    | MovingTail(p: Addr)
    | LeavingTail
    | LockingHead
    | ReadingNext                             // try_pop: this and the next two hold the head lock
    | MovingHead(next: Addr)
    | LeavingHead(popped: Option<(Addr, Addr)>)
    | Taking(free: Addr, with: Addr)          // wrapper: about to move the value out of `with`
    | Freeing(free: Addr, with: Addr)
    | Destroying(with: Addr)                  // wrapper: about to destroy what is left of the value

  predicate HasTailLock(pc: Pc)
  {
    pc.Linking? || pc.MovingTail? || pc.LeavingTail?
  }

  predicate HasHeadLock(pc: Pc)
  {
    pc.ReadingNext? || pc.MovingHead? || pc.LeavingHead?
  }

  /** Who may use an allocated node: the queue, which holds it as the `i`-th node linked, or one thread. */
  datatype Owner = InQueue(i: nat) | By(t: nat)

  datatype Node = Node(next: Option<Addr>, value: Value)

  /**
   `nodes` is the memory of the allocated nodes. The history: `linked` are the nodes in the order they
   were linked, starting with the initial dummy, `vals` their values, and `linkers` the threads that linked them, without
   one for the dummy; `first` is the position of the
   node at the head; `popped` and `released` are the nodes handed out, as value and to be freed; `taken`
   are the values moved out and `destroyed` those destroyed; `owner` records who owns each allocated node.
   */
  datatype Queue = Queue(
    nodes: map<Addr, Node>, head: Addr, tail: Addr, headLock: Option<nat>, tailLock: Option<nat>,
    linked: seq<Addr>, vals: seq<Value>, linkers: seq<nat>, first: nat,
    popped: seq<Addr>, released: seq<Addr>, taken: seq<Value>, destroyed: seq<Value>, owner: map<Addr, Owner>)

  datatype State = State(q: Queue, threads: map<nat, Pc>)

  datatype Action =
    | BeginPush(t: nat, p: Addr, v: Value)
    | BeginPop(t: nat)
    | Step(t: nat)

  function Init(threads: set<nat>, dummy: Addr, v: Value): (s: State)
  {
    State(Queue(map[dummy := Node(None, v)], dummy, dummy, None, None, [dummy], [v], [], 0, [], [], [], [], map[dummy := InQueue(0)]),
          map t | t in threads :: Idle)
  }

  predicate Enabled(s: State, a: Action)
  {
    && a.t in s.threads
    && match a
       case BeginPush(t, p, v) => s.threads[t].Idle? && p !in s.q.nodes
       case BeginPop(t) => s.threads[t].Idle?
       case Step(t) => CanStep(s.q, s.threads[t])
  }

  predicate CanStep(q: Queue, pc: Pc)
  {
    && !pc.Idle?
    && (pc.LockingTail? ==> q.tailLock.None?)
    && (pc.LockingHead? ==> q.headLock.None?)
  }

  /** The node a step dereferences, if any. */
  function Dereferenced(q: Queue, pc: Pc): (p: Option<Addr>)
  {
    match pc
    case Clearing(p) => Some(p)
    case Linking(_) => Some(q.tail)
    case ReadingNext => Some(q.head)
    case Taking(_, with) => Some(with)
    case Freeing(free, _) => Some(free)
    case Destroying(with) => Some(with)
    case _ => None
  }

  /** Reading a link; a freed node has no defined link. */
  function NextOf(q: Queue, p: Addr): (n: Option<Addr>)
  {
    if p in q.nodes then q.nodes[p].next else None
  }

  function ValueOf(q: Queue, p: Addr): (v: Value)
  {
    if p in q.nodes then q.nodes[p].value else 0
  }

  function WithNext(q: Queue, p: Addr, n: Option<Addr>): (q': Queue)
  {
    if p in q.nodes then q.(nodes := q.nodes[p := q.nodes[p].(next := n)]) else q
  }

  function StepPc(q: Queue, pc: Pc): (pc': Pc)
  {
    match pc
    case Idle => Idle
    case Clearing(p) => LockingTail(p)
    case LockingTail(p) => Linking(p)
    case Linking(p) => MovingTail(p)
    case MovingTail(_) => LeavingTail
    case LeavingTail => Idle
    case LockingHead => ReadingNext
    case ReadingNext =>
      (match NextOf(q, q.head)
       case Some(n) => MovingHead(n)
       case None => LeavingHead(None))
    case MovingHead(n) => LeavingHead(Some((q.head, n)))
    case LeavingHead(r) => if r.Some? then Taking(r.value.0, r.value.1) else Idle
    case Taking(free, with) => Freeing(free, with)
    case Freeing(_, with) => Destroying(with)
    case Destroying(_) => Idle
  }

  function StepQueue(q: Queue, t: nat, pc: Pc): (q': Queue)
  {
    match pc
    case Clearing(p) => WithNext(q, p, None)
    case LockingTail(_) => q.(tailLock := Some(t))
    case Linking(p) =>
      WithNext(q, q.tail, Some(p)).(
        linked := q.linked + [p], linkers := q.linkers + [t], owner := q.owner[p := InQueue(|q.linked|)],
        vals := q.vals + [ValueOf(q, p)])
    case MovingTail(p) => q.(tail := p)
    case LeavingTail => q.(tailLock := None)
    case LockingHead => q.(headLock := Some(t))
    case MovingHead(n) =>
      q.(head := n, first := q.first + 1, popped := q.popped + [n], released := q.released + [q.head],
         owner := q.owner[q.head := By(t)])
    case LeavingHead(_) => q.(headLock := None)
    case Taking(_, with) => q.(taken := q.taken + [ValueOf(q, with)])
    case Destroying(with) => q.(destroyed := q.destroyed + [ValueOf(q, with)])
    case Freeing(free, _) => q.(nodes := q.nodes - {free}, owner := q.owner - {free})
    case _ => q
  }

  function Apply(s: State, a: Action): (s': State)
    requires Enabled(s, a)
  {
    match a
    case BeginPush(t, p, v) =>
      State(s.q.(nodes := s.q.nodes[p := Node(None, v)], owner := s.q.owner[p := By(t)]), s.threads[t := Clearing(p)])
    case BeginPop(t) => s.(threads := s.threads[t := LockingHead])
    case Step(t) => State(StepQueue(s.q, t, s.threads[t]), s.threads[t := StepPc(s.q, s.threads[t])])
  }

  predicate Legal(init: State, run: seq<Action>)
    decreases |run|, 0
  {
    run == [] || (Legal(init, run[..|run| - 1]) && Enabled(After(init, run[..|run| - 1]), run[|run| - 1]))
  }

  function After(init: State, run: seq<Action>): (s: State)
    requires Legal(init, run)
    decreases |run|, 1
  {
    if run == [] then init else Apply(After(init, run[..|run| - 1]), run[|run| - 1])
  }

  // ---------------------------------------------------------------------------------------------
  // Invariant
  // ---------------------------------------------------------------------------------------------

  /** The node only this thread may use: its node still to be linked, or the node it was given to free. */
  function Private(pc: Pc): (a: Option<Addr>)
  {
    match pc
    case Clearing(p) => Some(p)
    case LockingTail(p) => Some(p)
    case Linking(p) => Some(p)
    case LeavingHead(r) => if r.Some? then Some(r.value.0) else None
    case Taking(free, _) => Some(free)
    case Freeing(free, _) => Some(free)
    case _ => None
  }

  /** The queue proper: from the head on, one chain of distinct owned nodes that hold the values pushed. */
  ghost predicate QueueOk(q: Queue)
  {
    && q.first < |q.linked| == |q.vals|
    && q.owner.Keys == q.nodes.Keys
    && q.head == q.linked[q.first]
    && (forall i :: q.first <= i < |q.linked| ==> InPlace(q, i))
    && (forall a :: a in q.owner && q.owner[a].InQueue? ==>
          q.first <= q.owner[a].i < |q.linked| && q.linked[q.owner[a].i] == a)
    && q.popped == q.linked[1..q.first + 1]
    && q.released == q.linked[..q.first]
    && (q.tailLock.None? ==> q.tail == Last(q))
  }

  /** The `i`-th node linked is in memory, linked to its successor, with its value. */
  ghost predicate InPlace(q: Queue, i: nat)
    requires i < |q.linked| == |q.vals|
  {
    && q.linked[i] in q.nodes && q.linked[i] in q.owner && q.owner[q.linked[i]] == InQueue(i)
    && q.nodes[q.linked[i]] == Node(if i + 1 < |q.linked| then Some(q.linked[i + 1]) else None, q.vals[i])
  }

  function Last(q: Queue): (a: Addr)
    requires q.linked != []
  {
    q.linked[|q.linked| - 1]
  }

  /** What is known of a thread from where it is. */
  ghost predicate ThreadOk(q: Queue, t: nat, pc: Pc)
    requires QueueOk(q)
  {
    && (HasTailLock(pc) <==> q.tailLock == Some(t))
    && (HasHeadLock(pc) <==> q.headLock == Some(t))
    && (Private(pc).Some? ==> Private(pc).value in q.owner && q.owner[Private(pc).value] == By(t))
    && (pc.LockingTail? || pc.Linking? ==> NextOf(q, pc.p) == None)
    && (pc.Linking? || pc.LeavingTail? ==> q.tail == Last(q))
    && (pc.MovingTail? ==> pc.p == Last(q))
    && (pc.MovingHead? ==> q.first + 1 < |q.linked| && pc.next == q.linked[q.first + 1])
  }

  ghost predicate Inv(s: State)
  {
    && QueueOk(s.q)
    && (forall t :: t in s.threads ==> ThreadOk(s.q, t, s.threads[t]))
    && (forall a :: a in s.q.owner && s.q.owner[a].By? ==>
          s.q.owner[a].t in s.threads && Private(s.threads[s.q.owner[a].t]) == Some(a))
  }

  lemma InitInv(threads: set<nat>, dummy: Addr, v: Value)
    ensures Inv(Init(threads, dummy, v))
  {
  }

  /** Linking a node appends it to the chain: the tail is still in the queue, even if the head has reached it. */
  lemma LinkingKeeps(q: Queue, t: nat, p: Addr)
    requires QueueOk(q) && ThreadOk(q, t, Linking(p))
    ensures QueueOk(StepQueue(q, t, Linking(p)))
  {
    var q' := StepQueue(q, t, Linking(p));
    assert InPlace(q, |q.linked| - 1);
    forall i | q'.first <= i < |q'.linked|
      ensures InPlace(q', i)
    {
      if i < |q.linked| {
        assert InPlace(q, i);
      }
    }
  }

  /** Moving the head hands the old head out and leaves the rest of the chain. */
  lemma MovingHeadKeeps(q: Queue, t: nat, n: Addr)
    requires QueueOk(q) && ThreadOk(q, t, MovingHead(n))
    ensures QueueOk(StepQueue(q, t, MovingHead(n)))
  {
    var q' := StepQueue(q, t, MovingHead(n));
    assert InPlace(q, q.first);
    forall i | q'.first <= i < |q'.linked|
      ensures InPlace(q', i)
    {
      assert InPlace(q, i);
    }
    assert q.linked[1..q.first + 2] == q.linked[1..q.first + 1] + [n];
    assert q.linked[..q.first + 1] == q.linked[..q.first] + [q.head];
    forall a | a in q'.owner && q'.owner[a].InQueue?
      ensures q'.first <= q'.owner[a].i
    {
      assert a != q.head && q.linked[q.owner[a].i] == a;
    }
  }

  /** Writing or freeing a node of one's own does not touch the chain. */
  lemma PrivateKeeps(q: Queue, t: nat, pc: Pc)
    requires QueueOk(q) && ThreadOk(q, t, pc) && (pc.Clearing? || pc.Freeing?)
    ensures QueueOk(StepQueue(q, t, pc))
  {
    var q' := StepQueue(q, t, pc);
    forall i | q'.first <= i < |q'.linked|
      ensures InPlace(q', i)
    {
      assert InPlace(q, i);
    }
  }

  lemma OtherKeeps(q: Queue, t: nat, pc: Pc)
    requires QueueOk(q) && ThreadOk(q, t, pc) && CanStep(q, pc)
    requires !(pc.Linking? || pc.MovingHead? || pc.Clearing? || pc.Freeing?)
    ensures QueueOk(StepQueue(q, t, pc))
  {
    var q' := StepQueue(q, t, pc);
    forall i | q'.first <= i < |q'.linked|
      ensures InPlace(q', i)
    {
      assert InPlace(q, i);
    }
  }

  /** A step keeps the queue proper. */
  lemma StepQueueOk(q: Queue, t: nat, pc: Pc)
    requires QueueOk(q) && ThreadOk(q, t, pc) && CanStep(q, pc)
    ensures QueueOk(StepQueue(q, t, pc))
  {
    hide QueueOk, StepQueue, ThreadOk;
    if pc.Linking? {
      LinkingKeeps(q, t, pc.p);
    } else if pc.MovingHead? {
      MovingHeadKeeps(q, t, pc.next);
    } else if pc.Clearing? || pc.Freeing? {
      PrivateKeeps(q, t, pc);
    } else {
      OtherKeeps(q, t, pc);
    }
  }

  /** A step establishes what is known of the thread at its next place. */
  lemma StepThreadOk(q: Queue, t: nat, pc: Pc)
    requires QueueOk(q) && ThreadOk(q, t, pc) && CanStep(q, pc) && QueueOk(StepQueue(q, t, pc))
    ensures ThreadOk(StepQueue(q, t, pc), t, StepPc(q, pc))
  {
    assert InPlace(q, q.first);
  }

  /** Private nodes of two threads are different nodes. */
  lemma PrivateDiffer(q: Queue, t: nat, pc: Pc, u: nat, other: Pc)
    requires QueueOk(q) && ThreadOk(q, t, pc) && ThreadOk(q, u, other) && t != u
    ensures Private(pc).Some? && Private(other).Some? ==> Private(pc) != Private(other)
    ensures Private(other).Some? ==> Private(other).value != q.head && Private(other).value != Last(q)
  {
    assert InPlace(q, q.first) && InPlace(q, |q.linked| - 1);
  }

  lemma OtherAfterLink(q: Queue, t: nat, pc: Pc, u: nat, other: Pc)
    requires QueueOk(q) && ThreadOk(q, t, pc) && CanStep(q, pc) && QueueOk(StepQueue(q, t, pc))
    requires t != u && ThreadOk(q, u, other)
    requires pc.Linking? || pc.Clearing?
    ensures ThreadOk(StepQueue(q, t, pc), u, other)
  {
    PrivateDiffer(q, t, pc, u, other);
    assert q.first < |q.linked|;
    hide QueueOk, HasHeadLock;
  }

  lemma OtherAfterPop(q: Queue, t: nat, pc: Pc, u: nat, other: Pc)
    requires QueueOk(q) && ThreadOk(q, t, pc) && CanStep(q, pc) && QueueOk(StepQueue(q, t, pc))
    requires t != u && ThreadOk(q, u, other)
    requires pc.MovingHead? || pc.Freeing?
    ensures ThreadOk(StepQueue(q, t, pc), u, other)
  {
    PrivateDiffer(q, t, pc, u, other);
    assert q.first < |q.linked|;
    hide QueueOk, HasTailLock, WithNext;
  }

  lemma OtherAfterLock(q: Queue, t: nat, pc: Pc, u: nat, other: Pc)
    requires QueueOk(q) && ThreadOk(q, t, pc) && CanStep(q, pc) && QueueOk(StepQueue(q, t, pc))
    requires t != u && ThreadOk(q, u, other)
    requires !(pc.Linking? || pc.Clearing? || pc.MovingHead? || pc.Freeing?)
    ensures ThreadOk(StepQueue(q, t, pc), u, other)
  {
    PrivateDiffer(q, t, pc, u, other);
    assert q.first < |q.linked|;
    hide QueueOk, WithNext, NextOf;
  }

  /** A step of one thread keeps what is known of another. */
  lemma StepOtherOk(q: Queue, t: nat, pc: Pc, u: nat, other: Pc)
    requires QueueOk(q) && ThreadOk(q, t, pc) && CanStep(q, pc) && QueueOk(StepQueue(q, t, pc))
    requires t != u && ThreadOk(q, u, other)
    ensures ThreadOk(StepQueue(q, t, pc), u, other)
  {
    hide QueueOk, ThreadOk, StepQueue;
    if pc.Linking? || pc.Clearing? {
      OtherAfterLink(q, t, pc, u, other);
    } else if pc.MovingHead? || pc.Freeing? {
      OtherAfterPop(q, t, pc, u, other);
    } else {
      OtherAfterLock(q, t, pc, u, other);
    }
  }

  /** Allocating a node for a push, at any address that is free. */
  lemma BeginPushOk(q: Queue, t: nat, p: Addr, v: Value)
    requires QueueOk(q) && p !in q.nodes
    ensures QueueOk(q.(nodes := q.nodes[p := Node(None, v)], owner := q.owner[p := By(t)]))
  {
    var q' := q.(nodes := q.nodes[p := Node(None, v)], owner := q.owner[p := By(t)]);
    forall i | q'.first <= i < |q'.linked|
      ensures InPlace(q', i)
    {
      assert InPlace(q, i);
    }
  }

  /** Private nodes, before and after a step, and what happens to the owners. */
  lemma OwnersAfter(q: Queue, t: nat, pc: Pc, a: Addr)
    requires QueueOk(q) && ThreadOk(q, t, pc) && CanStep(q, pc)
    requires a in StepQueue(q, t, pc).owner && StepQueue(q, t, pc).owner[a].By?
    ensures if Private(StepPc(q, pc)) == Some(a) then StepQueue(q, t, pc).owner[a] == By(t)
            else a in q.owner && q.owner[a] == StepQueue(q, t, pc).owner[a] && Private(pc) != Some(a)
  {
    assert InPlace(q, q.first);
  }

  lemma StepInv(s: State, t: nat)
    requires Inv(s) && t in s.threads && CanStep(s.q, s.threads[t])
    ensures Inv(Apply(s, Step(t)))
  {
    var pc := s.threads[t];
    var s' := Apply(s, Step(t));
    StepQueueOk(s.q, t, pc);
    StepThreadOk(s.q, t, pc);
    hide QueueOk, StepQueue, StepPc, ThreadOk, Private;
    forall u | u in s'.threads
      ensures ThreadOk(s'.q, u, s'.threads[u])
    {
      if u != t {
        StepOtherOk(s.q, t, pc, u, s.threads[u]);
      }
    }
    forall a | a in s'.q.owner && s'.q.owner[a].By?
      ensures s'.q.owner[a].t in s'.threads && Private(s'.threads[s'.q.owner[a].t]) == Some(a)
    {
      OwnersAfter(s.q, t, pc, a);
    }
  }

  lemma BeginInv(s: State, a: Action)
    requires Inv(s) && Enabled(s, a) && !a.Step?
    ensures Inv(Apply(s, a))
  {
    var s' := Apply(s, a);
    match a
    case BeginPop(t) =>
      assert ThreadOk(s.q, t, s.threads[t]);
    case BeginPush(t, p, v) =>
      BeginPushOk(s.q, t, p, v);
      forall u | u in s'.threads
        ensures ThreadOk(s'.q, u, s'.threads[u])
      {
        assert ThreadOk(s.q, u, s.threads[u]);
        BeginPushOther(s.q, t, p, v, u, s.threads[u]);
      }
  }

  lemma BeginPushOther(q: Queue, t: nat, p: Addr, v: Value, u: nat, other: Pc)
    requires QueueOk(q) && p !in q.nodes && ThreadOk(q, u, other)
    requires QueueOk(q.(nodes := q.nodes[p := Node(None, v)], owner := q.owner[p := By(t)]))
    ensures ThreadOk(q.(nodes := q.nodes[p := Node(None, v)], owner := q.owner[p := By(t)]), u, other)
  {
  }

  lemma ApplyInv(s: State, a: Action)
    requires Inv(s) && Enabled(s, a)
    ensures Inv(Apply(s, a))
  {
    hide Inv;
    if a.Step? {
      StepInv(s, a.t);
    } else {
      BeginInv(s, a);
    }
  }

  lemma {:induction false} RunInv(threads: set<nat>, dummy: Addr, v: Value, run: seq<Action>)
    requires Legal(Init(threads, dummy, v), run)
    ensures Inv(After(Init(threads, dummy, v), run))
    decreases |run|
  {
    hide Inv, Apply, Enabled, Init;
    var init := Init(threads, dummy, v);
    if run == [] {
      InitInv(threads, dummy, v);
    } else {
      var before := run[..|run| - 1];
      RunInv(threads, dummy, v, before);
      ApplyInv(After(init, before), run[|run| - 1]);
    }
  }

  /**
   In every interleaving nodes come out in the order they were linked: once as value, and with the next pop once to be
   freed; the initial dummy is only freed.
   */
  lemma PopsFollowLinks(threads: set<nat>, dummy: Addr, v: Value, run: seq<Action>)
    requires Legal(Init(threads, dummy, v), run)
    ensures var q := After(Init(threads, dummy, v), run).q;
            && q.first < |q.linked|
            && q.popped == q.linked[1..q.first + 1]
            && q.released == q.linked[..q.first]
  {
    hide Legal, After;
    RunInv(threads, dummy, v, run);
  }

  lemma DereferencedIsAllocated(q: Queue, t: nat, pc: Pc)
    requires QueueOk(q) && ThreadOk(q, t, pc) && !pc.Taking? && !pc.Destroying? && Dereferenced(q, pc).Some?
    ensures Dereferenced(q, pc).value in q.nodes
  {
    assert InPlace(q, q.first) && InPlace(q, |q.linked| - 1);
  }

  /** In every interleaving, no step of the queue dereferences a node that was freed, not even through the tail. */
  lemma NoFreedNodeIsDereferenced(threads: set<nat>, dummy: Addr, v: Value, run: seq<Action>, t: nat)
    requires Legal(Init(threads, dummy, v), run)
    ensures var s := After(Init(threads, dummy, v), run);
            t in s.threads && !s.threads[t].Taking? && !s.threads[t].Destroying? && Dereferenced(s.q, s.threads[t]).Some? ==>
              Dereferenced(s.q, s.threads[t]).value in s.q.nodes
  {
    hide Legal, After, Dereferenced, QueueOk, ThreadOk;
    RunInv(threads, dummy, v, run);
    var s := After(Init(threads, dummy, v), run);
    if t in s.threads && !s.threads[t].Taking? && !s.threads[t].Destroying? && Dereferenced(s.q, s.threads[t]).Some? {
      DereferencedIsAllocated(s.q, t, s.threads[t]);
    }
  }

  lemma AllocatedIsOwned(s: State, a: Addr)
    requires Inv(s) && a in s.q.nodes
    ensures a in s.q.linked[s.q.first..] || exists t :: t in s.threads && Private(s.threads[t]) == Some(a)
  {
    hide Private, InPlace, ThreadOk;
    match s.q.owner[a]
    case InQueue(i) => assert s.q.linked[s.q.first..][i - s.q.first] == a;
    case By(t) =>
  }

  lemma QueuedIsNotPrivate(s: State, i: nat, t: nat)
    requires Inv(s) && s.q.first <= i < |s.q.linked| && t in s.threads
    ensures s.q.linked[i] in s.q.nodes && Private(s.threads[t]) != Some(s.q.linked[i])
  {
    hide Private;
    assert InPlace(s.q, i);
  }

  /** In every interleaving, each allocated node is in the chain or with exactly one thread: nothing leaks, nothing is freed twice. */
  lemma EveryNodeHasOneOwner(threads: set<nat>, dummy: Addr, v: Value, run: seq<Action>, a: Addr, t: nat, u: nat)
    requires Legal(Init(threads, dummy, v), run)
    ensures var s := After(Init(threads, dummy, v), run);
            && s.q.first < |s.q.linked|
            && (a in s.q.nodes ==> a in s.q.linked[s.q.first..] || exists t :: t in s.threads && Private(s.threads[t]) == Some(a))
            && (a in s.q.linked[s.q.first..] && t in s.threads ==> a in s.q.nodes && Private(s.threads[t]) != Some(a))
            && (t in s.threads && u in s.threads && t != u && Private(s.threads[t]).Some? ==>
                  Private(s.threads[t]) != Private(s.threads[u]))
  {
    hide Legal, After, Private, ThreadOk, InPlace;
    RunInv(threads, dummy, v, run);
    var s := After(Init(threads, dummy, v), run);
    if a in s.q.nodes {
      AllocatedIsOwned(s, a);
    }
    if a in s.q.linked[s.q.first..] && t in s.threads {
      var k :| 0 <= k < |s.q.linked[s.q.first..]| && s.q.linked[s.q.first..][k] == a;
      QueuedIsNotPrivate(s, s.q.first + k, t);
    }
    if t in s.threads && u in s.threads && t != u {
      PrivateDiffer(s.q, t, s.threads[t], u, s.threads[u]);
    }
  }

  lemma HeadIsTailWhenEmpty(q: Queue)
    requires QueueOk(q) && q.tailLock.None?
    ensures q.head == q.tail <==> |q.linked| == |q.popped| + 1
  {
    assert InPlace(q, q.first) && InPlace(q, |q.linked| - 1);
  }

  /** With no push under way, head and tail meet exactly when nothing is queued: the check before the last node is reset. */
  lemma QuiescentEmptiness(threads: set<nat>, dummy: Addr, v: Value, run: seq<Action>)
    requires Legal(Init(threads, dummy, v), run)
    requires After(Init(threads, dummy, v), run).q.tailLock.None?
    ensures var q := After(Init(threads, dummy, v), run).q;
            q.head == q.tail <==> |q.linked| == |q.popped| + 1
  {
    hide Legal, After, QueueOk, ThreadOk;
    RunInv(threads, dummy, v, run);
    HeadIsTailWhenEmpty(After(Init(threads, dummy, v), run).q);
  }

  // ---------------------------------------------------------------------------------------------
  // The values are those pushed
  // ---------------------------------------------------------------------------------------------

  /** The values a thread began to push, in order. */
  function PushedBy(run: seq<Action>, t: nat): (vs: seq<Value>)
  {
    if run == [] then []
    else
      var front, a := PushedBy(run[..|run| - 1], t), run[|run| - 1];
      if a.BeginPush? && a.t == t then front + [a.v] else front
  }

  /** The values of the nodes a thread has linked, in the order of linking. */
  function LinkedBy(vals: seq<Value>, linkers: seq<nat>, t: nat): (vs: seq<Value>)
    requires |vals| == |linkers| + 1
    decreases |linkers|
  {
    if linkers == [] then []
    else
      var n := |linkers|;
      LinkedBy(vals[..n], linkers[..n - 1], t) + if linkers[n - 1] == t then [vals[n]] else []
  }

  /** The value of the node a thread has still to link, if any. */
  function InHand(s: State, t: nat): (vs: seq<Value>)
  {
    var pc := PcOf(s, t);
    if pc.Clearing? || pc.LockingTail? || pc.Linking? then [ValueOf(s.q, pc.p)] else []
  }

  function PcOf(s: State, t: nat): (pc: Pc)
  {
    if t in s.threads then s.threads[t] else Idle
  }

  lemma LinkedByGrows(vals: seq<Value>, linkers: seq<nat>, t: nat, v: Value, u: nat)
    requires |vals| == |linkers| + 1
    ensures LinkedBy(vals + [v], linkers + [u], t) == LinkedBy(vals, linkers, t) + if u == t then [v] else []
  {
    assert (vals + [v])[..|linkers| + 1] == vals && (linkers + [u])[..|linkers|] == linkers;
  }

  /** The step of a thread does not change the value another one has in hand. */
  lemma OtherInHand(s: State, u: nat, t: nat)
    requires Inv(s) && u in s.threads && CanStep(s.q, s.threads[u]) && t != u
    ensures InHand(Apply(s, Step(u)), t) == InHand(s, t)
  {
    hide QueueOk, InPlace;
    if t in s.threads {
      assert ThreadOk(s.q, u, s.threads[u]) && ThreadOk(s.q, t, s.threads[t]);
      PrivateDiffer(s.q, u, s.threads[u], t, s.threads[t]);
    }
  }

  lemma OwnStep(s: State, t: nat)
    requires Inv(s) && t in s.threads && CanStep(s.q, s.threads[t]) && !s.threads[t].Linking?
    ensures InHand(Apply(s, Step(t)), t) == InHand(s, t)
    ensures Apply(s, Step(t)).q.vals == s.q.vals && Apply(s, Step(t)).q.linkers == s.q.linkers
  {
    hide QueueOk, InPlace, ThreadOk;
  }

  /** What a thread has linked and has in hand. */
  function PushesOf(s: State, t: nat): (vs: seq<Value>)
    requires |s.q.vals| == |s.q.linkers| + 1
  {
    LinkedBy(s.q.vals, s.q.linkers, t) + InHand(s, t)
  }

  lemma StepKeepsValues(s: State, u: nat, t: nat)
    requires Inv(s) && Enabled(s, Step(u)) && |s.q.vals| == |s.q.linkers| + 1
    ensures var s' := Apply(s, Step(u)); |s'.q.vals| == |s'.q.linkers| + 1 && PushesOf(s', t) == PushesOf(s, t)
  {
    hide Inv, Apply, LinkedBy, InHand;
    if s.threads[u].Linking? {
      LinkingValue(s, u);
      LinkedByGrows(s.q.vals, s.q.linkers, t, ValueOf(s.q, s.threads[u].p), u);
    } else {
      OwnStep(s, u);
    }
    if u != t {
      OtherInHand(s, u, t);
    }
  }

  lemma BeginKeepsValues(s: State, a: Action, t: nat)
    requires Inv(s) && Enabled(s, a) && !a.Step? && |s.q.vals| == |s.q.linkers| + 1
    ensures var s' := Apply(s, a);
      && s'.q.vals == s.q.vals && s'.q.linkers == s.q.linkers
      && InHand(s', t) == InHand(s, t) + (if a.BeginPush? && a.t == t then [a.v] else [])
  {
    hide InPlace;
    if t in s.threads {
      assert ThreadOk(s.q, t, s.threads[t]);
    }
    hide Inv, ThreadOk;
  }

  /** What a thread has linked and has in hand grows by exactly what it begins to push. */
  lemma ActionKeepsValues(s: State, a: Action, t: nat)
    requires Inv(s) && Enabled(s, a) && |s.q.vals| == |s.q.linkers| + 1
    ensures var s' := Apply(s, a);
      && |s'.q.vals| == |s'.q.linkers| + 1
      && PushesOf(s', t) == PushesOf(s, t) + (if a.BeginPush? && a.t == t then [a.v] else [])
  {
    hide Inv, Apply, LinkedBy, InHand;
    if a.Step? {
      StepKeepsValues(s, a.t, t);
    } else {
      BeginKeepsValues(s, a, t);
    }
  }

  lemma LinkingValue(s: State, u: nat)
    requires u in s.threads && s.threads[u].Linking?
    ensures var s' := Apply(s, Step(u));
      && s'.q.vals == s.q.vals + [ValueOf(s.q, s.threads[u].p)] && s'.q.linkers == s.q.linkers + [u]
      && InHand(s, u) == [ValueOf(s.q, s.threads[u].p)] && InHand(s', u) == []
  {
  }

  /**
   In every interleaving the values linked are those pushed: for each thread, the values of the nodes it has linked, in
   the order of linking, and the one it has in hand are the values it began to push, in order.
   */
  lemma {:induction false} ValuesArePushed(threads: set<nat>, dummy: Addr, v: Value, run: seq<Action>, t: nat)
    requires Legal(Init(threads, dummy, v), run)
    ensures var s := After(Init(threads, dummy, v), run);
            && |s.q.linked| == |s.q.vals| == |s.q.linkers| + 1
            && LinkedBy(s.q.vals, s.q.linkers, t) + InHand(s, t) == PushedBy(run, t)
    decreases |run|
  {
    RunInv(threads, dummy, v, run);
    if run != [] {
      hide Inv, Apply, Enabled, Init, LinkedBy, InHand;
      var before := run[..|run| - 1];
      ValuesArePushed(threads, dummy, v, before, t);
      RunInv(threads, dummy, v, before);
      ActionKeepsValues(After(Init(threads, dummy, v), before), run[|run| - 1], t);
      assert Inv(After(Init(threads, dummy, v), run));
      AsManyValues(After(Init(threads, dummy, v), run));
    }
  }

  lemma AsManyValues(s: State)
    requires Inv(s)
    ensures |s.q.linked| == |s.q.vals|
  {
  }

  // ---------------------------------------------------------------------------------------------
  // The value, with pops in turn and with pops that overlap
  // ---------------------------------------------------------------------------------------------

  predicate Pops(pc: Pc)
  {
    pc.LockingHead? || HasHeadLock(pc) || pc.Taking? || pc.Freeing? || pc.Destroying?
  }

  /** The node whose value a consumer has popped and not yet done with. */
  function Unfinished(pc: Pc): (p: Option<Addr>)
  {
    match pc
    case LeavingHead(r) => if r.Some? then Some(r.value.1) else None
    case Taking(_, with) => Some(with)
    case Freeing(_, with) => Some(with)
    case Destroying(with) => Some(with)
    case _ => None
  }

  /** The values taken and destroyed lag one behind the nodes popped while the consumer is at work on one. */
  ghost predicate ConsumerOk(q: Queue, pc: Pc)
    requires q.first < |q.linked| == |q.vals|
  {
    if Unfinished(pc).None? then q.taken == q.destroyed == q.vals[1..q.first + 1]
    else
      && q.first > 0 && Unfinished(pc).value == q.head && q.destroyed == q.vals[1..q.first]
      && q.taken == if pc.Freeing? || pc.Destroying? then q.vals[1..q.first + 1] else q.vals[1..q.first]
  }

  /** Nobody pops but `c`, who may be idle. */
  ghost predicate OneConsumer(s: State, c: nat)
  {
    && (forall t :: t in s.threads && Pops(s.threads[t]) ==> t == c)
    && QueueOk(s.q) && ConsumerOk(s.q, PcOf(s, c))
  }

  ghost predicate NobodyPops(s: State)
  {
    forall t :: t in s.threads ==> !Pops(s.threads[t])
  }

  /** Pops do not overlap: a thread begins one only when no thread is in the middle of one. */
  ghost predicate PopsInTurn(init: State, run: seq<Action>)
    requires Legal(init, run)
    decreases |run|
  {
    run == [] ||
    (var before := run[..|run| - 1];
     PopsInTurn(init, before) && (run[|run| - 1].BeginPop? ==> NobodyPops(After(init, before))))
  }

  lemma TakenGrows(vals: seq<Value>, k: nat)
    requires 0 < k < |vals|
    ensures vals[1..k + 1] == vals[1..k] + [vals[k]]
  {
  }

  lemma ConsumerStep(q: Queue, t: nat, pc: Pc)
    requires QueueOk(q) && ThreadOk(q, t, pc) && CanStep(q, pc) && ConsumerOk(q, pc) && QueueOk(StepQueue(q, t, pc))
    ensures ConsumerOk(StepQueue(q, t, pc), StepPc(q, pc))
  {
    if Unfinished(pc).Some? {
      assert InPlace(q, q.first);
      TakenGrows(q.vals, q.first);
      hide QueueOk, ThreadOk, InPlace;
    } else if Pops(pc) {
      hide QueueOk, InPlace, NextOf;
    } else {
      hide QueueOk, ThreadOk, ConsumerOk, StepQueue;
      ProducerStep(q, t, pc, Idle);
      FinishedIsFinished(q, pc);
    }
  }

  lemma FinishedIsFinished(q: Queue, pc: Pc)
    requires q.first < |q.linked| == |q.vals| && !Pops(pc)
    ensures ConsumerOk(q, pc) <==> ConsumerOk(q, Idle)
    ensures Unfinished(StepPc(q, pc)).None? && !Pops(StepPc(q, pc))
  {
  }

  lemma ProducerStep(q: Queue, t: nat, pc: Pc, other: Pc)
    requires QueueOk(q) && ThreadOk(q, t, pc) && CanStep(q, pc) && !Pops(pc) && QueueOk(StepQueue(q, t, pc))
    requires ConsumerOk(q, other)
    ensures ConsumerOk(StepQueue(q, t, pc), other)
  {
    var q' := StepQueue(q, t, pc);
    assert q.first < |q.linked| == |q.vals| && |q'.linked| == |q'.vals|;
    hide QueueOk, ThreadOk, InPlace, StepQueue;
    ProducerFrame(q, t, pc);
    SameFront(q.vals, q'.vals, q.first);
  }

  lemma SameFront(a: seq<Value>, b: seq<Value>, k: nat)
    requires a <= b && k < |a|
    ensures b[1..k + 1] == a[1..k + 1] && (k > 0 ==> b[1..k] == a[1..k])
  {
  }

  lemma ProducerFrame(q: Queue, t: nat, pc: Pc)
    requires !Pops(pc)
    ensures var q' := StepQueue(q, t, pc);
            && q'.first == q.first && q'.head == q.head && q'.taken == q.taken && q'.destroyed == q.destroyed
            && |q.linked| <= |q'.linked| && q.vals <= q'.vals
  {
  }

  /** The consumer after a step of any thread. */
  lemma ConsumerAfter(q: Queue, t: nat, pc: Pc, c: nat, consumer: Pc)
    requires QueueOk(q) && ThreadOk(q, t, pc) && CanStep(q, pc) && QueueOk(StepQueue(q, t, pc))
    requires ConsumerOk(q, consumer) && (Pops(pc) ==> t == c) && (t == c ==> pc == consumer)
    ensures ConsumerOk(StepQueue(q, t, pc), if t == c then StepPc(q, pc) else consumer)
    ensures Pops(StepPc(q, pc)) ==> Pops(pc)
  {
    hide QueueOk, ThreadOk, ConsumerOk, StepQueue;
    if t == c {
      ConsumerStep(q, t, pc);
    } else {
      ProducerStep(q, t, pc, consumer);
    }
  }

  lemma StepConsumer(s: State, t: nat, c: nat)
    requires Inv(s) && t in s.threads && CanStep(s.q, s.threads[t]) && OneConsumer(s, c)
    requires QueueOk(StepQueue(s.q, t, s.threads[t]))
    ensures OneConsumer(Apply(s, Step(t)), c)
  {
    assert ThreadOk(s.q, t, s.threads[t]);
    hide Inv, QueueOk, ThreadOk, StepQueue, ConsumerOk, StepPc;
    ConsumerAfter(s.q, t, s.threads[t], c, PcOf(s, c));
  }

  lemma BeginConsumer(s: State, a: Action, c: nat)
    requires Inv(s) && Enabled(s, a) && !a.Step? && OneConsumer(s, c) && (a.BeginPop? ==> a.t == c)
    ensures OneConsumer(Apply(s, a), c)
  {
    if a.BeginPush? {
      BeginPushOk(s.q, a.t, a.p, a.v);
    }
    hide Inv, QueueOk, ThreadOk, InPlace;
  }

  lemma ApplyConsumer(s: State, a: Action, c: nat)
    requires Inv(s) && Enabled(s, a) && OneConsumer(s, c) && (a.BeginPop? ==> a.t == c)
    ensures OneConsumer(Apply(s, a), c)
  {
    if a.Step? {
      StepQueueOk(s.q, a.t, s.threads[a.t]);
      hide QueueOk, ThreadOk, ConsumerOk, OneConsumer;
      StepConsumer(s, a.t, c);
    } else {
      hide Inv, OneConsumer;
      BeginConsumer(s, a, c);
    }
  }

  /** When nobody pops, any thread may be the next consumer. */
  lemma NextConsumer(s: State, c: nat, d: nat)
    requires OneConsumer(s, c) && NobodyPops(s)
    ensures OneConsumer(s, d)
  {
    assert s.q.first < |s.q.linked| == |s.q.vals|;
    hide QueueOk, ConsumerOk;
    FinishedIsFinished(s.q, PcOf(s, c));
    FinishedIsFinished(s.q, PcOf(s, d));
  }

  /** After every run whose pops do not overlap there is at most one consumer at work. */
  lemma {:induction false} RunConsumer(threads: set<nat>, dummy: Addr, v: Value, run: seq<Action>) returns (c: nat)
    requires Legal(Init(threads, dummy, v), run) && PopsInTurn(Init(threads, dummy, v), run)
    ensures OneConsumer(After(Init(threads, dummy, v), run), c)
    decreases |run|
  {
    var init := Init(threads, dummy, v);
    if run == [] {
      c := 0;
      InitInv(threads, dummy, v);
    } else {
      hide Inv, Apply, Enabled, Init, OneConsumer, NobodyPops;
      var before, a := run[..|run| - 1], run[|run| - 1];
      c := RunConsumer(threads, dummy, v, before);
      if a.BeginPop? {
        NextConsumer(After(init, before), c, a.t);
        c := a.t;
      }
      RunInv(threads, dummy, v, before);
      ApplyConsumer(After(init, before), a, c);
    }
  }

  /**
   As long as pops do not overlap, in whatever threads they are made, the values come out in the order of linking, each
   once; each is destroyed once and after it was taken; and no value is read or destroyed in a freed node.
   */
  lemma PopsInTurnTakeInOrder(threads: set<nat>, dummy: Addr, v: Value, run: seq<Action>)
    requires Legal(Init(threads, dummy, v), run) && PopsInTurn(Init(threads, dummy, v), run)
    ensures var s := After(Init(threads, dummy, v), run);
            && |s.q.taken| < |s.q.vals| && s.q.taken == s.q.vals[1..|s.q.taken| + 1]
            && s.q.destroyed <= s.q.taken && |s.q.taken| <= |s.q.destroyed| + 1
            && (forall t :: t in s.threads && (s.threads[t].Taking? || s.threads[t].Destroying?) ==> s.threads[t].with in s.q.nodes)
            && (NobodyPops(s) ==> |s.q.taken| == |s.q.destroyed| == |s.q.popped|)
  {
    hide Legal, After, PopsInTurn;
    var c := RunConsumer(threads, dummy, v, run);
    var s := After(Init(threads, dummy, v), run);
    assert InPlace(s.q, s.q.first);
  }

  /** The state after `n` uninterrupted steps of one thread, if it can take them. */
  function Alone(s: State, t: nat, n: nat): (r: Option<State>)
    decreases n
  {
    if n == 0 then Some(s)
    else if Enabled(s, Step(t)) then Alone(Apply(s, Step(t)), t, n - 1) else None
  }

  lemma TwoMore(s: State, t: nat, n: nat)
    requires Enabled(s, Step(t)) && Enabled(Apply(s, Step(t)), Step(t))
    ensures Alone(s, t, n + 2) == Alone(Apply(Apply(s, Step(t)), Step(t)), t, n)
  {
    hide Apply, Enabled;
  }

  /** Setting a link changes nothing else. */
  lemma LinkFrame(q: Queue, p: Addr, n: Option<Addr>)
    ensures var q' := WithNext(q, p, n);
            && q'.nodes.Keys == q.nodes.Keys && q'.linked == q.linked && q'.vals == q.vals && q'.linkers == q.linkers
            && q'.first == q.first && (forall a :: ValueOf(q', a) == ValueOf(q, a))
            && q'.head == q.head && q'.tail == q.tail && q'.headLock == q.headLock && q'.tailLock == q.tailLock
  {
  }

  /** A push by a thread that is not interrupted. */
  lemma PushAlone(s: State, t: nat)
    requires Inv(s) && t in s.threads && s.threads[t].Clearing? && s.q.tailLock.None?
    ensures Alone(s, t, 5).Some?
    ensures var s' := Alone(s, t, 5).value;
            && s'.threads == s.threads[t := Idle] && s'.q.nodes.Keys == s.q.nodes.Keys
            && s'.q.vals == s.q.vals + [ValueOf(s.q, s.threads[t].p)] && s'.q.linkers == s.q.linkers + [t]
            && s'.q.linked == s.q.linked + [s.threads[t].p] && s'.q.first == s.q.first && s'.q.head == s.q.head
            && s'.q.headLock == s.q.headLock && s'.q.tailLock == None
  {
    hide Inv, NextOf, WithNext;
    LinkFrame(s.q, s.threads[t].p, None);
    var s1 := Apply(s, Step(t));
    var s2 := Apply(s1, Step(t));
    LinkFrame(s2.q, s2.q.tail, Some(s.threads[t].p));
    var s3 := Apply(s2, Step(t));
    var s4 := Apply(s3, Step(t));
    assert Alone(s4, t, 1) == Some(Apply(s4, Step(t)));
    TwoMore(s2, t, 1);
    TwoMore(s, t, 3);
  }

  /** A pop by a thread that is not interrupted, up to taking the value. */
  lemma PopAlone(s: State, d: nat)
    requires Inv(s) && d in s.threads && s.threads[d].LockingHead? && s.q.headLock.None? && s.q.first + 1 < |s.q.linked|
    ensures Alone(s, d, 4).Some?
    ensures var s' := Alone(s, d, 4).value;
            && s'.q.nodes == s.q.nodes && s'.q.linked == s.q.linked && s'.q.first == s.q.first + 1 && s'.q.headLock == None
            && s'.q.head == s.q.linked[s.q.first + 1] && s'.threads == s.threads[d := Taking(s.q.head, s'.q.head)]
  {
    assert InPlace(s.q, s.q.first) && InPlace(s.q, s.q.first + 1);
    assert s.q.head == s.q.linked[s.q.first];
    hide Inv, QueueOk, ThreadOk, InPlace;
    var s1 := Apply(s, Step(d));
    var s2 := Apply(s1, Step(d));
    assert s2.threads[d] == MovingHead(s.q.linked[s.q.first + 1]) && s2.q == s1.q;
    TwoMore(s2, d, 0);
    TwoMore(s, d, 2);
  }

  /**
   With a second consumer the value may be read too late: a consumer that has popped a node but not yet
   taken its value loses the node when another consumer pops once more and frees what it was given.
   */
  lemma SecondConsumerFreesUnreadNode(s: State, c: nat, d: nat)
    requires Inv(s) && c in s.threads && d in s.threads && c != d
    requires s.threads[c].Taking? && s.threads[c].with == s.q.head
    requires s.threads[d].Idle? && s.q.headLock.None? && s.q.first + 1 < |s.q.linked|
    ensures Enabled(s, BeginPop(d))
    ensures var s' := Alone(Apply(s, BeginPop(d)), d, 6);
            && s'.Some? && c in s'.value.threads
            && s'.value.threads[c] == s.threads[c] && s.threads[c].with !in s'.value.q.nodes
  {
    hide Inv, NextOf, WithNext, Alone, ValueOf;
    var s0 := Apply(s, BeginPop(d));
    ApplyInv(s, BeginPop(d));
    PopAlone(s0, d);
    var s4 := Alone(s0, d, 4).value;
    assert s4.threads[d] == Taking(s.q.head, s.q.linked[s.q.first + 1]);
    AloneSplits(s0, d, 4, 2);
    FreesAlone(s4, d);
  }

  lemma FreesAlone(s: State, d: nat)
    requires d in s.threads && s.threads[d].Taking?
    ensures Alone(s, d, 2).Some?
    ensures var s' := Alone(s, d, 2).value;
            s'.q.nodes == s.q.nodes - {s.threads[d].free} && s'.threads == s.threads[d := Destroying(s.threads[d].with)]
  {
    TwoMore(s, d, 0);
  }

  lemma {:induction false} AloneSplits(s: State, t: nat, n: nat, m: nat)
    requires Alone(s, t, n).Some?
    ensures Alone(s, t, n + m) == Alone(Alone(s, t, n).value, t, m)
    decreases n
  {
    hide Enabled, Apply;
    if n > 0 {
      AloneSplits(Apply(s, Step(t)), t, n - 1, m);
    }
  }

  // ---------------------------------------------------------------------------------------------
  // A run in which that happens
  // ---------------------------------------------------------------------------------------------

  lemma Extended(init: State, run: seq<Action>, a: Action)
    requires Legal(init, run) && Enabled(After(init, run), a)
    ensures Legal(init, run + [a]) && After(init, run + [a]) == Apply(After(init, run), a)
  {
    hide Enabled, Apply;
    assert (run + [a])[..|run|] == run;
  }

  lemma {:induction false} RunOn(init: State, run: seq<Action>, t: nat, n: nat) returns (longer: seq<Action>)
    requires Legal(init, run) && Alone(After(init, run), t, n).Some?
    ensures run <= longer && Legal(init, longer) && Alone(After(init, run), t, n) == Some(After(init, longer))
    decreases n
  {
    hide Enabled, Apply, Legal, After;
    longer := run;
    if n > 0 {
      Extended(init, run, Step(t));
      longer := RunOn(init, run + [Step(t)], t, n - 1);
    }
  }

  lemma {:induction false} AloneInv(s: State, t: nat, n: nat)
    requires Inv(s) && Alone(s, t, n).Some?
    ensures Inv(Alone(s, t, n).value)
    decreases n
  {
    hide Inv, Apply, Enabled;
    if n > 0 {
      ApplyInv(s, Step(t));
      AloneInv(Apply(s, Step(t)), t, n - 1);
    }
  }

  /** A run goes on with one whole push. */
  lemma Pushed(init: State, run: seq<Action>, push: Action) returns (longer: seq<Action>)
    requires Legal(init, run) && push.BeginPush?
    requires var s := After(init, run); Inv(s) && Enabled(s, push) && s.q.tailLock.None?
    ensures Legal(init, longer)
    ensures var s, s' := After(init, run), After(init, longer);
            && Inv(s') && s'.threads == s.threads && s'.q.nodes.Keys == s.q.nodes.Keys + {push.p}
            && s'.q.vals == s.q.vals + [push.v] && s'.q.linkers == s.q.linkers + [push.t]
            && s'.q.linked == s.q.linked + [push.p] && s'.q.first == s.q.first && s'.q.head == s.q.head
            && s'.q.headLock == s.q.headLock && s'.q.tailLock == None
  {
    hide Legal, After, Inv, Alone;
    Extended(init, run, push);
    var begun := run + [push];
    ApplyInv(After(init, run), push);
    PushAlone(After(init, begun), push.t);
    AloneInv(After(init, begun), push.t, 5);
    longer := RunOn(init, begun, push.t, 5);
  }

  /** A run goes on with a pop up to taking the value. */
  lemma Popped(init: State, run: seq<Action>, t: nat) returns (longer: seq<Action>)
    requires Legal(init, run)
    requires var s := After(init, run); Inv(s) && Enabled(s, BeginPop(t)) && s.q.headLock.None? && s.q.first + 1 < |s.q.linked|
    ensures Legal(init, longer)
    ensures var s, s' := After(init, run), After(init, longer);
            && Inv(s') && s'.q.nodes == s.q.nodes && s'.q.linked == s.q.linked && s'.q.first == s.q.first + 1
            && s'.q.headLock == None && s'.q.head == s.q.linked[s.q.first + 1]
            && s'.threads == s.threads[t := Taking(s.q.head, s'.q.head)]
  {
    hide Legal, After, Inv, Alone;
    Extended(init, run, BeginPop(t));
    var begun := run + [BeginPop(t)];
    ApplyInv(After(init, run), BeginPop(t));
    PopAlone(After(init, begun), t);
    AloneInv(After(init, begun), t, 4);
    longer := RunOn(init, begun, t, 4);
  }

  lemma TwoQueued(c: nat, d: nat, p1: Addr, p2: Addr) returns (run: seq<Action>)
    requires 0 < p1 < p2
    ensures Legal(Init({c, d}, 0, 0), run)
    ensures var init, s := Init({c, d}, 0, 0), After(Init({c, d}, 0, 0), run);
            && Inv(s) && s.threads == init.threads && s.q.headLock == None && p1 in s.q.nodes
            && s.q.linked == [0, p1, p2] && s.q.first == 0 && s.q.head == 0
  {
    hide Inv, Apply, Alone;
    var init := Init({c, d}, 0, 0);
    InitInv({c, d}, 0, 0);
    run := Pushed(init, [], BeginPush(c, p1, 0));
    hide Legal, After;
    run := Pushed(init, run, BeginPush(c, p2, 0));
  }

  /** Two pushes and a pop that stops before it takes the value. */
  lemma ConsumerStops(c: nat, d: nat, p1: Addr, p2: Addr) returns (run: seq<Action>)
    requires c != d && 0 < p1 < p2
    ensures Legal(Init({c, d}, 0, 0), run)
    ensures var s := After(Init({c, d}, 0, 0), run);
            && Inv(s) && c in s.threads && s.threads[c] == Taking(0, p1) && d in s.threads && s.threads[d] == Idle
            && s.q.headLock == None && |s.q.linked| == 3 && s.q.first == 1 && s.q.head == p1 && p1 in s.q.nodes
  {
    hide Inv, Apply, Legal, After, Alone;
    run := TwoQueued(c, d, p1, p2);
    run := Popped(Init({c, d}, 0, 0), run, c);
  }

  /** There another consumer pops once more: the first is left with a node that is no longer there. */
  lemma UnreadNodeIsFreed(c: nat, d: nat, p1: Addr, p2: Addr) returns (run: seq<Action>)
    requires c != d && 0 < p1 < p2
    ensures Legal(Init({c, d}, 0, 0), run)
    ensures var s := After(Init({c, d}, 0, 0), run);
            c in s.threads && s.threads[c] == Taking(0, p1) && p1 !in s.q.nodes
  {
    hide Inv, Alone, Legal, After, Init, Apply;
    var init := Init({c, d}, 0, 0);
    run := ConsumerStops(c, d, p1, p2);
    SecondConsumerFreesUnreadNode(After(init, run), c, d);
    Extended(init, run, BeginPop(d));
    run := RunOn(init, run + [BeginPop(d)], d, 6);
  }
}
