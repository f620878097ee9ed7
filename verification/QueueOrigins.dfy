/**
 Where the completed operations of the shared queue come from: in every run each completed send and each delivery belongs
 to a call of its own, made by the thread that completed it, and what was sent is the message of that call.
 */
module QueueOrigins {
  import opened Wrappers
  import opened MessageRing
  import opened QueueProtocol

  /** The last call of a thread. */
  function LastBegun(run: seq<Action>, t: Thread): (k: Option<nat>)
    ensures k.Some? ==> k.value < |run| && run[k.value].Begin? && run[k.value].t == t
    ensures forall i :: 0 <= i < |run| && run[i].Begin? && run[i].t == t ==> k.Some? && i <= k.value
  {
    if run == [] then None
    else
      var n := |run| - 1;
      if run[n].Begin? && run[n].t == t then Some(n) else LastBegun(run[..n], t)
  }

  /** What a thread can be doing for an operation. */
  predicate Carries(pc: Pc, op: Operation)
  {
    match pc
    case Locking(o) => o == op
    case Waiting(o, _) => o == op
    case Recovering(o, _) => o == op
    case Deciding(o) => o == op
    case StoringLength(msg) => op.Send? && op.msg == msg
    case Copying(msg, _) => op.Send? && op.msg == msg
    case AdvancingPut(msg) => op.Send? && op.msg == msg
    case Growing(msg) => op.Send? && op.msg == msg
    case SignallingReader(msg, _) => op.Send? && op.msg == msg
    case Sent(msg) => op.Send? && op.msg == msg
    case Reading => op.Receive?
    case ReadingTail(_) => op.Receive?
    case AdvancingGet(_) => op.Receive?
    case Shrinking(_) => op.Receive?
    case SignallingWriters(_) => op.Receive?
    case Received(_) => op.Receive?
    case Clearing(_) => op.Clear?
    case Stopping(_) => op.Stop?
    case Leaving => op.Send? || op.Receive?
    case _ => true
  }

  lemma StepCarries(c: Config, m: Memory, pc: Pc, stopped: bool, choice: Choice, op: Operation)
    requires c.blockSize > 0 && InCritical(pc) && InBounds(c, m, pc) && Carries(pc, op)
    ensures Carries(StepPc(c, m, pc, stopped, choice), op)
  {
    hide InBounds, HeadChunk, ReadSize, Bytes, Blocks;
  }

  predicate Busy(pc: Pc)
  {
    !pc.Idle? && !pc.Dead?
  }

  /** A step of one thread leaves what the others are doing. */
  lemma StepKeepsOthers(c: Config, s: State, a: Action, u: Thread, op: Operation)
    requires c.blockSize > 0 && Enabled(c, s, a) && u in s.threads && Carries(s.threads[u], op) && !(a.Begin? && a.t == u)
    requires Busy(s.threads[u])
    ensures var s' := Apply(c, s, a); u in s'.threads && Carries(s'.threads[u], op)
  {
    if a.Step? && a.t == u && InCritical(s.threads[u]) {
      StepCarries(c, s.mem, s.threads[u], u.process in s.stopped, a.choice, op);
    }
    hide StepPc, StepMemory, InBounds;
  }

  /** In every run a thread that is doing something is doing what it called last. */
  lemma {:induction false} OperationIsBegun(c: Config, threads: set<Thread>, run: seq<Action>, t: Thread)
    requires c.blockSize > 0 && Legal(c, threads, run)
    ensures var s, k := After(c, threads, run), LastBegun(run, t);
            t in s.threads && Busy(s.threads[t]) ==> k.Some? && Carries(s.threads[t], run[k.value].op)
    decreases |run|
  {
    hide Enabled, Apply, Carries;
    if run != [] {
      var n := |run| - 1;
      var s, a := After(c, threads, run[..n]), run[n];
      OperationIsBegun(c, threads, run[..n], t);
      if a.Begin? && a.t == t {
        Begins(c, s, a);
      } else if t in s.threads && Busy(s.threads[t]) {
        StepKeepsOthers(c, s, a, t, run[..n][LastBegun(run[..n], t).value].op);
      } else {
        IdleStays(c, s, a, t);
      }
    }
  }

  lemma Begins(c: Config, s: State, a: Action)
    requires c.blockSize > 0 && a.Begin? && Enabled(c, s, a)
    ensures Apply(c, s, a).threads[a.t] == Locking(a.op) && Carries(Locking(a.op), a.op)
    ensures Apply(c, s, a).sent == s.sent && Apply(c, s, a).delivered == s.delivered
  {
  }

  lemma IdleStays(c: Config, s: State, a: Action, t: Thread)
    requires c.blockSize > 0 && Enabled(c, s, a) && !(a.Begin? && a.t == t) && !(t in s.threads && Busy(s.threads[t]))
    ensures var s' := Apply(c, s, a); !(t in s'.threads && Busy(s'.threads[t]))
  {
    hide StepPc, StepMemory, InBounds;
  }

  // ---------------------------------------------------------------------------------------------
  // Completed operations
  // ---------------------------------------------------------------------------------------------

  /** Calls of the run, those of one thread in order, and so none twice. */
  ghost predicate Calls(run: seq<Action>, ks: seq<nat>)
  {
    && (forall i :: 0 <= i < |ks| ==> ks[i] < |run| && run[ks[i]].Begin?)
    && (forall i, j :: 0 <= i < j < |ks| && run[ks[i]].t == run[ks[j]].t ==> ks[i] < ks[j])
  }

  /** The call that a busy thread is working on is not among those completed. */
  ghost predicate NoneBusy(s: State, run: seq<Action>, ks: seq<nat>)
  {
    forall t :: t in s.threads && Busy(s.threads[t]) && LastBegun(run, t).Some? ==> LastBegun(run, t).value !in ks
  }

  /** The thread that completes an operation with a step, if any. */
  predicate CompletesSend(s: State, a: Action)
  {
    a.Step? && a.t in s.threads && s.threads[a.t].Sent?
  }

  predicate CompletesReceive(s: State, a: Action)
  {
    a.Step? && a.t in s.threads && s.threads[a.t].Received?
  }

  lemma Completes(c: Config, s: State, a: Action)
    requires c.blockSize > 0 && Enabled(c, s, a)
    ensures var s' := Apply(c, s, a);
      && s'.sent == (if CompletesSend(s, a) then s.sent + [s.threads[a.t].msg] else s.sent)
      && |s'.delivered| == |s.delivered| + (if CompletesReceive(s, a) then 1 else 0)
      && (CompletesSend(s, a) || CompletesReceive(s, a) ==> a.t in s'.threads && s'.threads[a.t].Idle?)
  {
    hide StepMemory, InBounds, NotifyAll;
  }

  /** A run that goes on by one action, which is the last call of its thread if it is a call. */
  lemma NoneBusyStep(c: Config, s: State, run: seq<Action>, a: Action, ks: seq<nat>)
    requires c.blockSize > 0 && Enabled(c, s, a) && Calls(run, ks) && NoneBusy(s, run, ks)
    ensures Calls(run + [a], ks) && NoneBusy(Apply(c, s, a), run + [a], ks)
  {
    hide Enabled, Apply, Busy;
    var s', run' := Apply(c, s, a), run + [a];
    assert run'[..|run|] == run;
    forall t | t in s'.threads && Busy(s'.threads[t]) && LastBegun(run', t).Some?
      ensures LastBegun(run', t).value !in ks
    {
      if !(a.Begin? && a.t == t) {
        assert t in s.threads && Busy(s.threads[t]) by {
          if !(t in s.threads && Busy(s.threads[t])) {
            IdleStays(c, s, a, t);
          }
        }
      }
    }
  }

  /** A completed call is added to those completed before. */
  lemma OneMore(s': State, run: seq<Action>, ks: seq<nat>, t: Thread)
    requires Calls(run, ks) && NoneBusy(s', run, ks) && LastBegun(run, t).Some? && LastBegun(run, t).value !in ks
    requires t in s'.threads ==> !Busy(s'.threads[t])
    ensures var k := LastBegun(run, t).value; Calls(run, ks + [k]) && NoneBusy(s', run, ks + [k])
  {
    hide Busy;
    var k := LastBegun(run, t).value;
    forall i | 0 <= i < |ks| && run[ks[i]].t == t
      ensures ks[i] < k
    {
      assert ks[i] in ks;
    }
  }

  /** The calls are sends of these messages; the calls are receives. */
  ghost predicate AreSends(run: seq<Action>, ks: seq<nat>, sent: seq<Message>)
    requires Calls(run, ks)
  {
    |ks| == |sent| && forall i :: 0 <= i < |ks| ==> run[ks[i]].op.Send? && run[ks[i]].op.msg == sent[i]
  }

  ghost predicate AreReceives(run: seq<Action>, ks: seq<nat>)
    requires Calls(run, ks)
  {
    forall i :: 0 <= i < |ks| ==> run[ks[i]].op.Receive?
  }

  lemma StillSends(run: seq<Action>, a: Action, sends: seq<nat>, sent: seq<Message>)
    requires Calls(run, sends) && AreSends(run, sends, sent) && Calls(run + [a], sends)
    ensures AreSends(run + [a], sends, sent)
  {
  }

  lemma StillReceives(run: seq<Action>, a: Action, receives: seq<nat>)
    requires Calls(run, receives) && AreReceives(run, receives) && Calls(run + [a], receives)
    ensures AreReceives(run + [a], receives)
  {
  }

  /**
   In every run the completed sends and the deliveries belong to calls: each to one of its own, those of one thread in the
   order of its calls, and the message sent is the one the call was made with.
   */
  lemma {:induction false} CompletionsAreBegun(c: Config, threads: set<Thread>, run: seq<Action>)
    returns (sends: seq<nat>, receives: seq<nat>)
    requires c.blockSize > 0 && Legal(c, threads, run)
    ensures var s := After(c, threads, run);
      && Calls(run, sends) && AreSends(run, sends, s.sent) && NoneBusy(s, run, sends)
      && Calls(run, receives) && AreReceives(run, receives) && |receives| == |s.delivered| && NoneBusy(s, run, receives)
    decreases |run|
  {
    hide Enabled, Apply, NoneBusy, LastBegun, Calls, AreSends, AreReceives;
    if run == [] {
      sends, receives := [], [];
      NothingBegun(Init(c, threads));
    } else {
      var n := |run| - 1;
      var s, a := After(c, threads, run[..n]), run[n];
      sends, receives := CompletionsAreBegun(c, threads, run[..n]);
      assert run == run[..n] + [a];
      NoneBusyStep(c, s, run[..n], a, sends);
      NoneBusyStep(c, s, run[..n], a, receives);
      StillSends(run[..n], a, sends, s.sent);
      StillReceives(run[..n], a, receives);
      Completes(c, s, a);
      if CompletesSend(s, a) {
        CompletedCall(c, threads, run, s, sends);
        OneMoreSend(Apply(c, s, a), run, sends, a.t, s.sent, s.threads[a.t].msg);
        sends := sends + [LastBegun(run, a.t).value];
      } else if CompletesReceive(s, a) {
        CompletedCall(c, threads, run, s, receives);
        OneMoreReceive(Apply(c, s, a), run, receives, a.t);
        receives := receives + [LastBegun(run, a.t).value];
      }
    }
  }

  lemma OneMoreSend(s': State, run: seq<Action>, ks: seq<nat>, t: Thread, sent: seq<Message>, msg: Message)
    requires Calls(run, ks) && AreSends(run, ks, sent) && NoneBusy(s', run, ks) && (t in s'.threads ==> !Busy(s'.threads[t]))
    requires var k := LastBegun(run, t); k.Some? && k.value !in ks && run[k.value].op.Send? && run[k.value].op.msg == msg
    ensures var ks' := ks + [LastBegun(run, t).value]; Calls(run, ks') && NoneBusy(s', run, ks') && AreSends(run, ks', sent + [msg])
  {
    hide NoneBusy;
    OneMore(s', run, ks, t);
  }

  lemma OneMoreReceive(s': State, run: seq<Action>, ks: seq<nat>, t: Thread)
    requires Calls(run, ks) && AreReceives(run, ks) && NoneBusy(s', run, ks) && (t in s'.threads ==> !Busy(s'.threads[t]))
    requires var k := LastBegun(run, t); k.Some? && k.value !in ks && run[k.value].op.Receive?
    ensures var ks' := ks + [LastBegun(run, t).value]; Calls(run, ks') && NoneBusy(s', run, ks') && AreReceives(run, ks')
  {
    hide NoneBusy;
    OneMore(s', run, ks, t);
  }

  lemma NothingBegun(s: State)
    ensures NoneBusy(s, [], []) && Calls([], []) && AreSends([], [], []) && AreReceives([], [])
  {
  }

  /** The call of a thread that completes its operation. */
  lemma CompletedCall(c: Config, threads: set<Thread>, run: seq<Action>, s: State, ks: seq<nat>)
    requires c.blockSize > 0 && Legal(c, threads, run) && run != [] && s == After(c, threads, run[..|run| - 1])
    requires NoneBusy(s, run[..|run| - 1], ks)
    requires var a := run[|run| - 1]; CompletesSend(s, a) || CompletesReceive(s, a)
    ensures var t := run[|run| - 1].t;
      && LastBegun(run, t).Some? && LastBegun(run, t).value !in ks
      && var op := run[LastBegun(run, t).value].op;
         (s.threads[t].Sent? ==> op.Send? && op.msg == s.threads[t].msg) && (s.threads[t].Received? ==> op.Receive?)
  {
    hide Enabled, Apply, After;
    OperationIsBegun(c, threads, run[..|run| - 1], run[|run| - 1].t);
  }

  lemma StoppedStep(c: Config, s: State, a: Action, p: nat)
    requires c.blockSize > 0 && Enabled(c, s, a)
    ensures var s' := Apply(c, s, a);
      && (a == Reset(p) ==> p !in s'.stopped)
      && (p in s'.stopped && p !in s.stopped ==> a.Step? && a.t in s.threads && a.t.process == p && s.threads[a.t].Stopping?)
  {
    hide StepMemory, InBounds, NotifyAll, StepPc;
  }

  /** In every run a process is stopped only by a call of its own, and not right after it was reset. */
  lemma {:induction false} StopsAreBegun(c: Config, threads: set<Thread>, run: seq<Action>, p: nat)
    requires c.blockSize > 0 && Legal(c, threads, run)
    ensures p in After(c, threads, run).stopped ==>
      (run != [] ==> run[|run| - 1] != Reset(p)) && exists t: Thread :: t.process == p && Begin(t, Stop) in run
    decreases |run|
  {
    hide Enabled, Apply;
    if run != [] {
      var n := |run| - 1;
      var s, a := After(c, threads, run[..n]), run[n];
      StopsAreBegun(c, threads, run[..n], p);
      StoppedStep(c, s, a, p);
      if p in After(c, threads, run).stopped && p !in s.stopped {
        OperationIsBegun(c, threads, run[..n], a.t);
        assert run[LastBegun(run[..n], a.t).value] == Begin(a.t, Stop);
      }
    }
  }
}
