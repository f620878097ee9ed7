/**
 Dispatch of a record to its accepting sinks (`core::push_record_move`, src/core.cpp). Sinks that are already gone
 are dropped, the others are tried without blocking in turn, and when all of them are busy the thread blocks on one.
 Sinks are numbers; how they answer each call is given from outside.
 */
module RecordPush {
  import opened Wrappers
  import opened RecordCore

  /** Answers to `try_consume`, by the number of the call. */
  datatype TryAnswer = Busy | Taken | TryThrows

  datatype Outcome = WasBusy | Succeeded | Failed | Unprepared

  /** One call made to a sink, or, with `Unprepared`, a sink given up because the preparation of its call threw. */
  datatype Call = Call(sink: nat, blocking: bool, outcome: Outcome)

  /** The behaviour of the sinks and of the random generator over a dispatch. */
  datatype World = World(tries: nat -> TryAnswer, consumeThrows: nat -> bool, prepareThrows: nat -> bool, random: nat -> nat)

  /** The sinks settled by the calls made, that is those that took the record or failed to. */
  function Settled(calls: seq<Call>): (m: multiset<nat>)
  {
    if calls == [] then multiset{}
    else
      var last := calls[|calls| - 1];
      Settled(calls[..|calls| - 1]) + if last.outcome.WasBusy? then multiset{} else multiset{last.sink}
  }

  /** The sinks that took the record. */
  function Consumed(calls: seq<Call>): (m: multiset<nat>)
  {
    if calls == [] then multiset{}
    else
      var last := calls[|calls| - 1];
      Consumed(calls[..|calls| - 1]) + if last.outcome.Succeeded? then multiset{last.sink} else multiset{}
  }

  /** The sinks given up after an exception. */
  function Lost(calls: seq<Call>): (m: multiset<nat>)
  {
    if calls == [] then multiset{}
    else
      var last := calls[|calls| - 1];
      Lost(calls[..|calls| - 1]) +
      if last.outcome.Failed? || last.outcome.Unprepared? then multiset{last.sink} else multiset{}
  }

  lemma {:induction false} SettledSplits(calls: seq<Call>)
    ensures Settled(calls) == Consumed(calls) + Lost(calls)
    decreases |calls|
  {
    if calls != [] {
      SettledSplits(calls[..|calls| - 1]);
    }
  }

  /** No sink was given up. */
  ghost predicate NoneLost(calls: seq<Call>)
  {
    forall c :: c in calls ==> c.outcome.WasBusy? || c.outcome.Succeeded?
  }

  lemma {:induction false} NoneLostMeansAllConsumed(calls: seq<Call>)
    requires NoneLost(calls)
    ensures Lost(calls) == multiset{}
    decreases |calls|
  {
    if calls != [] {
      assert calls[|calls| - 1] in calls;
      NoneLostMeansAllConsumed(calls[..|calls| - 1]);
    }
  }

  // ---------------------------------------------------------------------------------------------
  // What the sinks answered
  // ---------------------------------------------------------------------------------------------

  /** The outcome logged for call number `n` is what the world answered to it. */
  predicate AnsweredAt(c: Call, n: nat, world: World)
  {
    match c.outcome
    case WasBusy => !c.blocking && world.tries(n).Busy?
    case Succeeded => if c.blocking then !world.consumeThrows(n) else world.tries(n).Taken?
    case Failed => if c.blocking then world.consumeThrows(n) else world.tries(n).TryThrows?
    case Unprepared => !c.blocking && world.prepareThrows(n)
  }

  ghost predicate Answered(calls: seq<Call>, world: World)
  {
    forall n :: 0 <= n < |calls| ==> AnsweredAt(calls[n], n, world)
  }

  /** Each call goes to a live sink that is not settled yet. */
  ghost predicate ToUnsettled(calls: seq<Call>, alive: multiset<nat>)
  {
    forall n :: 0 <= n < |calls| ==> calls[n].sink in alive - Settled(calls[..n])
  }

  lemma LogGrows(calls: seq<Call>, c: Call, world: World, alive: multiset<nat>)
    requires Answered(calls, world) && ToUnsettled(calls, alive)
    requires AnsweredAt(c, |calls|, world) && c.sink in alive - Settled(calls)
    ensures Answered(calls + [c], world) && ToUnsettled(calls + [c], alive)
  {
    hide AnsweredAt, Settled;
    var next := calls + [c];
    forall n | 0 <= n < |next|
      ensures next[n].sink in alive - Settled(next[..n])
    {
      assert next[..n] == if n < |calls| then calls[..n] else calls;
    }
  }

  /** Something threw at call number `n`. */
  predicate ThrowsAt(world: World, n: nat)
  {
    world.tries(n).TryThrows? || world.consumeThrows(n) || world.prepareThrows(n)
  }

  /** Where nothing throws, no sink is given up. */
  lemma NothingThrownNothingLost(calls: seq<Call>, world: World)
    requires Answered(calls, world) && forall n :: 0 <= n < |calls| ==> !ThrowsAt(world, n)
    ensures NoneLost(calls)
  {
    forall c | c in calls
      ensures c.outcome.WasBusy? || c.outcome.Succeeded?
    {
      var n :| 0 <= n < |calls| && calls[n] == c;
      assert AnsweredAt(calls[n], n, world) && !ThrowsAt(world, n);
    }
  }

  // ---------------------------------------------------------------------------------------------
  // The course of a dispatch
  // ---------------------------------------------------------------------------------------------

  /** A call without the sink it goes to. */
  datatype Kind = Kind(blocking: bool, outcome: Outcome)

  /** The calls still to come, and whether an exception leaves the dispatch in the end. */
  datatype Course = Course(kinds: seq<Kind>, raised: bool)

  function Then(k: Kind, rest: Course): (c: Course)
  {
    Course([k] + rest.kinds, rest.raised)
  }

  /**
   The course from call number `n` on. The answers decide it alone, whichever sinks they come from: `it` and `end`
   delimit the sinks of the pass under way, of which none took the record if `allLocked`.
   */
  function CourseFrom(world: World, suppressing: bool, it: nat, end: nat, allLocked: bool, shuffled: bool, n: nat): (r: Course)
    requires it <= end
    decreases end, if allLocked then 0 else 1, end - it
  {
    if it < end then
      match world.tries(n)
      case Busy => Then(Kind(false, WasBusy), CourseFrom(world, suppressing, it + 1, end, allLocked, shuffled, n + 1))
      case Taken => Then(Kind(false, Succeeded), CourseFrom(world, suppressing, it, end - 1, false, shuffled, n + 1))
      case TryThrows =>
        if !suppressing then Course([], true)
        else Then(Kind(false, Failed), CourseFrom(world, suppressing, it, end - 1, true, shuffled, n + 1))
    else if end == 0 then Course([], false)
    else if !allLocked then CourseFrom(world, suppressing, 0, end, true, shuffled, n)
    else
      var outcome := BlockOutcome(world, shuffled, n);
      if !outcome.Succeeded? && !suppressing then Course([], true)
      else Then(Kind(!outcome.Unprepared?, outcome),
                CourseFrom(world, suppressing, 0, end - 1, true, shuffled || !outcome.Unprepared?, n + 1))
  }

  /** What becomes of the sink the thread blocks on. */
  function BlockOutcome(world: World, shuffled: bool, n: nat): (outcome: Outcome)
    ensures !outcome.WasBusy?
  {
    if !shuffled && world.prepareThrows(n) then Unprepared
    else if world.consumeThrows(n) then Failed
    else Succeeded
  }

  /** The course of a whole dispatch to `live` sinks. */
  function DispatchCourse(world: World, handler: Handler, live: nat): (r: Course)
  {
    CourseFrom(world, handler.Suppressing?, 0, live, true, live <= 1, 0)
  }

  function Kinds(calls: seq<Call>): (r: seq<Kind>)
    ensures |r| == |calls|
    ensures forall n :: 0 <= n < |calls| ==> r[n] == Kind(calls[n].blocking, calls[n].outcome)
  {
    seq(|calls|, n requires 0 <= n < |calls| => Kind(calls[n].blocking, calls[n].outcome))
  }

  /** The calls made are the first part of the course `whole`, and `rest` is what is left of it. */
  ghost predicate OnCourse(whole: Course, calls: seq<Call>, rest: Course)
  {
    whole == Course(Kinds(calls) + rest.kinds, rest.raised)
  }

  lemma OnCourseStep(whole: Course, calls: seq<Call>, c: Call, rest: Course)
    requires OnCourse(whole, calls, Then(Kind(c.blocking, c.outcome), rest))
    ensures OnCourse(whole, calls + [c], rest)
  {
    assert Kinds(calls + [c]) == Kinds(calls) + [Kind(c.blocking, c.outcome)];
  }

  // ---------------------------------------------------------------------------------------------
  // Sinks given up without a call
  // ---------------------------------------------------------------------------------------------

  /**
   The number of the call at which the thread first has to block, if it ever does: the answers decide it alone. `it`
   and `end` delimit the sinks of the pass under way, of which none took the record if `allLocked`.
   */
  function BlocksAt(tries: nat -> TryAnswer, suppressing: bool, it: nat, end: nat, allLocked: bool, n: nat): (r: Option<nat>)
    requires it <= end
    decreases end, if allLocked then 0 else 1, end - it
  {
    if it < end then
      match tries(n)
      case Busy => BlocksAt(tries, suppressing, it + 1, end, allLocked, n + 1)
      case Taken => BlocksAt(tries, suppressing, it, end - 1, false, n + 1)
      case TryThrows => if suppressing then BlocksAt(tries, suppressing, it, end - 1, true, n + 1) else None
    else if end == 0 then None
    else if allLocked then Some(n)
    else BlocksAt(tries, suppressing, 0, end, true, n)
  }

  /** With several live sinks, a suppressing handler, and thread data that fails where the thread first has to block. */
  predicate PreparationFails(world: World, handler: Handler, live: nat)
  {
    var first := BlocksAt(world.tries, handler.Suppressing?, 0, live, true, 0);
    handler.Suppressing? && live > 1 && first.Some? && world.prepareThrows(first.value)
  }

  predicate HasUnprepared(kinds: seq<Kind>)
  {
    exists n :: 0 <= n < |kinds| && kinds[n].outcome.Unprepared?
  }

  lemma UnpreparedThen(k: Kind, rest: Course)
    ensures HasUnprepared(Then(k, rest).kinds) <==> k.outcome.Unprepared? || HasUnprepared(rest.kinds)
  {
    var kinds := Then(k, rest).kinds;
    if k.outcome.Unprepared? {
      assert kinds[0].outcome.Unprepared?;
    }
    if HasUnprepared(rest.kinds) {
      var n :| 0 <= n < |rest.kinds| && rest.kinds[n].outcome.Unprepared?;
      assert kinds[n + 1].outcome.Unprepared?;
    }
  }

  /** Once shuffled, or without a suppressing handler, nothing is given up unprepared. */
  lemma {:induction false} ShuffledNeedsNoPreparation(world: World, suppressing: bool, it: nat, end: nat, allLocked: bool,
                                                      shuffled: bool, n: nat)
    requires it <= end && (shuffled || !suppressing)
    ensures !HasUnprepared(CourseFrom(world, suppressing, it, end, allLocked, shuffled, n).kinds)
    decreases end, if allLocked then 0 else 1, end - it
  {
    if it < end {
      match world.tries(n)
      case Busy =>
        ShuffledNeedsNoPreparation(world, suppressing, it + 1, end, allLocked, shuffled, n + 1);
        UnpreparedThen(Kind(false, WasBusy), CourseFrom(world, suppressing, it + 1, end, allLocked, shuffled, n + 1));
      case Taken =>
        ShuffledNeedsNoPreparation(world, suppressing, it, end - 1, false, shuffled, n + 1);
        UnpreparedThen(Kind(false, Succeeded), CourseFrom(world, suppressing, it, end - 1, false, shuffled, n + 1));
      case TryThrows =>
        if suppressing {
          ShuffledNeedsNoPreparation(world, suppressing, it, end - 1, true, shuffled, n + 1);
          UnpreparedThen(Kind(false, Failed), CourseFrom(world, suppressing, it, end - 1, true, shuffled, n + 1));
        }
    } else if end > 0 && !allLocked {
      ShuffledNeedsNoPreparation(world, suppressing, 0, end, true, shuffled, n);
    } else if end > 0 {
      var outcome := BlockOutcome(world, shuffled, n);
      if outcome.Succeeded? || suppressing {
        ShuffledNeedsNoPreparation(world, suppressing, 0, end - 1, true, true, n + 1);
        UnpreparedThen(Kind(true, outcome), CourseFrom(world, suppressing, 0, end - 1, true, true, n + 1));
      }
    }
  }

  /** Before the shuffle, the first blocking round decides. */
  lemma {:induction false} FirstBlockDecides(world: World, it: nat, end: nat, allLocked: bool, n: nat)
    requires it <= end
    ensures var first := BlocksAt(world.tries, true, it, end, allLocked, n);
      HasUnprepared(CourseFrom(world, true, it, end, allLocked, false, n).kinds)
      <==> first.Some? && world.prepareThrows(first.value)
    decreases end, if allLocked then 0 else 1, end - it
  {
    if it < end {
      match world.tries(n)
      case Busy =>
        FirstBlockDecides(world, it + 1, end, allLocked, n + 1);
        UnpreparedThen(Kind(false, WasBusy), CourseFrom(world, true, it + 1, end, allLocked, false, n + 1));
      case Taken =>
        FirstBlockDecides(world, it, end - 1, false, n + 1);
        UnpreparedThen(Kind(false, Succeeded), CourseFrom(world, true, it, end - 1, false, false, n + 1));
      case TryThrows =>
        FirstBlockDecides(world, it, end - 1, true, n + 1);
        UnpreparedThen(Kind(false, Failed), CourseFrom(world, true, it, end - 1, true, false, n + 1));
    } else if end > 0 && !allLocked {
      FirstBlockDecides(world, 0, end, true, n);
    } else if end > 0 {
      var outcome := BlockOutcome(world, false, n);
      var rest := CourseFrom(world, true, 0, end - 1, true, !outcome.Unprepared?, n + 1);
      UnpreparedThen(Kind(!outcome.Unprepared?, outcome), rest);
      if !outcome.Unprepared? {
        ShuffledNeedsNoPreparation(world, true, 0, end - 1, true, true, n + 1);
      }
    }
  }

  /**
   A sink is given up uncalled exactly when preparation fails where the thread first has to block. With thread data at
   hand that never happens.
   */
  lemma UnpreparedIff(world: World, handler: Handler, live: nat)
    ensures HasUnprepared(DispatchCourse(world, handler, live).kinds) <==> PreparationFails(world, handler, live)
    ensures (forall n :: !world.prepareThrows(n)) ==> !HasUnprepared(DispatchCourse(world, handler, live).kinds)
  {
    hide CourseFrom, BlocksAt;
    if handler.Suppressing? && live > 1 {
      FirstBlockDecides(world, 0, live, true, 0);
    } else {
      ShuffledNeedsNoPreparation(world, handler.Suppressing?, 0, live, true, live <= 1, 0);
    }
  }

  ghost predicate SomeUnprepared(calls: seq<Call>)
  {
    exists n :: 0 <= n < |calls| && calls[n].outcome.Unprepared?
  }

  lemma {:induction false} SettledStays(calls: seq<Call>, n: nat, m: nat)
    requires n < m <= |calls| && !calls[n].outcome.WasBusy?
    ensures Settled(calls[..m])[calls[n].sink] >= 1
    decreases m
  {
    assert calls[..m][..m - 1] == calls[..m - 1];
    if n < m - 1 {
      SettledStays(calls, n, m - 1);
    }
  }

  /** A sink given up because a preparation threw is never called to consume the record, before or after. */
  lemma UnpreparedIsNeverBlockedOn(calls: seq<Call>, alive: multiset<nat>, world: World, n: nat, m: nat)
    requires Answered(calls, world) && ToUnsettled(calls, alive)
    requires n < |calls| && m < |calls| && calls[n].outcome.Unprepared? && alive[calls[n].sink] == 1
    ensures calls[m].sink == calls[n].sink ==> !calls[m].blocking
  {
    hide Settled;
    assert AnsweredAt(calls[n], n, world) && AnsweredAt(calls[m], m, world);
    assert calls[m].sink in alive - Settled(calls[..m]) && calls[n].sink in alive - Settled(calls[..n]);
    if n < m {
      SettledStays(calls, n, m);
    } else if m < n && !calls[m].outcome.WasBusy? {
      SettledStays(calls, m, n);
    }
  }

  lemma SettledGrows(calls: seq<Call>, c: Call)
    ensures Settled(calls + [c]) == Settled(calls) + if c.outcome.WasBusy? then multiset{} else multiset{c.sink}
  {
    assert (calls + [c])[..|calls|] == calls;
  }

  /** The sink answered a non-blocking call with "busy". */
  ghost predicate SeenBusy(calls: seq<Call>, sink: nat)
  {
    Call(sink, false, WasBusy) in calls
  }

  /** A thread blocks only on a sink that was busy when tried. */
  ghost predicate BlocksOnlyOnBusy(calls: seq<Call>)
  {
    forall n :: 0 <= n < |calls| && calls[n].blocking ==> SeenBusy(calls[..n], calls[n].sink)
  }

  lemma BlocksOnlyGrows(calls: seq<Call>, c: Call)
    requires BlocksOnlyOnBusy(calls)
    requires c.blocking ==> SeenBusy(calls, c.sink)
    ensures BlocksOnlyOnBusy(calls + [c])
  {
    var next := calls + [c];
    forall n | 0 <= n < |next| && next[n].blocking
      ensures SeenBusy(next[..n], next[n].sink)
    {
      assert next[..n] == calls[..n];
      assert calls[..|calls|] == calls;
    }
  }

  // ---------------------------------------------------------------------------------------------
  // The vector of sinks: those still to be served first, the settled ones behind them
  // ---------------------------------------------------------------------------------------------

  /** The elements at `i` and `j` exchanged. */
  function Swapped(s: seq<nat>, i: nat, j: nat): (r: seq<nat>)
    requires i < |s| && j < |s|
  {
    s[i := s[j]][j := s[i]]
  }

  lemma SwapPermutes(s: seq<nat>, i: nat, j: nat)
    requires i < |s| && j < |s|
    ensures multiset(Swapped(s, i, j)) == multiset(s)
  {
  }

  lemma SetAside(s: seq<nat>, i: nat, end: nat)
    requires i < end <= |s|
    ensures multiset(Swapped(s, i, end - 1)[end - 1..]) == multiset(s[end..]) + multiset{s[i]}
  {
    assert Swapped(s, i, end - 1)[end - 1..] == [s[i]] + s[end..];
  }

  method Swap(a: array<nat>, i: nat, j: nat, n: nat)
    requires i < n && j < n && n <= a.Length
    modifies a
    ensures a[..n] == Swapped(old(a[..n]), i, j)
    ensures forall k :: n <= k < a.Length ==> a[k] == old(a[k])
  {
    a[i], a[j] := a[j], a[i];
  }

  /** `random_shuffle` on the first `end` elements: whatever the generator gives, a permutation of them. */
  method RandomShuffle(a: array<nat>, end: nat, random: nat -> nat)
    requires 0 < end <= a.Length
    modifies a
    ensures multiset(a[..end]) == old(multiset(a[..end]))
    ensures forall k :: end <= k < a.Length ==> a[k] == old(a[k])
  {
    hide Swapped;
    var it := 1;
    while it != end
      invariant 1 <= it <= end
      invariant multiset(a[..end]) == old(multiset(a[..end]))
      invariant forall k :: end <= k < a.Length ==> a[k] == old(a[k])
      decreases end - it
    {
      var place := Place(random(it), it);
      if place != it {
        SwapPermutes(a[..end], place, it);
        Swap(a, place, it, end);
      }
      it := it + 1;
    }
  }

  function Place(r: nat, it: nat): (n: nat)
    ensures n <= it
  {
    r % (it + 1)
  }

  /** The sinks that still exist, in order. */
  function Alive(weak: seq<nat>, gone: set<nat>): (s: seq<nat>)
  {
    if weak == [] then []
    else
      var front := Alive(weak[..|weak| - 1], gone);
      var last := weak[|weak| - 1];
      if last in gone then front else front + [last]
  }

  /** They are the sinks at the places of those that are not gone. */
  lemma {:induction false} AliveArePicked(weak: seq<nat>, gone: set<nat>) returns (places: seq<nat>)
    ensures Picks(places, |weak|) && |places| == |Alive(weak, gone)|
    ensures forall i :: 0 <= i < |places| ==> Alive(weak, gone)[i] == weak[places[i]]
    ensures forall k :: 0 <= k < |weak| ==> (k in places <==> weak[k] !in gone)
    decreases |weak|
  {
    if weak == [] {
      places := [];
    } else {
      var n := |weak| - 1;
      places := AliveArePicked(weak[..n], gone);
      if weak[n] !in gone {
        places := places + [n];
      }
    }
  }

  /** A sink is among them as often as it is listed, or not at all if it is gone. */
  lemma {:induction false} AliveCounts(weak: seq<nat>, gone: set<nat>, x: nat)
    ensures multiset(Alive(weak, gone))[x] == if x in gone then 0 else multiset(weak)[x]
    decreases |weak|
  {
    if weak != [] {
      var n := |weak| - 1;
      AliveCounts(weak[..n], gone, x);
      assert weak == weak[..n] + [weak[n]];
    }
  }

  /** The locking loop: an expired pointer leaves its slot to the next one. */
  method LockSinks(weak: seq<nat>, gone: set<nat>) returns (a: array<nat>, end: nat)
    ensures fresh(a) && a.Length == |weak|
    ensures end <= a.Length && a[..end] == Alive(weak, gone)
  {
    a := new nat[|weak|];
    end := 0;
    var i := 0;
    while i < |weak|
      invariant 0 <= end <= i <= |weak|
      invariant a[..end] == Alive(weak[..i], gone)
    {
      assert weak[..i + 1][..i] == weak[..i];
      if weak[i] !in gone {
        a[end] := weak[i];
        end := end + 1;
      }
      i := i + 1;
    }
    assert weak[..i] == weak;
  }

  // ---------------------------------------------------------------------------------------------
  // The dispatch
  // ---------------------------------------------------------------------------------------------

  /** Between calls: the vector holds the live sinks, those behind `end` are the settled ones. */
  ghost predicate Dispatching(s: seq<nat>, alive: multiset<nat>, end: nat, calls: seq<Call>)
  {
    && end <= |s|
    && multiset(s) == alive
    && multiset(s[end..]) == Settled(calls)
    && BlocksOnlyOnBusy(calls)
  }

  /** The sinks in front of `it` were seen busy. */
  ghost predicate BusyUpTo(s: seq<nat>, it: nat, calls: seq<Call>)
  {
    it <= |s| && forall j :: 0 <= j < it ==> SeenBusy(calls, s[j])
  }

  lemma DispatchBusy(s: seq<nat>, alive: multiset<nat>, end: nat, calls: seq<Call>, it: nat)
    requires Dispatching(s, alive, end, calls) && it < end && BusyUpTo(s, it, calls)
    ensures Dispatching(s, alive, end, calls + [Call(s[it], false, WasBusy)])
    ensures BusyUpTo(s, it + 1, calls + [Call(s[it], false, WasBusy)])
  {
    var c := Call(s[it], false, WasBusy);
    SettledGrows(calls, c);
    BlocksOnlyGrows(calls, c);
    hide Settled, BlocksOnlyOnBusy;
    assert c in calls + [c];
  }

  lemma DispatchSettle(s: seq<nat>, alive: multiset<nat>, end: nat, calls: seq<Call>, it: nat, c: Call)
    requires Dispatching(s, alive, end, calls) && it < end && BusyUpTo(s, it, calls)
    requires c.sink == s[it] && !c.outcome.WasBusy?
    requires c.blocking ==> SeenBusy(calls, s[it])
    ensures Dispatching(Swapped(s, it, end - 1), alive, end - 1, calls + [c])
    ensures BusyUpTo(Swapped(s, it, end - 1), it, calls + [c])
  {
    SettledGrows(calls, c);
    BlocksOnlyGrows(calls, c);
    SwapPermutes(s, it, end - 1);
    SetAside(s, it, end);
    hide Settled, BlocksOnlyOnBusy;
  }

  /** Every call was made, in the given order, to sinks of `s[..end]`. */
  lemma AllSettled(s: seq<nat>, alive: multiset<nat>, calls: seq<Call>)
    requires Dispatching(s, alive, 0, calls)
    ensures Settled(calls) == alive
  {
    assert s[0..] == s;
  }

  lemma ShuffleKeeps(s: seq<nat>, t: seq<nat>, alive: multiset<nat>, end: nat, calls: seq<Call>)
    requires Dispatching(s, alive, end, calls) && BusyUpTo(s, end, calls)
    requires |t| == |s| && multiset(t[..end]) == multiset(s[..end]) && t[end..] == s[end..]
    ensures Dispatching(t, alive, end, calls) && BusyUpTo(t, end, calls)
  {
    hide Settled, BlocksOnlyOnBusy, SeenBusy;
    assert s == s[..end] + s[end..] && t == t[..end] + t[end..];
    forall j | 0 <= j < end
      ensures SeenBusy(calls, t[j])
    {
      assert t[..end][j] in multiset(t[..end]);
      assert t[j] in s[..end];
    }
  }

  /** A sink in front of the end is not settled. */
  lemma InFrontIsUnsettled(s: seq<nat>, alive: multiset<nat>, end: nat, calls: seq<Call>, it: nat)
    requires Dispatching(s, alive, end, calls) && it < end
    ensures s[it] in alive - Settled(calls)
  {
    hide Settled, BlocksOnlyOnBusy;
    assert s == s[..end] + s[end..];
    assert s[..end][it] in multiset(s[..end]);
  }

  /** Moves the sink at `it` behind the end, after a call that settled it. */
  method Settle(a: array<nat>, n: nat, ghost alive: multiset<nat>, end: nat, calls: seq<Call>, it: nat, c: Call, ghost world: World)
    returns (nextEnd: nat, nextCalls: seq<Call>)
    requires it < end <= n <= a.Length
    requires Dispatching(a[..n], alive, end, calls) && BusyUpTo(a[..n], it, calls)
    requires Answered(calls, world) && ToUnsettled(calls, alive) && AnsweredAt(c, |calls|, world)
    requires c.sink == a[it] && !c.outcome.WasBusy?
    requires c.blocking ==> SeenBusy(calls, a[it])
    modifies a
    ensures nextEnd == end - 1 && nextCalls == calls + [c]
    ensures Dispatching(a[..n], alive, nextEnd, nextCalls) && BusyUpTo(a[..n], it, nextCalls)
    ensures Answered(nextCalls, world) && ToUnsettled(nextCalls, alive)
  {
    hide Dispatching, BusyUpTo, Swapped, SeenBusy, Answered, AnsweredAt, ToUnsettled;
    ghost var s := a[..n];
    assert s[it] == a[it];
    InFrontIsUnsettled(s, alive, end, calls, it);
    LogGrows(calls, c, world, alive);
    DispatchSettle(s, alive, end, calls, it, c);
    nextEnd := end - 1;
    nextCalls := calls + [c];
    Swap(a, it, nextEnd, n);
  }

  /**
   The non-blocking pass from `start` on. It stops at the end, or at the sink whose `try_consume` throws, which is
   still in its place.
   */
  method TryPass(a: array<nat>, n: nat, ghost alive: multiset<nat>, start: nat, end: nat, calls: seq<Call>, world: World,
                 ghost suppressing: bool, ghost shuffled: bool, ghost whole: Course)
    returns (completed: bool, allLocked: bool, it: nat, nextEnd: nat, nextCalls: seq<Call>)
    requires start <= end <= n <= a.Length
    requires Dispatching(a[..n], alive, end, calls) && BusyUpTo(a[..n], start, calls)
    requires Answered(calls, world) && ToUnsettled(calls, alive)
    requires OnCourse(whole, calls, CourseFrom(world, suppressing, start, end, true, shuffled, |calls|))
    modifies a
    ensures start <= it <= nextEnd <= end
    ensures Dispatching(a[..n], alive, nextEnd, nextCalls) && BusyUpTo(a[..n], it, nextCalls)
    ensures Answered(nextCalls, world) && ToUnsettled(nextCalls, alive)
    ensures completed ==> it == nextEnd
    ensures !completed ==> it < nextEnd && world.tries(|nextCalls|).TryThrows?
    ensures allLocked <==> nextEnd == end
    ensures NoneLost(calls) ==> NoneLost(nextCalls)
    ensures OnCourse(whole, nextCalls, CourseFrom(world, suppressing, it, nextEnd, allLocked, shuffled, |nextCalls|))
  {
    hide Dispatching, BusyUpTo, SeenBusy, Answered, ToUnsettled, OnCourse;
    it, nextEnd, nextCalls := start, end, calls;
    allLocked := true;
    while it != nextEnd
      invariant start <= it <= nextEnd <= end
      invariant Dispatching(a[..n], alive, nextEnd, nextCalls) && BusyUpTo(a[..n], it, nextCalls)
      invariant Answered(nextCalls, world) && ToUnsettled(nextCalls, alive)
      invariant allLocked <==> nextEnd == end
      invariant NoneLost(calls) ==> NoneLost(nextCalls)
      invariant OnCourse(whole, nextCalls, CourseFrom(world, suppressing, it, nextEnd, allLocked, shuffled, |nextCalls|))
      decreases nextEnd - it
    {
      var answer := world.tries(|nextCalls|);
      if answer.TryThrows? {
        completed := false;
        return;
      } else if answer.Taken? {
        var c := Call(a[it], false, Succeeded);
        OnCourseStep(whole, nextCalls, c, CourseFrom(world, suppressing, it, nextEnd - 1, false, shuffled, |nextCalls| + 1));
        nextEnd, nextCalls := Settle(a, n, alive, nextEnd, nextCalls, it, c, world);
        allLocked := false;
      } else {
        var c := Call(a[it], false, WasBusy);
        OnCourseStep(whole, nextCalls, c, CourseFrom(world, suppressing, it + 1, nextEnd, allLocked, shuffled, |nextCalls| + 1));
        InFrontIsUnsettled(a[..n], alive, nextEnd, nextCalls, it);
        LogGrows(nextCalls, c, world, alive);
        DispatchBusy(a[..n], alive, nextEnd, nextCalls, it);
        nextCalls := nextCalls + [c];
        it := it + 1;
      }
    }
    completed := true;
  }

  /**
   All remaining sinks are busy: the vector is shuffled once, and the thread blocks on the first sink. The outcome
   says what became of that sink, which is still in its place.
   */
  method Block(a: array<nat>, n: nat, ghost alive: multiset<nat>, end: nat, calls: seq<Call>, shuffled: bool, world: World)
    returns (outcome: Outcome)
    requires 0 < end <= n <= a.Length
    requires Dispatching(a[..n], alive, end, calls) && BusyUpTo(a[..n], end, calls)
    modifies a
    ensures Dispatching(a[..n], alive, end, calls) && SeenBusy(calls, a[0])
    ensures outcome == BlockOutcome(world, shuffled, |calls|)
  {
    hide Dispatching, SeenBusy;
    if !shuffled {
      if world.prepareThrows(|calls|) {
        return Unprepared;
      }
      ghost var before := a[..n];
      RandomShuffle(a, end, world.random);
      assert before[..end] == old(a[..end]);
      assert a[..n][..end] == a[..end];
      assert forall k :: end <= k < n ==> a[..n][k] == before[k];
      ShuffleKeeps(before, a[..n], alive, end, calls);
    }
    outcome := if world.consumeThrows(|calls|) then Failed else Succeeded;
  }

  /** How the course goes on from the end of a pass, and from a throwing sink. */
  lemma CourseGoesOn(world: World, suppressing: bool, it: nat, end: nat, allLocked: bool, shuffled: bool, n: nat)
    requires it <= end
    ensures it == end == 0 ==> CourseFrom(world, suppressing, it, end, allLocked, shuffled, n) == Course([], false)
    ensures it == end > 0 && !allLocked ==>
      CourseFrom(world, suppressing, it, end, allLocked, shuffled, n) == CourseFrom(world, suppressing, 0, end, true, shuffled, n)
    ensures it == end > 0 && allLocked ==>
      var outcome := BlockOutcome(world, shuffled, n);
      CourseFrom(world, suppressing, it, end, allLocked, shuffled, n)
      == if !outcome.Succeeded? && !suppressing then Course([], true)
         else Then(Kind(!outcome.Unprepared?, outcome),
                   CourseFrom(world, suppressing, 0, end - 1, true, shuffled || !outcome.Unprepared?, n + 1))
    ensures it < end && world.tries(n).TryThrows? ==>
      CourseFrom(world, suppressing, it, end, allLocked, shuffled, n)
      == if !suppressing then Course([], true)
         else Then(Kind(false, Failed), CourseFrom(world, suppressing, it, end - 1, true, shuffled, n + 1))
  {
  }

  lemma DispatchStarts(s: seq<nat>, world: World, handler: Handler)
    ensures Dispatching(s, multiset(s), |s|, []) && BusyUpTo(s, 0, [])
    ensures Answered([], world) && ToUnsettled([], multiset(s)) && NoneLost([])
    ensures OnCourse(DispatchCourse(world, handler, |s|), [], DispatchCourse(world, handler, |s|))
  {
    assert s[|s|..] == [];
    var whole := DispatchCourse(world, handler, |s|);
    assert [] + whole.kinds == whole.kinds;
  }

  lemma BlockAnswered(sink: nat, shuffled: bool, n: nat, world: World)
    ensures var outcome := BlockOutcome(world, shuffled, n);
      && AnsweredAt(Call(sink, !outcome.Unprepared?, outcome), n, world)
      && (!outcome.Succeeded? ==> ThrowsAt(world, n))
  {
  }

  lemma ThrowAnswered(sink: nat, n: nat, world: World)
    requires world.tries(n).TryThrows?
    ensures AnsweredAt(Call(sink, false, Failed), n, world) && ThrowsAt(world, n)
  {
  }

  /** The dispatch loop over the first `n` elements, which are the live sinks. */
  method Dispatch(a: array<nat>, n: nat, handler: Handler, world: World)
    returns (calls: seq<Call>, raised: bool, ghost left: nat)
    requires n <= a.Length
    modifies a
    ensures Dispatching(a[..n], old(multiset(a[..n])), left, calls)
    ensures Answered(calls, world) && ToUnsettled(calls, old(multiset(a[..n])))
    ensures OnCourse(DispatchCourse(world, handler, n), calls, Course([], raised))
    ensures raised ==> left > 0 && !handler.Suppressing? && ThrowsAt(world, |calls|)
    ensures !raised ==> left == 0
    ensures !handler.Suppressing? ==> NoneLost(calls)
  {
    hide Dispatching, BusyUpTo, Settled, SeenBusy, BlocksOnlyOnBusy, Answered, AnsweredAt, ToUnsettled, CourseFrom, OnCourse,
      BlockOutcome, ThrowsAt;
    ghost var alive, suppressing := multiset(a[..n]), handler.Suppressing?;
    ghost var whole := DispatchCourse(world, handler, n);
    var end, it, shuffled := n, 0, n <= 1;
    calls, raised := [], false;
    DispatchStarts(a[..n], world, handler);
    while true
      invariant it <= end <= n <= a.Length
      invariant Dispatching(a[..n], alive, end, calls) && BusyUpTo(a[..n], it, calls)
      invariant Answered(calls, world) && ToUnsettled(calls, alive)
      invariant !handler.Suppressing? ==> NoneLost(calls)
      invariant OnCourse(whole, calls, CourseFrom(world, suppressing, it, end, true, shuffled, |calls|))
      decreases end
    {
      var completed, allLocked;
      completed, allLocked, it, end, calls := TryPass(a, n, alive, it, end, calls, world, suppressing, shuffled, whole);
      CourseGoesOn(world, suppressing, it, end, allLocked, shuffled, |calls|);
      if completed {
        it := 0;
        if end == 0 {
          break;
        }
        if allLocked {
          var outcome := Block(a, n, alive, end, calls, shuffled, world);
          NoneBusyYet(a[..n], calls);
          BlockAnswered(a[0], shuffled, |calls|, world);
          if !outcome.Succeeded? && !handler.Suppressing? {
            raised := true;
            break;
          }
          var c := Call(a[0], !outcome.Unprepared?, outcome);
          shuffled := shuffled || !outcome.Unprepared?;
          OnCourseStep(whole, calls, c, CourseFrom(world, suppressing, 0, end - 1, true, shuffled, |calls| + 1));
          end, calls := Settle(a, n, alive, end, calls, 0, c, world);
        } else {
          NoneBusyYet(a[..n], calls);
        }
      } else {
        ThrowAnswered(a[it], |calls|, world);
        if !handler.Suppressing? {
          raised := true;
          break;
        }
        var c := Call(a[it], false, Failed);
        OnCourseStep(whole, calls, c, CourseFrom(world, suppressing, it, end - 1, true, shuffled, |calls| + 1));
        end, calls := Settle(a, n, alive, end, calls, it, c, world);
      }
    }
    left := end;
  }

  lemma DispatchingBlocks(s: seq<nat>, alive: multiset<nat>, end: nat, calls: seq<Call>)
    requires Dispatching(s, alive, end, calls)
    ensures BlocksOnlyOnBusy(calls)
  {
  }

  /**
   Dispatch ends for every behaviour of the sinks. The log is what they answered, in the course those answers give. Unless
   an exception leaves it, every sink that still exists takes the record exactly once or is given up after an exception of
   its own call or of its preparation; where nothing throws, every one takes it. A sink is given up uncalled exactly when
   preparation fails where the thread first has to block.
   */
  method PushRecord(weak: seq<nat>, gone: set<nat>, handler: Handler, world: World)
    returns (calls: seq<Call>, raised: bool)
    ensures Answered(calls, world) && ToUnsettled(calls, multiset(Alive(weak, gone)))
    ensures !raised ==> forall x: nat :: Consumed(calls)[x] + Lost(calls)[x] == if x in gone then 0 else multiset(weak)[x]
    ensures !raised ==> Consumed(calls) + Lost(calls) == multiset(Alive(weak, gone))
    ensures raised ==> Consumed(calls) + Lost(calls) < multiset(Alive(weak, gone))
    ensures !handler.Suppressing? ==> NoneLost(calls)
    ensures !handler.Suppressing? && !raised ==> Consumed(calls) == multiset(Alive(weak, gone))
    ensures raised ==> !handler.Suppressing? && ThrowsAt(world, |calls|)
    ensures (forall n :: !ThrowsAt(world, n)) ==> !raised && Consumed(calls) == multiset(Alive(weak, gone))
    ensures BlocksOnlyOnBusy(calls)
    ensures Course(Kinds(calls), raised) == DispatchCourse(world, handler, |Alive(weak, gone)|)
    ensures SomeUnprepared(calls) <==> PreparationFails(world, handler, |Alive(weak, gone)|)
  {
    hide DispatchCourse, Dispatching, BlocksOnlyOnBusy, Answered, ToUnsettled, SomeUnprepared, PreparationFails, Settled,
      Consumed, Lost, ThrowsAt;
    var a, n := LockSinks(weak, gone);
    assert |a[..n]| == n;
    ghost var end: nat;
    calls, raised, end := Dispatch(a, n, handler, world);
    ghost var alive := multiset(Alive(weak, gone));
    forall x: nat
      ensures alive[x] == if x in gone then 0 else multiset(weak)[x]
    {
      AliveCounts(weak, gone, x);
    }
    SettledSplits(calls);
    if forall k :: !ThrowsAt(world, k) {
      NothingThrownNothingLost(calls, world);
      NoneLostMeansAllConsumed(calls);
    }
    if !handler.Suppressing? {
      NoneLostMeansAllConsumed(calls);
    }
    if raised {
      SomeRemain(a[..n], alive, end, calls);
    } else {
      AllSettled(a[..n], alive, calls);
    }
    DispatchingBlocks(a[..n], alive, end, calls);
    assert Kinds(calls) + [] == Kinds(calls);
    UnpreparedIff(world, handler, n);
    SameUnprepared(calls);
  }

  lemma SameUnprepared(calls: seq<Call>)
    ensures SomeUnprepared(calls) <==> HasUnprepared(Kinds(calls))
  {
    if SomeUnprepared(calls) {
      var n :| 0 <= n < |calls| && calls[n].outcome.Unprepared?;
      assert Kinds(calls)[n].outcome.Unprepared?;
    }
    if HasUnprepared(Kinds(calls)) {
      var n :| 0 <= n < |calls| && Kinds(calls)[n].outcome.Unprepared?;
      assert calls[n].outcome.Unprepared?;
    }
  }

  lemma NoneBusyYet(s: seq<nat>, calls: seq<Call>)
    ensures BusyUpTo(s, 0, calls)
  {
  }

  lemma SomeRemain(s: seq<nat>, alive: multiset<nat>, end: nat, calls: seq<Call>)
    requires Dispatching(s, alive, end, calls) && 0 < end
    ensures Settled(calls) < alive
  {
    assert s == s[..end] + s[end..];
    assert |multiset(s[..end])| == end;
  }

  /** Two busy sinks, a suppressing handler and thread data that cannot be had. */
  function BusyWorld(): (w: World)
  {
    World(_ => Busy, _ => false, _ => true, _ => 0)
  }

  lemma BusyWorldFails()
    ensures PreparationFails(BusyWorld(), Suppressing, 2)
  {
    var tries := BusyWorld().tries;
    assert BlocksAt(tries, true, 2, 2, true, 2) == Some(2);
    assert BlocksAt(tries, true, 1, 2, true, 1) == Some(2);
    assert BlocksAt(tries, true, 0, 2, true, 0) == Some(2);
  }

  /** A dispatch that gives up a sink without ever calling it to consume the record. */
  method GiveUpUncalled() returns (calls: seq<Call>, n: nat)
    ensures Answered(calls, BusyWorld())
    ensures n < |calls| && calls[n].outcome.Unprepared?
    ensures forall m :: 0 <= m < |calls| && calls[m].sink == calls[n].sink ==> !calls[m].blocking
  {
    hide BlocksAt, CourseFrom, Answered, ToUnsettled, Settled;
    var raised;
    calls, raised := PushRecord([7, 8], {}, Suppressing, BusyWorld());
    BothAlive();
    BusyWorldFails();
    n :| 0 <= n < |calls| && calls[n].outcome.Unprepared?;
    forall m | 0 <= m < |calls|
      ensures calls[m].sink == calls[n].sink ==> !calls[m].blocking
    {
      assert calls[n].sink in multiset{7, 8} by {
        UnsettledIsAlive(calls, multiset{7, 8}, n);
      }
      UnpreparedIsNeverBlockedOn(calls, multiset{7, 8}, BusyWorld(), n, m);
    }
  }

  lemma BothAlive()
    ensures Alive([7, 8], {}) == [7, 8] && multiset([7, 8]) == multiset{7, 8}
  {
    assert [7, 8][..1] == [7] && [7][..0] == [];
    assert Alive([7], {}) == [7];
  }

  lemma UnsettledIsAlive(calls: seq<Call>, alive: multiset<nat>, n: nat)
    requires ToUnsettled(calls, alive) && n < |calls|
    ensures calls[n].sink in alive
  {
    hide Settled;
    assert calls[n].sink in alive - Settled(calls[..n]);
  }
}
