/**
 Lifetime of the shared memory region (src/posix/ipc_reliable_message_queue.cpp): one creator, any number
 of adopters, and the reference counter in the region header. Every atomic access is one step.
 */
module RegionLifetime {
  import opened Wrappers

  /** Where a handle is in opening or closing the region. `Looked` carries the counter value it last saw. */
  datatype Handle =
    | Unopened
    | Constructing
    | Mapped(spins: nat)
    | Looked(spins: nat, seen: nat)
    | Validating
    | Attached
    | RollingBack
    | Closing
    | Destroying
    | Done

  /** How often an adopter looks for a constructed header before it gives up. */
  const REGION_INIT_WAIT_LOOPS: nat := 200

  datatype State = State(
    count: nat,                  // the 32-bit reference counter; zero-initialized with the segment
    handles: map<nat, Handle>,
    creator: nat,
    everCounted: bool,           // the counter has left zero
    destructions: nat)           // how often the header destructor ran

  datatype Action =
    | Create(h: nat)
    | FinishHeader(h: nat)
    | Map(h: nat)
    | Load(h: nat)
    | CompareExchange(h: nat, spuriousFailure: bool)
    | GiveUp(h: nat)
    | Validate(h: nat, compatible: bool)
    | Close(h: nat)
    | Subtract(h: nat)
    | Destroy(h: nat)

  function Init(handles: set<nat>, creator: nat): (s: State)
  {
    State(0, map h | h in handles :: Unopened, creator, false, 0)
  }

  /** Handles that own a reference. */
  predicate Owns(h: Handle)
  {
    h.Validating? || h.Attached? || h.RollingBack? || h.Closing?
  }

  function Owners(s: State): (o: set<nat>)
  {
    set h | h in s.handles && Owns(s.handles[h])
  }

  predicate Enabled(s: State, a: Action)
  {
    && a.h in s.handles
    && var h := s.handles[a.h];
       match a
       case Create(x) => h.Unopened? && x == s.creator
       case FinishHeader(_) => h.Constructing?
       case Map(x) => h.Unopened? && x != s.creator
       case Load(_) => h.Mapped? && h.spins < REGION_INIT_WAIT_LOOPS
       case CompareExchange(_, _) => h.Looked? && h.seen > 0
       case GiveUp(_) => h.Mapped? && h.spins >= REGION_INIT_WAIT_LOOPS
       case Validate(_, _) => h.Validating?
       case Close(_) => h.Attached?
       case Subtract(_) => h.RollingBack? || h.Closing?
       case Destroy(_) => h.Destroying?
  }

  /** After a load: a positive value goes to the exchange, zero counts as one wait loop. */
  function AfterLoad(spins: nat, seen: nat): (h: Handle)
  {
    if seen > 0 then Looked(spins, seen) else Mapped(spins + 1)
  }

  function Apply(s: State, a: Action): (s': State)
    requires Enabled(s, a)
  {
    match a
    case Create(h) => s.(handles := s.handles[h := Constructing])
    case FinishHeader(h) => s.(count := Low32(s.count + 1), everCounted := true, handles := s.handles[h := Attached])
    case Map(h) => s.(handles := s.handles[h := Mapped(0)])
    case Load(h) => s.(handles := s.handles[h := AfterLoad(s.handles[h].spins, s.count)])
    case CompareExchange(h, spurious) =>
      var x := s.handles[h];
      if x.seen == s.count && !spurious
      then s.(count := Low32(x.seen + 1), handles := s.handles[h := Validating])
      else s.(handles := s.handles[h := AfterLoad(x.spins, s.count)])
    case GiveUp(h) => s.(handles := s.handles[h := Done])
    case Validate(h, compatible) => s.(handles := s.handles[h := if compatible then Attached else RollingBack])
    case Close(h) => s.(handles := s.handles[h := Closing])
    case Subtract(h) =>
      s.(count := Low32(s.count - 1), handles := s.handles[h := if s.count == 1 then Destroying else Done])
    case Destroy(h) => s.(destructions := s.destructions + 1, handles := s.handles[h := Done])
  }

  predicate Legal(handles: set<nat>, creator: nat, run: seq<Action>)
    decreases |run|, 0
  {
    run == [] ||
    (Legal(handles, creator, run[..|run| - 1]) && Enabled(After(handles, creator, run[..|run| - 1]), run[|run| - 1]))
  }

  function After(handles: set<nat>, creator: nat, run: seq<Action>): (s: State)
    requires Legal(handles, creator, run)
    decreases |run|, 1
  {
    if run == [] then Init(handles, creator)
    else Apply(After(handles, creator, run[..|run| - 1]), run[|run| - 1])
  }

  /** Handles that are running, or have still to run, the header destructor. */
  function Destroyers(s: State): (d: set<nat>)
  {
    set h | h in s.handles && s.handles[h].Destroying?
  }

  ghost predicate Inv(s: State)
  {
    && |s.handles.Keys| < WORD
    && s.count == |Owners(s)|
    && (!s.everCounted ==> s.count == 0)
    && (s.everCounted ==> s.creator in s.handles && !s.handles[s.creator].Unopened? && !s.handles[s.creator].Constructing?)
    && (forall h :: h in s.handles && s.handles[h].Constructing? ==> h == s.creator)
    && s.destructions + |Destroyers(s)| == (if s.everCounted && s.count == 0 then 1 else 0)
  }

  lemma InitInv(handles: set<nat>, creator: nat)
    requires |handles| < WORD
    ensures Inv(Init(handles, creator))
  {
    var s := Init(handles, creator);
    assert s.handles.Keys == handles;
    assert Owners(s) == {} && Destroyers(s) == {};
  }

  lemma SizeByMember<T>(x: set<T>, e: T)
    ensures |x| == |x - {e}| + if e in x then 1 else 0
  {
    if e in x {
      assert x == (x - {e}) + {e};
    } else {
      assert x == x - {e};
    }
  }

  function Unit(b: bool): (n: nat)
  {
    if b then 1 else 0
  }

  /** A step moves one handle, so each of the two sets changes by that handle only. */
  lemma SizesAfter(s: State, h: nat, to: Handle)
    requires h in s.handles
    ensures var s' := s.(handles := s.handles[h := to]);
            && |Owners(s')| == |Owners(s)| + Unit(Owns(to)) - Unit(Owns(s.handles[h]))
            && |Destroyers(s')| == |Destroyers(s)| + Unit(to.Destroying?) - Unit(s.handles[h].Destroying?)
            && s'.handles.Keys == s.handles.Keys
  {
    var s' := s.(handles := s.handles[h := to]);
    assert Owners(s') - {h} == Owners(s) - {h} && Destroyers(s') - {h} == Destroyers(s) - {h};
    SizeByMember(Owners(s), h);
    SizeByMember(Owners(s'), h);
    SizeByMember(Destroyers(s), h);
    SizeByMember(Destroyers(s'), h);
  }

  /** The two sets depend on the handles alone. */
  lemma SetsOfHandles(s: State, t: State)
    requires s.handles == t.handles
    ensures Owners(s) == Owners(t) && Destroyers(s) == Destroyers(t)
  {
  }

  lemma ApplyInv(s: State, a: Action)
    requires Inv(s) && Enabled(s, a)
    ensures Inv(Apply(s, a))
  {
    var s' := Apply(s, a);
    var moved := s.(handles := s.handles[a.h := s'.handles[a.h]]);
    SizesAfter(s, a.h, s'.handles[a.h]);
    SetsOfHandles(s', moved);
    OwnersBound(s);
    OwnersBound(s');
    hide Owners, Destroyers;
  }

  lemma OwnersBound(s: State)
    requires |s.handles.Keys| < WORD
    ensures |Owners(s)| < WORD
  {
    SubsetSize(Owners(s), s.handles.Keys);
  }

  lemma SubsetSize<T>(a: set<T>, b: set<T>)
    requires a <= b
    ensures |a| <= |b|
  {
    assert b == a + (b - a);
  }

  lemma NoOwners(s: State, h: nat)
    requires Inv(s) && s.count == 0 && h in s.handles
    ensures !Owns(s.handles[h])
  {
    assert h in Owners(s) <==> Owns(s.handles[h]);
  }

  lemma {:induction false} RunInv(handles: set<nat>, creator: nat, run: seq<Action>)
    requires |handles| < WORD && Legal(handles, creator, run)
    ensures Inv(After(handles, creator, run))
    decreases |run|
  {
    hide Inv, Apply, Enabled;
    if run == [] {
      InitInv(handles, creator);
    } else {
      var before := run[..|run| - 1];
      RunInv(handles, creator, before);
      ApplyInv(After(handles, creator, before), run[|run| - 1]);
    }
  }

  /** In every interleaving the counter is the number of handles that own a reference. */
  lemma CounterCountsOwners(handles: set<nat>, creator: nat, run: seq<Action>)
    requires |handles| < WORD && Legal(handles, creator, run)
    ensures var s := After(handles, creator, run);
            s.count == |Owners(s)| && forall h :: h in Owners(s) <==> h in s.handles && Owns(s.handles[h])
  {
    RunInv(handles, creator, run);
  }

  /** The header is destroyed at most once, only when nobody owns a reference, and by one last closer. */
  lemma DestroyedOnceByLastCloser(handles: set<nat>, creator: nat, run: seq<Action>)
    requires |handles| < WORD && Legal(handles, creator, run)
    ensures var s := After(handles, creator, run);
            && s.destructions + |Destroyers(s)| == (if s.everCounted && s.count == 0 then 1 else 0)
            && (s.destructions + |Destroyers(s)| > 0 ==>
                  forall h :: h in s.handles ==> !Owns(s.handles[h]))
  {
    RunInv(handles, creator, run);
    var s := After(handles, creator, run);
    forall h | h in s.handles && s.count == 0
      ensures !Owns(s.handles[h])
    {
      NoOwners(s, h);
    }
  }

  lemma {:induction false} ReleasedStays(s: State, handles: set<nat>, creator: nat, run: seq<Action>, k: nat)
    requires |handles| < WORD && Legal(handles, creator, run) && k <= |run| && Legal(handles, creator, run[..k])
    requires s == After(handles, creator, run[..k]) && s.everCounted && s.count == 0
    ensures After(handles, creator, run).everCounted && After(handles, creator, run).count == 0
    decreases |run|
  {
    if k == |run| {
      assert run[..k] == run;
    } else {
      var before := run[..|run| - 1];
      assert before[..k] == run[..k];
      ReleasedStays(s, handles, creator, before, k);
      var last := After(handles, creator, before);
      RunInv(handles, creator, before);
      NoOwners(last, run[|run| - 1].h);
    }
  }

  /**
   Once the counter has gone back to zero, no handle owns a reference at any later point of the run:
   adopters that are still looking never attach, whatever value they saw before.
   */
  lemma NoAttachAfterRelease(handles: set<nat>, creator: nat, run: seq<Action>, k: nat, h: nat)
    requires |handles| < WORD && Legal(handles, creator, run) && k <= |run| && Legal(handles, creator, run[..k])
    requires var s := After(handles, creator, run[..k]); s.everCounted && s.count == 0
    ensures var s' := After(handles, creator, run); h in s'.handles ==> !Owns(s'.handles[h])
  {
    ReleasedStays(After(handles, creator, run[..k]), handles, creator, run, k);
    RunInv(handles, creator, run);
    var s' := After(handles, creator, run);
    if h in s'.handles {
      NoOwners(s', h);
    }
  }

  /** A handle that reads the header, to validate it or to use the queue, reads a header that is not destroyed. */
  lemma OwnersSeeLiveHeader(handles: set<nat>, creator: nat, run: seq<Action>, h: nat)
    requires |handles| < WORD && Legal(handles, creator, run)
    ensures var s := After(handles, creator, run);
            h in s.handles && Owns(s.handles[h]) ==> s.everCounted && s.destructions == 0
  {
    RunInv(handles, creator, run);
    var s := After(handles, creator, run);
    if h in s.handles && Owns(s.handles[h]) {
      assert h in Owners(s);
    }
  }

  // ---------------------------------------------------------------------------------------------
  // What opening and closing come to
  // ---------------------------------------------------------------------------------------------

  /** In every run, who uses the queue created the region or found it compatible; who takes a reference back did not. */
  lemma {:induction false} UsersFoundItCompatible(handles: set<nat>, creator: nat, run: seq<Action>, h: nat)
    requires Legal(handles, creator, run)
    ensures var s := After(handles, creator, run);
            && s.creator == creator
            && (h in s.handles && (s.handles[h].Attached? || s.handles[h].Closing?) ==> h == creator || Validate(h, true) in run)
            && (h in s.handles && s.handles[h].RollingBack? ==> Validate(h, false) in run)
            && (h in s.handles && s.handles[h].Constructing? ==> h == creator)
    decreases |run|
  {
    if run != [] {
      var before, a := run[..|run| - 1], run[|run| - 1];
      UsersFoundItCompatible(handles, creator, before, h);
      assert run == before + [a];
    }
  }

  /** Owners are fewer than handles while some handle owns nothing. */
  lemma RoomForOneMore(s: State, h: nat)
    requires Inv(s) && h in s.handles && !Owns(s.handles[h])
    ensures s.count + 1 < WORD
  {
    assert h !in Owners(s);
    SubsetSize(Owners(s) + {h}, s.handles.Keys);
  }

  /**
   An adopter that is left alone with a constructed header takes a reference and, if it finds the region compatible, is
   attached; if not, it gives the reference back and is done, and the counter is what it was.
   */
  lemma AdoptionCompletes(s: State, h: nat, compatible: bool)
    requires Inv(s) && h in s.handles && s.handles[h].Mapped? && s.handles[h].spins < 200 && s.count > 0
    ensures Enabled(s, Load(h))
    ensures var s1 := Apply(s, Load(h));
      && Enabled(s1, CompareExchange(h, false))
      && var s2 := Apply(s1, CompareExchange(h, false));
         && Enabled(s2, Validate(h, compatible))
         && var s3 := Apply(s2, Validate(h, compatible));
            && s3.count == s.count + 1 && s3.destructions == s.destructions
            && (compatible ==> s3.handles == s.handles[h := Attached])
            && (!compatible ==> Enabled(s3, Subtract(h)) && Apply(s3, Subtract(h)) == s.(handles := s.handles[h := Done]))
  {
    RoomForOneMore(s, h);
    var s1 := Apply(s, Load(h));
    var s2 := Apply(s1, CompareExchange(h, false));
    var s3 := Apply(s2, Validate(h, compatible));
    hide Inv;
    assert s2.handles == s.handles[h := Validating] && s2.count == s.count + 1;
    assert compatible ==> s3.handles == s.handles[h := Attached];
    if !compatible {
      assert Apply(s3, Subtract(h)).handles == s.handles[h := Done];
    }
  }

  /** Without a constructed header an adopter looks exactly 200 times and then gives up; it changes nothing but itself. */
  lemma AdopterGivesUp(s: State, h: nat)
    requires h in s.handles && s.handles[h].Mapped? && s.count == 0
    ensures Enabled(s, Load(h)) <==> s.handles[h].spins < 200
    ensures Enabled(s, GiveUp(h)) <==> s.handles[h].spins >= 200
    ensures Enabled(s, Load(h)) ==> Apply(s, Load(h)) == s.(handles := s.handles[h := Mapped(s.handles[h].spins + 1)])
    ensures Enabled(s, GiveUp(h)) ==> Apply(s, GiveUp(h)) == s.(handles := s.handles[h := Done])
  {
  }

  /** An exchange that fails, for good reason or none, counts as a look at the counter. */
  lemma FailedExchangeLooksAgain(s: State, h: nat, spurious: bool)
    requires h in s.handles && s.handles[h].Looked? && s.handles[h].seen > 0 && (spurious || s.handles[h].seen != s.count)
    ensures Enabled(s, CompareExchange(h, spurious))
    ensures var s', spins := Apply(s, CompareExchange(h, spurious)), s.handles[h].spins;
      && s'.count == s.count
      && s'.handles == s.handles[h := if s.count == 0 then Mapped(spins + 1) else Looked(spins, s.count)]
  {
  }

  /** The creator is attached with the first reference. */
  lemma CreationCompletes(s: State)
    requires Inv(s) && s.creator in s.handles && s.handles[s.creator].Unopened?
    ensures var h := s.creator;
      && Enabled(s, Create(h))
      && var s1 := Apply(s, Create(h));
         && Enabled(s1, FinishHeader(h))
         && Apply(s1, FinishHeader(h)) == s.(count := 1, everCounted := true, handles := s.handles[h := Attached])
  {
    var h := s.creator;
    assert s.count == 0;
    hide Inv;
    assert Apply(Apply(s, Create(h)), FinishHeader(h)).handles == s.handles[h := Attached];
  }

  /** Closing gives the reference back; the last one to do so destroys the header. */
  lemma CloseCompletes(s: State, h: nat)
    requires Inv(s) && h in s.handles && s.handles[h].Attached?
    ensures s.count > 0 && Enabled(s, Close(h))
    ensures var s1 := Apply(s, Close(h));
      && Enabled(s1, Subtract(h))
      && var s2 := Apply(s1, Subtract(h));
         && s2.count == s.count - 1
         && (s.count > 1 ==> s2 == s.(count := s.count - 1, handles := s.handles[h := Done]))
         && (s.count == 1 ==> Enabled(s2, Destroy(h)))
         && (s.count == 1 ==>
               Apply(s2, Destroy(h)) == s.(count := 0, destructions := s.destructions + 1, handles := s.handles[h := Done]))
  {
    assert h in Owners(s);
    OwnersBound(s);
    hide Inv;
    var s2 := Apply(Apply(s, Close(h)), Subtract(h));
    assert s.count > 1 ==> s2.handles == s.handles[h := Done];
    if s.count == 1 {
      assert Apply(s2, Destroy(h)).handles == s.handles[h := Done];
    }
  }
}
