/** Lists of stored files (src/text_file_backend.cpp): their total size, eviction of old ones, order by time. */
module StoredFiles {
  import opened Wrappers

  datatype File = File(path: nat, size: nat, time: int)

  /** Total size of a list. */
  function Sum(files: seq<File>): (n: nat)
  {
    if files == [] then 0 else files[0].size + Sum(files[1..])
  }

  lemma {:induction false} SumAppends(a: seq<File>, b: seq<File>)
    ensures Sum(a + b) == Sum(a) + Sum(b)
    decreases |a|
  {
    if a == [] {
      assert a + b == b;
    } else {
      SumAppends(a[1..], b);
      assert (a + b)[1..] == a[1..] + b;
    }
  }

  lemma SmallSums(f: File)
    ensures Sum([]) == 0 && Sum([f]) == f.size
  {
  }

  lemma SumWithout(files: seq<File>, i: nat)
    requires i < |files|
    ensures Sum(files[..i] + files[i + 1..]) == Sum(files) - files[i].size
    ensures files[i].size <= Sum(files)
  {
    hide Sum;
    var a, f, b := files[..i], files[i], files[i + 1..];
    assert files == (a + [f]) + b;
    SumAppends(a + [f], b);
    SumAppends(a, [f]);
    SumAppends(a, b);
    SmallSums(f);
  }

  lemma Associates(a: seq<File>, b: seq<File>, c: seq<File>)
    ensures (a + b) + c == a + (b + c)
  {
  }

  // ---------------------------------------------------------------------------------------------
  // Eviction
  // ---------------------------------------------------------------------------------------------

  /** What becomes of an entry the collector wants to evict. */
  datatype Removal = Removed(freeSpace: nat) | CannotRemove | NotAFile

  datatype Limits = Limits(maxSize: nat, minFreeSpace: nat, maxFiles: nat)

  /** A new file of `size` would break a limit. */
  predicate Over(limits: Limits, files: seq<File>, size: nat, free: nat)
  {
    || Sum(files) + size > limits.maxSize
    || (limits.minFreeSpace > 0 && limits.minFreeSpace > free)
    || limits.maxFiles <= |files|
  }

  /** Free space after an attempt to evict an entry. */
  function FreeAfter(limits: Limits, removal: Removal, free: nat): (n: nat)
  {
    if removal.Removed? && limits.minFreeSpace > 0 then removal.freeSpace else free
  }

  /** The eviction loop: `kept` are the entries it had to leave, `rest` those it has not come to. */
  function Evict(limits: Limits, kept: seq<File>, rest: seq<File>, size: nat, free: nat, removal: File -> Removal): (r: seq<File>)
    decreases |rest|
  {
    if rest == [] || !Over(limits, kept + rest, size, free) then kept + rest
    else
      var outcome := removal(rest[0]);
      Evict(limits, if outcome.CannotRemove? then kept + [rest[0]] else kept, rest[1..], size,
            FreeAfter(limits, outcome, free), removal)
  }

  /** Free space after attempts to evict the entries of a list in turn. */
  function FreeAfterAll(limits: Limits, files: seq<File>, free: nat, removal: File -> Removal): (n: nat)
  {
    if files == [] then free else FreeAfterAll(limits, files[1..], FreeAfter(limits, removal(files[0]), free), removal)
  }

  /** The entries that could not be removed. */
  function Stuck(files: seq<File>, removal: File -> Removal): (r: seq<File>)
  {
    if files == [] then []
    else (if removal(files[0]).CannotRemove? then [files[0]] else []) + Stuck(files[1..], removal)
  }

  /** The state of the list after the first `k` entries were tried. */
  function AfterTrying(files: seq<File>, k: nat, removal: File -> Removal): (r: seq<File>)
    requires k <= |files|
  {
    Stuck(files[..k], removal) + files[k..]
  }

  /** They are the entries at the places of those that could not be removed. */
  lemma {:induction false} StuckArePicked(files: seq<File>, removal: File -> Removal) returns (places: seq<nat>)
    ensures Picks(places, |files|) && |places| == |Stuck(files, removal)|
    ensures forall i :: 0 <= i < |places| ==> Stuck(files, removal)[i] == files[places[i]]
    ensures forall k :: 0 <= k < |files| ==> (k in places <==> removal(files[k]) == CannotRemove)
    decreases |files|
  {
    if files == [] {
      places := [];
    } else {
      var n := |files| - 1;
      StuckAppends(files[..n], files[n], removal);
      assert files == files[..n] + [files[n]];
      places := StuckArePicked(files[..n], removal);
      if removal(files[n]).CannotRemove? {
        places := places + [n];
      }
    }
  }

  lemma {:induction false} StuckAppends(files: seq<File>, f: File, removal: File -> Removal)
    ensures Stuck(files + [f], removal) == Stuck(files, removal) + if removal(f).CannotRemove? then [f] else []
    decreases |files|
  {
    if files == [] {
      assert [] + [f] == [f];
    } else {
      assert (files + [f])[0] == files[0] && (files + [f])[1..] == files[1..] + [f];
      StuckAppends(files[1..], f, removal);
      var first := if removal(files[0]).CannotRemove? then [files[0]] else [];
      assert Stuck(files, removal) == first + Stuck(files[1..], removal);
      assert Stuck(files + [f], removal) == first + Stuck(files[1..] + [f], removal);
      hide Stuck;
      Associates(first, Stuck(files[1..], removal), if removal(f).CannotRemove? then [f] else []);
    }
  }

  /** `known` is the free space last reported when the entries of a list were tried in turn, or `free` if none was removed. */
  ghost predicate LastReported(files: seq<File>, free: nat, removal: File -> Removal, known: nat)
  {
    || ((forall i :: 0 <= i < |files| ==> !removal(files[i]).Removed?) && known == free)
    || (exists i :: 0 <= i < |files| && removal(files[i]) == Removed(known)
                 && forall j :: i < j < |files| ==> !removal(files[j]).Removed?)
  }

  lemma {:induction false} ReportsFreeSpace(limits: Limits, files: seq<File>, free: nat, removal: File -> Removal)
    requires limits.minFreeSpace > 0
    ensures LastReported(files, free, removal, FreeAfterAll(limits, files, free, removal))
    decreases |files|
  {
    if files != [] {
      var free', rest := FreeAfter(limits, removal(files[0]), free), files[1..];
      ReportsFreeSpace(limits, rest, free', removal);
      var known := FreeAfterAll(limits, files, free, removal);
      if forall i :: 0 <= i < |rest| ==> !removal(rest[i]).Removed? {
        assert forall j :: 0 < j < |files| ==> !removal(files[j]).Removed? by {
          assert forall j :: 0 < j < |files| ==> files[j] == rest[j - 1];
        }
      } else {
        var i :| 0 <= i < |rest| && removal(rest[i]) == Removed(known) && forall j :: i < j < |rest| ==> !removal(rest[j]).Removed?;
        assert files[i + 1] == rest[i];
        assert forall j :: i + 1 < j < |files| ==> files[j] == rest[j - 1];
      }
    }
  }

  lemma OneReport(files: seq<File>, free: nat, removal: File -> Removal, a: nat, b: nat)
    requires LastReported(files, free, removal, a) && LastReported(files, free, removal, b)
    ensures a == b
  {
  }

  /** The loop as a search for the prefix to try. */
  lemma {:induction false} EvictsPrefix(limits: Limits, kept: seq<File>, rest: seq<File>, size: nat, free: nat,
                                        removal: File -> Removal) returns (k: nat)
    ensures k <= |rest|
    ensures Evict(limits, kept, rest, size, free, removal) == kept + AfterTrying(rest, k, removal)
    ensures forall j :: 0 <= j < k ==>
      Over(limits, kept + AfterTrying(rest, j, removal), size, FreeAfterAll(limits, rest[..j], free, removal))
    ensures k < |rest| ==>
      !Over(limits, kept + AfterTrying(rest, k, removal), size, FreeAfterAll(limits, rest[..k], free, removal))
    decreases |rest|
  {
    hide Over;
    assert kept + AfterTrying(rest, 0, removal) == kept + rest;
    if rest == [] || !Over(limits, kept + rest, size, free) {
      k := 0;
    } else {
      var outcome := removal(rest[0]);
      var kept' := if outcome.CannotRemove? then kept + [rest[0]] else kept;
      var free' := FreeAfter(limits, outcome, free);
      var m := EvictsPrefix(limits, kept', rest[1..], size, free', removal);
      k := m + 1;
      forall j | 1 <= j <= k
        ensures kept + AfterTrying(rest, j, removal) == kept' + AfterTrying(rest[1..], j - 1, removal)
        ensures FreeAfterAll(limits, rest[..j], free, removal) == FreeAfterAll(limits, rest[1..][..j - 1], free', removal)
      {
        TriedOneMore(kept, rest, j, removal);
        assert rest[..j][1..] == rest[1..][..j - 1];
      }
    }
  }

  lemma TriedOneMore(kept: seq<File>, rest: seq<File>, j: nat, removal: File -> Removal)
    requires 1 <= j <= |rest|
    ensures kept + AfterTrying(rest, j, removal)
         == (if removal(rest[0]).CannotRemove? then kept + [rest[0]] else kept) + AfterTrying(rest[1..], j - 1, removal)
  {
    assert rest[..j][1..] == rest[1..][..j - 1];
    assert rest[1..][j - 1..] == rest[j..];
  }

  /**
   Eviction tries the shortest sufficient prefix of the list and leaves of it only what cannot be removed. Each entry was
   tried because with the new file the total was above its limit, or the count, or the free space last reported was below
   its own; and unless all entries were tried none of this holds in the end.
   */
  lemma EvictsShortestPrefix(limits: Limits, files: seq<File>, size: nat, free: nat, removal: File -> Removal) returns (k: nat)
    ensures k <= |files| && Evict(limits, [], files, size, free, removal) == Stuck(files[..k], removal) + files[k..]
    ensures forall j :: 0 <= j < k ==>
      var left := Stuck(files[..j], removal) + files[j..];
      || Sum(left) + size > limits.maxSize || |left| + 1 > limits.maxFiles
      || (limits.minFreeSpace > 0 && exists known: nat :: LastReported(files[..j], free, removal, known) && known < limits.minFreeSpace)
    ensures k < |files| ==>
      var left := Stuck(files[..k], removal) + files[k..];
      && Sum(left) + size <= limits.maxSize && |left| + 1 <= limits.maxFiles
      && (limits.minFreeSpace > 0 ==> forall known: nat :: LastReported(files[..k], free, removal, known) ==> known >= limits.minFreeSpace)
  {
    hide Sum, Stuck, LastReported, FreeAfterAll, Evict;
    k := EvictsPrefix(limits, [], files, size, free, removal);
    forall j | 0 <= j <= k
      ensures [] + AfterTrying(files, j, removal) == Stuck(files[..j], removal) + files[j..]
      ensures limits.minFreeSpace > 0 ==>
        var f := FreeAfterAll(limits, files[..j], free, removal);
        && LastReported(files[..j], free, removal, f)
        && forall known: nat :: LastReported(files[..j], free, removal, known) ==> known == f
    {
      ReportIs(limits, files[..j], free, removal);
    }
  }

  lemma ReportIs(limits: Limits, files: seq<File>, free: nat, removal: File -> Removal)
    ensures limits.minFreeSpace > 0 ==>
      var f := FreeAfterAll(limits, files, free, removal);
      LastReported(files, free, removal, f) && forall known: nat :: LastReported(files, free, removal, known) ==> known == f
  {
    hide LastReported;
    if limits.minFreeSpace > 0 {
      ReportsFreeSpace(limits, files, free, removal);
      forall known: nat | LastReported(files, free, removal, known)
        ensures known == FreeAfterAll(limits, files, free, removal)
      {
        OneReport(files, free, removal, known, FreeAfterAll(limits, files, free, removal));
      }
    }
  }

  lemma {:induction false} NothingStuck(files: seq<File>, removal: File -> Removal)
    requires forall f :: f in files ==> !removal(f).CannotRemove?
    ensures Stuck(files, removal) == []
    decreases |files|
  {
    if files != [] {
      NothingStuck(files[1..], removal);
    }
  }

  /**
   When everything can be removed, what is evicted is the shortest sufficient prefix, in numbers, and then either nothing
   is left or the new file fits all limits.
   */
  lemma EvictionSuffices(limits: Limits, files: seq<File>, size: nat, free: nat, removal: File -> Removal) returns (k: nat)
    requires forall f :: f in files ==> !removal(f).CannotRemove?
    ensures k <= |files| && Evict(limits, [], files, size, free, removal) == files[k..]
    ensures forall j :: 0 <= j < k ==>
      || Sum(files[j..]) + size > limits.maxSize || |files[j..]| + 1 > limits.maxFiles
      || (limits.minFreeSpace > 0 && exists known: nat :: LastReported(files[..j], free, removal, known) && known < limits.minFreeSpace)
    ensures k < |files| ==>
      && Sum(files[k..]) + size <= limits.maxSize && |files[k..]| + 1 <= limits.maxFiles
      && (limits.minFreeSpace > 0 ==> forall known: nat :: LastReported(files[..k], free, removal, known) ==> known >= limits.minFreeSpace)
  {
    hide Sum, Stuck, LastReported;
    k := EvictsShortestPrefix(limits, files, size, free, removal);
    forall j | 0 <= j <= k
      ensures Stuck(files[..j], removal) + files[j..] == files[j..]
    {
      NothingStuck(files[..j], removal);
    }
  }

  // ---------------------------------------------------------------------------------------------
  // Order by time
  // ---------------------------------------------------------------------------------------------

  /** Inserts a file behind the files that are not newer. */
  function InsertByTime(f: File, files: seq<File>): (r: seq<File>)
  {
    if files == [] || f.time < files[0].time then [f] + files else [files[0]] + InsertByTime(f, files[1..])
  }

  /** The stable sort of `std::list`, by time. */
  function SortByTime(files: seq<File>): (r: seq<File>)
  {
    if files == [] then []
    else InsertByTime(files[|files| - 1], SortByTime(files[..|files| - 1]))
  }

  predicate Sorted(files: seq<File>)
  {
    forall i, j :: 0 <= i < j < |files| ==> files[i].time <= files[j].time
  }

  /** The files with a given time, in list order. */
  function OfTime(files: seq<File>, time: int): (r: seq<File>)
  {
    if files == [] then [] else (if files[0].time == time then [files[0]] else []) + OfTime(files[1..], time)
  }

  lemma {:induction false} InsertAdds(f: File, files: seq<File>)
    ensures multiset(InsertByTime(f, files)) == multiset{f} + multiset(files)
    ensures Sum(InsertByTime(f, files)) == f.size + Sum(files)
    decreases |files|
  {
    var r := InsertByTime(f, files);
    if files == [] || f.time < files[0].time {
      assert r[1..] == files;
    } else {
      InsertAdds(f, files[1..]);
      assert files == [files[0]] + files[1..];
      assert r[1..] == InsertByTime(f, files[1..]);
    }
  }

  lemma SortedCons(f: File, files: seq<File>)
    requires Sorted(files) && forall g :: g in files ==> f.time <= g.time
    ensures Sorted([f] + files)
  {
  }

  lemma SortedTail(files: seq<File>)
    requires Sorted(files) && files != []
    ensures Sorted(files[1..]) && forall g :: g in files[1..] ==> files[0].time <= g.time
  {
  }

  lemma {:induction false} InsertSorts(f: File, files: seq<File>)
    requires Sorted(files)
    ensures Sorted(InsertByTime(f, files))
    decreases |files|
  {
    hide Sorted;
    if files == [] {
      EmptyIsSorted();
      SortedCons(f, files);
    } else {
      SortedTail(files);
      if f.time < files[0].time {
        assert files == [files[0]] + files[1..];
        SortedCons(f, files);
      } else {
        var rest := InsertByTime(f, files[1..]);
        InsertSorts(f, files[1..]);
        InsertAdds(f, files[1..]);
        forall g | g in rest
          ensures files[0].time <= g.time
        {
          assert g in multiset(rest);
        }
        SortedCons(files[0], rest);
      }
    }
  }

  lemma {:induction false} InsertKeepsOrder(f: File, files: seq<File>, time: int)
    requires Sorted(files)
    ensures OfTime(InsertByTime(f, files), time) == OfTime(files, time) + if f.time == time then [f] else []
    decreases |files|
  {
    var r := InsertByTime(f, files);
    if files == [] || f.time < files[0].time {
      assert r[0] == f && r[1..] == files;
      if f.time == time {
        NoneOfTime(files, time);
      }
    } else {
      InsertKeepsOrder(f, files[1..], time);
      assert r[0] == files[0] && r[1..] == InsertByTime(f, files[1..]);
    }
  }

  lemma {:induction false} NoneOfTime(files: seq<File>, time: int)
    requires forall f :: f in files ==> f.time != time
    ensures OfTime(files, time) == []
    decreases |files|
  {
    if files != [] {
      NoneOfTime(files[1..], time);
    }
  }

  lemma {:induction false} OfTimeAppends(a: seq<File>, b: seq<File>, time: int)
    ensures OfTime(a + b, time) == OfTime(a, time) + OfTime(b, time)
    decreases |a|
  {
    if a == [] {
      assert a + b == b;
    } else {
      assert (a + b)[0] == a[0] && (a + b)[1..] == a[1..] + b;
      OfTimeAppends(a[1..], b, time);
      var first := if a[0].time == time then [a[0]] else [];
      assert OfTime(a, time) == first + OfTime(a[1..], time);
      assert OfTime(a + b, time) == first + OfTime(a[1..] + b, time);
      hide OfTime;
      Associates(first, OfTime(a[1..], time), OfTime(b, time));
    }
  }

  /** Sorting orders by time, loses and adds nothing, and keeps files of the same time in their order. */
  lemma {:induction false} SortIsStable(files: seq<File>, time: int)
    ensures Sorted(SortByTime(files))
    ensures multiset(SortByTime(files)) == multiset(files)
    ensures Sum(SortByTime(files)) == Sum(files)
    ensures OfTime(SortByTime(files), time) == OfTime(files, time)
    decreases |files|
  {
    hide InsertByTime, Sorted;
    if files == [] {
      EmptyIsSorted();
    } else {
      var n := |files| - 1;
      var front, last := files[..n], files[n];
      SortIsStable(front, time);
      InsertSorts(last, SortByTime(front));
      InsertAdds(last, SortByTime(front));
      InsertKeepsOrder(last, SortByTime(front), time);
      assert files == front + [last];
      SumAppends(front, [last]);
      OfTimeAppends(front, [last], time);
    }
  }

  lemma EmptyIsSorted()
    ensures Sorted([])
  {
  }

  // ---------------------------------------------------------------------------------------------
  // File counters, which wrap around at 2^32
  // ---------------------------------------------------------------------------------------------

  const HALF: int := 0x8000_0000

  predicate IsCounter(n: nat)
  {
    n < WORD
  }

  /** The wrapping difference says that `n` is not behind `last`. */
  predicate NotBehind(n: nat, last: nat)
  {
    Low32(n - last) < HALF
  }

  /** How far a counter is past `base`, counting upwards with wrap-around. */
  function Past(n: nat, base: nat): (d: nat)
  {
    Low32(n - base)
  }

  /** Within half of the counter range, the wrapping comparison is the comparison of distances from the base. */
  lemma NotBehindIff(n: nat, last: nat, base: nat)
    requires IsCounter(n) && IsCounter(last) && IsCounter(base)
    requires Past(n, base) < HALF && Past(last, base) < HALF
    ensures NotBehind(n, last) <==> Past(n, base) >= Past(last, base)
  {
    var a, b := Past(n, base), Past(last, base);
    assert a == n - base || a == n - base + WORD;
    assert b == last - base || b == last - base + WORD;
    var d := Low32(n - last);
    assert d == n - last || d == n - last + WORD;
  }
}
