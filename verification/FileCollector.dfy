/**
 The file collector (src/text_file_backend.cpp): the list of stored files, its running total and its limits. Sizes are
 unbounded; what the file system answers is given from outside.
 */
module FileCollector {
  import opened Wrappers
  import opened StoredFiles

  /** A directory entry found by a scan, with the counter its name gave, if any. */
  datatype Entry = Entry(file: File, regular: bool, matches: bool, counter: Option<nat>)

  /** The files a scan adds to a list: regular, not yet known, and matching. */
  function Added(entries: seq<Entry>, known: set<nat>): (r: seq<File>)
  {
    if entries == [] then []
    else
      var front, last := Added(entries[..|entries| - 1], known), entries[|entries| - 1];
      if Accepted(last, known) then front + [last.file] else front
  }

  /** They are the files at the places of entries that are regular files, have a path not yet known, and match. */
  lemma {:induction false} AddedArePicked(entries: seq<Entry>, known: set<nat>) returns (places: seq<nat>)
    ensures Picks(places, |entries|) && |places| == |Added(entries, known)|
    ensures forall i :: 0 <= i < |places| ==> Added(entries, known)[i] == entries[places[i]].file
    ensures forall k :: 0 <= k < |entries| ==>
      (k in places <==> entries[k].regular && entries[k].matches && entries[k].file.path !in known)
    decreases |entries|
  {
    if entries == [] {
      places := [];
    } else {
      var n := |entries| - 1;
      places := AddedArePicked(entries[..n], known);
      if Accepted(entries[n], known) {
        places := places + [n];
      }
    }
  }

  predicate Accepted(entry: Entry, known: set<nat>)
  {
    entry.regular && entry.file.path !in known && entry.matches
  }

  /** The counters of accepted entries all lie in one half of the counter range, from `base` upwards. */
  ghost predicate Window(entries: seq<Entry>, known: set<nat>, base: nat)
  {
    && IsCounter(base)
    && forall i :: 0 <= i < |entries| && Accepted(entries[i], known) && entries[i].counter.Some? ==>
         IsCounter(entries[i].counter.value) && Past(entries[i].counter.value, base) < HALF
  }

  /** `last` is the most recent counter among the accepted entries. */
  ghost predicate IsNewest(entries: seq<Entry>, known: set<nat>, base: nat, last: Option<nat>)
  {
    && (last.Some? ==> IsCounter(last.value) && Past(last.value, base) < HALF)
    && (last.Some? ==> exists i :: 0 <= i < |entries| && Accepted(entries[i], known) && entries[i].counter == last)
    && (forall i :: 0 <= i < |entries| && Accepted(entries[i], known) && entries[i].counter.Some? ==>
          last.Some? && Past(entries[i].counter.value, base) <= Past(last.value, base))
  }

  /** The counter a scan reports: entries in directory order, each replacing the last one unless it is behind it. */
  function LastCounter(entries: seq<Entry>, known: set<nat>): (last: Option<nat>)
  {
    if entries == [] then None
    else
      var last, entry := LastCounter(entries[..|entries| - 1], known), entries[|entries| - 1];
      if Accepted(entry, known) && entry.counter.Some? && (last.None? || NotBehind(entry.counter.value, last.value))
      then entry.counter else last
  }

  /** With all counters in one half of their range the reported one is the most recent, wrap-around included. */
  lemma {:induction false} LastCounterIsNewest(entries: seq<Entry>, known: set<nat>, base: nat)
    requires Window(entries, known, base)
    ensures IsNewest(entries, known, base, LastCounter(entries, known))
    decreases |entries|
  {
    hide NotBehind, Past, Accepted;
    if entries != [] {
      var i := |entries| - 1;
      var front, entry := entries[..i], entries[i];
      assert forall j :: 0 <= j < i ==> front[j] == entries[j];
      LastCounterIsNewest(front, known, base);
      var last := LastCounter(front, known);
      if Accepted(entry, known) && entry.counter.Some? {
        if last.Some? {
          NotBehindIff(entry.counter.value, last.value, base);
        }
        NewestStep(entries, known, base, i, last);
        assert entries[..i + 1] == entries;
      } else if last.Some? {
        var k :| 0 <= k < i && Accepted(front[k], known) && front[k].counter == last;
        assert entries[k] == front[k];
      }
    }
  }

  lemma NewestStep(entries: seq<Entry>, known: set<nat>, base: nat, i: nat, last: Option<nat>)
    requires i < |entries| && Window(entries, known, base) && IsNewest(entries[..i], known, base, last)
    requires Accepted(entries[i], known) && entries[i].counter.Some?
    ensures last.None? || Past(entries[i].counter.value, base) >= Past(last.value, base) ==>
      IsNewest(entries[..i + 1], known, base, entries[i].counter)
    ensures last.Some? && Past(entries[i].counter.value, base) < Past(last.value, base) ==>
      IsNewest(entries[..i + 1], known, base, last)
  {
    hide Past, Accepted;
    var next := entries[..i + 1];
    assert next[i] == entries[i];
    assert forall j :: 0 <= j < i ==> next[j] == entries[..i][j];
    if last.Some? {
      var k :| 0 <= k < i && Accepted(entries[..i][k], known) && entries[..i][k].counter == last;
      assert next[k] == entries[..i][k];
    }
  }

  function Paths(files: seq<File>): (r: set<nat>)
  {
    set f | f in files :: f.path
  }

  class Collector {
    var limits: Limits
    var files: seq<File>
    var totalSize: nat

    /** The running total is the sum of the entries. */
    predicate Valid()
      reads this
    {
      totalSize == Sum(files)
    }

    constructor (limits: Limits)
      ensures Valid() && files == [] && this.limits == limits
    {
      this.limits := limits;
      files := [];
      totalSize := 0;
    }

    /** Takes an entry off the list and out of the total. */
    method Erase(i: nat)
      requires Valid() && i < |files|
      modifies this`files, this`totalSize
      ensures Valid() && files == old(files[..i] + files[i + 1..])
    {
      SumWithout(files, i);
      totalSize := totalSize - files[i].size;
      files := files[..i] + files[i + 1..];
    }

    /** The first entry for a path is dropped; the file itself stays. */
    method Forget(path: nat)
      requires Valid()
      modifies this`files, this`totalSize
      ensures Valid()
      ensures path !in Paths(old(files)) ==> files == old(files)
      ensures path in Paths(old(files)) ==>
        exists i :: 0 <= i < |old(files)| && old(files)[i].path == path && files == old(files)[..i] + old(files)[i + 1..]
                 && forall j :: 0 <= j < i ==> old(files)[j].path != path
    {
      var it := 0;
      while it < |files|
        invariant 0 <= it <= |files| && Valid() && files == old(files)
        invariant forall j :: 0 <= j < it ==> files[j].path != path
      {
        if files[it].path == path {
          Erase(it);
          return;
        }
        it := it + 1;
      }
    }

    /** The eviction loop. */
    method EvictOld(size: nat, freeSpace: nat, removal: File -> Removal)
      requires Valid()
      modifies this`files, this`totalSize
      ensures Valid()
      ensures files == Evict(limits, [], old(files), size, freeSpace, removal)
    {
      hide Sum;
      var it, free := 0, freeSpace;
      ghost var target := Evict(limits, [], files, size, freeSpace, removal);
      assert files[..0] == [] && files[0..] == files;
      while it < |files| &&
            (totalSize + size > limits.maxSize || (limits.minFreeSpace > 0 && limits.minFreeSpace > free) ||
             limits.maxFiles <= |files|)
        invariant 0 <= it <= |files| && Valid()
        invariant Evict(limits, files[..it], files[it..], size, free, removal) == target
        decreases |files| - it
      {
        ghost var kept, rest := files[..it], files[it..];
        assert kept + rest == files && rest[0] == files[it];
        var outcome := removal(files[it]);
        if outcome.CannotRemove? {
          it := it + 1;
          assert files[..it] == kept + [rest[0]] && files[it..] == rest[1..];
        } else {
          free := FreeAfter(limits, outcome, free);
          ghost var all := files;
          Erase(it);
          assert files == kept + rest[1..];
          assert files[..it] == kept && files[it..] == rest[1..];
        }
      }
      assert files[..it] + files[it..] == files;
    }

    /**
     `store_file`: an entry for the same file is forgotten, old files are evicted, and the new file becomes the last
     entry, unless moving it into the storage fails.
     */
    method StoreFile(file: File, inTargetDir: bool, freeSpace: nat, removal: File -> Removal, moveFails: bool)
      returns (stored: bool, ghost before: seq<File>)
      requires Valid()
      modifies this`files, this`totalSize
      ensures Valid()
      ensures !inTargetDir || file.path !in Paths(old(files)) ==> before == old(files)
      ensures inTargetDir && file.path in Paths(old(files)) ==>
        exists i :: 0 <= i < |old(files)| && old(files)[i].path == file.path && before == old(files)[..i] + old(files)[i + 1..]
                 && forall j :: 0 <= j < i ==> old(files)[j].path != file.path
      ensures stored <==> inTargetDir || !moveFails
      ensures files == Evict(limits, [], before, file.size, if limits.minFreeSpace > 0 then freeSpace else 0, removal)
                       + if stored then [file] else []
    {
      if inTargetDir {
        Forget(file.path);
      }
      before := files;
      var free := if limits.minFreeSpace > 0 then freeSpace else 0;
      EvictOld(file.size, free, removal);
      if !inTargetDir && moveFails {
        return false, before;
      }
      SumAppends(files, [file]);
      files := files + [file];
      totalSize := totalSize + file.size;
      stored := true;
    }

    /** The loop over the directory. */
    method ScanEntries(entries: seq<Entry>) returns (found: seq<File>, size: nat, last: Option<nat>)
      ensures found == Added(entries, Paths(files)) && size == Sum(found)
      ensures last == LastCounter(entries, Paths(files))
    {
      hide Sum, NotBehind;
      var known := Paths(files);
      found, size, last := [], 0, None;
      var i := 0;
      SmallSums(File(0, 0, 0));
      while i < |entries|
        invariant 0 <= i <= |entries|
        invariant found == Added(entries[..i], known) && size == Sum(found)
        invariant last == LastCounter(entries[..i], known)
      {
        var entry := entries[i];
        assert entries[..i + 1][..i] == entries[..i];
        if entry.regular && entry.file.path !in known && entry.matches {
          SumAppends(found, [entry.file]);
          SmallSums(entry.file);
          found := found + [entry.file];
          size := size + entry.file.size;
          if entry.counter.Some? && (last.None? || NotBehind(entry.counter.value, last.value)) {
            last := entry.counter;
          }
        }
        i := i + 1;
      }
      assert entries[..i] == entries;
    }

    /** `scan_for_files` in an existing directory: new files join the list, which is then ordered by time. */
    method ScanForFiles(entries: seq<Entry>) returns (count: nat, last: Option<nat>)
      requires Valid()
      modifies this`files, this`totalSize
      ensures Valid()
      ensures files == SortByTime(old(files) + Added(entries, Paths(old(files))))
      ensures count == |Added(entries, Paths(old(files)))|
      ensures last == LastCounter(entries, Paths(old(files)))
    {
      hide Sum, SortByTime, Added, LastCounter, Paths;
      var found, size, newest := ScanEntries(entries);
      SumAppends(files, found);
      SortIsStable(files + found, 0);
      count, last := |found|, newest;
      totalSize := totalSize + size;
      files := SortByTime(files + found);
    }

    /** `update`: the limits only ever become tighter. */
    method Update(maxSize: nat, minFreeSpace: nat, maxFiles: nat)
      requires Valid()
      modifies this`limits
      ensures Valid()
      ensures limits.maxSize <= maxSize && limits.maxSize <= old(limits.maxSize)
      ensures limits.minFreeSpace >= minFreeSpace && limits.minFreeSpace >= old(limits.minFreeSpace)
      ensures limits.maxFiles <= maxFiles && limits.maxFiles <= old(limits.maxFiles)
      ensures limits.maxSize == maxSize || limits.maxSize == old(limits.maxSize)
      ensures limits.minFreeSpace == minFreeSpace || limits.minFreeSpace == old(limits.minFreeSpace)
      ensures limits.maxFiles == maxFiles || limits.maxFiles == old(limits.maxFiles)
    {
      limits := Limits(if maxSize < limits.maxSize then maxSize else limits.maxSize,
                       if minFreeSpace > limits.minFreeSpace then minFreeSpace else limits.minFreeSpace,
                       if maxFiles < limits.maxFiles then maxFiles else limits.maxFiles);
    }
  }

  /**
   After a file was stored with every eviction succeeding: it is the only entry, or the size and count limits hold for
   the whole list.
   */
  lemma StoredWithinLimits(limits: Limits, before: seq<File>, file: File, free: nat, removal: File -> Removal)
    requires forall f :: f in before ==> !removal(f).CannotRemove?
    ensures var files := Evict(limits, [], before, file.size, free, removal) + [file];
      files == [file] || (Sum(files) <= limits.maxSize && |files| <= limits.maxFiles)
  {
    var k := EvictionSuffices(limits, before, file.size, free, removal);
    SumAppends(before[k..], [file]);
    assert Sum([file]) == file.size;
  }
}
