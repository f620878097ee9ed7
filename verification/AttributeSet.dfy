/**
 The attribute set (src/attribute_set_impl.hpp): a bucket table with a pooling allocator of eight nodes.
 The system allocator returns any address that is not in use.
 */
module AttributeSet {
  import opened Wrappers
  import opened BucketList

  const MAX_POOL_SIZE: nat := 8

  /** No address twice. */
  ghost predicate Distinct(s: seq<Addr>)
  {
    forall i, j :: 0 <= i < j < |s| ==> s[i] != s[j]
  }

  /** The position behind which a copied element goes is the end of the copy made so far. */
  lemma CopyPlace(src: seq<Entry>, srcSpans: seq<Span>, copy: seq<Entry>, spans: seq<Span>)
    requires Grouped(src, srcSpans) && Grouped(copy, spans) && |copy| < |src|
    requires forall i :: 0 <= i < |copy| ==> copy[i].key == src[i].key
    ensures PlaceFor(copy, spans, src[|copy|].key, |copy|)
  {
    var n := |copy|;
    var key := src[n].key;
    var b := BucketOf(key);
    var s := spans[b];
    if s.lo < s.hi {
      assert BucketOf(copy[s.lo].key) == b && BucketOf(src[s.lo].key) == b;
      assert srcSpans[b].lo <= s.lo && n < srcSpans[b].hi;
      assert BucketOf(src[n - 1].key) == b && BucketOf(copy[n - 1].key) == b;
      forall i | s.lo <= i < n
        ensures copy[i].key < key
      {
        assert BucketOf(copy[i].key) == b;
      }
    }
  }

  /** The elements copied so far are new to the key that comes next. */
  lemma CopyIsNew(src: seq<Entry>, srcSpans: seq<Span>, copy: seq<Entry>, contents: map<Key, Value>)
    requires Grouped(src, srcSpans) && Represents(copy, contents) && |copy| < |src|
    requires forall i :: 0 <= i < |copy| ==> copy[i].key == src[i].key
    ensures src[|copy|].key !in contents
  {
    forall i | 0 <= i < |copy|
      ensures copy[i].key != src[|copy|].key
    {
      KeysDiffer(src, srcSpans, i, |copy|);
    }
  }

  /** Two lists with the same keys and values represent the same map. */
  lemma SameMap(a: seq<Entry>, b: seq<Entry>, m: map<Key, Value>, m': map<Key, Value>)
    requires Represents(a, m) && Represents(b, m') && |a| == |b|
    requires forall i :: 0 <= i < |a| ==> a[i].key == b[i].key && a[i].value == b[i].value
    ensures m == m'
  {
    forall k | k in m
      ensures k in m' && m'[k] == m[k]
    {
      var i :| 0 <= i < |a| && a[i].key == k;
      assert b[i].key == k;
    }
    forall k | k in m'
      ensures k in m
    {
      var i :| 0 <= i < |b| && b[i].key == k;
      assert a[i].key == k;
    }
  }

  /** The nodes of a table in list order. */
  method Addresses(table: BucketTable) returns (addresses: seq<Addr>)
    requires table.Valid()
    ensures |addresses| == |table.entries| && forall i :: 0 <= i < |addresses| ==> addresses[i] == table.entries[i].addr
    ensures Distinct(addresses) && ROOT !in addresses
    ensures forall a :: a in addresses ==> a in table.nodes
  {
    hide TableOk;
    FirstNode(table.nodes, table.first, table.last, table.count, table.entries, table.spans, table.contents);
    var it := table.nodes[ROOT].next;
    addresses := [];
    while it != ROOT
      invariant |addresses| <= |table.entries| && it == AddrAt(table.entries, |addresses|)
      invariant forall i :: 0 <= i < |addresses| ==> addresses[i] == table.entries[i].addr
      decreases |table.entries| - |addresses|
    {
      NodeAround(table.nodes, table.first, table.last, table.count, table.entries, table.spans, table.contents, |addresses|);
      addresses := addresses + [it];
      it := table.nodes[it].next;
    }
    EndIsRoot(table.nodes, table.first, table.last, table.count, table.entries, table.spans, table.contents, |addresses|);
    AddressesDistinct(table.nodes, table.first, table.last, table.count, table.entries, table.spans, table.contents);
  }

  lemma AddressesDistinct(nodes: map<Addr, Node>, first: seq<Option<Addr>>, last: seq<Option<Addr>>, count: nat,
                          entries: seq<Entry>, spans: seq<Span>, contents: map<Key, Value>)
    requires TableOk(nodes, first, last, count, entries, spans, contents)
    ensures forall i, j :: 0 <= i < j < |entries| ==> entries[i].addr != entries[j].addr
    ensures forall i :: 0 <= i < |entries| ==> entries[i].addr != ROOT && entries[i].addr in nodes
  {
  }

  /** The first elements of two lists carry the same keys and values. */
  ghost predicate SameElements(copy: seq<Entry>, src: seq<Entry>)
  {
    |copy| <= |src| && forall j :: 0 <= j < |copy| ==> copy[j].key == src[j].key && copy[j].value == src[j].value
  }

  /** The copy loop: walks the source list and appends each element to the new table. */
  method CopyElements(table: BucketTable, from: BucketTable)
    requires from.Valid() && table.Valid() && table.entries == [] && table != from
    modifies table
    ensures table.Valid() && table.contents == from.contents
    ensures |table.entries| == |from.entries| && SameElements(table.entries, from.entries)
  {
    hide TableOk;
    ghost var src := from.entries;
    FirstNode(from.nodes, from.first, from.last, from.count, src, from.spans, from.contents);
    var it := from.nodes[ROOT].next;
    var i := 0;
    while it != ROOT
      invariant table.Valid() && from.Valid() && i <= |src| && it == AddrAt(src, i)
      invariant |table.entries| == i && SameElements(table.entries, src)
      decreases |src| - i
    {
      NodeAround(from.nodes, from.first, from.last, from.count, src, from.spans, from.contents, i);
      NodeValue(from.nodes, from.first, from.last, from.count, src, from.spans, from.contents, i);
      CopyStep(table.entries, table.spans, table.contents, src, from.spans, from.nodes, from.first, from.last, from.count, from.contents,
               table.nodes, table.first, table.last, table.count);
      ghost var a := FreshAddress(table.nodes.Keys, ROOT);
      var n: Addr :| n !in table.nodes;
      table.PushBack(n, from.nodes[it].key, from.nodes[it].value);
      it := from.nodes[it].next;
      i := i + 1;
    }
    EndIsRoot(from.nodes, from.first, from.last, from.count, src, from.spans, from.contents, i);
    CopyDone(table.nodes, table.first, table.last, table.count, table.entries, table.spans, table.contents,
             from.nodes, from.first, from.last, from.count, src, from.spans, from.contents);
  }

  class Set {
    const table: BucketTable
    const pool: array<Addr>
    var pooledCount: nat

    ghost predicate Valid()
      reads this, table, pool
    {
      && table.Valid()
      && pool.Length == MAX_POOL_SIZE && pooledCount <= pool.Length
      && Distinct(pool[..pooledCount])
      && (forall a :: a in pool[..pooledCount] ==> a !in table.nodes)
    }

    /** The finite map the set implements. */
    ghost function Contents(): (m: map<Key, Value>)
      reads this, table
    {
      table.contents
    }

    constructor ()
      ensures Valid() && Contents() == map[] && pooledCount == 0
      ensures fresh(table) && fresh(pool)
    {
      table := new BucketTable();
      pool := new Addr[MAX_POOL_SIZE](_ => 0);
      pooledCount := 0;
    }

    /** A pooled node if there is one, else one from the system allocator. */
    method Allocate() returns (n: Addr)
      requires Valid()
      modifies this`pooledCount
      ensures Valid() && n !in table.nodes && n !in pool[..pooledCount]
    {
      if pooledCount > 0 {
        pooledCount := pooledCount - 1;
        n := pool[pooledCount];
        assert pool[..pooledCount + 1] == pool[..pooledCount] + [n];
      } else {
        ghost var a := FreshAddress(table.nodes.Keys, ROOT);
        n :| n !in table.nodes;
      }
    }

    /** Keeps the node in the pool while there is room. */
    method Deallocate(n: Addr)
      requires Valid() && n !in table.nodes && n !in pool[..pooledCount]
      modifies this`pooledCount, pool
      ensures Valid()
      ensures pool[..pooledCount] == old(pool[..pooledCount]) + (if old(pooledCount) < MAX_POOL_SIZE then [n] else [])
    {
      if pooledCount < pool.Length {
        pool[pooledCount] := n;
        pooledCount := pooledCount + 1;
        assert pool[..pooledCount] == old(pool[..pooledCount]) + [n];
      }
    }

    /** The node with the key, if the map has one. */
    method Find(key: Key) returns (p: Option<Addr>)
      requires Valid()
      ensures p.Some? <==> key in Contents()
      ensures p.Some? ==> p.value in table.nodes && table.nodes[p.value].key == key && table.nodes[p.value].value == Contents()[key]
    {
      ghost var k: nat;
      p, k := table.FindInBucket(key);
      hide TableOk, Found;
      SearchResult(table.nodes, table.first, table.last, table.count, table.entries, table.spans, table.contents, key, p, k);
      if p != None && table.nodes[p.value].key != key {
        p := None;
      }
    }

    /** Adds the key unless it is there already; an existing value is never replaced. */
    method Insert(key: Key, value: Value) returns (p: Addr, inserted: bool)
      requires Valid()
      modifies this, table
      ensures Valid()
      ensures inserted <==> key !in old(Contents())
      ensures Contents() == if inserted then old(Contents())[key := value] else old(Contents())
      ensures p in table.nodes && key in Contents() && table.nodes[p].key == key && table.nodes[p].value == Contents()[key]
    {
      hide TableOk, Found;
      var where, k := table.FindInBucket(key);
      SearchResult(table.nodes, table.first, table.last, table.count, table.entries, table.spans, table.contents, key, where, k);
      if where != None && table.nodes[where.value].key == key {
        return where.value, false;
      }
      p := Allocate();
      inserted := true;
      table.InsertNode(p, key, value, where, k);
    }

    /** Removes the element at `at`. */
    method Erase(at: Addr, ghost k: nat)
      requires Valid() && k < |table.entries| && table.entries[k].addr == at
      modifies this, table, pool
      ensures Valid()
      ensures Contents() == old(Contents()) - {old(table.entries)[k].key}
    {
      NodeValue(table.nodes, table.first, table.last, table.count, table.entries, table.spans, table.contents, k);
      hide TableOk;
      table.EraseNode(at, k);
      Deallocate(at);
    }

    /** Disposes of every node, into the pool while there is room, and resets all buckets. */
    method Clear()
      requires Valid()
      modifies this, table, pool
      ensures Valid() && Contents() == map[]
    {
      hide TableOk;
      FirstNode(table.nodes, table.first, table.last, table.count, table.entries, table.spans, table.contents);
      var disposed := Addresses(table);
      assert forall a :: a in pool[..pooledCount] ==> a !in disposed && a != ROOT;
      table.Reset();
      for i := 0 to |disposed|
        invariant Valid() && table.entries == [] && table.contents == map[] && table.nodes.Keys == {ROOT}
        invariant forall a :: a in pool[..pooledCount] ==> a !in disposed[i..]
      {
        assert disposed[i] in disposed[i..];
        Deallocate(disposed[i]);
        forall a | a in pool[..pooledCount]
          ensures a !in disposed[i + 1..]
        {
          assert disposed[i..] == [disposed[i]] + disposed[i + 1..];
        }
      }
    }

    /** A copy has the same elements in the same order, in new nodes; the pool is not copied. */
    constructor Copy(that: Set)
      requires that.Valid()
      ensures Valid() && Contents() == that.Contents() && pooledCount == 0
      ensures |table.entries| == |that.table.entries| && SameElements(table.entries, that.table.entries)
      ensures fresh(table) && fresh(pool)
    {
      table := new BucketTable();
      pool := new Addr[MAX_POOL_SIZE](_ => 0);
      pooledCount := 0;
      new;
      CopyElements(table, that.table);
    }

    method Size() returns (n: nat)
      requires Valid()
      ensures n == |Contents()|
    {
      n := table.count;
    }
  }

  /** A search result in terms of the nodes and the map. */
  lemma SearchResult(nodes: map<Addr, Node>, first: seq<Option<Addr>>, last: seq<Option<Addr>>, count: nat,
                     entries: seq<Entry>, spans: seq<Span>, contents: map<Key, Value>, key: Key, p: Option<Addr>, k: nat)
    requires TableOk(nodes, first, last, count, entries, spans, contents) && Found(entries, spans, key, p, k)
    ensures p.Some? ==> k < |entries| && p.value in nodes
    ensures key in contents <==> p.Some? && nodes[p.value].key == key
    ensures key in contents ==> contents[key] == nodes[p.value].value
  {
    FoundDecides(entries, spans, contents, key, p, k);
    FoundNode(nodes, first, last, count, entries, spans, contents, key, p, k);
    if p.Some? {
      NodeValue(nodes, first, last, count, entries, spans, contents, k);
    }
    hide Grouped, Linked, Represents, Delimited;
  }

  lemma NodeValue(nodes: map<Addr, Node>, first: seq<Option<Addr>>, last: seq<Option<Addr>>, count: nat,
                  entries: seq<Entry>, spans: seq<Span>, contents: map<Key, Value>, k: nat)
    requires TableOk(nodes, first, last, count, entries, spans, contents) && k < |entries|
    ensures var e := entries[k];
            && e.addr != ROOT && e.addr in nodes && nodes[e.addr].key == e.key && nodes[e.addr].value == e.value
            && e.key in contents && contents[e.key] == e.value
  {
  }

  lemma FirstNode(nodes: map<Addr, Node>, first: seq<Option<Addr>>, last: seq<Option<Addr>>, count: nat,
                  entries: seq<Entry>, spans: seq<Span>, contents: map<Key, Value>)
    requires TableOk(nodes, first, last, count, entries, spans, contents)
    ensures ROOT in nodes && nodes[ROOT].next == AddrAt(entries, 0)
  {
    assert LinkAt(nodes, entries, -1);
  }

  /** Walking the list, the header is met only at the end. */
  lemma EndIsRoot(nodes: map<Addr, Node>, first: seq<Option<Addr>>, last: seq<Option<Addr>>, count: nat,
                  entries: seq<Entry>, spans: seq<Span>, contents: map<Key, Value>, i: nat)
    requires TableOk(nodes, first, last, count, entries, spans, contents) && i <= |entries| && AddrAt(entries, i) == ROOT
    ensures i == |entries|
  {
  }

  /** The next element to copy is new and belongs at the end. */
  lemma CopyStep(copy: seq<Entry>, spans: seq<Span>, contents: map<Key, Value>, src: seq<Entry>, srcSpans: seq<Span>,
                 srcNodes: map<Addr, Node>, srcFirst: seq<Option<Addr>>, srcLast: seq<Option<Addr>>, srcCount: nat, srcContents: map<Key, Value>,
                 nodes: map<Addr, Node>, first: seq<Option<Addr>>, last: seq<Option<Addr>>, count: nat)
    requires TableOk(srcNodes, srcFirst, srcLast, srcCount, src, srcSpans, srcContents)
    requires TableOk(nodes, first, last, count, copy, spans, contents)
    requires SameElements(copy, src) && |copy| < |src|
    ensures src[|copy|].key !in contents && Grouped(copy, spans) && PlaceFor(copy, spans, src[|copy|].key, |copy|)
  {
    CopyIsNew(src, srcSpans, copy, contents);
    CopyPlace(src, srcSpans, copy, spans);
  }

  lemma CopyDone(nodes: map<Addr, Node>, first: seq<Option<Addr>>, last: seq<Option<Addr>>, count: nat,
                 copy: seq<Entry>, spans: seq<Span>, contents: map<Key, Value>,
                 srcNodes: map<Addr, Node>, srcFirst: seq<Option<Addr>>, srcLast: seq<Option<Addr>>, srcCount: nat,
                 src: seq<Entry>, srcSpans: seq<Span>, srcContents: map<Key, Value>)
    requires TableOk(nodes, first, last, count, copy, spans, contents)
    requires TableOk(srcNodes, srcFirst, srcLast, srcCount, src, srcSpans, srcContents)
    requires SameElements(copy, src) && |copy| == |src|
    ensures contents == srcContents
  {
    SameMap(copy, src, contents, srcContents);
  }
}
