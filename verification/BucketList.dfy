/**
 The hash table shared by both attribute containers (src/attribute_set_impl.hpp, src/attribute_value_set.cpp):
 one circular doubly linked list threaded through 16 buckets. Each bucket is one contiguous run of the
 list, sorted by key and delimited by its first and last node. Nodes live at addresses; the list header
 is the node `ROOT`.
 */
module BucketList {
  import opened Wrappers

  type Addr = nat
  type Key = nat      // attribute name identifier
  type Value = nat    // an attribute or an attribute value, never inspected

  const ROOT: Addr := 0
  const BUCKET_COUNT: nat := 16

  datatype Node = Node(key: Key, value: Value, prev: Addr, next: Addr)

  /** A list element as the specification sees it. */
  datatype Entry = Entry(addr: Addr, key: Key, value: Value)

  /** Positions `lo .. hi-1` of the list, the run of one bucket. */
  datatype Span = Span(lo: nat, hi: nat)

  function BucketOf(key: Key): (b: nat)
    ensures b < BUCKET_COUNT
  {
    key % BUCKET_COUNT
  }

  /** The system allocator can always find an address that is not in use. */
  lemma FreshAddress(inUse: set<Addr>, low: Addr) returns (a: Addr)
    ensures a > low && a !in inUse
    decreases |inUse|
  {
    if low + 1 in inUse {
      a := FreshAddress(inUse - {low + 1}, low + 1);
    } else {
      a := low + 1;
    }
  }

  // ---------------------------------------------------------------------------------------------
  // The list
  // ---------------------------------------------------------------------------------------------

  /** The address of the `i`-th element; the header comes before the first and after the last. */
  function AddrAt(entries: seq<Entry>, i: int): (a: Addr)
    requires -1 <= i <= |entries|
  {
    if i == -1 || i == |entries| then ROOT else entries[i].addr
  }

  /** The link between element `i` and the one behind it, in both directions. */
  ghost predicate LinkAt(nodes: map<Addr, Node>, entries: seq<Entry>, i: int)
    requires -1 <= i < |entries|
  {
    var a, b := AddrAt(entries, i), AddrAt(entries, i + 1);
    && a in nodes && b in nodes && nodes[a].next == b && nodes[b].prev == a
  }

  ghost predicate Linked(nodes: map<Addr, Node>, entries: seq<Entry>)
  {
    && (forall i :: -1 <= i < |entries| ==> LinkAt(nodes, entries, i))
    && (forall i :: 0 <= i < |entries| ==>
          && entries[i].addr != ROOT && entries[i].addr in nodes
          && nodes[entries[i].addr].key == entries[i].key && nodes[entries[i].addr].value == entries[i].value)
    && (forall i, j :: 0 <= i < j < |entries| ==> entries[i].addr != entries[j].addr)
  }

  /** `m_Nodes.insert` before the node at `at`. */
  function LinkBefore(nodes: map<Addr, Node>, at: Addr, e: Entry): (nodes': map<Addr, Node>)
    requires at in nodes && nodes[at].prev in nodes
  {
    var before := nodes[at].prev;
    var n1 := nodes[before := nodes[before].(next := e.addr)];
    var n2 := n1[at := n1[at].(prev := e.addr)];
    n2[e.addr := Node(e.key, e.value, before, at)]
  }

  lemma LinkBeforeKeys(nodes: map<Addr, Node>, at: Addr, e: Entry)
    requires at in nodes && nodes[at].prev in nodes
    ensures LinkBefore(nodes, at, e).Keys == nodes.Keys + {e.addr}
    ensures LinkBefore(nodes, at, e)[e.addr].key == e.key && LinkBefore(nodes, at, e)[e.addr].value == e.value
  {
  }

  /** `m_Nodes.erase`. */
  function Unlink(nodes: map<Addr, Node>, at: Addr): (nodes': map<Addr, Node>)
    requires at in nodes && nodes[at].prev in nodes && nodes[at].next in nodes
  {
    var before, behind := nodes[at].prev, nodes[at].next;
    var n1 := nodes[before := nodes[before].(next := behind)];
    n1[behind := n1[behind].(prev := before)] - {at}
  }

  lemma UnlinkKeys(nodes: map<Addr, Node>, at: Addr)
    requires at in nodes && nodes[at].prev in nodes && nodes[at].next in nodes
    ensures Unlink(nodes, at).Keys == nodes.Keys - {at}
  {
  }

  function Inserted(entries: seq<Entry>, k: nat, e: Entry): (entries': seq<Entry>)
    requires k <= |entries|
  {
    entries[..k] + [e] + entries[k..]
  }

  function Removed(entries: seq<Entry>, k: nat): (entries': seq<Entry>)
    requires k < |entries|
  {
    entries[..k] + entries[k + 1..]
  }

  lemma InsertLinks(nodes: map<Addr, Node>, entries: seq<Entry>, k: nat, e: Entry)
    requires Linked(nodes, entries) && k <= |entries|
    requires e.addr != ROOT && forall i :: 0 <= i < |entries| ==> entries[i].addr != e.addr
    ensures AddrAt(entries, k) in nodes && nodes[AddrAt(entries, k)].prev in nodes
    ensures Linked(LinkBefore(nodes, AddrAt(entries, k), e), Inserted(entries, k, e))
  {
    assert LinkAt(nodes, entries, k - 1);
    var at := AddrAt(entries, k);
    var nodes' := LinkBefore(nodes, at, e);
    var entries' := Inserted(entries, k, e);
    forall i | -1 <= i < |entries'|
      ensures LinkAt(nodes', entries', i)
    {
      assert i < k - 1 ==> LinkAt(nodes, entries, i);
      assert i > k ==> LinkAt(nodes, entries, i - 1);
    }
  }

  lemma EraseLinks(nodes: map<Addr, Node>, entries: seq<Entry>, k: nat)
    requires Linked(nodes, entries) && k < |entries|
    ensures var at := entries[k].addr;
            at in nodes && nodes[at].prev in nodes && nodes[at].next in nodes && Linked(Unlink(nodes, at), Removed(entries, k))
  {
    assert LinkAt(nodes, entries, k - 1) && LinkAt(nodes, entries, k);
    var at := entries[k].addr;
    var nodes' := Unlink(nodes, at);
    var entries' := Removed(entries, k);
    forall i | -1 <= i < |entries'|
      ensures LinkAt(nodes', entries', i)
    {
      assert i < k - 1 ==> LinkAt(nodes, entries, i);
      assert i > k - 1 ==> LinkAt(nodes, entries, i + 1);
    }
  }

  // ---------------------------------------------------------------------------------------------
  // The buckets
  // ---------------------------------------------------------------------------------------------

  /** Each bucket is the run its span says, and sorted. */
  ghost predicate Grouped(entries: seq<Entry>, spans: seq<Span>)
  {
    && |spans| == BUCKET_COUNT
    && (forall b :: 0 <= b < BUCKET_COUNT ==> spans[b].lo <= spans[b].hi <= |entries|)
    && (forall i, b :: 0 <= i < |entries| && 0 <= b < BUCKET_COUNT ==>
          (BucketOf(entries[i].key) == b <==> spans[b].lo <= i < spans[b].hi))
    && (forall i, j :: 0 <= i < j < |entries| && BucketOf(entries[i].key) == BucketOf(entries[j].key) ==>
          entries[i].key < entries[j].key)
  }

  /** The pointers of one bucket delimit its run. */
  ghost predicate BucketDelimited(first: Option<Addr>, last: Option<Addr>, entries: seq<Entry>, s: Span)
    requires s.lo <= s.hi <= |entries|
  {
    if s.lo == s.hi then first == None && last == None
    else first == Some(entries[s.lo].addr) && last == Some(entries[s.hi - 1].addr)
  }

  ghost predicate Delimited(first: seq<Option<Addr>>, last: seq<Option<Addr>>, entries: seq<Entry>, spans: seq<Span>)
    requires Grouped(entries, spans)
  {
    && |first| == |last| == BUCKET_COUNT
    && forall b :: 0 <= b < BUCKET_COUNT ==> BucketDelimited(first[b], last[b], entries, spans[b])
  }

  /** Where a key belongs: at the end of the list if its bucket is empty, else inside or at the end of the bucket's run. */
  ghost predicate PlaceFor(entries: seq<Entry>, spans: seq<Span>, key: Key, k: nat)
    requires Grouped(entries, spans)
  {
    var s := spans[BucketOf(key)];
    if s.lo == s.hi then k == |entries|
    else
      && s.lo <= k <= s.hi
      && (forall i :: s.lo <= i < k ==> entries[i].key < key)
      && (forall i :: k <= i < s.hi ==> key < entries[i].key)
  }

  /** The run of a bucket after an insertion at `k`, into this bucket or another. */
  function SpanInserted(s: Span, own: bool, k: nat): (s': Span)
  {
    if own then (if s.lo == s.hi then Span(k, k + 1) else Span(s.lo, s.hi + 1))
    else if s.lo >= k then Span(s.lo + 1, s.hi + 1) else s
  }

  function SpansInserted(spans: seq<Span>, b: nat, k: nat): (spans': seq<Span>)
    requires |spans| == BUCKET_COUNT
  {
    seq(BUCKET_COUNT, i requires 0 <= i < |spans| => SpanInserted(spans[i], i == b, k))
  }

  /** The place for a key never lies inside the run of another bucket. */
  lemma PlaceSplitsNoOther(entries: seq<Entry>, spans: seq<Span>, key: Key, k: nat, b: nat)
    requires Grouped(entries, spans) && k <= |entries| && PlaceFor(entries, spans, key, k)
    requires b < BUCKET_COUNT && b != BucketOf(key)
    ensures !(spans[b].lo < k < spans[b].hi)
  {
    var own := BucketOf(key);
    assert k < |entries| ==> (BucketOf(entries[k].key) == b <==> spans[b].lo <= k < spans[b].hi);
    assert k < |entries| ==> (BucketOf(entries[k].key) == own <==> spans[own].lo <= k < spans[own].hi);
    assert k > 0 ==> (BucketOf(entries[k - 1].key) == b <==> spans[b].lo <= k - 1 < spans[b].hi);
    assert k > 0 ==> (BucketOf(entries[k - 1].key) == own <==> spans[own].lo <= k - 1 < spans[own].hi);
  }

  /** Which bucket a position belongs to, after an insertion. */
  lemma InsertSpans(entries: seq<Entry>, spans: seq<Span>, k: nat, e: Entry, i: nat, b: nat)
    requires Grouped(entries, spans) && k <= |entries| && PlaceFor(entries, spans, e.key, k)
    requires i < |entries| + 1 && b < BUCKET_COUNT
    ensures var s := SpanInserted(spans[b], b == BucketOf(e.key), k);
            BucketOf(Inserted(entries, k, e)[i].key) == b <==> s.lo <= i < s.hi
  {
    hide BucketOf;
    if b != BucketOf(e.key) {
      PlaceSplitsNoOther(entries, spans, e.key, k, b);
    }
    if i != k {
      var j := if i < k then i else i - 1;
      assert BucketOf(entries[j].key) == b <==> spans[b].lo <= j < spans[b].hi;
    }
  }

  lemma InsertSorted(entries: seq<Entry>, spans: seq<Span>, k: nat, e: Entry, i: nat, j: nat)
    requires Grouped(entries, spans) && k <= |entries| && PlaceFor(entries, spans, e.key, k)
    requires i < j < |entries| + 1
    requires BucketOf(Inserted(entries, k, e)[i].key) == BucketOf(Inserted(entries, k, e)[j].key)
    ensures Inserted(entries, k, e)[i].key < Inserted(entries, k, e)[j].key
  {
    hide BucketOf;
    var own := BucketOf(e.key);
    if i == k {
      assert BucketOf(entries[j - 1].key) == own <==> spans[own].lo <= j - 1 < spans[own].hi;
    } else if j == k {
      assert BucketOf(entries[i].key) == own <==> spans[own].lo <= i < spans[own].hi;
    }
  }

  /** Inserting a key at its place keeps every bucket one sorted run. */
  lemma InsertGroups(entries: seq<Entry>, spans: seq<Span>, k: nat, e: Entry)
    requires Grouped(entries, spans) && k <= |entries| && PlaceFor(entries, spans, e.key, k)
    ensures Grouped(Inserted(entries, k, e), SpansInserted(spans, BucketOf(e.key), k))
  {
    var entries' := Inserted(entries, k, e);
    var spans' := SpansInserted(spans, BucketOf(e.key), k);
    forall i, b | 0 <= i < |entries'| && 0 <= b < BUCKET_COUNT
      ensures BucketOf(entries'[i].key) == b <==> spans'[b].lo <= i < spans'[b].hi
    {
      InsertSpans(entries, spans, k, e, i, b);
    }
    hide BucketOf;
    forall i, j | 0 <= i < j < |entries'| && BucketOf(entries'[i].key) == BucketOf(entries'[j].key)
      ensures entries'[i].key < entries'[j].key
    {
      InsertSorted(entries, spans, k, e, i, j);
    }
  }

  /** The run of a bucket after the removal of position `k`, from this bucket or another. */
  function SpanRemoved(s: Span, own: bool, k: nat): (s': Span)
    requires s.lo <= s.hi && (own ==> s.lo < s.hi)
  {
    if own then Span(s.lo, s.hi - 1) else if s.lo > k then Span(s.lo - 1, s.hi - 1) else s
  }

  function SpansRemoved(spans: seq<Span>, b: nat, k: nat): (spans': seq<Span>)
    requires |spans| == BUCKET_COUNT
    requires forall i :: 0 <= i < |spans| ==> spans[i].lo <= spans[i].hi
    requires b < BUCKET_COUNT && spans[b].lo < spans[b].hi
  {
    seq(BUCKET_COUNT, i requires 0 <= i < |spans| => SpanRemoved(spans[i], i == b, k))
  }

  lemma RemoveGroups(entries: seq<Entry>, spans: seq<Span>, k: nat)
    requires Grouped(entries, spans) && k < |entries|
    ensures var b := BucketOf(entries[k].key);
            spans[b].lo <= k < spans[b].hi && Grouped(Removed(entries, k), SpansRemoved(spans, b, k))
  {
    hide BucketOf;
    var own := BucketOf(entries[k].key);
    var entries' := Removed(entries, k);
    var spans' := SpansRemoved(spans, own, k);
    forall i, b | 0 <= i < |entries'| && 0 <= b < BUCKET_COUNT
      ensures BucketOf(entries'[i].key) == b <==> spans'[b].lo <= i < spans'[b].hi
    {
      var j := if i < k then i else i + 1;
      assert entries'[i] == entries[j];
      assert BucketOf(entries[j].key) == b <==> spans[b].lo <= j < spans[b].hi;
      assert BucketOf(entries[k].key) == b <==> spans[b].lo <= k < spans[b].hi;
    }
    forall i, j | 0 <= i < j < |entries'| && BucketOf(entries'[i].key) == BucketOf(entries'[j].key)
      ensures entries'[i].key < entries'[j].key
    {
      assert entries'[i] == entries[if i < k then i else i + 1];
      assert entries'[j] == entries[if j < k then j else j + 1];
    }
  }

  /** One bucket's pointers across an insertion at `k`. */
  lemma BucketInsertDelimits(first: Option<Addr>, last: Option<Addr>, entries: seq<Entry>, s: Span, k: nat, e: Entry, own: bool)
    requires s.lo <= s.hi <= |entries| && k <= |entries| && BucketDelimited(first, last, entries, s)
    requires own ==> if s.lo == s.hi then k == |entries| else s.lo <= k <= s.hi
    requires !own ==> !(s.lo < k < s.hi)
    ensures BucketDelimited(
              if own && (s.lo == s.hi || k == s.lo) then Some(e.addr) else first,
              if own && (s.lo == s.hi || k == s.hi) then Some(e.addr) else last,
              Inserted(entries, k, e), SpanInserted(s, own, k))
  {
  }

  /** The pointers after the insertion branches of the source; `s` is the run of the bucket of the new node. */
  ghost predicate PointersInserted(first: seq<Option<Addr>>, last: seq<Option<Addr>>, first': seq<Option<Addr>>, last': seq<Option<Addr>>,
                                   s: Span, b: nat, k: nat, n: Addr)
    requires |first| == |last| == BUCKET_COUNT && b < BUCKET_COUNT
  {
    && first' == (if s.lo == s.hi || k == s.lo then first[b := Some(n)] else first)
    && last' == (if s.lo == s.hi || k == s.hi then last[b := Some(n)] else last)
  }

  lemma InsertDelimits(first: seq<Option<Addr>>, last: seq<Option<Addr>>, first': seq<Option<Addr>>, last': seq<Option<Addr>>,
                       entries: seq<Entry>, spans: seq<Span>, k: nat, e: Entry)
    requires Grouped(entries, spans) && k <= |entries| && PlaceFor(entries, spans, e.key, k)
    requires Delimited(first, last, entries, spans)
    requires PointersInserted(first, last, first', last', spans[BucketOf(e.key)], BucketOf(e.key), k, e.addr)
    requires Grouped(Inserted(entries, k, e), SpansInserted(spans, BucketOf(e.key), k))
    ensures Delimited(first', last', Inserted(entries, k, e), SpansInserted(spans, BucketOf(e.key), k))
  {
    var own := BucketOf(e.key);
    assert |spans| == BUCKET_COUNT && forall b :: 0 <= b < BUCKET_COUNT ==> spans[b].lo <= spans[b].hi <= |entries|;
    hide Grouped, BucketOf, BucketDelimited, Inserted, SpanInserted;
    forall b | 0 <= b < BUCKET_COUNT
      ensures BucketDelimited(first'[b], last'[b], Inserted(entries, k, e), SpansInserted(spans, own, k)[b])
    {
      if b != own {
        PlaceSplitsNoOther(entries, spans, e.key, k, b);
      }
      BucketInsertDelimits(first[b], last[b], entries, spans[b], k, e, b == own);
    }
  }

  /** One bucket's pointers across the removal of position `k`. */
  lemma BucketRemoveDelimits(first: Option<Addr>, last: Option<Addr>, entries: seq<Entry>, s: Span, k: nat, own: bool)
    requires s.lo <= s.hi <= |entries| && k < |entries| && BucketDelimited(first, last, entries, s)
    requires own <==> s.lo <= k < s.hi
    ensures BucketDelimited(
              if own && k == s.lo then (if s.hi == s.lo + 1 then None else Some(entries[k + 1].addr)) else first,
              if own && k == s.hi - 1 then (if s.hi == s.lo + 1 then None else Some(entries[k - 1].addr)) else last,
              Removed(entries, k), SpanRemoved(s, own, k))
  {
  }

  ghost predicate PointersRemoved(first: seq<Option<Addr>>, last: seq<Option<Addr>>, first': seq<Option<Addr>>, last': seq<Option<Addr>>,
                                  entries: seq<Entry>, s: Span, b: nat, k: nat)
    requires |first| == |last| == BUCKET_COUNT && b < BUCKET_COUNT && s.lo <= k < s.hi <= |entries|
  {
    && first' == (if k == s.lo then first[b := if s.hi == s.lo + 1 then None else Some(entries[k + 1].addr)] else first)
    && last' == (if k == s.hi - 1 then last[b := if s.hi == s.lo + 1 then None else Some(entries[k - 1].addr)] else last)
  }

  lemma RemoveDelimits(first: seq<Option<Addr>>, last: seq<Option<Addr>>, first': seq<Option<Addr>>, last': seq<Option<Addr>>,
                       entries: seq<Entry>, spans: seq<Span>, k: nat)
    requires Grouped(entries, spans) && k < |entries| && Delimited(first, last, entries, spans)
    requires var b := BucketOf(entries[k].key);
             && spans[b].lo <= k < spans[b].hi
             && Grouped(Removed(entries, k), SpansRemoved(spans, b, k))
             && PointersRemoved(first, last, first', last', entries, spans[b], b, k)
    ensures Delimited(first', last', Removed(entries, k), SpansRemoved(spans, BucketOf(entries[k].key), k))
  {
    var own := BucketOf(entries[k].key);
    assert forall b :: 0 <= b < BUCKET_COUNT ==> (own == b <==> spans[b].lo <= k < spans[b].hi);
    assert |spans| == BUCKET_COUNT && forall b :: 0 <= b < BUCKET_COUNT ==> spans[b].lo <= spans[b].hi <= |entries|;
    hide Grouped, BucketOf, BucketDelimited, Removed, SpanRemoved;
    forall b | 0 <= b < BUCKET_COUNT
      ensures BucketDelimited(first'[b], last'[b], Removed(entries, k), SpansRemoved(spans, own, k)[b])
    {
      BucketRemoveDelimits(first[b], last[b], entries, spans[b], k, b == own);
    }
  }

  // ---------------------------------------------------------------------------------------------
  // The finite map it implements
  // ---------------------------------------------------------------------------------------------

  ghost predicate Represents(entries: seq<Entry>, m: map<Key, Value>)
  {
    && |m| == |entries|
    && (forall i :: 0 <= i < |entries| ==> entries[i].key in m && m[entries[i].key] == entries[i].value)
    && (forall k :: k in m ==> exists i :: 0 <= i < |entries| && entries[i].key == k)
  }

  lemma InsertRepresents(entries: seq<Entry>, m: map<Key, Value>, k: nat, e: Entry)
    requires Represents(entries, m) && k <= |entries| && e.key !in m
    ensures Represents(Inserted(entries, k, e), m[e.key := e.value])
  {
    var entries' := Inserted(entries, k, e);
    var m' := m[e.key := e.value];
    forall x | x in m'
      ensures exists i :: 0 <= i < |entries'| && entries'[i].key == x
    {
      if x == e.key {
        assert entries'[k].key == x;
      } else {
        var i :| 0 <= i < |entries| && entries[i].key == x;
        assert entries'[if i < k then i else i + 1].key == x;
      }
    }
  }

  lemma RemoveRepresents(entries: seq<Entry>, spans: seq<Span>, m: map<Key, Value>, k: nat)
    requires Represents(entries, m) && k < |entries| && Grouped(entries, spans)
    ensures Represents(Removed(entries, k), m - {entries[k].key})
  {
    forall j | 0 <= j < |entries| && j != k
      ensures entries[j].key != entries[k].key
    {
      KeysDiffer(entries, spans, j, k);
    }
    hide Grouped;
    RemoveRepresentsUnique(entries, m, k);
  }

  lemma RemoveRepresentsUnique(entries: seq<Entry>, m: map<Key, Value>, k: nat)
    requires Represents(entries, m) && k < |entries|
    requires forall j :: 0 <= j < |entries| && j != k ==> entries[j].key != entries[k].key
    ensures Represents(Removed(entries, k), m - {entries[k].key})
  {
    var entries' := Removed(entries, k);
    var m' := m - {entries[k].key};
    assert |m'| == |m| - 1 by {
      assert m.Keys == m'.Keys + {entries[k].key};
    }
    forall x | x in m'
      ensures exists i :: 0 <= i < |entries'| && entries'[i].key == x
    {
      var i :| 0 <= i < |entries| && entries[i].key == x;
      assert entries'[if i < k then i else i - 1].key == x;
    }
  }

  lemma KeysDiffer(entries: seq<Entry>, spans: seq<Span>, i: nat, j: nat)
    requires Grouped(entries, spans) && i < |entries| && j < |entries| && i != j
    ensures entries[i].key != entries[j].key
  {
  }

  // ---------------------------------------------------------------------------------------------
  // The table
  // ---------------------------------------------------------------------------------------------

  /** Every bucket is one sorted run of the list, delimited by its pointers, and the list is the map `contents`. */
  ghost predicate TableOk(nodes: map<Addr, Node>, first: seq<Option<Addr>>, last: seq<Option<Addr>>, count: nat,
                          entries: seq<Entry>, spans: seq<Span>, contents: map<Key, Value>)
  {
    && Linked(nodes, entries)
    && Grouped(entries, spans)
    && Delimited(first, last, entries, spans)
    && count == |entries|
    && Represents(entries, contents)
  }

  /** What a search in a bucket leaves: the first node not below the key, or the last node of the bucket. */
  ghost predicate Found(entries: seq<Entry>, spans: seq<Span>, key: Key, p: Option<Addr>, k: nat)
    requires Grouped(entries, spans)
  {
    var s := spans[BucketOf(key)];
    if s.lo == s.hi then p == None
    else
      && s.lo <= k < s.hi && p == Some(entries[k].addr)
      && (forall i :: s.lo <= i < k ==> entries[i].key < key)
      && (entries[k].key < key ==> k == s.hi - 1)
  }

  /** The search decides membership. */
  lemma FoundDecides(entries: seq<Entry>, spans: seq<Span>, contents: map<Key, Value>, key: Key, p: Option<Addr>, k: nat)
    requires Grouped(entries, spans) && Represents(entries, contents) && Found(entries, spans, key, p, k)
    ensures key in contents <==> p.Some? && entries[k].key == key
    ensures p.Some? && entries[k].key == key ==> contents[key] == entries[k].value
  {
    if key in contents {
      var i :| 0 <= i < |entries| && entries[i].key == key;
      OnlyPlace(entries, spans, key, p, k, i);
    }
  }

  lemma OnlyPlace(entries: seq<Entry>, spans: seq<Span>, key: Key, p: Option<Addr>, k: nat, i: nat)
    requires Grouped(entries, spans) && Found(entries, spans, key, p, k) && i < |entries| && entries[i].key == key
    ensures p.Some? && k == i
  {
    assert spans[BucketOf(key)].lo <= i < spans[BucketOf(key)].hi;
    assert BucketOf(entries[k].key) == BucketOf(key);
  }

  /** The place a new key goes to after a search. */
  function PlaceAfter(entries: seq<Entry>, p: Option<Addr>, k: nat, key: Key): (place: nat)
    requires p.Some? ==> k < |entries|
  {
    if p.None? then |entries| else if entries[k].key < key then k + 1 else k
  }

  lemma FoundGivesPlace(entries: seq<Entry>, spans: seq<Span>, key: Key, p: Option<Addr>, k: nat)
    requires Grouped(entries, spans) && Found(entries, spans, key, p, k)
    requires p.Some? ==> entries[k].key != key
    ensures PlaceAfter(entries, p, k, key) <= |entries| && PlaceFor(entries, spans, key, PlaceAfter(entries, p, k, key))
  {
    var s := spans[BucketOf(key)];
    if s.lo < s.hi {
      forall i | k <= i < s.hi && key < entries[k].key
        ensures key < entries[i].key
      {
        assert BucketOf(entries[i].key) == BucketOf(key) && BucketOf(entries[k].key) == BucketOf(key);
      }
    }
  }

  /** A table after a node was linked in at its place and the pointers were set. */
  lemma InsertTable(nodes: map<Addr, Node>, first: seq<Option<Addr>>, last: seq<Option<Addr>>, count: nat,
                    entries: seq<Entry>, spans: seq<Span>, contents: map<Key, Value>,
                    first': seq<Option<Addr>>, last': seq<Option<Addr>>, k: nat, e: Entry)
    requires TableOk(nodes, first, last, count, entries, spans, contents)
    requires k <= |entries| && PlaceFor(entries, spans, e.key, k) && e.key !in contents && e.addr !in nodes
    requires PointersInserted(first, last, first', last', spans[BucketOf(e.key)], BucketOf(e.key), k, e.addr)
    ensures AddrAt(entries, k) in nodes && nodes[AddrAt(entries, k)].prev in nodes
    ensures TableOk(LinkBefore(nodes, AddrAt(entries, k), e), first', last', count + 1,
                    Inserted(entries, k, e), SpansInserted(spans, BucketOf(e.key), k), contents[e.key := e.value])
  {
    assert LinkAt(nodes, entries, -1);
    InsertLinks(nodes, entries, k, e);
    InsertGroups(entries, spans, k, e);
    InsertDelimits(first, last, first', last', entries, spans, k, e);
    InsertRepresents(entries, contents, k, e);
    hide Linked, Grouped, Delimited, Represents, LinkBefore, SpansInserted, BucketOf;
  }

  /** A table after a node was unlinked and the pointers were set. */
  lemma RemoveTable(nodes: map<Addr, Node>, first: seq<Option<Addr>>, last: seq<Option<Addr>>, count: nat,
                    entries: seq<Entry>, spans: seq<Span>, contents: map<Key, Value>,
                    first': seq<Option<Addr>>, last': seq<Option<Addr>>, k: nat)
    requires TableOk(nodes, first, last, count, entries, spans, contents) && k < |entries|
    requires var b := BucketOf(entries[k].key);
             spans[b].lo <= k < spans[b].hi && PointersRemoved(first, last, first', last', entries, spans[b], b, k)
    ensures var at := entries[k].addr;
            && at in nodes && nodes[at].prev in nodes && nodes[at].next in nodes
            && TableOk(Unlink(nodes, at), first', last', count - 1, Removed(entries, k),
                       SpansRemoved(spans, BucketOf(entries[k].key), k), contents - {entries[k].key})
  {
    EraseLinks(nodes, entries, k);
    RemoveGroups(entries, spans, k);
    RemoveDelimits(first, last, first', last', entries, spans, k);
    RemoveRepresents(entries, spans, contents, k);
    hide Linked, Delimited, Represents, Unlink, SpansRemoved, BucketOf;
  }

  /** Pointers and links around a search result. */
  lemma FoundNode(nodes: map<Addr, Node>, first: seq<Option<Addr>>, last: seq<Option<Addr>>, count: nat,
                  entries: seq<Entry>, spans: seq<Span>, contents: map<Key, Value>, key: Key, p: Option<Addr>, k: nat)
    requires TableOk(nodes, first, last, count, entries, spans, contents) && Found(entries, spans, key, p, k)
    ensures var b := BucketOf(key);
            var s := spans[b];
            && |first| == |last| == BUCKET_COUNT
            && (first[b] == None <==> s.lo == s.hi) && (p == None <==> s.lo == s.hi)
            && (p.Some? ==>
                  && k < |entries| && p.value in nodes && nodes[p.value].key == entries[k].key
                  && nodes[p.value].next == AddrAt(entries, k + 1) && p.value == AddrAt(entries, k)
                  && (p == last[b] <==> k == s.hi - 1) && (p == first[b] <==> k == s.lo))
  {
    if p.Some? {
      assert LinkAt(nodes, entries, k);
      assert BucketDelimited(first[BucketOf(key)], last[BucketOf(key)], entries, spans[BucketOf(key)]);
      hide BucketOf, Represents;
    }
  }

  /** The pointers a node appended at the end of the list calls for. */
  lemma PointersAtEnd(nodes: map<Addr, Node>, first: seq<Option<Addr>>, last: seq<Option<Addr>>, count: nat,
                      entries: seq<Entry>, spans: seq<Span>, contents: map<Key, Value>, key: Key, n: Addr)
    requires TableOk(nodes, first, last, count, entries, spans, contents) && PlaceFor(entries, spans, key, |entries|)
    ensures |first| == |last| == |spans| == BUCKET_COUNT && AddrAt(entries, |entries|) == ROOT
    ensures var b := BucketOf(key);
            PointersInserted(first, last, if first[b] == None then first[b := Some(n)] else first, last[b := Some(n)],
                             spans[b], b, |entries|, n)
  {
    var b := BucketOf(key);
    assert BucketDelimited(first[b], last[b], entries, spans[b]);
    hide BucketOf;
  }

  /** Pointers and links around the `k`-th node. */
  lemma NodeAround(nodes: map<Addr, Node>, first: seq<Option<Addr>>, last: seq<Option<Addr>>, count: nat,
                   entries: seq<Entry>, spans: seq<Span>, contents: map<Key, Value>, k: nat)
    requires TableOk(nodes, first, last, count, entries, spans, contents) && k < |entries|
    ensures |first| == |last| == |spans| == BUCKET_COUNT && count == |entries|
    ensures forall b :: 0 <= b < BUCKET_COUNT ==> spans[b].lo <= spans[b].hi
    ensures var at := entries[k].addr;
            && at in nodes && nodes[at].key == entries[k].key
            && nodes[at].prev == AddrAt(entries, k - 1) && nodes[at].next == AddrAt(entries, k + 1)
            && var b := BucketOf(entries[k].key);
               var s := spans[b];
               && s.lo <= k < s.hi <= |entries|
               && (Some(at) == first[b] <==> k == s.lo) && (Some(at) == last[b] <==> k == s.hi - 1)
  {
    LinksAround(nodes, entries, k);
    BucketAround(first, last, entries, spans, k);
    hide Linked, Delimited, Represents, BucketOf;
  }

  lemma LinksAround(nodes: map<Addr, Node>, entries: seq<Entry>, k: nat)
    requires Linked(nodes, entries) && k < |entries|
    ensures var at := entries[k].addr;
            && at in nodes && nodes[at].key == entries[k].key
            && nodes[at].prev == AddrAt(entries, k - 1) && nodes[at].next == AddrAt(entries, k + 1)
    ensures forall i :: 0 <= i < |entries| && entries[i].addr == entries[k].addr ==> i == k
  {
    assert LinkAt(nodes, entries, k - 1) && LinkAt(nodes, entries, k);
  }

  lemma BucketAround(first: seq<Option<Addr>>, last: seq<Option<Addr>>, entries: seq<Entry>, spans: seq<Span>, k: nat)
    requires Grouped(entries, spans) && Delimited(first, last, entries, spans) && k < |entries|
    requires forall i :: 0 <= i < |entries| && entries[i].addr == entries[k].addr ==> i == k
    ensures var b := BucketOf(entries[k].key);
            var s := spans[b];
            && s.lo <= k < s.hi <= |entries|
            && (Some(entries[k].addr) == first[b] <==> k == s.lo) && (Some(entries[k].addr) == last[b] <==> k == s.hi - 1)
  {
    hide BucketOf;
    var b := BucketOf(entries[k].key);
    assert BucketDelimited(first[b], last[b], entries, spans[b]);
  }

  lemma EmptyTable(nodes: map<Addr, Node>, first: seq<Option<Addr>>, last: seq<Option<Addr>>, spans: seq<Span>)
    requires nodes == map[ROOT := Node(0, 0, ROOT, ROOT)]
    requires |first| == |last| == |spans| == BUCKET_COUNT
    requires forall b :: 0 <= b < BUCKET_COUNT ==> first[b] == None && last[b] == None && spans[b] == Span(0, 0)
    ensures TableOk(nodes, first, last, 0, [], spans, map[])
  {
    assert LinkAt(nodes, [], -1);
  }

  class BucketTable {
    var nodes: map<Addr, Node>
    var first: seq<Option<Addr>>
    var last: seq<Option<Addr>>
    var count: nat
    ghost var entries: seq<Entry>
    ghost var spans: seq<Span>
    ghost var contents: map<Key, Value>

    ghost predicate Valid()
      reads this
    {
      TableOk(nodes, first, last, count, entries, spans, contents)
    }

    constructor ()
      ensures Valid() && contents == map[] && entries == [] && nodes.Keys == {ROOT}
    {
      nodes := map[ROOT := Node(0, 0, ROOT, ROOT)];
      first := seq(BUCKET_COUNT, _ => None);
      last := seq(BUCKET_COUNT, _ => None);
      count := 0;
      entries, contents := [], map[];
      spans := seq(BUCKET_COUNT, _ => Span(0, 0));
      new;
      EmptyTable(nodes, first, last, spans);
    }

    /** Walks a bucket while its keys are below the one sought; keys are sorted, so it can stop early. */
    method FindInBucket(key: Key) returns (p: Option<Addr>, ghost k: nat)
      requires Valid()
      ensures Found(entries, spans, key, p, k)
      ensures p.Some? ==> p.value in nodes
      ensures p.Some? && nodes[p.value].key == key <==> key in contents
    {
      var b := BucketOf(key);
      p, k := WalkBucket(key, b);
      FoundDecides(entries, spans, contents, key, p, k);
      if p.Some? {
        assert LinkAt(nodes, entries, k);
      }
    }

    method WalkBucket(key: Key, b: nat) returns (p: Option<Addr>, ghost k: nat)
      requires Valid() && b == BucketOf(key)
      ensures Found(entries, spans, key, p, k)
    {
      hide BucketOf, Represents;
      ghost var s := spans[b];
      p := first[b];
      k := s.lo;
      if p == None {
        return;
      }
      while p != last[b] && nodes[p.value].key < key
        invariant p.Some? && s.lo <= k < s.hi && p == Some(entries[k].addr)
        invariant forall i :: s.lo <= i < k ==> entries[i].key < key
        decreases s.hi - k
      {
        assert LinkAt(nodes, entries, k);
        p := Some(nodes[p.value].next);
        k := k + 1;
      }
    }

    /** The branches that keep each bucket contiguous and sorted: before which node to insert, and the new pointers. */
    method InsertionPoint(n: Addr, key: Key, p: Option<Addr>, ghost k: nat)
      returns (at: Addr, first': seq<Option<Addr>>, last': seq<Option<Addr>>, ghost place: nat)
      requires Valid() && key !in contents && Found(entries, spans, key, p, k)
      ensures (p.Some? ==> k < |entries|) && place == PlaceAfter(entries, p, k, key) <= |entries|
      ensures PlaceFor(entries, spans, key, place)
      ensures at == AddrAt(entries, place)
      ensures |first| == |last| == |spans| == BUCKET_COUNT
      ensures PointersInserted(first, last, first', last', spans[BucketOf(key)], BucketOf(key), place, n)
    {
      place := PlaceAfter(entries, p, k, key);
      FoundDecides(entries, spans, contents, key, p, k);
      FoundGivesPlace(entries, spans, key, p, k);
      FoundNode(nodes, first, last, count, entries, spans, contents, key, p, k);
      hide TableOk, Grouped, PlaceFor, Linked, Represents, Delimited;
      var b := BucketOf(key);
      hide BucketOf;
      first', last' := first, last;
      if first[b] == None {
        first', last' := first[b := Some(n)], last[b := Some(n)];
        at := ROOT;
      } else if p == last[b] && key > nodes[p.value].key {
        at := nodes[p.value].next;
        last' := last[b := Some(n)];
      } else if p == first[b] {
        at := p.value;
        first' := first[b := Some(n)];
      } else {
        at := p.value;
      }
    }

    /** Inserts a node for a key that a search has shown to be missing; `p` and `k` come from that search. */
    method InsertNode(n: Addr, key: Key, value: Value, p: Option<Addr>, ghost k: nat)
      requires Valid() && n !in nodes && key !in contents && Found(entries, spans, key, p, k)
      modifies this
      ensures Valid()
      ensures contents == old(contents)[key := value]
      ensures old(PlaceAfter(entries, p, k, key)) <= |old(entries)|
      ensures entries == Inserted(old(entries), old(PlaceAfter(entries, p, k, key)), Entry(n, key, value))
      ensures nodes.Keys == old(nodes.Keys) + {n} && nodes[n].key == key && nodes[n].value == value
    {
      hide TableOk, Grouped, PlaceFor, Linked, Represents, Delimited, LinkBefore, Inserted, SpansInserted,
           PointersInserted, BucketOf, AddrAt, PlaceAfter, Found;
      var at, first', last', place := InsertionPoint(n, key, p, k);
      var e := Entry(n, key, value);
      InsertTable(nodes, first, last, count, entries, spans, contents, first', last', place, e);
      LinkBeforeKeys(nodes, at, e);
      nodes := LinkBefore(nodes, at, e);
      first, last, count := first', last', count + 1;
      entries, spans, contents := Inserted(entries, place, e), SpansInserted(spans, BucketOf(key), place), contents[key := value];
    }

    /** Appends a node; the caller copies from a table in list order, so the place of the key is the end. */
    method PushBack(n: Addr, key: Key, value: Value)
      requires Valid() && n !in nodes && key !in contents && PlaceFor(entries, spans, key, |entries|)
      modifies this
      ensures Valid()
      ensures contents == old(contents)[key := value]
      ensures entries == old(entries) + [Entry(n, key, value)]
      ensures nodes.Keys == old(nodes.Keys) + {n}
    {
      hide TableOk, Grouped, PlaceFor, Linked, Represents, Delimited, LinkBefore, SpansInserted, PointersInserted, BucketOf, AddrAt;
      var b := BucketOf(key);
      var e := Entry(n, key, value);
      var first', last' := first, last;
      PointersAtEnd(nodes, first, last, count, entries, spans, contents, key, n);
      if first[b] == None {
        first', last' := first[b := Some(n)], last[b := Some(n)];
      } else {
        last' := last[b := Some(n)];
      }
      InsertTable(nodes, first, last, count, entries, spans, contents, first', last', |entries|, e);
      LinkBeforeKeys(nodes, ROOT, e);
      nodes := LinkBefore(nodes, ROOT, e);
      first, last, count := first', last', count + 1;
      spans, contents := SpansInserted(spans, b, |entries|), contents[key := value];
      entries := Inserted(entries, |entries|, e);
    }

    /** Removes the node at `at`, whose position in the list is `k`. */
    method EraseNode(at: Addr, ghost k: nat)
      requires Valid() && k < |entries| && entries[k].addr == at
      modifies this
      ensures Valid()
      ensures contents == old(contents) - {old(entries)[k].key}
      ensures entries == Removed(old(entries), k)
      ensures nodes.Keys == old(nodes.Keys) - {at}
    {
      hide TableOk, Grouped, Linked, Represents, Delimited, Unlink, SpansRemoved, BucketOf, Removed;
      NodeAround(nodes, first, last, count, entries, spans, contents, k);
      var b := BucketOf(nodes[at].key);
      var first', last' := first, last;
      if Some(at) == first[b] {
        if Some(at) == last[b] {
          first', last' := first[b := None], last[b := None];
        } else {
          first' := first[b := Some(nodes[at].next)];
        }
      } else if Some(at) == last[b] {
        last' := last[b := Some(nodes[at].prev)];
      }
      RemoveTable(nodes, first, last, count, entries, spans, contents, first', last', k);
      UnlinkKeys(nodes, at);
      nodes := Unlink(nodes, at);
      first, last, count := first', last', count - 1;
      contents := contents - {entries[k].key};
      entries, spans := Removed(entries, k), SpansRemoved(spans, b, k);
    }

    /** Empties list and buckets; the nodes themselves are the caller's to dispose of. */
    method Reset()
      requires Valid()
      modifies this
      ensures Valid() && contents == map[] && entries == [] && nodes.Keys == {ROOT}
    {
      hide TableOk;
      nodes := map[ROOT := Node(0, 0, ROOT, ROOT)];
      first := seq(BUCKET_COUNT, _ => None);
      last := seq(BUCKET_COUNT, _ => None);
      count := 0;
      entries, contents := [], map[];
      spans := seq(BUCKET_COUNT, _ => Span(0, 0));
      EmptyTable(nodes, first, last, spans);
    }
  }
}
