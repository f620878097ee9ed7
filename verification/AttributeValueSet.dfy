/**
 The attribute value set (src/attribute_value_set.cpp): a bucket table filled lazily from three attribute
 sets. Asking an attribute for its value may give a different value each time, so what matters is which
 attributes are asked, and how often.
 */
module AttributeValueSet {
  import opened Wrappers
  import opened BucketList
  import AttributeSet

  datatype Level = FromSource | FromThread | FromGlobal

  /** The contents of the three attribute sets. */
  datatype Overlay = Overlay(source: map<Key, Value>, thread: map<Key, Value>, global: map<Key, Value>)

  /** One request for a value. */
  datatype Ask = Ask(level: Level, key: Key)

  /** Which set the value of a key comes from: source over thread over global. */
  function Select(o: Overlay, key: Key): (l: Option<Level>)
  {
    if key in o.source then Some(FromSource)
    else if key in o.thread then Some(FromThread)
    else if key in o.global then Some(FromGlobal)
    else None
  }

  function LevelOf(o: Overlay, l: Level): (m: map<Key, Value>)
  {
    match l
    case FromSource => o.source
    case FromThread => o.thread
    case FromGlobal => o.global
  }

  function AllKeys(o: Overlay): (s: set<Key>)
  {
    o.source.Keys + o.thread.Keys + o.global.Keys
  }

  /**
   Every acquired key outside `base` was asked for once, at the level that `Select` names, and its value
   is the one given then; `values(a, n)` is the value attribute `a` gives to the `n`-th request.
   */
  ghost predicate Acquired(o: Overlay, base: set<Key>, contents: map<Key, Value>, asked: seq<Ask>, values: (Value, nat) -> Value)
  {
    && base <= contents.Keys
    && (forall i :: 0 <= i < |asked| ==>
          var a := asked[i];
          && a.key in contents && a.key !in base
          && Select(o, a.key) == Some(a.level) && a.key in LevelOf(o, a.level)
          && contents[a.key] == values(LevelOf(o, a.level)[a.key], i))
    && (forall i, j :: 0 <= i < j < |asked| ==> asked[i].key != asked[j].key)
    && (forall k :: k in contents && k !in base ==> exists i :: 0 <= i < |asked| && asked[i].key == k)
  }

  /** Nothing is acquired but `base` and keys of the three sets. */
  lemma AcquiredWithin(o: Overlay, base: set<Key>, contents: map<Key, Value>, asked: seq<Ask>, values: (Value, nat) -> Value)
    requires Acquired(o, base, contents, asked, values)
    ensures base <= contents.Keys <= base + AllKeys(o)
  {
    forall k | k in contents && k !in base
      ensures k in AllKeys(o)
    {
      var i :| 0 <= i < |asked| && asked[i].key == k;
    }
  }

  lemma AcquireOne(o: Overlay, base: set<Key>, contents: map<Key, Value>, asked: seq<Ask>, values: (Value, nat) -> Value, a: Ask)
    requires Acquired(o, base, contents, asked, values)
    requires a.key !in contents && Select(o, a.key) == Some(a.level) && a.key in LevelOf(o, a.level)
    ensures Acquired(o, base, contents[a.key := values(LevelOf(o, a.level)[a.key], |asked|)], asked + [a], values)
  {
    hide Select, LevelOf;
    var contents' := contents[a.key := values(LevelOf(o, a.level)[a.key], |asked|)];
    var asked' := asked + [a];
    forall k | k in contents' && k !in base
      ensures exists i :: 0 <= i < |asked'| && asked'[i].key == k
    {
      if k == a.key {
        assert asked'[|asked|].key == k;
      } else {
        var i :| 0 <= i < |asked| && asked[i].key == k;
        assert asked'[i].key == k;
      }
    }
  }

  /**
   Once everything is acquired, the requests made do not depend on the way there: for each key outside
   `base` exactly one, to the attribute that `Select` names, and none to a shadowed attribute.
   */
  lemma RequestsAreDetermined(o: Overlay, base: set<Key>, contents: map<Key, Value>, asked: seq<Ask>, values: (Value, nat) -> Value, a: Ask)
    requires Acquired(o, base, contents, asked, values) && contents.Keys == base + AllKeys(o)
    ensures a in asked <==> a.key !in base && Select(o, a.key) == Some(a.level)
    ensures multiset(asked)[a] <= 1
  {
    if a.key !in base && Select(o, a.key) == Some(a.level) {
      assert a.key in contents;
      var i :| 0 <= i < |asked| && asked[i].key == a.key;
      assert asked[i] == a;
    }
    OnceOnly(asked, a);
  }

  lemma {:induction false} OnceOnly(asked: seq<Ask>, a: Ask)
    requires forall i, j :: 0 <= i < j < |asked| ==> asked[i].key != asked[j].key
    ensures multiset(asked)[a] <= 1
    decreases |asked|
  {
    if asked != [] {
      var n := |asked| - 1;
      assert asked == asked[..n] + [asked[n]];
      OnceOnly(asked[..n], a);
      if asked[n] == a {
        assert a !in asked[..n];
      }
    }
  }

  /** Any number of finds followed by a freeze asks the same attributes as freezing at once, and yields the same keys. */
  lemma LazyEqualsEager(o: Overlay, base: set<Key>, lazy: map<Key, Value>, lazyAsked: seq<Ask>, eager: map<Key, Value>, eagerAsked: seq<Ask>,
                        values: (Value, nat) -> Value)
    requires Acquired(o, base, lazy, lazyAsked, values) && lazy.Keys == base + AllKeys(o)
    requires Acquired(o, base, eager, eagerAsked, values) && eager.Keys == base + AllKeys(o)
    ensures lazy.Keys == eager.Keys
    ensures multiset(lazyAsked) == multiset(eagerAsked)
  {
    forall a: Ask
      ensures multiset(lazyAsked)[a] == multiset(eagerAsked)[a]
    {
      RequestsAreDetermined(o, base, lazy, lazyAsked, values, a);
      RequestsAreDetermined(o, base, eager, eagerAsked, values, a);
      assert (a in lazyAsked <==> multiset(lazyAsked)[a] > 0) && (a in eagerAsked <==> multiset(eagerAsked)[a] > 0);
    }
  }

  /** An attribute set as the overlay reads it: its elements in list order. It does not change meanwhile. */
  datatype Attributes = Attributes(elements: map<Key, Value>, order: seq<Key>)

  ghost predicate Listed(s: Attributes)
  {
    forall k :: k in s.elements <==> k in s.order
  }

  /** One of the three sets is still pending with these elements, or all of them are acquired. */
  ghost predicate PendingOk(s: Option<Attributes>, elements: map<Key, Value>, acquired: set<Key>)
  {
    match s
    case None => elements.Keys <= acquired
    case Some(attributes) => Listed(attributes) && attributes.elements == elements
  }

  function ElementsOf(s: Option<Attributes>): (m: map<Key, Value>)
  {
    match s
    case None => map[]
    case Some(attributes) => attributes.elements
  }

  /** Nodes are the header, storage slots in use (slot `i` has address `i + 1`), or outside the storage. */
  ghost predicate StorageOk(nodes: set<Addr>, end: nat, eos: nat)
  {
    end <= eos && forall a :: a in nodes ==> a == ROOT || a <= end || eos < a
  }

  /** A value once found never changes. */
  ghost predicate Kept(before: map<Key, Value>, now: map<Key, Value>)
  {
    forall k :: k in before ==> k in now && now[k] == before[k]
  }

  lemma InsertedIsBase(o: Overlay, base: set<Key>, contents: map<Key, Value>, asked: seq<Ask>, values: (Value, nat) -> Value, key: Key, value: Value)
    requires Acquired(o, base, contents, asked, values) && key !in contents
    ensures Acquired(o, base + {key}, contents[key := value], asked, values)
  {
    hide Select, LevelOf;
  }

  lemma CopiedIsBase(o: Overlay, contents: map<Key, Value>, values: (Value, nat) -> Value)
    ensures Acquired(o, contents.Keys, contents, [], values)
  {
  }

  lemma PendingStays(s: Option<Attributes>, elements: map<Key, Value>, acquired: set<Key>, more: set<Key>)
    requires PendingOk(s, elements, acquired) && acquired <= more
    ensures PendingOk(s, elements, more)
  {
  }

  /** A key not acquired when the sets above a level are acquired is selected at that level. */
  lemma SelectsLevel(o: Overlay, level: Level, acquired: set<Key>)
    requires level != FromSource ==> o.source.Keys <= acquired
    requires level == FromGlobal ==> o.thread.Keys <= acquired
    ensures forall key :: key in LevelOf(o, level) && key !in acquired ==> Select(o, key) == Some(level)
  {
  }

  lemma SelectedKeys(o: Overlay)
    ensures forall key :: Select(o, key).Some? <==> key in AllKeys(o)
  {
  }

  lemma KeysOfAll(o: Overlay)
    ensures AllKeys(o) == o.source.Keys + o.thread.Keys + o.global.Keys
  {
  }

  lemma KeptRefl(m: map<Key, Value>)
    ensures Kept(m, m)
  {
  }

  lemma KeptTwice(a: map<Key, Value>, b: map<Key, Value>, c: map<Key, Value>)
    requires Kept(a, b) && Kept(b, c)
    ensures Kept(a, c)
  {
  }

  class ValueSet {
    const table: BucketTable
    var source: Option<Attributes>
    var thread: Option<Attributes>
    var global: Option<Attributes>
    /** Slots `0 .. end-1` of the storage behind the object are in use; `eos` is its size. */
    var end: nat
    const eos: nat
    /** Values given by attributes. */
    const values: (Value, nat) -> Value
    var askCount: nat
    ghost var overlay: Overlay
    ghost var base: set<Key>
    ghost var asked: seq<Ask>

    ghost predicate Valid()
      reads this, table
    {
      && table.Valid()
      && PendingOk(source, overlay.source, table.contents.Keys)
      && PendingOk(thread, overlay.thread, table.contents.Keys)
      && PendingOk(global, overlay.global, table.contents.Keys)
      && Acquired(overlay, base, table.contents, asked, values)
      && askCount == |asked|
      && StorageOk(table.nodes.Keys, end, eos)
    }

    /** A set with room for `elements` nodes over three attribute sets. */
    constructor (elements: nat, source: Option<Attributes>, thread: Option<Attributes>, global: Option<Attributes>,
                 values: (Value, nat) -> Value)
      requires source.Some? ==> Listed(source.value)
      requires thread.Some? ==> Listed(thread.value)
      requires global.Some? ==> Listed(global.value)
      ensures Valid() && fresh(table) && table.contents == map[] && table.entries == [] && base == {} && asked == []
      ensures this.source == source && this.thread == thread && this.global == global && this.values == values
      ensures eos == elements && end == 0
      ensures overlay == Overlay(ElementsOf(source), ElementsOf(thread), ElementsOf(global))
    {
      table := new BucketTable();
      this.source, this.thread, this.global, this.values := source, thread, global, values;
      end, eos, askCount := 0, elements, 0;
      overlay := Overlay(ElementsOf(source), ElementsOf(thread), ElementsOf(global));
      base, asked := {}, [];
      new;
      hide TableOk;
    }

    /** A slot of the storage while there is one, else a node from the system allocator. */
    method NewNode() returns (n: Addr)
      requires Valid()
      modifies this`end
      ensures end <= eos && n !in table.nodes && StorageOk(table.nodes.Keys + {n}, end, eos)
    {
      hide TableOk, Acquired, PendingOk;
      if end != eos {
        end := end + 1;
        n := end;
      } else {
        ghost var a := FreshAddress(table.nodes.Keys, eos);
        n :| n > eos && n !in table.nodes;
      }
    }

    /** Inserts the value of a key that is not acquired yet, from the attribute that `Select` names. */
    method AcquireNode(key: Key, attribute: Value, ghost level: Level, where: Option<Addr>, ghost k: nat) returns (n: Addr)
      requires Valid() && key !in table.contents && Found(table.entries, table.spans, key, where, k)
      requires Select(overlay, key) == Some(level) && key in LevelOf(overlay, level) && LevelOf(overlay, level)[key] == attribute
      modifies this`end, this`asked, this`askCount, table
      ensures Valid()
      ensures table.contents == old(table.contents)[key := values(attribute, |old(asked)|)]
      ensures asked == old(asked) + [Ask(level, key)]
      ensures n in table.nodes && table.nodes[n].key == key && table.nodes[n].value == table.contents[key]
    {
      hide TableOk, Found, Acquired, Select, LevelOf;
      var value := values(attribute, askCount);
      AcquireOne(overlay, base, table.contents, asked, values, Ask(level, key));
      n := NewNode();
      table.InsertNode(n, key, value, where, k);
      asked := asked + [Ask(level, key)];
      askCount := askCount + 1;
    }

    /** Finds an acquired value or acquires it, from the first of the three sets that has the key. */
    method Find(key: Key) returns (p: Option<Addr>)
      requires Valid()
      modifies this`end, this`asked, this`askCount, table
      ensures Valid()
      ensures p.Some? <==> key in old(table.contents) || Select(overlay, key).Some?
      ensures p.Some? ==> p.value in table.nodes && table.nodes[p.value].key == key
      ensures p.Some? ==> key in table.contents && table.nodes[p.value].value == table.contents[key]
      ensures table.contents.Keys == old(table.contents.Keys) + (if p.Some? then {key} else {})
      ensures Kept(old(table.contents), table.contents)
    {
      hide TableOk, Acquired, Found;
      ghost var k: nat;
      p, k := table.FindInBucket(key);
      AttributeSet.SearchResult(table.nodes, table.first, table.last, table.count, table.entries, table.spans, table.contents, key, p, k);
      if p != None && table.nodes[p.value].key == key {
        return;
      }
      var n: Addr;
      if source.Some? && key in source.value.elements {
        n := AcquireNode(key, source.value.elements[key], FromSource, p, k);
        return Some(n);
      }
      if thread.Some? && key in thread.value.elements {
        n := AcquireNode(key, thread.value.elements[key], FromThread, p, k);
        return Some(n);
      }
      if global.Some? && key in global.value.elements {
        n := AcquireNode(key, global.value.elements[key], FromGlobal, p, k);
        return Some(n);
      }
      p := None;
    }

    /** Acquires one key unless it is acquired already. */
    method FreezeKey(key: Key, attribute: Value, ghost level: Level)
      requires Valid() && key in LevelOf(overlay, level) && LevelOf(overlay, level)[key] == attribute
      requires key !in table.contents ==> Select(overlay, key) == Some(level)
      modifies this`end, this`asked, this`askCount, table
      ensures Valid()
      ensures table.contents.Keys == old(table.contents.Keys) + {key}
      ensures Kept(old(table.contents), table.contents)
    {
      hide TableOk, Acquired, Found, Select, LevelOf, PendingOk;
      var p, k := table.FindInBucket(key);
      AttributeSet.SearchResult(table.nodes, table.first, table.last, table.count, table.entries, table.spans, table.contents, key, p, k);
      if p == None || table.nodes[p.value].key != key {
        var n := AcquireNode(key, attribute, level, p, k);
      }
    }

    /** Acquires what is not acquired yet from one set, in list order; the sets above it are acquired already. */
    method FreezeNodesFrom(attributes: Attributes, ghost level: Level)
      requires Valid() && Listed(attributes) && attributes.elements == LevelOf(overlay, level)
      requires forall key :: key in attributes.elements && key !in table.contents ==> Select(overlay, key) == Some(level)
      modifies this`end, this`asked, this`askCount, table
      ensures Valid()
      ensures table.contents.Keys == old(table.contents.Keys) + attributes.elements.Keys
      ensures Kept(old(table.contents), table.contents)
    {
      hide TableOk, Acquired, Select, LevelOf, PendingOk;
      var i := 0;
      while i < |attributes.order|
        invariant i <= |attributes.order|
        invariant Valid()
        invariant Kept(old(table.contents), table.contents)
        invariant table.contents.Keys <= old(table.contents.Keys) + attributes.elements.Keys
        invariant forall j :: 0 <= j < i ==> attributes.order[j] in table.contents
      {
        var key := attributes.order[i];
        FreezeKey(key, attributes.elements[key], level);
        i := i + 1;
      }
    }

    /** Acquires everything that is still pending, source before thread before global. */
    method Freeze()
      requires Valid()
      modifies this`source, this`thread, this`global, this`end, this`asked, this`askCount, table
      ensures Valid()
      ensures source == thread == global == None
      ensures table.contents.Keys == old(table.contents.Keys) + AllKeys(overlay)
      ensures Kept(old(table.contents), table.contents)
    {
      hide TableOk, Acquired, Select, AllKeys, Kept;
      FreezeLevel(FromSource);
      ghost var c1 := table.contents;
      FreezeLevel(FromThread);
      ghost var c2 := table.contents;
      FreezeLevel(FromGlobal);
      KeptTwice(old(table.contents), c1, c2);
      KeptTwice(old(table.contents), c2, table.contents);
      assert AllKeys(overlay) == overlay.source.Keys + overlay.thread.Keys + overlay.global.Keys by {
        KeysOfAll(overlay);
      }
    }

    /**
     Any finds, then a freeze: whatever was looked up, before or now, every key gets the value of the attribute that
     `Select` names, each of these is asked once in all, and no other attribute is ever asked.
     */
    method FindsThenFreeze(keys: seq<Key>)
      requires Valid()
      modifies this`source, this`thread, this`global, this`end, this`asked, this`askCount, table
      ensures Valid()
      ensures table.contents.Keys == old(table.contents.Keys) + AllKeys(overlay)
      ensures Kept(old(table.contents), table.contents)
      ensures forall a: Ask :: multiset(asked)[a] == if a.key !in base && Select(overlay, a.key) == Some(a.level) then 1 else 0
    {
      hide TableOk, Acquired, PendingOk, Select, AllKeys;
      SelectedKeys(overlay);
      for i := 0 to |keys|
        invariant Valid()
        invariant Kept(old(table.contents), table.contents)
        invariant table.contents.Keys <= old(table.contents.Keys) + AllKeys(overlay)
      {
        var p := Find(keys[i]);
      }
      Freeze();
      AcquiredWithin(overlay, base, table.contents, asked, values);
      assert table.contents.Keys == base + AllKeys(overlay);
      forall a: Ask
        ensures multiset(asked)[a] == if a.key !in base && Select(overlay, a.key) == Some(a.level) then 1 else 0
      {
        RequestsAreDetermined(overlay, base, table.contents, asked, values, a);
        assert a in asked <==> multiset(asked)[a] > 0;
      }
    }

    /** One third of a freeze: acquire the rest of a pending set and forget the set. */
    method FreezeLevel(level: Level)
      requires Valid()
      requires level != FromSource ==> overlay.source.Keys <= table.contents.Keys && source == None
      requires level == FromGlobal ==> overlay.thread.Keys <= table.contents.Keys && thread == None
      modifies this`source, this`thread, this`global, this`end, this`asked, this`askCount, table
      ensures Valid()
      ensures source == (if level == FromSource then None else old(source))
      ensures thread == (if level == FromThread then None else old(thread))
      ensures global == (if level == FromGlobal then None else old(global))
      ensures table.contents.Keys == old(table.contents.Keys) + LevelOf(overlay, level).Keys
      ensures Kept(old(table.contents), table.contents)
    {
      hide TableOk, Acquired, Select, Kept;
      var pending := match level case FromSource => source case FromThread => thread case FromGlobal => global;
      KeptRefl(table.contents);
      if pending.Some? {
        SelectsLevel(overlay, level, table.contents.Keys);
        FreezeNodesFrom(pending.value, level);
        match level
        case FromSource => source := None;
        case FromThread => thread := None;
        case FromGlobal => global := None;
      }
    }

    /** Inserts a value unless the key is acquired already; such a key is never asked for. */
    method Insert(key: Key, value: Value) returns (inserted: bool)
      requires Valid()
      modifies this`end, this`base, table
      ensures Valid()
      ensures inserted <==> key !in old(table.contents)
      ensures table.contents == if inserted then old(table.contents)[key := value] else old(table.contents)
    {
      hide TableOk, Acquired, Found, PendingOk, Select, LevelOf;
      var p, k := table.FindInBucket(key);
      AttributeSet.SearchResult(table.nodes, table.first, table.last, table.count, table.entries, table.spans, table.contents, key, p, k);
      inserted := p == None || table.nodes[p.value].key != key;
      if inserted {
        InsertedIsBase(overlay, base, table.contents, asked, values, key, value);
        PendingStays(source, overlay.source, table.contents.Keys, table.contents.Keys + {key});
        PendingStays(thread, overlay.thread, table.contents.Keys, table.contents.Keys + {key});
        PendingStays(global, overlay.global, table.contents.Keys, table.contents.Keys + {key});
        var n := NewNode();
        table.InsertNode(n, key, value, p, k);
        base := base + {key};
        assert table.contents.Keys == old(table.contents.Keys) + {key};
      }
    }

    /** The unchecked copy loop: each element of another set goes to the next slot of the storage. */
    method CopyNodesFrom(from: ValueSet)
      requires Valid() && from.Valid() && table != from.table
      requires table.entries == [] && table.contents == map[] && asked == [] && base == {} && end + |from.table.entries| <= eos
      modifies this`end, this`base, table
      ensures Valid() && table.contents == from.table.contents && base == table.contents.Keys
      ensures end == old(end) + |from.table.entries| <= eos
    {
      hide TableOk, Acquired, PendingOk;
      assert table.contents.Keys == {};
      ghost var src := from.table.entries;
      var source := from.table;
      AttributeSet.FirstNode(source.nodes, source.first, source.last, source.count, src, source.spans, source.contents);
      var it := source.nodes[ROOT].next;
      ghost var i := 0;
      while it != ROOT
        invariant table.Valid() && source.Valid() && i <= |src| && it == AddrAt(src, i)
        invariant |table.entries| == i && AttributeSet.SameElements(table.entries, src)
        invariant end == old(end) + i && StorageOk(table.nodes.Keys, end, eos)
        decreases |src| - i
      {
        NodeAround(source.nodes, source.first, source.last, source.count, src, source.spans, source.contents, i);
        AttributeSet.NodeValue(source.nodes, source.first, source.last, source.count, src, source.spans, source.contents, i);
        AttributeSet.CopyStep(table.entries, table.spans, table.contents, src, source.spans, source.nodes, source.first, source.last,
                              source.count, source.contents, table.nodes, table.first, table.last, table.count);
        AttributeSet.FirstNode(table.nodes, table.first, table.last, table.count, table.entries, table.spans, table.contents);
        end := end + 1;
        table.PushBack(end, source.nodes[it].key, source.nodes[it].value);
        it := source.nodes[it].next;
        i := i + 1;
      }
      AttributeSet.EndIsRoot(source.nodes, source.first, source.last, source.count, src, source.spans, source.contents, i);
      AttributeSet.CopyDone(table.nodes, table.first, table.last, table.count, table.entries, table.spans, table.contents,
                            source.nodes, source.first, source.last, source.count, src, source.spans, source.contents);
      base := table.contents.Keys;
      PendingStays(this.source, overlay.source, {}, base);
      PendingStays(this.thread, overlay.thread, {}, base);
      PendingStays(this.global, overlay.global, {}, base);
      CopiedIsBase(overlay, table.contents, values);
    }

    /** A copy first freezes the original, so that its storage is as large as the number of elements. */
    method Copy() returns (copy: ValueSet)
      requires Valid()
      modifies this`source, this`thread, this`global, this`end, this`asked, this`askCount, table
      ensures Valid() && copy.Valid() && fresh(copy) && fresh(copy.table)
      ensures copy.table.contents == table.contents && table.contents.Keys == old(table.contents.Keys) + AllKeys(overlay)
      ensures copy.end == copy.eos == |table.contents|
    {
      Freeze();
      assert table.count == |table.entries| == |table.contents|;
      hide TableOk, Acquired, PendingOk;
      copy := new ValueSet(table.count, None, None, None, values);
      copy.CopyNodesFrom(this);
    }

    /**
     A new set over the values of this one and two attribute sets: this set is frozen to be counted, so that its elements
     take the first slots, and the storage has room for everything the attribute sets can add and `reserve` elements more.
     */
    method Over(thread: Attributes, global: Attributes, reserve: nat) returns (over: ValueSet)
      requires Valid() && Listed(thread) && Listed(global)
      modifies this`source, this`thread, this`global, this`end, this`asked, this`askCount, table
      ensures Valid() && over.Valid() && fresh(over) && fresh(over.table)
      ensures table.contents.Keys == old(table.contents.Keys) + AllKeys(overlay) && Kept(old(table.contents), table.contents)
      ensures over.table.contents == table.contents && over.base == table.contents.Keys && over.asked == []
      ensures over.overlay == Overlay(map[], thread.elements, global.elements) && over.thread == Some(thread) && over.global == Some(global)
      ensures over.end == |table.contents| && over.eos == |table.contents| + |thread.elements| + |global.elements| + reserve
    {
      Freeze();
      assert table.count == |table.entries| == |table.contents|;
      hide TableOk, Acquired, PendingOk, Kept;
      over := new ValueSet(table.count + |thread.elements| + |global.elements| + reserve, None, Some(thread), Some(global), values);
      over.CopyNodesFrom(this);
    }
  }
}
