/**
 Opening and pushing of log records by the logging core (src/core.cpp). What filters and sinks answer, and what
 they throw, is given from outside; the theorems hold for every such behaviour.
 */
module RecordCore {
  import opened Wrappers

  /** The exception handler installed in the core. A handler that throws again acts on the caller like a missing one. */
  datatype Handler = NoHandler | Suppressing | Rethrowing

  // ---------------------------------------------------------------------------------------------
  // Opening a record
  // ---------------------------------------------------------------------------------------------

  datatype Answer = Accepts | Rejects | Throws

  datatype Sink = Sink(id: nat, answer: Answer, crossThread: bool)

  /** The sinks that accept, in registration order. */
  function Accepting(sinks: seq<Sink>): (ids: seq<nat>)
    ensures |ids| <= |sinks|
  {
    if sinks == [] then []
    else
      var front := Accepting(sinks[..|sinks| - 1]);
      var last := sinks[|sinks| - 1];
      if last.answer.Accepts? then front + [last.id] else front
  }

  /** They are the ids at the places of the sinks that accept. */
  lemma {:induction false} AcceptingArePicked(sinks: seq<Sink>) returns (places: seq<nat>)
    ensures Picks(places, |sinks|) && |places| == |Accepting(sinks)|
    ensures forall i :: 0 <= i < |places| ==> Accepting(sinks)[i] == sinks[places[i]].id
    ensures forall k :: 0 <= k < |sinks| ==> (k in places <==> sinks[k].answer == Accepts)
    decreases |sinks|
  {
    if sinks == [] {
      places := [];
    } else {
      var n := |sinks| - 1;
      places := AcceptingArePicked(sinks[..n]);
      if sinks[n].answer.Accepts? {
        places := places + [n];
      }
    }
  }

  lemma {:induction false} AcceptingEmptyIff(sinks: seq<Sink>)
    ensures Accepting(sinks) == [] <==> forall s :: s in sinks ==> !s.answer.Accepts?
    decreases |sinks|
  {
    if sinks != [] {
      var n := |sinks| - 1;
      AcceptingEmptyIff(sinks[..n]);
      assert sinks == sinks[..n] + [sinks[n]];
    }
  }

  /** The part of a record that lists its accepting sinks, in storage allocated for `slots.Length` of them. */
  class PrivateData {
    const slots: array<nat>
    var count: nat
    var detachNeeded: bool

    predicate Valid()
      reads this
    {
      count <= slots.Length
    }

    function Sinks(): (ids: seq<nat>)
      requires Valid()
      reads this, slots
    {
      slots[..count]
    }

    constructor (capacity: nat)
      ensures Valid() && Sinks() == [] && !detachNeeded
      ensures fresh(slots) && slots.Length == capacity
    {
      slots := new nat[capacity];
      count := 0;
      detachNeeded := false;
    }

    /** The capacity check of the source is a precondition here: every caller is proved to respect it. */
    method PushBack(sink: Sink)
      requires Valid() && count < slots.Length
      modifies this, slots
      ensures Valid() && Sinks() == old(Sinks()) + [sink.id]
      ensures detachNeeded == (old(detachNeeded) || sink.crossThread)
    {
      slots[count] := sink.id;
      count := count + 1;
      detachNeeded := detachNeeded || sink.crossThread;
    }
  }

  /** The record lists the accepting sinks of `sinks`, or does not exist because there are none. */
  ghost predicate Lists(rec: PrivateData?, sinks: seq<Sink>)
    reads rec, if rec == null then {} else {rec.slots}
  {
    if rec == null then Accepting(sinks) == []
    else
      && rec.Valid()
      && rec.Sinks() == Accepting(sinks) && rec.Sinks() != []
      && (rec.detachNeeded <==> exists s :: s in sinks && s.answer.Accepts? && s.crossThread)
  }

  /** One call of `apply_sink_filter`; `raised` says that an exception left it. */
  method ApplySinkFilter(handler: Handler, sink: Sink, rec: PrivateData?, remaining: nat, ghost before: seq<Sink>)
    returns (next: PrivateData?, raised: bool)
    requires remaining > 0
    requires Lists(rec, before)
    requires rec != null ==> rec.count < rec.slots.Length
    modifies rec, if rec == null then {} else {rec.slots}
    ensures raised <==> sink.answer.Throws? && !handler.Suppressing?
    ensures rec != null ==> next == rec
    ensures rec == null && next != null ==> fresh(next) && fresh(next.slots) && next.slots.Length == remaining
    ensures !raised ==> Lists(next, before + [sink])
    ensures next != null ==> next.Valid() && next.count <= |Accepting(before)| + 1
    ensures rec == null && next != null ==> next.count == 1
    ensures rec != null ==> next.count <= old(rec.count) + 1
  {
    next := rec;
    raised := false;
    assert (before + [sink])[..|before|] == before;
    if sink.answer.Throws? {
      raised := !handler.Suppressing?;
    } else if sink.answer.Accepts? {
      if next == null {
        AcceptingEmptyIff(before);
        next := new PrivateData(remaining);
      }
      next.PushBack(sink);
    }
  }

  /** Offers the record to every sink, with the capacity the sinks still to come can need. */
  method ApplySinkFilters(handler: Handler, sinks: seq<Sink>) returns (rec: PrivateData?, raised: bool)
    ensures raised <==> !handler.Suppressing? && exists s :: s in sinks && s.answer.Throws?
    ensures !raised ==> Lists(rec, sinks)
    ensures rec != null ==> fresh(rec) && fresh(rec.slots)
  {
    rec, raised := null, false;
    var i := 0;
    while i < |sinks|
      invariant 0 <= i <= |sinks|
      invariant rec != null ==> fresh(rec) && fresh(rec.slots) && rec.count + (|sinks| - i) <= rec.slots.Length
      invariant Lists(rec, sinks[..i])
      invariant !handler.Suppressing? ==> forall s :: s in sinks[..i] ==> !s.answer.Throws?
    {
      hide Accepting, Lists;
      assert sinks[..i + 1] == sinks[..i] + [sinks[i]];
      rec, raised := ApplySinkFilter(handler, sinks[i], rec, |sinks| - i, sinks[..i]);
      if raised {
        assert sinks[i] in sinks;
        return;
      }
      i := i + 1;
    }
    assert sinks[..i] == sinks;
  }

  /** Whether an exception leaves `open_record`, and when it returns a record. */
  ghost predicate OpensRecord(enabled: bool, filter: Answer, handler: Handler, offered: seq<Sink>, freezeThrows: bool)
  {
    && enabled && filter.Accepts? && !freezeThrows
    && (exists s :: s in offered && s.answer.Accepts?)
    && (handler.Suppressing? || forall s :: s in offered ==> !s.answer.Throws?)
  }

  ghost predicate Raises(enabled: bool, filter: Answer, handler: Handler, offered: seq<Sink>, freezeThrows: bool)
  {
    && enabled && !handler.Suppressing?
    && (filter.Throws? || (filter.Accepts? && (freezeThrows || exists s :: s in offered && s.answer.Throws?)))
  }

  /**
   The record is offered to the registered sinks, or to the default sink when none is registered.
   A record comes out exactly when logging is enabled, the global filter passes and some sink accepts, with no
   exception left unhandled; it lists exactly the accepting sinks in order, within its allocated capacity.
   */
  method OpenRecord(enabled: bool, filter: Answer, handler: Handler, sinks: seq<Sink>, defaultSink: Sink,
                    freezeThrows: bool) returns (rec: PrivateData?, raised: bool)
    ensures sinks != [] ==> (rec != null <==> OpensRecord(enabled, filter, handler, sinks, freezeThrows))
    ensures sinks != [] ==> (raised <==> Raises(enabled, filter, handler, sinks, freezeThrows))
    ensures sinks != [] && rec != null ==> Lists(rec, sinks)
    ensures sinks == [] ==> (rec != null <==> OpensRecord(enabled, filter, handler, [defaultSink], freezeThrows))
    ensures sinks == [] ==> (raised <==> Raises(enabled, filter, handler, [defaultSink], freezeThrows))
    ensures sinks == [] && rec != null ==> Lists(rec, [defaultSink])
  {
    rec, raised := null, false;
    if !enabled {
      return;
    }
    if filter.Throws? {
      raised := !handler.Suppressing?;
      return;
    }
    if filter.Rejects? {
      return;
    }
    var offered := if sinks != [] then sinks else [defaultSink];
    rec, raised := ApplySinkFilters(handler, offered);
    AcceptingEmptyIff(offered);
    if raised {
      rec := null;
      return;
    }
    if freezeThrows {
      rec := null;
      raised := !handler.Suppressing?;
    }
  }
}
