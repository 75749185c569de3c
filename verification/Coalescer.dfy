/** Coalescing of document events by class, and the counters they advance (`EventCoalescer`, `bump`). */
module Coalescer {
  import opened Text
  import opened Lists
  import opened Ccir

  datatype PendingEvent = PendingEvent(sequence: Counter, objectName: Option<string>, at: nat)

  datatype Events = Events(sequence: Counter, pending: map<string, PendingEvent>)

  /** Time is counted in nanoseconds; an event is held back for 100 milliseconds. */
  const HOLD: nat := 100_000_000

  function Emitted(e: Events, eventClass: string, objectName: Option<string>, now: nat): Events {
    Events(Bump(e.sequence), e.pending[eventClass := PendingEvent(Bump(e.sequence), objectName, now)])
  }

  predicate IsReady(eventClass: string, event: PendingEvent, force: bool, now: nat) {
    force || eventClass == "transaction" || (now >= event.at && now - event.at >= HOLD)
  }

  function Ready(e: Events, force: bool, now: nat): set<string> {
    set c | c in e.pending && IsReady(c, e.pending[c], force, now)
  }

  function Flushed(e: Events, force: bool, now: nat): Events {
    e.(pending := e.pending - Ready(e, force, now))
  }

  /** The classes are pending, each listed once, by ascending sequence number. */
  predicate BySequence(e: Events, classes: seq<string>) {
    && Distinct(classes)
    && (forall i :: 0 <= i < |classes| ==> classes[i] in e.pending)
    && (forall i, j :: 0 <= i < j < |classes| ==> e.pending[classes[i]].sequence <= e.pending[classes[j]].sequence)
  }

  /** `classes` lists the ready classes of `e`, each once, by ascending sequence number. */
  ghost predicate IsFlushOrder(e: Events, force: bool, now: nat, classes: seq<string>) {
    BySequence(e, classes) && forall c :: c in classes <==> c in Ready(e, force, now)
  }

  /** One insertion of `sort_by_key`. */
  function Inserted(e: Events, classes: seq<string>, c: string): (r: seq<string>)
    requires c in e.pending && forall i :: 0 <= i < |classes| ==> classes[i] in e.pending
    ensures forall x :: x in r <==> x in classes || x == c
  {
    if classes == [] then [c] else
      var last := classes[|classes| - 1];
      assert classes == classes[..|classes| - 1] + [last];
      if e.pending[last].sequence <= e.pending[c].sequence then classes + [c]
      else Inserted(e, classes[..|classes| - 1], c) + [last]
  }

  lemma {:induction false} InsertedKeepsOrder(e: Events, classes: seq<string>, c: string)
    requires c in e.pending && BySequence(e, classes) && c !in classes
    ensures BySequence(e, Inserted(e, classes, c))
    decreases |classes|
  {
    if classes == [] {
    } else {
      var last, front := classes[|classes| - 1], classes[..|classes| - 1];
      assert classes == front + [last];
      if e.pending[last].sequence > e.pending[c].sequence {
        InsertedKeepsOrder(e, front, c);
        AppendKeepsOrder(e, Inserted(e, front, c), last);
      } else {
        AppendKeepsOrder(e, classes, c);
      }
    }
  }

  lemma AppendKeepsOrder(e: Events, classes: seq<string>, c: string)
    requires c in e.pending && BySequence(e, classes) && c !in classes
    requires forall x :: x in classes && x in e.pending ==> e.pending[x].sequence <= e.pending[c].sequence
    ensures BySequence(e, classes + [c])
  {
  }

  class EventCoalescer {
    var sequence: Counter
    var pending: map<string, PendingEvent>

    function Value(): Events
      reads this
    {
      Events(sequence, pending)
    }

    constructor ()
      ensures Value() == Events(0, map[])
    {
      sequence := 0;
      pending := map[];
    }

    method Emit(eventClass: string, objectName: Option<string>, now: nat)
      modifies this
      ensures Value() == Emitted(old(Value()), eventClass, objectName, now)
    {
      sequence := Bump(sequence);
      pending := pending[eventClass := PendingEvent(sequence, objectName, now)];
    }

    /** The hash table is read in any order; sorting makes the result depend on the sequence numbers only. */
    method Flush(force: bool, now: nat) returns (classes: seq<string>)
      modifies this
      ensures Value() == Flushed(old(Value()), force, now)
      ensures IsFlushOrder(old(Value()), force, now, classes)
    {
      var before := Value();
      classes := [];
      var unread := before.pending.Keys;
      while unread != {}
        invariant Value() == before && unread <= before.pending.Keys && BySequence(before, classes)
        invariant forall c :: c in classes <==> c in Ready(before, force, now) && c !in unread
        decreases |unread|
      {
        var c :| c in unread;
        unread := unread - {c};
        if IsReady(c, before.pending[c], force, now) {
          InsertedKeepsOrder(before, classes, c);
          classes := Inserted(before, classes, c);
        }
      }
      assert ToSet(classes) == Ready(before, force, now);
      Remove(classes);
    }

    method Remove(classes: seq<string>)
      modifies this`pending
      ensures pending == old(pending) - ToSet(classes)
    {
      for i := 0 to |classes|
        invariant pending == old(pending) - ToSet(classes[..i])
      {
        assert classes[..i + 1] == classes[..i] + [classes[i]];
        assert ToSet(classes[..i + 1]) == ToSet(classes[..i]) + {classes[i]};
        pending := pending - {classes[i]};
      }
      assert classes[..|classes|] == classes;
    }
  }
}
