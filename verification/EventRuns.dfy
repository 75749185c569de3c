/** What interleavings of emitted and flushed events do to the revision counters. */
module EventRuns {
  import opened Text
  import opened Lists
  import opened Ccir
  import opened Coalescer

  // ----- Counters by event class (`bump`) -----

  datatype CounterName = Geometry | Metadata | Focus | View

  function CounterOf(eventClass: string): Option<CounterName> {
    match eventClass
    case "geometry" => Some(Geometry)
    case "parametric" => Some(Geometry)
    case "transaction" => Some(Geometry)
    case "metadata" => Some(Metadata)
    case "focus" => Some(Focus)
    case "view" => Some(View)
    case _ => None
  }

  function CounterValue(r: Revision, n: CounterName): Counter {
    match n
    case Geometry => r.geometry
    case Metadata => r.metadata
    case Focus => r.focus
    case View => r.view
  }

  function BumpCounter(r: Revision, n: CounterName): Revision {
    match n
    case Geometry => r.(geometry := Bump(r.geometry))
    case Metadata => r.(metadata := Bump(r.metadata))
    case Focus => r.(focus := Bump(r.focus))
    case View => r.(view := Bump(r.view))
  }

  function BumpClass(r: Revision, eventClass: string): Revision {
    match CounterOf(eventClass)
    case None => r
    case Some(n) => BumpCounter(r, n)
  }

  function BumpAll(r: Revision, classes: seq<string>): Revision {
    if classes == [] then r
    else BumpClass(BumpAll(r, classes[..|classes| - 1]), classes[|classes| - 1])
  }

  /** The sum of a counter and `k` bumps. */
  function Plus(n: Counter, k: nat): Counter {
    (n + k) % U64_SIZE
  }

  lemma PlusBump(n: Counter, k: nat)
    ensures Plus(n, 0) == n && Bump(Plus(n, k)) == Plus(n, k + 1)
  {
    var q, r := (n + k) / U64_SIZE, (n + k) % U64_SIZE;
    assert n + k + 1 == q * U64_SIZE + (r + 1);
    if r + 1 == U64_SIZE {
      assert n + k + 1 == (q + 1) * U64_SIZE;
    }
  }

  /** How many of `classes` advance counter `n`. */
  function CountFor(classes: seq<string>, n: CounterName): (k: nat)
    ensures k <= |classes|
  {
    if classes == [] then 0
    else CountFor(classes[..|classes| - 1], n) + if CounterOf(classes[|classes| - 1]) == Some(n) then 1 else 0
  }

  function ClassesFor(classes: set<string>, n: CounterName): set<string> {
    set c | c in classes && CounterOf(c) == Some(n)
  }

  lemma {:induction false} BumpAllCounts(r: Revision, classes: seq<string>, n: CounterName)
    ensures CounterValue(BumpAll(r, classes), n) == Plus(CounterValue(r, n), CountFor(classes, n))
    ensures BumpAll(r, classes).epoch == r.epoch
  {
    if classes == [] {
      PlusBump(CounterValue(r, n), 0);
    } else {
      BumpAllCounts(r, classes[..|classes| - 1], n);
      PlusBump(CounterValue(r, n), CountFor(classes[..|classes| - 1], n));
    }
  }

  lemma {:induction false} DistinctCount(classes: seq<string>, n: CounterName)
    requires Distinct(classes)
    ensures CountFor(classes, n) == |ClassesFor(ToSet(classes), n)|
  {
    hide CounterOf;
    if classes == [] {
      assert ClassesFor(ToSet(classes), n) == {};
    } else {
      var last, front := classes[|classes| - 1], classes[..|classes| - 1];
      assert classes == front + [last];
      DistinctCount(front, n);
      assert last !in ToSet(front);
      hide Distinct;
      assert ToSet(classes) == ToSet(front) + {last};
      ClassesWith(ToSet(front), last, n);
    }
  }

  lemma RevisionByCounters(a: Revision, b: Revision)
    requires a.epoch == b.epoch && forall n :: CounterValue(a, n) == CounterValue(b, n)
    ensures a == b
  {
    assert CounterValue(a, Geometry) == CounterValue(b, Geometry) && CounterValue(a, Metadata) == CounterValue(b, Metadata);
    assert CounterValue(a, Focus) == CounterValue(b, Focus) && CounterValue(a, View) == CounterValue(b, View);
  }

  /** The revision after a flush does not depend on the order in which the classes were listed. */
  lemma BumpOrderIrrelevant(r: Revision, a: seq<string>, b: seq<string>)
    requires Distinct(a) && Distinct(b) && ToSet(a) == ToSet(b)
    ensures BumpAll(r, a) == BumpAll(r, b)
  {
    forall n ensures CounterValue(BumpAll(r, a), n) == CounterValue(BumpAll(r, b), n) {
      BumpAllCounts(r, a, n);
      BumpAllCounts(r, b, n);
      DistinctCount(a, n);
      DistinctCount(b, n);
    }
    BumpAllCounts(r, a, Geometry);
    BumpAllCounts(r, b, Geometry);
    RevisionByCounters(BumpAll(r, a), BumpAll(r, b));
  }

  // ----- Interleavings -----

  /** A flush is recorded with the classes it returned. */
  datatype Action =
    | Emit(eventClass: string, objectName: Option<string>, now: nat)
    | Flush(force: bool, now: nat, classes: seq<string>)

  function After(e: Events, trace: seq<Action>): Events {
    if trace == [] then e else
      var before := After(e, trace[..|trace| - 1]);
      match trace[|trace| - 1]
      case Emit(eventClass, objectName, now) => Emitted(before, eventClass, objectName, now)
      case Flush(force, now, _) => Flushed(before, force, now)
  }

  /** Every flush of the trace returned what the coalescer returns there. */
  ghost predicate Recorded(e: Events, trace: seq<Action>) {
    forall i :: 0 <= i < |trace| && trace[i].Flush? ==>
      IsFlushOrder(After(e, trace[..i]), trace[i].force, trace[i].now, trace[i].classes)
  }

  lemma RecordedPrefix(e: Events, trace: seq<Action>, k: nat)
    requires Recorded(e, trace) && k <= |trace|
    ensures Recorded(e, trace[..k])
  {
    forall i | 0 <= i < k && trace[..k][i].Flush?
      ensures IsFlushOrder(After(e, trace[..k][..i]), trace[..k][i].force, trace[..k][i].now, trace[..k][i].classes)
    {
      assert trace[..k][..i] == trace[..i];
    }
  }

  function Emissions(trace: seq<Action>, n: CounterName): nat {
    if trace == [] then 0 else
      var last := trace[|trace| - 1];
      Emissions(trace[..|trace| - 1], n) + if last.Emit? && CounterOf(last.eventClass) == Some(n) then 1 else 0
  }

  function Bumps(trace: seq<Action>, n: CounterName): nat {
    if trace == [] then 0 else
      var last := trace[|trace| - 1];
      Bumps(trace[..|trace| - 1], n) + if last.Flush? then CountFor(last.classes, n) else 0
  }

  /** The revision after all flushes of the trace were applied by `flush_events`. */
  function RevisionAfterTrace(r: Revision, trace: seq<Action>): Revision {
    if trace == [] then r else
      var last := trace[|trace| - 1];
      var before := RevisionAfterTrace(r, trace[..|trace| - 1]);
      if last.Flush? then BumpAll(before, last.classes) else before
  }

  lemma PlusPlus(n: Counter, j: nat, k: nat)
    ensures Plus(Plus(n, j), k) == Plus(n, j + k)
    decreases k
  {
    if k == 0 { PlusBump(Plus(n, j), 0); }
    else {
      PlusPlus(n, j, k - 1);
      PlusBump(Plus(n, j), k - 1);
      PlusBump(n, j + k - 1);
    }
  }

  lemma {:induction false} TraceCounts(r: Revision, trace: seq<Action>, n: CounterName)
    ensures CounterValue(RevisionAfterTrace(r, trace), n) == Plus(CounterValue(r, n), Bumps(trace, n))
  {
    if trace == [] {
      PlusBump(CounterValue(r, n), 0);
    } else {
      var last, front := trace[|trace| - 1], trace[..|trace| - 1];
      TraceCounts(r, front, n);
      if last.Flush? {
        BumpAllCounts(RevisionAfterTrace(r, front), last.classes, n);
        PlusPlus(CounterValue(r, n), Bumps(front, n), CountFor(last.classes, n));
      }
    }
  }

  lemma FlushSplitsPending(e: Events, force: bool, now: nat, classes: seq<string>, n: CounterName)
    requires IsFlushOrder(e, force, now, classes)
    ensures |ClassesFor(e.pending.Keys, n)| == CountFor(classes, n) + |ClassesFor(Flushed(e, force, now).pending.Keys, n)|
  {
    var ready, kept := Ready(e, force, now), Flushed(e, force, now).pending.Keys;
    DistinctCount(classes, n);
    assert ToSet(classes) == ready;
    assert ClassesFor(e.pending.Keys, n) == ClassesFor(ready, n) + ClassesFor(kept, n);
    assert ClassesFor(ready, n) !! ClassesFor(kept, n);
  }

  lemma ClassesWith(keys: set<string>, c: string, n: CounterName)
    ensures ClassesFor(keys + {c}, n) == ClassesFor(keys, n) + ClassesFor({c}, n)
    ensures ClassesFor({c}, n) == if CounterOf(c) == Some(n) then {c} else {}
  {
  }

  lemma EmitAddsPending(e: Events, eventClass: string, objectName: Option<string>, now: nat, n: CounterName)
    ensures var before, after := |ClassesFor(e.pending.Keys, n)|, |ClassesFor(Emitted(e, eventClass, objectName, now).pending.Keys, n)|;
      if CounterOf(eventClass) == Some(n) then before <= after <= before + 1 && after > 0 else after == before
  {
    ClassesWith(e.pending.Keys, eventClass, n);
    UnionSize(ClassesFor(e.pending.Keys, n), eventClass);
    assert Emitted(e, eventClass, objectName, now).pending.Keys == e.pending.Keys + {eventClass};
  }

  lemma UnionSize(s: set<string>, c: string)
    ensures |s| <= |s + {c}| <= |s| + 1 && |s + {c}| > 0 && s + {} == s
  {
    if c in s { assert s + {c} == s; }
  }

  /** Bumps so far and classes still pending never exceed the emissions, and some emission is never lost. */
  lemma {:induction false} ChangeIsConserved(e: Events, trace: seq<Action>, n: CounterName)
    requires e.pending == map[] && Recorded(e, trace)
    ensures var held := |ClassesFor(After(e, trace).pending.Keys, n)|;
      && Bumps(trace, n) + held <= Emissions(trace, n)
      && (Emissions(trace, n) > 0 ==> Bumps(trace, n) + held > 0)
  {
    if trace == [] {
      assert ClassesFor(e.pending.Keys, n) == {};
    } else {
      var last, front := trace[|trace| - 1], trace[..|trace| - 1];
      RecordedPrefix(e, trace, |trace| - 1);
      ChangeIsConserved(e, front, n);
      var before := After(e, front);
      match last
      case Emit(eventClass, objectName, now) => EmitAddsPending(before, eventClass, objectName, now, n);
      case Flush(force, now, classes) =>
        FlushSplitsPending(before, force, now, classes, n);
    }
  }

  /** From no pending events to a forced flush, a counter advances by 0 when none of its classes was
      emitted, and otherwise by at least 1 and at most the number of its emissions. */
  lemma ForcedFlushSettles(e: Events, r: Revision, trace: seq<Action>, n: CounterName) returns (k: nat)
    requires e.pending == map[] && Recorded(e, trace)
    requires trace != [] && trace[|trace| - 1].Flush? && trace[|trace| - 1].force
    ensures CounterValue(RevisionAfterTrace(r, trace), n) == Plus(CounterValue(r, n), k)
    ensures if Emissions(trace, n) == 0 then k == 0 else 1 <= k <= Emissions(trace, n)
    ensures After(e, trace).pending == map[]
  {
    k := Bumps(trace, n);
    TraceCounts(r, trace, n);
    ChangeIsConserved(e, trace, n);
    assert After(e, trace).pending.Keys == {};
    assert ClassesFor(After(e, trace).pending.Keys, n) == {};
  }

  // ----- Flushes are ordered by latest emission -----

  function EmitCount(trace: seq<Action>): (k: nat)
    ensures k <= |trace|
  {
    if trace == [] then 0
    else EmitCount(trace[..|trace| - 1]) + if trace[|trace| - 1].Emit? then 1 else 0
  }

  /** One more than the position of the latest emission of the class, or 0. */
  function LatestEmit(trace: seq<Action>, eventClass: string): (k: nat)
    ensures k <= |trace|
    ensures k > 0 ==> trace[k - 1].Emit? && trace[k - 1].eventClass == eventClass
  {
    if trace == [] then 0
    else if trace[|trace| - 1].Emit? && trace[|trace| - 1].eventClass == eventClass then |trace|
    else LatestEmit(trace[..|trace| - 1], eventClass)
  }

  lemma {:induction false} EmitCountMonotone(trace: seq<Action>, j: nat, k: nat)
    requires j <= k <= |trace|
    ensures EmitCount(trace[..j]) <= EmitCount(trace[..k])
    ensures j < k && trace[k - 1].Emit? ==> EmitCount(trace[..j]) < EmitCount(trace[..k])
    decreases k
  {
    if j < k {
      assert trace[..k][..k - 1] == trace[..k - 1];
      EmitCountMonotone(trace, j, k - 1);
    }
  }

  /** Sequence numbers count emissions, as long as fewer than 2^64 of them have happened. */
  lemma {:induction false} SequenceIsEmitCount(trace: seq<Action>)
    requires EmitCount(trace) < U64_SIZE
    ensures var e := After(Events(0, map[]), trace);
      && e.sequence == EmitCount(trace)
      && forall c :: c in e.pending ==> LatestEmit(trace, c) > 0 && e.pending[c].sequence == EmitCount(trace[..LatestEmit(trace, c)])
  {
    if trace == [] {
    } else {
      var front, last := trace[..|trace| - 1], trace[|trace| - 1];
      SequenceIsEmitCount(front);
      var before, e := After(Events(0, map[]), front), After(Events(0, map[]), trace);
      forall c | c in e.pending
        ensures LatestEmit(trace, c) > 0 && e.pending[c].sequence == EmitCount(trace[..LatestEmit(trace, c)])
      {
        if last.Emit? && last.eventClass == c {
          assert trace[..|trace|] == trace;
        } else {
          assert c in before.pending;
          assert front[..LatestEmit(front, c)] == trace[..LatestEmit(front, c)];
        }
      }
    }
  }

  /** Of two pending classes, the one with the earlier sequence number was emitted last earlier. */
  lemma LatestBySequence(trace: seq<Action>, c: string, d: string)
    requires EmitCount(trace) < U64_SIZE && c != d
    requires var e := After(Events(0, map[]), trace);
      c in e.pending && d in e.pending && e.pending[c].sequence <= e.pending[d].sequence
    ensures LatestEmit(trace, c) < LatestEmit(trace, d)
  {
    hide After;
    SequenceIsEmitCount(trace);
    var a, b := LatestEmit(trace, c), LatestEmit(trace, d);
    assert trace[a - 1].eventClass != trace[b - 1].eventClass;
    hide LatestEmit, EmitCount;
    if b < a { EmitCountMonotone(trace, b, a); }
  }

  lemma FlushListsPending(e: Events, now: nat, classes: seq<string>)
    requires IsFlushOrder(e, true, now, classes)
    ensures Distinct(classes) && ToSet(classes) == e.pending.Keys && Flushed(e, true, now).pending == map[]
    ensures forall i, j :: 0 <= i < j < |classes| ==>
      classes[i] in e.pending && classes[j] in e.pending && e.pending[classes[i]].sequence <= e.pending[classes[j]].sequence
  {
    assert Flushed(e, true, now).pending.Keys == {};
  }

  /** A forced flush of a coalescer that started empty returns every pending class once, ordered by its
      latest emission, and leaves nothing pending. */
  lemma ForcedFlushIsByLatestEmission(trace: seq<Action>, now: nat, classes: seq<string>)
    requires EmitCount(trace) < U64_SIZE
    requires IsFlushOrder(After(Events(0, map[]), trace), true, now, classes)
    ensures Distinct(classes) && ToSet(classes) == After(Events(0, map[]), trace).pending.Keys
    ensures Flushed(After(Events(0, map[]), trace), true, now).pending == map[]
    ensures forall i, j :: 0 <= i < j < |classes| ==> LatestEmit(trace, classes[i]) < LatestEmit(trace, classes[j])
  {
    FlushListsPending(After(Events(0, map[]), trace), now, classes);
    hide LatestEmit, EmitCount, After, IsFlushOrder, Flushed;
    forall i, j | 0 <= i < j < |classes| ensures LatestEmit(trace, classes[i]) < LatestEmit(trace, classes[j]) {
      LatestBySequence(trace, classes[i], classes[j]);
    }
  }
}
