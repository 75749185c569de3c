/** Replaying a changeset respects content: on two revisions of one content, it does the same. */
module ContentReplay {
  import opened Text
  import opened Json
  import opened Ccir
  import opened Rekeying
  import opened ChangeSets
  import opened ChangeSetLaws
  import opened StoreRuns

  // ----- The same content under two revision ids -----

  /** `f` is `e` with its references rewritten; the revision stamps may differ. */
  ghost predicate EntityAlike(e: Entity, f: Entity, a: string, b: string) {
    f == e.(ref := ReplaceRevision(e.ref, a, b), links := RekeyedLinks(e.links, a, b), revision := f.revision)
  }

  ghost predicate Alike(m0: map<string, Entity>, m1: map<string, Entity>, a: string, b: string) {
    && (forall k {:trigger ReplaceRevision(k, a, b)} :: k in m0 ==>
          ReplaceRevision(k, a, b) in m1 && EntityAlike(m0[k], m1[ReplaceRevision(k, a, b)], a, b))
    && (forall r {:trigger ReplaceRevision(r, b, a)} :: r in m1 ==> ReplaceRevision(r, b, a) in m0)
  }

  ghost predicate Twins(g: Graph, h: Graph, a: string, b: string) {
    && GraphOf(g, a) && GraphOf(h, b)
    && g.session == h.session && g.document == h.document && '@' !in g.session && '@' !in g.document
    && Alike(g.entities, h.entities, a, b)
  }

  lemma TwinKey(g: Graph, h: Graph, a: string, b: string, t: string)
    requires Twins(g, h, a, b) && RefOf(t, a)
    ensures t in g.entities <==> ReplaceRevision(t, a, b) in h.entities
    ensures t in g.entities ==> EntityAlike(g.entities[t], h.entities[ReplaceRevision(t, a, b)], a, b)
    ensures RefOf(ReplaceRevision(t, a, b), b) && ReplaceRevision(ReplaceRevision(t, a, b), b, a) == t
  {
    ReplaceComposes(t, a, b, a);
    ReplaceComposes(t, a, a, a);
  }

  lemma TwinBack(g: Graph, h: Graph, a: string, b: string, r: string)
    requires Twins(g, h, a, b) && r in h.entities
    ensures ReplaceRevision(r, b, a) in g.entities && ReplaceRevision(ReplaceRevision(r, b, a), a, b) == r
    ensures RefOf(ReplaceRevision(r, b, a), a)
  {
    ReplaceComposes(r, b, a, b);
    ReplaceComposes(r, b, b, b);
  }

  // ----- Content and twins -----

  lemma ContentParts(g: Graph)
    requires WellFormed(g)
    ensures Mapped(g.entities, Content(g).entities, g.revision.Id(), "")
    ensures Content(g).facts == RekeyedFacts(g.facts, g.revision.Id(), "")
    ensures Content(g) == g.(entities := Content(g).entities, facts := Content(g).facts,
                             revision := Revision(0, 0, 0, 0, ""), diagnostics := [])
  {
    assert g.revision.Id() != "";
    RekeyIsomorphism(g, g.revision.Id(), "");
  }

  lemma LinksThrough(x: seq<Link>, y: seq<Link>, a: string, b: string)
    requires forall i :: 0 <= i < |x| ==> RefOf(x[i].target, a)
    requires forall i :: 0 <= i < |y| ==> RefOf(y[i].target, b)
    ensures RekeyedLinks(x, a, "") == RekeyedLinks(y, b, "") <==> y == RekeyedLinks(x, a, b)
  {
    forall i | 0 <= i < |x| ensures ReplaceRevision(ReplaceRevision(x[i].target, a, b), b, "") == ReplaceRevision(x[i].target, a, "") {
      ReplaceComposes(x[i].target, a, b, "");
    }
    if RekeyedLinks(x, a, "") == RekeyedLinks(y, b, "") {
      forall i | 0 <= i < |x| ensures y[i] == RekeyedLinks(x, a, b)[i] {
        assert RekeyedLinks(x, a, "")[i] == RekeyedLinks(y, b, "")[i];
        ReplaceComposes(x[i].target, a, "", b);
        ReplaceComposes(y[i].target, b, "", b);
        ReplaceComposes(y[i].target, b, b, b);
      }
      assert |x| == |RekeyedLinks(x, a, "")| == |y|;
    }
    if y == RekeyedLinks(x, a, b) {
      assert forall i :: 0 <= i < |x| ==> RekeyedLinks(y, b, "")[i] == RekeyedLinks(x, a, "")[i];
    }
  }

  lemma AlikeThrough(k: string, e: Entity, f: Entity, a: string, b: string)
    requires RefOf(k, a) && EntityOf(e, a) && EntityOf(f, b) && e.ref == k && f.ref == ReplaceRevision(k, a, b)
    ensures RekeyedEntity(k, e, a, "") == RekeyedEntity(f.ref, f, b, "") <==> EntityAlike(e, f, a, b)
  {
    ReplaceComposes(k, a, b, "");
    LinksThrough(e.links, f.links, a, b);
    hide ReplaceRevision, RefOf, RekeyedLinks;
    var x, y := RekeyedEntity(k, e, a, ""), RekeyedEntity(f.ref, f, b, "");
    assert x == e.(ref := y.ref, revision := "", links := x.links);
    assert y == f.(ref := y.ref, revision := "", links := y.links);
    if x == y { assert f == e.(ref := f.ref, links := f.links, revision := f.revision); }
  }

  /** The canonical key of an entity of either twin. */
  lemma CanonicalKey(g: Graph, m: map<string, Entity>, a: string, r: string)
    requires GraphOf(g, a) && Mapped(g.entities, m, a, "")
    ensures r in m ==>
      var k := ReplaceRevision(r, "", a);
      k in g.entities && RefOf(k, a) && ReplaceRevision(k, a, "") == r && m[r] == RekeyedEntity(k, g.entities[k], a, "")
  {
  }

  lemma SharedForward(g: Graph, h: Graph, m: map<string, Entity>, a: string, b: string, k: string)
    requires GraphOf(g, a) && GraphOf(h, b) && Mapped(g.entities, m, a, "") && Mapped(h.entities, m, b, "") && k in g.entities
    ensures ReplaceRevision(k, a, b) in h.entities && EntityAlike(g.entities[k], h.entities[ReplaceRevision(k, a, b)], a, b)
  {
    hide EntityAlike, RekeyedEntity, EntityOf;
    var r := ReplaceRevision(k, a, "");
    ReplaceComposes(k, a, "", b);
    ReplaceComposes(k, a, b, "");
    CanonicalKey(h, m, b, r);
    AlikeThrough(k, g.entities[k], h.entities[ReplaceRevision(k, a, b)], a, b);
  }

  lemma SharedBackward(g: Graph, h: Graph, m: map<string, Entity>, a: string, b: string, r: string)
    requires GraphOf(g, a) && GraphOf(h, b) && Mapped(g.entities, m, a, "") && Mapped(h.entities, m, b, "") && r in h.entities
    ensures ReplaceRevision(r, b, a) in g.entities
  {
    hide RekeyedEntity, EntityOf;
    ReplaceComposes(r, b, "", a);
    CanonicalKey(g, m, a, ReplaceRevision(r, b, ""));
  }

  lemma SharedAlike(g: Graph, h: Graph, m: map<string, Entity>, a: string, b: string)
    requires GraphOf(g, a) && GraphOf(h, b) && Mapped(g.entities, m, a, "") && Mapped(h.entities, m, b, "")
    ensures Alike(g.entities, h.entities, a, b)
  {
    hide EntityAlike, Mapped, ReplaceRevision, GraphOf;
    forall k | k in g.entities
      ensures ReplaceRevision(k, a, b) in h.entities && EntityAlike(g.entities[k], h.entities[ReplaceRevision(k, a, b)], a, b)
    {
      SharedForward(g, h, m, a, b, k);
    }
    forall r | r in h.entities ensures ReplaceRevision(r, b, a) in g.entities { SharedBackward(g, h, m, a, b, r); }
  }

  lemma ContentGivesTwins(g: Graph, h: Graph)
    requires WellFormed(g) && WellFormed(h) && Content(g) == Content(h)
    ensures Twins(g, h, g.revision.Id(), h.revision.Id())
  {
    ContentParts(g);
    ContentParts(h);
    assert g.session == h.session && g.document == h.document;
    hide Content, Mapped, Alike, Revision.Id, GraphOf;
    SharedAlike(g, h, Content(g).entities, g.revision.Id(), h.revision.Id());
  }

  lemma CanonicalForward(g: Graph, h: Graph, m: map<string, Entity>, n: map<string, Entity>, a: string, b: string, r: string)
    requires Twins(g, h, a, b) && Mapped(g.entities, m, a, "") && Mapped(h.entities, n, b, "") && r in m
    ensures r in n && n[r] == m[r]
  {
    hide EntityAlike, RekeyedEntity, EntityOf;
    CanonicalKey(g, m, a, r);
    var k := ReplaceRevision(r, "", a);
    TwinKey(g, h, a, b, k);
    ReplaceComposes(k, a, b, "");
    AlikeThrough(k, g.entities[k], h.entities[ReplaceRevision(k, a, b)], a, b);
  }

  lemma CanonicalBackward(g: Graph, h: Graph, m: map<string, Entity>, n: map<string, Entity>, a: string, b: string, r: string)
    requires Twins(g, h, a, b) && Mapped(g.entities, m, a, "") && Mapped(h.entities, n, b, "") && r in n
    ensures r in m
  {
    hide EntityAlike, RekeyedEntity, EntityOf;
    CanonicalKey(h, n, b, r);
    var k := ReplaceRevision(r, "", b);
    TwinBack(g, h, a, b, k);
    ReplaceComposes(k, b, a, "");
  }

  lemma TwinsHaveContent(g: Graph, h: Graph)
    requires WellFormed(g) && WellFormed(h) && Twins(g, h, g.revision.Id(), h.revision.Id())
    ensures Content(g).entities == Content(h).entities
  {
    hide *;
    ContentParts(g);
    ContentParts(h);
    var a, b, m, n := g.revision.Id(), h.revision.Id(), Content(g).entities, Content(h).entities;
    forall r | r in m ensures r in n && n[r] == m[r] { CanonicalForward(g, h, m, n, a, b, r); }
    forall r | r in n ensures r in m { CanonicalBackward(g, h, m, n, a, b, r); }
  }

  // ----- Rewriting a changeset to another revision -----

  function RewrittenOperation(op: Operation, a: string, b: string): Operation {
    match op
    case SetPropertyOp(target, property, value) => SetPropertyOp(ReplaceRevision(target, a, b), property, value)
    case SetExpression(target, property, expression) => SetExpression(ReplaceRevision(target, a, b), property, expression)
    case SketchSetDatum(constraint, datum) => SketchSetDatum(ReplaceRevision(constraint, a, b), datum)
    case Boolean(result, operation, left, right) =>
      Boolean(result, operation, ReplaceRevision(left, a, b), ReplaceRevision(right, a, b))
    case SetVisibility(target, visible) => SetVisibility(ReplaceRevision(target, a, b), visible)
    case SetSelection(targets, mode) => SetSelection(ReplaceAll(targets, a, b), mode)
    case DeleteObject(target, strict) => DeleteObject(ReplaceRevision(target, a, b), strict)
    case _ => op
  }

  /** Every reference of the operation is one of revision `a`. */
  predicate OperationOf(op: Operation, a: string) {
    match op
    case SetPropertyOp(target, _, _) => RefOf(target, a)
    case SetExpression(target, _, _) => RefOf(target, a)
    case SketchSetDatum(constraint, _) => RefOf(constraint, a)
    case Boolean(_, _, left, right) => RefOf(left, a) && RefOf(right, a)
    case SetVisibility(target, _) => RefOf(target, a)
    case SetSelection(targets, _) => RefsOf(targets, a)
    case DeleteObject(target, _) => RefOf(target, a)
    case _ => true
  }

  function RewrittenOperations(ops: seq<Operation>, a: string, b: string): (r: seq<Operation>)
    ensures |r| == |ops| && forall i :: 0 <= i < |ops| ==> r[i] == RewrittenOperation(ops[i], a, b)
  {
    seq(|ops|, i requires 0 <= i < |ops| => RewrittenOperation(ops[i], a, b))
  }

  // ----- One operation on twins -----

  lemma TwinExact(g: Graph, h: Graph, a: string, b: string, t: string)
    requires Twins(g, h, a, b) && RefOf(t, a)
    ensures ExactEntity(g, t).Ok? <==> ExactEntity(h, ReplaceRevision(t, a, b)).Ok?
    ensures ObjectEntity(g, t).Ok? <==> ObjectEntity(h, ReplaceRevision(t, a, b)).Ok?
    ensures ExactEntity(g, t).Ok? ==> EntityAlike(g.entities[t], h.entities[ReplaceRevision(t, a, b)], a, b)
    ensures ExactEntity(g, t).Ok? ==> g.entities[t].ref == t && EntityOf(g.entities[t], a)
  {
    assert t in g.entities ==> g.entities[t].ref == t && EntityOf(g.entities[t], a);
    TwinKey(g, h, a, b, t);
    hide Twins, RefOf, ReplaceRevision;
  }

  ghost predicate KeysOf(m: map<string, Entity>, id: string) {
    forall k :: k in m ==> RefOf(k, id)
  }

  lemma AlikeReplaced(m0: map<string, Entity>, m1: map<string, Entity>, a: string, b: string, t: string, e: Entity, f: Entity)
    requires Alike(m0, m1, a, b) && KeysOf(m0, a) && RefOf(t, a) && EntityAlike(e, f, a, b)
    ensures Alike(m0[t := e], m1[ReplaceRevision(t, a, b) := f], a, b)
  {
    hide ReplaceRevision, EntityAlike, RefOf;
    var r := ReplaceRevision(t, a, b);
    var x, y := m0[t := e], m1[r := f];
    ReplaceComposes(t, a, b, a);
    ReplaceComposes(t, a, a, a);
    forall k | k in x
      ensures ReplaceRevision(k, a, b) in y && EntityAlike(x[k], y[ReplaceRevision(k, a, b)], a, b)
    {
      ReplaceInjective(k, t, a, b);
    }
    forall q | q in y ensures ReplaceRevision(q, b, a) in x {}
  }

  lemma AlikeRemoved(m0: map<string, Entity>, m1: map<string, Entity>, a: string, b: string, t: string)
    requires Alike(m0, m1, a, b) && KeysOf(m0, a) && KeysOf(m1, b) && RefOf(t, a)
    ensures Alike(m0 - {t}, m1 - {ReplaceRevision(t, a, b)}, a, b)
  {
    hide ReplaceRevision, EntityAlike, RefOf;
    var r := ReplaceRevision(t, a, b);
    var x, y := m0 - {t}, m1 - {r};
    ReplaceComposes(t, a, b, a);
    ReplaceComposes(t, a, a, a);
    forall k | k in x
      ensures ReplaceRevision(k, a, b) in y && EntityAlike(x[k], y[ReplaceRevision(k, a, b)], a, b)
    {
      ReplaceInjective(k, t, a, b);
    }
    forall q | q in y ensures ReplaceRevision(q, b, a) in x { ReplaceInjective(q, r, b, a); }
  }

  lemma TwinReplaced(g: Graph, h: Graph, a: string, b: string, t: string, e: Entity, f: Entity)
    requires Twins(g, h, a, b) && RefOf(t, a) && e.ref == t && EntityOf(e, a) && EntityAlike(e, f, a, b)
    ensures Twins(g.(entities := g.entities[t := e]), h.(entities := h.entities[ReplaceRevision(t, a, b) := f]), a, b)
  {
    AlikeReplaced(g.entities, h.entities, a, b, t, e, f);
    ReplaceComposes(t, a, b, a);
    TwinEntityOf(e, f, a, b);
    hide Alike, ReplaceRevision, RefOf, EntityOf, FactOf;
    InsertKeepsRefs(g, e, a);
    InsertKeepsRefs(h, f, b);
  }

  lemma TwinEntityOf(e: Entity, f: Entity, a: string, b: string)
    requires EntityOf(e, a) && EntityAlike(e, f, a, b)
    ensures EntityOf(f, b)
  {
    forall i | 0 <= i < |f.links| ensures RefOf(f.links[i].target, b) { ReplaceComposes(e.links[i].target, a, b, a); }
  }

  lemma TwinWrite(g: Graph, h: Graph, a: string, b: string, t: string, path: string, value: Value)
    requires Twins(g, h, a, b) && RefOf(t, a)
    ensures WriteProperty(g, t, path, value).Ok? <==> WriteProperty(h, ReplaceRevision(t, a, b), path, value).Ok?
    ensures WriteProperty(g, t, path, value).Ok? ==>
      Twins(WriteProperty(g, t, path, value).value, WriteProperty(h, ReplaceRevision(t, a, b), path, value).value, a, b)
  {
    hide Twins, RefOf, ReplaceRevision, SetProperty;
    TwinExact(g, h, a, b, t);
    if WriteProperty(g, t, path, value).Ok? {
      var e, f := g.entities[t], h.entities[ReplaceRevision(t, a, b)];
      var properties := SetProperty(e.properties, path, value).value;
      TwinReplaced(g, h, a, b, t, e.(properties := properties), f.(properties := properties));
    }
  }

  lemma TwinInsert(g: Graph, h: Graph, a: string, b: string, e: Entity, f: Entity)
    requires Twins(g, h, a, b) && '@' !in e.ref && EntityOf(e, a) && EntityAlike(e, f, a, b)
    ensures Twins(Insert(g, e), Insert(h, f), a, b)
  {
    BareIsUnqualified(e.ref, a);
    TwinReplaced(g, h, a, b, e.ref, e, f);
  }

  lemma TwinRemove(g: Graph, h: Graph, a: string, b: string, t: string)
    requires Twins(g, h, a, b) && RefOf(t, a)
    ensures Twins(g.(entities := g.entities - {t}), h.(entities := h.entities - {ReplaceRevision(t, a, b)}), a, b)
  {
    AlikeRemoved(g.entities, h.entities, a, b, t);
    hide Alike, ReplaceRevision, RefOf, EntityOf, FactOf;
  }

  lemma TwinRelation(e: Entity, f: Entity, a: string, b: string, t: string)
    requires EntityOf(e, a) && EntityAlike(e, f, a, b) && RefOf(t, a)
    ensures e.HasRelation("depends_on", t) <==> f.HasRelation("depends_on", ReplaceRevision(t, a, b))
  {
    forall i | 0 <= i < |e.links|
      ensures e.links[i] == Link("depends_on", t) <==> f.links[i] == Link("depends_on", ReplaceRevision(t, a, b))
    {
      ReplaceInjective(e.links[i].target, t, a, b);
    }
  }

  lemma TwinDependents(g: Graph, h: Graph, a: string, b: string, t: string)
    requires Twins(g, h, a, b) && RefOf(t, a)
    ensures HasDependent(g, t) <==> HasDependent(h, ReplaceRevision(t, a, b))
  {
    var u := ReplaceRevision(t, a, b);
    if k :| k in g.entities && g.entities[k].HasRelation("depends_on", t) {
      TwinKey(g, h, a, b, k);
      TwinRelation(g.entities[k], h.entities[ReplaceRevision(k, a, b)], a, b, t);
    }
    if r :| r in h.entities && h.entities[r].HasRelation("depends_on", u) {
      TwinBack(g, h, a, b, r);
      var k := ReplaceRevision(r, b, a);
      TwinRelation(g.entities[k], h.entities[r], a, b, t);
    }
  }

  // ----- Validation and replay of one operation -----

  lemma TwinProperty(g: Graph, h: Graph, a: string, b: string, t: string, property: string)
    requires Twins(g, h, a, b) && RefOf(t, a)
    ensures PropertyTargetError(g, t, property).None? <==> PropertyTargetError(h, ReplaceRevision(t, a, b), property).None?
  {
    hide Twins, RefOf, ReplaceRevision, IsPropertyName, PropertyValue;
    TwinExact(g, h, a, b, t);
  }

  lemma {:induction false} TwinSelection(g: Graph, h: Graph, a: string, b: string, targets: seq<string>)
    requires Twins(g, h, a, b) && RefsOf(targets, a)
    ensures SelectionError(g, targets).None? <==> SelectionError(h, ReplaceAll(targets, a, b)).None?
    decreases |targets|
  {
    hide Twins, RefOf, ReplaceRevision;
    if targets == [] {
    } else {
      TwinExact(g, h, a, b, targets[0]);
      TwinSelection(g, h, a, b, targets[1..]);
      assert ReplaceAll(targets, a, b)[1..] == ReplaceAll(targets[1..], a, b);
    }
  }

  lemma TwinNewObject(g: Graph, h: Graph, a: string, b: string, name: string)
    requires Twins(g, h, a, b) && IsIdentifier(name)
    ensures ObjectRef(h, name) == ObjectRef(g, name) && '@' !in ObjectRef(g, name)
    ensures ObjectRef(g, name) in g.entities <==> ObjectRef(h, name) in h.entities
  {
    NewRefIsBare(g, name);
    BareIsUnqualified(ObjectRef(g, name), a);
    TwinKey(g, h, a, b, ObjectRef(g, name));
  }

  /** Validation accepts an operation on one twin exactly when it accepts the rewritten one on the other. */
  lemma TwinValidation(g: Graph, h: Graph, a: string, b: string, op: Operation)
    requires Twins(g, h, a, b) && OperationOf(op, a)
    ensures OperationError(g, op).None? <==> OperationError(h, RewrittenOperation(op, a, b)).None?
  {
    hide Twins, RefOf, RefsOf, ReplaceRevision, ObjectRef, IsIdentifier, PropertyValue, ExpectedParameters;
    match op
    case SetPropertyOp(target, property, _) => TwinProperty(g, h, a, b, target, property);
    case SetExpression(target, property, _) => TwinProperty(g, h, a, b, target, property);
    case SketchSetDatum(constraint, _) => TwinExact(g, h, a, b, constraint);
    case SetVisibility(target, _) => TwinExact(g, h, a, b, target);
    case SetSelection(targets, _) => TwinSelection(g, h, a, b, targets);
    case Boolean(result, _, left, right) =>
      TwinExact(g, h, a, b, left);
      TwinExact(g, h, a, b, right);
      if IsIdentifier(result) { TwinNewObject(g, h, a, b, result); }
    case CreateObject(name, _, _) =>
      if IsIdentifier(name) { TwinNewObject(g, h, a, b, name); }
    case DeleteObject(target, _) => TwinExact(g, h, a, b, target);
    case _ =>
  }

  lemma TwinCreation(g: Graph, h: Graph, a: string, b: string, name: string, kind: string, properties: Value, x: seq<Link>, y: seq<Link>)
    requires Twins(g, h, a, b) && IsIdentifier(name) && y == RekeyedLinks(x, a, b)
    requires forall i :: 0 <= i < |x| ==> RefOf(x[i].target, a)
    ensures Twins(Insert(g, NewEntity(g, name, kind, properties, x)), Insert(h, NewEntity(h, name, kind, properties, y)), a, b)
  {
    TwinNewObject(g, h, a, b, name);
    BareIsUnqualified(ObjectRef(g, name), a);
    TwinInsert(g, h, a, b, NewEntity(g, name, kind, properties, x), NewEntity(h, name, kind, properties, y));
  }

  lemma TwinRef(g: Graph, h: Graph, a: string, b: string, t: string)
    requires Twins(g, h, a, b) && RefOf(t, a) && t in g.entities
    ensures ReplaceRevision(t, a, b) in h.entities
    ensures g.entities[t].ref == t && h.entities[ReplaceRevision(t, a, b)].ref == ReplaceRevision(t, a, b)
  {
    TwinKey(g, h, a, b, t);
    hide ReplaceRevision, RefOf, EntityAlike, Alike;
  }

  lemma PairRekeyed(relation: string, x: string, y: string, a: string, b: string)
    ensures [Link(relation, ReplaceRevision(x, a, b)), Link(relation, ReplaceRevision(y, a, b))]
         == RekeyedLinks([Link(relation, x), Link(relation, y)], a, b)
  {
    hide ReplaceRevision;
  }

  lemma TwinBoolean(g: Graph, h: Graph, a: string, b: string, op: Operation)
    requires Twins(g, h, a, b) && op.Boolean? && OperationOf(op, a) && IsIdentifier(op.result)
    ensures var other := RewrittenOperation(op, a, b);
      && (ApplyOperation(g, op).Ok? <==> ApplyOperation(h, other).Ok?)
      && (ApplyOperation(g, op).Ok? ==> Twins(ApplyOperation(g, op).value, ApplyOperation(h, other).value, a, b))
  {
    hide Twins, RefOf, ReplaceRevision, NewEntity, Insert, IsIdentifier;
    TwinKey(g, h, a, b, op.left);
    TwinKey(g, h, a, b, op.right);
    if op.left in g.entities && op.right in g.entities {
      TwinRef(g, h, a, b, op.left);
      TwinRef(g, h, a, b, op.right);
      PairRekeyed("depends_on", op.left, op.right, a, b);
      var left, right := ReplaceRevision(op.left, a, b), ReplaceRevision(op.right, a, b);
      TwinCreation(g, h, a, b, op.result, "cad.feature.boolean",
                   Obj(map["operation" := Str(op.operation), "valid" := Bool(true)]),
                   [Link("depends_on", op.left), Link("depends_on", op.right)], [Link("depends_on", left), Link("depends_on", right)]);
    }
  }

  lemma TwinMetadata(g: Graph, h: Graph, a: string, b: string, x: map<string, Value>, y: map<string, Value>)
    requires Twins(g, h, a, b)
    ensures Twins(g.(metadata := x), h.(metadata := y), a, b)
  {
    hide Alike, RefOf, EntityOf, FactOf;
  }

  /** Replaying an operation succeeds on one twin exactly when the rewritten one does on the other, and gives twins. */
  lemma TwinOperation(g: Graph, h: Graph, a: string, b: string, op: Operation)
    requires Twins(g, h, a, b) && OperationOf(op, a) && (CreatedName(op).Some? ==> IsIdentifier(CreatedName(op).value))
    ensures var other := RewrittenOperation(op, a, b);
      && (ApplyOperation(g, op).Ok? <==> ApplyOperation(h, other).Ok?)
      && (ApplyOperation(g, op).Ok? ==> Twins(ApplyOperation(g, op).value, ApplyOperation(h, other).value, a, b))
  {
    hide Twins, RefOf, RefsOf, ReplaceRevision, ObjectRef, IsIdentifier, WriteProperty, HasDependent, Insert, NewEntity;
    match op
    case SetPropertyOp(target, property, value) => TwinWrite(g, h, a, b, target, property, value);
    case SetExpression(target, property, expression) => TwinWrite(g, h, a, b, target, "expressions." + property, Str(expression));
    case SketchSetDatum(constraint, datum) => TwinWrite(g, h, a, b, constraint, "datum", QuantityValue(datum));
    case SetVisibility(target, visible) => TwinWrite(g, h, a, b, target, "visible", Bool(visible));
    case SetSelection(_, _) => TwinMetadata(g, h, a, b, ApplyOperation(g, op).value.metadata, ApplyOperation(h, RewrittenOperation(op, a, b)).value.metadata);
    case SetView(_, _) => TwinMetadata(g, h, a, b, ApplyOperation(g, op).value.metadata, ApplyOperation(h, op).value.metadata);
    case Boolean(_, _, _, _) => TwinBoolean(g, h, a, b, op);
    case CreatePrimitive(name, primitive, parameters) =>
      TwinNewObject(g, h, a, b, name);
      TwinCreation(g, h, a, b, name, "cad.object",
                   Obj(map["primitive" := Str(primitive), "parameters" := Obj(map k | k in parameters :: QuantityValue(parameters[k]))]), [], []);
    case CreateObject(name, kind, properties) => TwinCreation(g, h, a, b, name, kind, properties, [], []);
    case DeleteObject(target, _) =>
      TwinKey(g, h, a, b, target);
      TwinDependents(g, h, a, b, target);
      TwinRemove(g, h, a, b, target);
    case _ =>
  }

  // ----- Whole changesets -----

  predicate OperationsOf(ops: seq<Operation>, a: string) {
    forall i :: 0 <= i < |ops| ==> OperationOf(ops[i], a)
  }

  predicate NamesAreIdentifiers(ops: seq<Operation>) {
    forall i :: 0 <= i < |ops| && CreatedName(ops[i]).Some? ==> IsIdentifier(CreatedName(ops[i]).value)
  }

  lemma {:induction false} TwinOperations(g: Graph, h: Graph, a: string, b: string, ops: seq<Operation>)
    requires Twins(g, h, a, b) && OperationsOf(ops, a) && NamesAreIdentifiers(ops)
    ensures var others := RewrittenOperations(ops, a, b);
      && (ApplyOperations(g, ops).Ok? <==> ApplyOperations(h, others).Ok?)
      && (ApplyOperations(g, ops).Ok? ==> Twins(ApplyOperations(g, ops).value, ApplyOperations(h, others).value, a, b))
    decreases |ops|
  {
    hide Twins, ApplyOperation, RewrittenOperation, OperationOf, IsIdentifier, CreatedName;
    if ops == [] {
    } else {
      var others := RewrittenOperations(ops, a, b);
      TwinOperation(g, h, a, b, ops[0]);
      assert others[1..] == RewrittenOperations(ops[1..], a, b);
      if ApplyOperation(g, ops[0]).Ok? {
        TwinOperations(ApplyOperation(g, ops[0]).value, ApplyOperation(h, others[0]).value, a, b, ops[1..]);
      }
    }
  }

  lemma TwinValidations(g: Graph, h: Graph, a: string, b: string, ops: seq<Operation>)
    requires Twins(g, h, a, b) && OperationsOf(ops, a)
    ensures FirstOperationError(g, ops).None? <==> FirstOperationError(h, RewrittenOperations(ops, a, b)).None?
    ensures FirstOperationError(g, ops).None? ==> NamesAreIdentifiers(ops)
  {
    var others := RewrittenOperations(ops, a, b);
    hide Twins, OperationError, RewrittenOperation, OperationOf, IsIdentifier, CreatedName, FirstOperationError;
    forall i | 0 <= i < |ops| ensures OperationError(g, ops[i]).None? <==> OperationError(h, others[i]).None? {
      TwinValidation(g, h, a, b, ops[i]);
    }
    forall i | 0 <= i < |ops| && OperationError(g, ops[i]).None? && CreatedName(ops[i]).Some?
      ensures IsIdentifier(CreatedName(ops[i]).value)
    {
      ValidNames(g, ops[i]);
    }
  }

  /** A precondition on `g` read on `h`: targets are rewritten, and a demand for the revision of `g` becomes one
      for that of `h`; any other revision stays one that is refused. */
  function RewrittenPrecondition(p: Precondition, g: Graph, h: Graph): Precondition {
    var a, b := g.revision.Id(), h.revision.Id();
    match p
    case PropertyEquals(target, property, value) => PropertyEquals(ReplaceRevision(target, a, b), property, value)
    case EntityKind(target, kind) => EntityKind(ReplaceRevision(target, a, b), kind)
    case EntityExists(target, identity) => EntityExists(ReplaceRevision(target, a, b), identity)
    case RevisionEquals(revision) => RevisionEquals(if revision == a || revision == g.revision.GeometryId() then b else "")
    case QueryHolds(_, _) => p
  }

  predicate PreconditionOf(p: Precondition, a: string) {
    match p
    case PropertyEquals(target, _, _) => RefOf(target, a)
    case EntityKind(target, _) => RefOf(target, a)
    case EntityExists(target, _) => RefOf(target, a)
    case _ => true
  }

  lemma TwinPrecondition(g: Graph, h: Graph, p: Precondition)
    requires Twins(g, h, g.revision.Id(), h.revision.Id()) && PreconditionOf(p, g.revision.Id())
    ensures PreconditionError(g, p).None? <==> PreconditionError(h, RewrittenPrecondition(p, g, h)).None?
  {
    hide Twins, RefOf, ReplaceRevision, PropertyValue;
    match p
    case PropertyEquals(target, _, _) => TwinKey(g, h, g.revision.Id(), h.revision.Id(), target);
    case EntityKind(target, _) => TwinKey(g, h, g.revision.Id(), h.revision.Id(), target);
    case EntityExists(target, _) => TwinKey(g, h, g.revision.Id(), h.revision.Id(), target);
    case RevisionEquals(_) => assert h.revision.Id() != "" && h.revision.GeometryId() != "";
    case QueryHolds(_, _) =>
  }

  function RewrittenPreconditions(ps: seq<Precondition>, g: Graph, h: Graph): (r: seq<Precondition>)
    ensures |r| == |ps| && forall i :: 0 <= i < |ps| ==> r[i] == RewrittenPrecondition(ps[i], g, h)
  {
    seq(|ps|, i requires 0 <= i < |ps| => RewrittenPrecondition(ps[i], g, h))
  }

  /** The changeset with every reference rewritten from the revision of `g` to that of `h`. */
  function RewrittenChange(cs: ChangeSet, g: Graph, h: Graph): ChangeSet {
    cs.(baseRevision := h.revision.Id(), preconditions := RewrittenPreconditions(cs.preconditions, g, h),
        operations := RewrittenOperations(cs.operations, g.revision.Id(), h.revision.Id()))
  }

  predicate ChangeOf(cs: ChangeSet, a: string) {
    OperationsOf(cs.operations, a) && forall i :: 0 <= i < |cs.preconditions| ==> PreconditionOf(cs.preconditions[i], a)
  }

  // ----- Metadata: the one place where references are kept as they are -----

  function SelectionValue(targets: seq<string>, mode: string): Value {
    Obj(map["targets" := Arr(seq(|targets|, i requires 0 <= i < |targets| => Str(targets[i]))), "mode" := Str(mode)])
  }

  /** The last set_selection operation. */
  function LastSelection(ops: seq<Operation>): Option<Operation> {
    if ops == [] then None
    else if ops[|ops| - 1].SetSelection? then Some(ops[|ops| - 1])
    else LastSelection(ops[..|ops| - 1])
  }

  function MetadataWith(m: map<string, Value>, op: Operation): map<string, Value> {
    match op
    case SetSelection(targets, mode) => m["selection" := SelectionValue(targets, mode)]
    case SetView(operation, viewParameters) =>
      m["view_operation" := Obj(map["operation" := Str(operation), "parameters" := viewParameters])]
    case _ => m
  }

  /** The metadata that operations leave. */
  function MetadataAfter(m: map<string, Value>, ops: seq<Operation>): map<string, Value> {
    if ops == [] then m else MetadataWith(MetadataAfter(m, ops[..|ops| - 1]), ops[|ops| - 1])
  }

  lemma OperationMetadata(g: Graph, op: Operation)
    requires ApplyOperation(g, op).Ok?
    ensures ApplyOperation(g, op).value.metadata == MetadataAfter(g.metadata, [op])
    ensures ApplyOperation(g, op).value.schemaVersion == g.schemaVersion
  {
    assert [op][..0] == [];
  }

  lemma {:induction false} MetadataCons(m: map<string, Value>, op: Operation, ops: seq<Operation>)
    ensures MetadataAfter(MetadataAfter(m, [op]), ops) == MetadataAfter(m, [op] + ops)
    decreases |ops|
  {
    if ops == [] {
      assert [op] + ops == [op];
    } else {
      MetadataCons(m, op, ops[..|ops| - 1]);
      assert ([op] + ops)[..|ops|] == [op] + ops[..|ops| - 1];
    }
  }

  lemma {:induction false} OperationsMetadata(g: Graph, ops: seq<Operation>)
    requires ApplyOperations(g, ops).Ok?
    ensures ApplyOperations(g, ops).value.metadata == MetadataAfter(g.metadata, ops)
    ensures ApplyOperations(g, ops).value.schemaVersion == g.schemaVersion
    decreases |ops|
  {
    hide ApplyOperation, MetadataAfter;
    if ops == [] {
      assert MetadataAfter(g.metadata, []) == g.metadata by { NoOperations(g.metadata); }
    } else {
      OperationMetadata(g, ops[0]);
      OperationsMetadata(ApplyOperation(g, ops[0]).value, ops[1..]);
      MetadataCons(g.metadata, ops[0], ops[1..]);
      assert [ops[0]] + ops[1..] == ops;
    }
  }

  lemma NoOperations(m: map<string, Value>)
    ensures MetadataAfter(m, []) == m
  {
  }

  /** The last selection names no reference that the rewriting changes. */
  predicate SelectionStays(ops: seq<Operation>, a: string, b: string) {
    match LastSelection(ops)
    case Some(SetSelection(targets, _)) => ReplaceAll(targets, a, b) == targets
    case _ => true
  }

  lemma SelectionValueInjective(x: seq<string>, y: seq<string>, mode: string)
    ensures SelectionValue(x, mode) == SelectionValue(y, mode) <==> x == y
  {
    if SelectionValue(x, mode) == SelectionValue(y, mode) {
      var u, v := SelectionValue(x, mode).fields["targets"].items, SelectionValue(y, mode).fields["targets"].items;
      assert forall i :: 0 <= i < |x| ==> u[i] == Str(x[i]);
      assert forall i :: 0 <= i < |y| ==> v[i] == Str(y[i]);
      assert |x| == |u| == |v| == |y|;
      assert forall i :: 0 <= i < |x| ==> x[i] == u[i].s == v[i].s == y[i];
    }
  }

  lemma TwinMetadataWith(x: map<string, Value>, y: map<string, Value>, op: Operation, a: string, b: string)
    requires x - {"selection"} == y - {"selection"} && ("selection" in x <==> "selection" in y)
    ensures var z, w := MetadataWith(x, op), MetadataWith(y, RewrittenOperation(op, a, b));
      && z - {"selection"} == w - {"selection"} && ("selection" in z <==> "selection" in w)
      && (z == w <==> if op.SetSelection? then ReplaceAll(op.targets, a, b) == op.targets else x == y)
  {
    hide SelectionValue, ReplaceAll, ReplaceRevision;
    if op.SetSelection? {
      SelectionValueInjective(op.targets, ReplaceAll(op.targets, a, b), op.mode);
      SameButSelection(x, y, SelectionValue(op.targets, op.mode), SelectionValue(ReplaceAll(op.targets, a, b), op.mode));
    } else if op.SetView? {
      SameButOther(x, y, "view_operation", Obj(map["operation" := Str(op.operation), "parameters" := op.viewParameters]));
    }
  }

  /** Metadata differs at most in the selection, and agrees exactly when the last selection stays. */
  lemma {:induction false} TwinMetadataAfter(m: map<string, Value>, ops: seq<Operation>, a: string, b: string)
    ensures var x, y := MetadataAfter(m, ops), MetadataAfter(m, RewrittenOperations(ops, a, b));
      && x - {"selection"} == y - {"selection"} && ("selection" in x <==> "selection" in y)
      && (x == y <==> SelectionStays(ops, a, b))
    decreases |ops|
  {
    if ops == [] {
    } else {
      hide MetadataWith, RewrittenOperation, ReplaceAll;
      var front, last, others := ops[..|ops| - 1], ops[|ops| - 1], RewrittenOperations(ops, a, b);
      TwinMetadataAfter(m, front, a, b);
      assert others[..|ops| - 1] == RewrittenOperations(front, a, b);
      TwinMetadataWith(MetadataAfter(m, front), MetadataAfter(m, RewrittenOperations(front, a, b)), last, a, b);
    }
  }

  lemma SameButSelection(x: map<string, Value>, y: map<string, Value>, v: Value, w: Value)
    requires x - {"selection"} == y - {"selection"}
    ensures x["selection" := v] - {"selection"} == y["selection" := w] - {"selection"}
    ensures x["selection" := v] == y["selection" := w] <==> v == w
  {
    assert x["selection" := v] - {"selection"} == x - {"selection"};
    assert y["selection" := w] - {"selection"} == y - {"selection"};
    forall k | k in x && k != "selection" ensures k in y && y[k] == x[k] { assert k in x - {"selection"}; }
    forall k | k in y && k != "selection" ensures k in x { assert k in y - {"selection"}; }
    assert x["selection" := v]["selection"] == v && y["selection" := w]["selection"] == w;
  }

  lemma SameButOther(x: map<string, Value>, y: map<string, Value>, key: string, v: Value)
    requires x - {"selection"} == y - {"selection"} && ("selection" in x <==> "selection" in y) && key != "selection"
    ensures x[key := v] - {"selection"} == y[key := v] - {"selection"}
    ensures x[key := v] == y[key := v] <==> x == y
  {
    forall k | k in x && k != "selection" ensures k in y && y[k] == x[k] { assert k in x - {"selection"}; }
    forall k | k in y && k != "selection" ensures k in x { assert k in y - {"selection"}; }
    if x[key := v] == y[key := v] {
      assert "selection" in x ==> x["selection"] == x[key := v]["selection"] == y[key := v]["selection"];
    }
  }

  // ----- The theorem -----

  ghost function ButSelection(g: Graph): Graph {
    g.(metadata := g.metadata - {"selection"})
  }

  lemma ContentOfPublished(g: Graph, cs: ChangeSet)
    requires WellFormed(g) && Applied(g, cs).Ok?
    ensures var x := ApplyOperations(g, cs.operations).value;
      WellFormed(x) && x.revision == g.revision && Content(Applied(g, cs).value) == Content(x)
  {
    OperationsKeepRefs(g, g, cs.operations, g.revision.Id());
    ApplyKeepsHeader(g, cs.operations);
    PublishingKeepsContent(ApplyOperations(g, cs.operations).value, RevisionAfter(g.revision, cs.operations));
  }

  lemma TwinChecks(g: Graph, h: Graph, cs: ChangeSet)
    requires Twins(g, h, g.revision.Id(), h.revision.Id()) && ChangeOf(cs, g.revision.Id())
    ensures var other := RewrittenChange(cs, g, h);
      FirstPreconditionError(g, cs.preconditions).None? <==> FirstPreconditionError(h, other.preconditions).None?
  {
    hide Twins, PreconditionError, RewrittenPrecondition, PreconditionOf;
    forall i | 0 <= i < |cs.preconditions|
      ensures PreconditionError(g, cs.preconditions[i]).None? <==> PreconditionError(h, RewrittenChange(cs, g, h).preconditions[i]).None?
    {
      TwinPrecondition(g, h, cs.preconditions[i]);
    }
  }

  lemma TwinApplied(g: Graph, h: Graph, cs: ChangeSet)
    requires Twins(g, h, g.revision.Id(), h.revision.Id()) && ChangeOf(cs, g.revision.Id())
    ensures Applied(g, cs).Ok? <==> Applied(h, RewrittenChange(cs, g, h)).Ok?
    ensures Applied(g, cs).Ok? ==>
      var x, y := ApplyOperations(g, cs.operations), ApplyOperations(h, RewrittenChange(cs, g, h).operations);
      x.Ok? && y.Ok? && Twins(x.value, y.value, g.revision.Id(), h.revision.Id())
  {
    var a, b := g.revision.Id(), h.revision.Id();
    TwinChecks(g, h, cs);
    TwinValidations(g, h, a, b, cs.operations);
    hide Twins, FirstOperationError, FirstPreconditionError, ApplyOperations, Published, NamesAreIdentifiers, Revision.Id;
    if FirstOperationError(g, cs.operations).None? { TwinOperations(g, h, a, b, cs.operations); }
  }

  /** Graphs that kept the headers and facts of two graphs of equal content, and have the same entities. */
  lemma ContentBut(x: Graph, y: Graph, g: Graph, h: Graph)
    requires WellFormed(g) && WellFormed(h) && WellFormed(x) && WellFormed(y) && Content(g) == Content(h)
    requires x.revision == g.revision && x.facts == g.facts && x.session == g.session && x.document == g.document && x.schemaVersion == g.schemaVersion
    requires y.revision == h.revision && y.facts == h.facts && y.session == h.session && y.document == h.document && y.schemaVersion == h.schemaVersion
    requires Content(x).entities == Content(y).entities
    ensures g.metadata == h.metadata
    ensures ButSelection(Content(x)) == ButSelection(Content(y)) <==> x.metadata - {"selection"} == y.metadata - {"selection"}
    ensures Content(x) == Content(y) <==> x.metadata == y.metadata
  {
    ContentParts(g);
    ContentParts(h);
    ContentParts(x);
    ContentParts(y);
    hide Content, WellFormed, Mapped, RekeyedFacts;
    assert Content(y) == Content(x).(metadata := y.metadata);
    assert Content(x).metadata == x.metadata;
  }

  /** On two well-formed graphs of equal content, a changeset and its rewriting are both accepted or both refused;
      the results have equal content but for the stored selection, and equal content altogether exactly when
      the last selection names no reference that the rewriting changes. */
  lemma ReplayRespectsContent(g: Graph, h: Graph, cs: ChangeSet)
    requires WellFormed(g) && WellFormed(h) && Content(g) == Content(h) && ChangeOf(cs, g.revision.Id())
    ensures var other := RewrittenChange(cs, g, h);
      && (Applied(g, cs).Ok? <==> Applied(h, other).Ok?)
      && (Applied(g, cs).Ok? ==>
            var x, y := Content(Applied(g, cs).value), Content(Applied(h, other).value);
            && ButSelection(x) == ButSelection(y)
            && (x == y <==> SelectionStays(cs.operations, g.revision.Id(), h.revision.Id())))
  {
    var other := RewrittenChange(cs, g, h);
    ContentGivesTwins(g, h);
    TwinApplied(g, h, cs);
    if Applied(g, cs).Ok? {
      var x, y := ApplyOperations(g, cs.operations).value, ApplyOperations(h, other.operations).value;
      ContentOfPublished(g, cs);
      ContentOfPublished(h, other);
      TwinsHaveContent(x, y);
      ApplyKeepsHeader(g, cs.operations);
      ApplyKeepsHeader(h, other.operations);
      OperationsMetadata(g, cs.operations);
      OperationsMetadata(h, other.operations);
      hide *;
      ContentBut(x, y, g, h);
      TwinMetadataAfter(g.metadata, cs.operations, g.revision.Id(), h.revision.Id());
    }
  }
}
