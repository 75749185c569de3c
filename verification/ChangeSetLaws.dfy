/** What replaying a changeset keeps: well-formed references, dependency closure, kinds and sources. */
module ChangeSetLaws {
  import opened Text
  import opened Json
  import opened Ccir
  import opened Rekeying
  import opened ChangeSets

  // ----- References stay well-formed -----

  lemma NewRefIsBare(g: Graph, name: string)
    requires '@' !in g.session && '@' !in g.document && IsIdentifier(name)
    ensures '@' !in ObjectRef(g, name)
  {
  }

  lemma InsertKeepsRefs(g: Graph, entity: Entity, id: string)
    requires GraphOf(g, id) && RefOf(entity.ref, id) && EntityOf(entity, id)
    ensures GraphOf(Insert(g, entity), id)
  {
  }

  lemma WriteKeepsRefs(g: Graph, target: string, path: string, value: Value, id: string)
    requires GraphOf(g, id) && WriteProperty(g, target, path, value).Ok?
    ensures GraphOf(WriteProperty(g, target, path, value).value, id)
    ensures WriteProperty(g, target, path, value).value.entities.Keys == g.entities.Keys
  {
    var properties := SetProperty(g.entities[target].properties, path, value).value;
    InsertKeepsRefs(g, g.entities[target].(properties := properties), id);
  }

  // ----- What one operation does -----

  /** The property that an operation writes: target, path and value. */
  function Written(op: Operation): Option<(string, string, Value)> {
    match op
    case SetPropertyOp(target, property, value) => Some((target, property, value))
    case SetExpression(target, property, expression) => Some((target, "expressions." + property, Str(expression)))
    case SketchSetDatum(constraint, datum) => Some((constraint, "datum", QuantityValue(datum)))
    case SetVisibility(target, visible) => Some((target, "visible", Bool(visible)))
    case _ => None
  }

  /** A write succeeds on an existing, write-eligible entity whose properties are an object or null. It is read
      back at its own path; properties at paths apart from it, and everything else in the graph, stay as they were. */
  lemma WriteIsLocal(g: Graph, target: string, path: string, value: Value, other: string)
    ensures WriteProperty(g, target, path, value).Ok? <==>
      && target in g.entities && g.entities[target].identity.state.WriteEligible()
      && (g.entities[target].properties.Obj? || g.entities[target].properties.Null?)
    ensures WriteProperty(g, target, path, value).Ok? ==>
      var h := WriteProperty(g, target, path, value).value;
      && h == g.(entities := g.entities[target := g.entities[target].(properties := h.entities[target].properties)])
      && PropertyValue(h.entities[target].properties, path) == Some(value)
      && (Apart(Split(path, '.'), Split(other, '.')) && PropertyValue(g.entities[target].properties, other).Some? ==>
            PropertyValue(h.entities[target].properties, other) == PropertyValue(g.entities[target].properties, other))
  {
    hide PropertyValue, SetProperty, Apart;
    if target in g.entities { SetPropertyLens(g.entities[target].properties, path, value, other); }
  }

  lemma OperationWrites(g: Graph, op: Operation)
    requires Written(op).Some?
    ensures var (target, path, value) := Written(op).value;
      && ApplyOperation(g, op) == WriteProperty(g, target, path, value)
      && (ApplyOperation(g, op).Ok? ==>
            && target in ApplyOperation(g, op).value.entities
            && PropertyValue(ApplyOperation(g, op).value.entities[target].properties, path) == Some(value))
  {
    var (target, path, value) := Written(op).value;
    WriteIsLocal(g, target, path, value, path);
  }

  /** A boolean result depends on exactly its two operands, which exist. */
  lemma BooleanDependsOnOperands(g: Graph, op: Operation, relation: string, target: string)
    requires op.Boolean? && ApplyOperation(g, op).Ok? && g.Keyed()
    ensures op.left in g.entities && op.right in g.entities
    ensures var h, ref := ApplyOperation(g, op).value, ObjectRef(g, op.result);
      && ref in h.entities
      && (h.entities[ref].HasRelation(relation, target) <==> relation == "depends_on" && (target == op.left || target == op.right))
      && forall k :: k in g.entities && k != ref ==> k in h.entities && h.entities[k] == g.entities[k]
  {
    var h, ref := ApplyOperation(g, op).value, ObjectRef(g, op.result);
    var links := [Link("depends_on", op.left), Link("depends_on", op.right)];
    assert h.entities[ref].links == links;
    assert links[0] == Link("depends_on", op.left) && links[1] == Link("depends_on", op.right);
  }

  function CreatedName(op: Operation): Option<string> {
    match op
    case CreatePrimitive(name, _, _) => Some(name)
    case CreateObject(name, _, _) => Some(name)
    case Boolean(result, _, _, _) => Some(result)
    case _ => None
  }

  lemma ValidNames(g: Graph, op: Operation)
    requires OperationError(g, op).None? && CreatedName(op).Some?
    ensures IsIdentifier(CreatedName(op).value)
  {
    hide IsIdentifier, ObjectEntity, ExpectedParameters, ObjectRef;
  }

  lemma BooleanKeepsRefs(g: Graph, op: Operation, id: string)
    requires op.Boolean? && IsIdentifier(op.result) && ApplyOperation(g, op).Ok?
    requires GraphOf(g, id) && '@' !in g.session && '@' !in g.document
    ensures GraphOf(ApplyOperation(g, op).value, id)
  {
    hide RefOf, IsIdentifier;
    assert g.entities[op.left].ref == op.left && g.entities[op.right].ref == op.right;
    assert RefOf(op.left, id) && RefOf(op.right, id);
    hide GraphOf;
    CreationKeepsRefs(g, ApplyOperation(g, op).value, op.result, id);
  }

  lemma PlainCreationKeepsRefs(g: Graph, name: string, kind: string, properties: Value, id: string)
    requires GraphOf(g, id) && '@' !in g.session && '@' !in g.document && IsIdentifier(name)
    ensures GraphOf(Insert(g, NewEntity(g, name, kind, properties, [])), id)
  {
    hide RefOf, IsIdentifier, GraphOf;
    CreationKeepsRefs(g, Insert(g, NewEntity(g, name, kind, properties, [])), name, id);
  }

  lemma OperationKeepsRefs(base: Graph, g: Graph, op: Operation, id: string)
    requires OperationError(base, op).None? && ApplyOperation(g, op).Ok?
    requires GraphOf(g, id) && '@' !in g.session && '@' !in g.document
    ensures GraphOf(ApplyOperation(g, op).value, id)
  {
    if CreatedName(op).Some? { ValidNames(base, op); }
    hide WriteProperty, RefOf, OperationError, GraphOf, IsIdentifier, HasDependent, Insert, NewEntity;
    if Written(op).Some? {
      var (target, path, value) := Written(op).value;
      OperationWrites(g, op);
      WriteKeepsRefs(g, target, path, value, id);
    }
    match op
    case CreatePrimitive(name, primitive, parameters) =>
      var quantities := map k | k in parameters :: QuantityValue(parameters[k]);
      PlainCreationKeepsRefs(g, name, "cad.object", Obj(map["primitive" := Str(primitive), "parameters" := Obj(quantities)]), id);
    case CreateObject(name, kind, properties) => PlainCreationKeepsRefs(g, name, kind, properties, id);
    case Boolean(_, _, _, _) => BooleanKeepsRefs(g, op, id);
    case DeleteObject(target, _) => RemovalKeepsRefs(g, target, id);
    case SetSelection(_, _) => MetadataKeepsRefs(g, ApplyOperation(g, op).value.metadata, id);
    case SetView(_, _) => MetadataKeepsRefs(g, ApplyOperation(g, op).value.metadata, id);
    case _ =>
  }

  lemma RemovalKeepsRefs(g: Graph, target: string, id: string)
    requires GraphOf(g, id)
    ensures GraphOf(g.(entities := g.entities - {target}), id)
  {
    hide RefOf, EntityOf, FactOf;
  }

  lemma MetadataKeepsRefs(g: Graph, metadata: map<string, Value>, id: string)
    requires GraphOf(g, id)
    ensures GraphOf(g.(metadata := metadata), id)
  {
    hide RefOf, EntityOf, FactOf;
  }

  lemma CreationKeepsRefs(g: Graph, h: Graph, name: string, id: string)
    requires GraphOf(g, id) && '@' !in g.session && '@' !in g.document && IsIdentifier(name)
    requires ObjectRef(g, name) in h.entities && h == Insert(g, h.entities[ObjectRef(g, name)])
    requires h.entities[ObjectRef(g, name)].ref == ObjectRef(g, name) && EntityOf(h.entities[ObjectRef(g, name)], id)
    ensures GraphOf(h, id)
  {
    NewRefIsBare(g, name);
    InsertKeepsRefs(g, h.entities[ObjectRef(g, name)], id);
  }

  lemma {:induction false} OperationsKeepRefs(base: Graph, g: Graph, ops: seq<Operation>, id: string)
    requires FirstOperationError(base, ops).None? && ApplyOperations(g, ops).Ok?
    requires GraphOf(g, id) && '@' !in g.session && '@' !in g.document
    ensures GraphOf(ApplyOperations(g, ops).value, id)
    decreases |ops|
  {
    if ops == [] {
    } else {
      OperationKeepsRefs(base, g, ops[0], id);
      ApplyKeepsHeader(g, ops[..1]);
      OperationsKeepRefs(base, ApplyOperation(g, ops[0]).value, ops[1..], id);
    }
  }

  lemma PublishedIsWellFormed(g: Graph, revision: Revision)
    requires WellFormed(g) && '@' !in revision.epoch
    ensures WellFormed(Published(g, revision))
  {
    RekeyIsomorphism(g.(revision := revision), g.revision.Id(), revision.Id());
  }

  /** A changeset accepted on a well-formed graph yields a well-formed graph. */
  lemma AppliedIsWellFormed(g: Graph, cs: ChangeSet)
    requires WellFormed(g) && Applied(g, cs).Ok?
    ensures WellFormed(Applied(g, cs).value)
  {
    OperationsKeepRefs(g, g, cs.operations, g.revision.Id());
    ApplyKeepsHeader(g, cs.operations);
    PublishedIsWellFormed(ApplyOperations(g, cs.operations).value, RevisionAfter(g.revision, cs.operations));
  }

  // ----- Dependency closure -----

  /** Every depends_on link resolves. */
  predicate DependenciesResolve(g: Graph) {
    forall k :: k in g.entities ==> EntityDependenciesResolve(g, g.entities[k])
  }

  predicate EntityDependenciesResolve(g: Graph, entity: Entity) {
    forall i :: 0 <= i < |entity.links| && entity.links[i].relation == "depends_on" ==> g.Resolves(entity.links[i].target)
  }

  predicate DeletesAreStrict(ops: seq<Operation>) {
    forall i :: 0 <= i < |ops| && ops[i].DeleteObject? ==> ops[i].requireNoDependents
  }

  /** Keys are only added, and every entity's dependencies were those of an entity of `g` or resolve there. */
  lemma GrowthKeepsDependencies(g: Graph, h: Graph)
    requires DependenciesResolve(g) && h.facts == g.facts && g.entities.Keys <= h.entities.Keys
    requires forall k :: k in h.entities ==>
      EntityDependenciesResolve(g, h.entities[k]) || (k in g.entities && h.entities[k].links == g.entities[k].links)
    ensures DependenciesResolve(h)
  {
    forall k | k in h.entities ensures EntityDependenciesResolve(h, h.entities[k]) {
      if k in g.entities { assert EntityDependenciesResolve(g, g.entities[k]); }
      assert EntityDependenciesResolve(g, h.entities[k]);
    }
  }

  lemma WriteKeepsDependencies(g: Graph, target: string, path: string, value: Value)
    requires DependenciesResolve(g) && WriteProperty(g, target, path, value).Ok?
    ensures DependenciesResolve(WriteProperty(g, target, path, value).value)
  {
    WriteIsLocal(g, target, path, value, path);
    hide EntityDependenciesResolve, WriteProperty, PropertyValue;
    GrowthKeepsDependencies(g, WriteProperty(g, target, path, value).value);
  }

  lemma RemovalKeepsDependencies(g: Graph, target: string)
    requires DependenciesResolve(g) && !HasDependent(g, target)
    ensures DependenciesResolve(g.(entities := g.entities - {target}))
  {
    var h := g.(entities := g.entities - {target});
    forall k | k in h.entities ensures EntityDependenciesResolve(h, h.entities[k]) {
      var links := g.entities[k].links;
      assert EntityDependenciesResolve(g, g.entities[k]);
      forall i | 0 <= i < |links| && links[i].relation == "depends_on" ensures h.Resolves(links[i].target) {
        assert g.entities[k].HasRelation("depends_on", links[i].target);
      }
    }
  }

  /** No entity loses a dependency when keys are only added, or when a key nobody depends on is removed. */
  lemma OperationKeepsDependencies(g: Graph, op: Operation)
    requires ApplyOperation(g, op).Ok? && g.Keyed() && DependenciesResolve(g)
    requires op.DeleteObject? ==> op.requireNoDependents
    ensures DependenciesResolve(ApplyOperation(g, op).value)
  {
    if Written(op).Some? {
      var (target, path, value) := Written(op).value;
      OperationWrites(g, op);
      WriteKeepsDependencies(g, target, path, value);
    } else if op.DeleteObject? {
      RemovalKeepsDependencies(g, op.target);
    } else {
      GrowthKeepsDependencies(g, ApplyOperation(g, op).value);
    }
  }

  lemma {:induction false} OperationsKeepDependencies(base: Graph, g: Graph, ops: seq<Operation>, id: string)
    requires FirstOperationError(base, ops).None? && ApplyOperations(g, ops).Ok?
    requires GraphOf(g, id) && '@' !in g.session && '@' !in g.document
    requires DependenciesResolve(g) && DeletesAreStrict(ops)
    ensures DependenciesResolve(ApplyOperations(g, ops).value)
    decreases |ops|
  {
    if ops == [] {
    } else {
      OperationKeepsRefs(base, g, ops[0], id);
      OperationKeepsDependencies(g, ops[0]);
      ApplyKeepsHeader(g, ops[..1]);
      OperationsKeepDependencies(base, ApplyOperation(g, ops[0]).value, ops[1..], id);
    }
  }

  lemma PublishedKeepsDependencies(g: Graph, revision: Revision)
    requires WellFormed(g) && DependenciesResolve(g)
    ensures DependenciesResolve(Published(g, revision))
  {
    var a, b := g.revision.Id(), revision.Id();
    var start := g.(revision := revision);
    var h := Rekeyed(start, a, b);
    RekeyIsomorphism(start, a, b);
    forall r | r in h.entities ensures EntityDependenciesResolve(h, h.entities[r]) {
      if a == b {
        assert EntityDependenciesResolve(g, g.entities[r]);
        RekeyedDependencies(g, start, h, r, r, a, b);
      } else {
        var k := ReplaceRevision(r, b, a);
        RekeyedDependencies(g, start, h, k, r, a, b);
      }
    }
    forall r | r in h.entities
      ensures EntityDependenciesResolve(Published(g, revision), Published(g, revision).entities[r])
    {
      assert EntityDependenciesResolve(h, h.entities[r]);
      SameResolves(h, Published(g, revision));
    }
  }

  lemma SameResolves(g: Graph, h: Graph)
    requires g.entities == h.entities && g.facts == h.facts
    ensures forall t :: g.Resolves(t) == h.Resolves(t)
  {
  }

  lemma RekeyedDependencies(g: Graph, start: Graph, h: Graph, k: string, r: string, a: string, b: string)
    requires GraphOf(start, a) && h == Rekeyed(start, a, b)
    requires g.entities == start.entities && g.facts == start.facts
    requires k in start.entities && r in h.entities
    requires h.entities[r].links == RekeyedLinks(start.entities[k].links, a, b) || (a == b && k == r)
    requires DependenciesResolve(g)
    ensures EntityDependenciesResolve(h, h.entities[r])
  {
    SameResolves(g, start);
    var links := start.entities[k].links;
    assert EntityDependenciesResolve(g, g.entities[k]) && EntityOf(start.entities[k], a);
    forall i | 0 <= i < |links| && links[i].relation == "depends_on"
      ensures h.Resolves(ReplaceRevision(links[i].target, a, b))
      ensures a == b ==> ReplaceRevision(links[i].target, a, b) == links[i].target
    {
      RekeyKeepsResolution(start, a, b, links[i].target);
      ReplaceComposes(links[i].target, a, b, a);
    }
  }

  /** Strict deletes keep every dependency resolved, whatever else the changeset creates or edits. */
  lemma AppliedKeepsDependencies(g: Graph, cs: ChangeSet)
    requires WellFormed(g) && Applied(g, cs).Ok?
    requires DependenciesResolve(g) && DeletesAreStrict(cs.operations)
    ensures DependenciesResolve(Applied(g, cs).value)
  {
    OperationsKeepRefs(g, g, cs.operations, g.revision.Id());
    OperationsKeepDependencies(g, g, cs.operations, g.revision.Id());
    ApplyKeepsHeader(g, cs.operations);
    PublishedKeepsDependencies(ApplyOperations(g, cs.operations).value, RevisionAfter(g.revision, cs.operations));
  }

  // ----- Which keys a changeset creates and deletes -----

  /** The references of the objects that `ops` create in a graph with `g`'s session and document. */
  function CreatedRefs(g: Graph, ops: seq<Operation>): set<string> {
    set i | 0 <= i < |ops| && CreatedName(ops[i]).Some? :: ObjectRef(g, CreatedName(ops[i]).value)
  }

  function DeletedRefs(ops: seq<Operation>): set<string> {
    set i | 0 <= i < |ops| && ops[i].DeleteObject? :: ops[i].target
  }

  lemma CreatedDeletedSplit(g: Graph, ops: seq<Operation>)
    requires ops != []
    ensures CreatedRefs(g, ops) == CreatedRefs(g, ops[..1]) + CreatedRefs(g, ops[1..])
    ensures DeletedRefs(ops) == DeletedRefs(ops[..1]) + DeletedRefs(ops[1..])
    ensures CreatedRefs(g, ops[..1]) == if CreatedName(ops[0]).Some? then {ObjectRef(g, CreatedName(ops[0]).value)} else {}
    ensures DeletedRefs(ops[..1]) == if ops[0].DeleteObject? then {ops[0].target} else {}
  {
    forall i | 0 <= i < |ops| ensures i == 0 || ops[i] == ops[1..][i - 1] {}
    forall i | 0 <= i < |ops[1..]| ensures ops[1..][i] == ops[i + 1] {}
    assert ops[..1][0] == ops[0];
    forall r | r in CreatedRefs(g, ops) ensures r in CreatedRefs(g, ops[..1]) + CreatedRefs(g, ops[1..]) {
      var i :| 0 <= i < |ops| && CreatedName(ops[i]).Some? && r == ObjectRef(g, CreatedName(ops[i]).value);
      if i > 0 { assert ops[1..][i - 1] == ops[i]; }
    }
    forall r | r in DeletedRefs(ops) ensures r in DeletedRefs(ops[..1]) + DeletedRefs(ops[1..]) {
      var i :| 0 <= i < |ops| && ops[i].DeleteObject? && r == ops[i].target;
      if i > 0 { assert ops[1..][i - 1] == ops[i]; }
    }
  }

  /** The entity has the kind and the origin it had in `g`. */
  predicate SameOrigin(g: Graph, h: Graph, k: string) {
    k in g.entities && k in h.entities
    && h.entities[k].kind == g.entities[k].kind && h.entities[k].source == g.entities[k].source
  }

  /** `h` has the keys of `g` plus `added`, less at most `removed` and at least the part of `removed`
      that was not added; every key neither added nor removed kept its origin. */
  predicate KeysChanged(g: Graph, h: Graph, removed: set<string>, added: set<string>) {
    && h.entities.Keys <= g.entities.Keys + added
    && g.entities.Keys + added - removed <= h.entities.Keys
    && h.entities.Keys !! removed - added
    && forall k :: k in g.entities.Keys - removed - added ==> SameOrigin(g, h, k)
  }

  lemma KeysChangedComposes(g: Graph, next: Graph, h: Graph, r1: set<string>, a1: set<string>, r2: set<string>, a2: set<string>)
    requires KeysChanged(g, next, r1, a1) && KeysChanged(next, h, r2, a2)
    ensures KeysChanged(g, h, r1 + r2, a1 + a2)
  {
    forall k | k in g.entities.Keys - (r1 + r2) - (a1 + a2) ensures SameOrigin(g, h, k) {
      assert SameOrigin(g, next, k) && SameOrigin(next, h, k);
    }
  }

  lemma WriteKeepsKeys(g: Graph, target: string, path: string, value: Value)
    requires WriteProperty(g, target, path, value).Ok? && g.Keyed()
    ensures KeysChanged(g, WriteProperty(g, target, path, value).value, {}, {})
    ensures WriteProperty(g, target, path, value).value.Keyed()
  {
  }

  lemma InsertAddsKey(g: Graph, entity: Entity)
    requires g.Keyed()
    ensures KeysChanged(g, Insert(g, entity), {}, {entity.ref}) && Insert(g, entity).Keyed()
  {
  }

  lemma OperationKeys(g: Graph, op: Operation)
    requires ApplyOperation(g, op).Ok? && g.Keyed()
    ensures ApplyOperation(g, op).value.Keyed()
    ensures KeysChanged(g, ApplyOperation(g, op).value,
                        if op.DeleteObject? then {op.target} else {},
                        if CreatedName(op).Some? then {ObjectRef(g, CreatedName(op).value)} else {})
  {
    match op
    case SetPropertyOp(target, property, value) => WriteKeepsKeys(g, target, property, value);
    case SetExpression(target, property, expression) =>
      WriteKeepsKeys(g, target, "expressions." + property, Str(expression));
    case SketchSetDatum(constraint, datum) => WriteKeepsKeys(g, constraint, "datum", QuantityValue(datum));
    case SetVisibility(target, visible) => WriteKeepsKeys(g, target, "visible", Bool(visible));
    case CreatePrimitive(name, _, _) => InsertAddsKey(g, ApplyOperation(g, op).value.entities[ObjectRef(g, name)]);
    case CreateObject(name, _, _) => InsertAddsKey(g, ApplyOperation(g, op).value.entities[ObjectRef(g, name)]);
    case Boolean(result, _, _, _) => InsertAddsKey(g, ApplyOperation(g, op).value.entities[ObjectRef(g, result)]);
    case _ =>
  }

  /** Replaying removes only deleted keys, adds only created ones, and never changes the kind or source
      of an entity it neither creates nor deletes. */
  lemma {:induction false} OperationsKeys(g: Graph, ops: seq<Operation>)
    requires ApplyOperations(g, ops).Ok? && g.Keyed()
    ensures KeysChanged(g, ApplyOperations(g, ops).value, DeletedRefs(ops), CreatedRefs(g, ops))
    decreases |ops|
  {
    if ops == [] {
    } else {
      var next := ApplyOperation(g, ops[0]).value;
      CreatedDeletedSplit(g, ops);
      ApplyKeepsHeader(g, ops[..1]);
      assert CreatedRefs(next, ops[1..]) == CreatedRefs(g, ops[1..]) by { SameNames(next, g); }
      OperationKeys(g, ops[0]);
      OperationsKeys(next, ops[1..]);
      KeysChangedComposes(g, next, ApplyOperations(g, ops).value, DeletedRefs(ops[..1]), CreatedRefs(g, ops[..1]),
                          DeletedRefs(ops[1..]), CreatedRefs(g, ops[1..]));
    }
  }

  lemma SameNames(g: Graph, h: Graph)
    requires g.session == h.session && g.document == h.document
    ensures forall name :: ObjectRef(g, name) == ObjectRef(h, name)
  {
  }

  // ----- When a commit advances the revision -----

  predicate OnlyVisibility(ops: seq<Operation>) {
    forall i :: 0 <= i < |ops| ==> ops[i].SetVisibility?
  }

  /** The revision stays exactly when the changeset is empty or only sets visibility; otherwise it
      strictly advances, unless a counter wraps. */
  lemma RevisionAfterAdvances(r: Revision, ops: seq<Operation>)
    ensures RevisionAfter(r, ops) == r <==> OnlyVisibility(ops)
    ensures r.Room(1) ==> RevisionAfter(r, ops).AtLeast(r)
    ensures forall n: nat :: r.Room(n + 1) ==> RevisionAfter(r, ops).Room(n)
  {
    if !OnlyVisibility(ops) {
      var i :| 0 <= i < |ops| && !ops[i].SetVisibility?;
      assert AnyRisky(ops) || AnySelection(ops) || AnyView(ops);
    }
  }
}
