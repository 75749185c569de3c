/** The CAD context graph: revisions, entities, links, facts, changesets (`ccir-core`). */
module Ccir {
  import opened Text
  import opened Json
  import opened Ordered

  // ----- Revisions -----

  /** A `u64` counter. */
  type Counter = n: int | 0 <= n < U64_SIZE

  const MAX_COUNTER: Counter := U64_SIZE - 1

  /** `counter += 1`, wrapping as it does without overflow checks. */
  function Bump(n: Counter): Counter {
    if n == MAX_COUNTER then 0 else n + 1
  }

  datatype Revision = Revision(geometry: Counter, metadata: Counter, focus: Counter, view: Counter, epoch: string) {
    function Id(): string {
      "g" + Decimal(geometry) + ['.'] + ("m" + Decimal(metadata) + ['.'] + ("f" + Decimal(focus) + ['.']
      + ("v" + Decimal(view) + ['.'] + epoch)))
    }

    function GeometryId(): string {
      "g" + Decimal(geometry) + ['.'] + epoch
    }

    /** No counter is behind `previous`, in the same epoch. */
    predicate AtLeast(previous: Revision) {
      && epoch == previous.epoch
      && geometry >= previous.geometry
      && metadata >= previous.metadata
      && focus >= previous.focus
      && view >= previous.view
    }

    predicate AdvancesFrom(previous: Revision) {
      AtLeast(previous) && this != previous
    }

    /** Each counter can be bumped `n` more times before it wraps. */
    predicate Room(n: nat) {
      geometry + n < U64_SIZE && metadata + n < U64_SIZE && focus + n < U64_SIZE && view + n < U64_SIZE
    }
  }

  /** One field of a printed id separates from the rest unambiguously. */
  lemma FieldInjective(letter: string, a: nat, b: nat, x: string, y: string)
    requires letter + Decimal(a) + ['.'] + x == letter + Decimal(b) + ['.'] + y
    requires '.' !in letter
    ensures a == b && x == y
  {
    CutAtFirst(letter + Decimal(a), letter + Decimal(b), x, y, '.');
    assert Decimal(a) == (letter + Decimal(a))[|letter|..] == (letter + Decimal(b))[|letter|..] == Decimal(b);
    DecimalInjective(a, b);
  }

  lemma RevisionIdInjective(a: Revision, b: Revision)
    ensures a.Id() == b.Id() <==> a == b
  {
    if a.Id() == b.Id() {
      var av, bv := "v" + Decimal(a.view) + ['.'] + a.epoch, "v" + Decimal(b.view) + ['.'] + b.epoch;
      var af, bf := "f" + Decimal(a.focus) + ['.'] + av, "f" + Decimal(b.focus) + ['.'] + bv;
      var am, bm := "m" + Decimal(a.metadata) + ['.'] + af, "m" + Decimal(b.metadata) + ['.'] + bf;
      FieldInjective("g", a.geometry, b.geometry, am, bm);
      FieldInjective("m", a.metadata, b.metadata, af, bf);
      FieldInjective("f", a.focus, b.focus, av, bv);
      FieldInjective("v", a.view, b.view, a.epoch, b.epoch);
    }
  }

  lemma RevisionIdHasNoAt(r: Revision)
    requires '@' !in r.epoch
    ensures '@' !in r.Id() && r.Id() != ""
  {
  }

  // ----- Entities and graphs -----

  datatype IdentityState = Exact | MappedExact | MappedHeuristic | Ambiguous | Deleted | Stale {
    predicate WriteEligible() {
      Exact? || MappedExact?
    }
  }

  datatype Identity = Identity(state: IdentityState, confidence: real, signals: seq<string>)

  const DEFAULT_IDENTITY := Identity(Exact, 0.0, [])

  datatype Source = Source(
    objectName: Option<string>, subelement: Option<string>, extractor: string, kernelTolerance: Option<Quantity>,
    fingerprint: Option<string>)

  datatype Link = Link(relation: string, target: string)

  datatype Vec3 = Vec3(x: real, y: real, z: real)

  datatype Bounds = Bounds(min: Vec3, max: Vec3, frame: string)

  datatype Entity = Entity(
    ref: string, kind: string, schemaVersion: string, revision: string,
    name: Option<string>, displayLabel: Option<string>, frame: Option<string>, units: map<string, string>,
    source: Option<Source>, identity: Identity, properties: Value,
    links: seq<Link>, omissions: seq<Value>, bounds: Option<Bounds>)
  {
    predicate HasRelation(relation: string, target: string) {
      exists i :: 0 <= i < |links| && links[i] == Link(relation, target)
    }
  }

  /** A semantic fact; `assessment` holds algorithm, exactness, tolerance and confidence. */
  datatype Fact = Fact(
    ref: string, kind: string, classification: string, parameters: Value,
    evidence: seq<string>, contradicting: seq<string>, assessment: Value, explanation: string)

  datatype Severity = Info | Warning | Error

  datatype Diagnostic = Diagnostic(
    code: string, severity: Severity, message: string, entity: Option<string>, retryable: bool, evidence: seq<string>)

  datatype Graph = Graph(
    schemaVersion: string, session: string, document: string, revision: Revision,
    entities: map<string, Entity>, facts: seq<Fact>, diagnostics: seq<Diagnostic>, metadata: map<string, Value>)
  {
    predicate IsFact(ref: string) {
      exists i :: 0 <= i < |facts| && facts[i].ref == ref
    }

    /** A link target resolves when it names an entity or a fact. */
    predicate Resolves(target: string) {
      target in entities || IsFact(target)
    }

    predicate Keyed() {
      forall k :: k in entities ==> entities[k].ref == k
    }
  }

  // ----- Link diagnostics (`Graph::validate_invariants`) -----

  function MissingLink(entity: Entity, link: Link): Diagnostic {
    Diagnostic("missing_link_target", Warning, entity.ref + " points to missing " + link.target,
               Some(entity.ref), true, [entity.ref, link.target])
  }

  /** The unresolved links of one entity, first `n` links, in order. */
  function MissingIn(g: Graph, entity: Entity, n: nat): (r: seq<Diagnostic>)
    requires n <= |entity.links|
    ensures |r| <= n
  {
    if n == 0 then [] else
      var link := entity.links[n - 1];
      MissingIn(g, entity, n - 1) + if g.Resolves(link.target) then [] else [MissingLink(entity, link)]
  }

  /** The diagnostics of the entities under `keys`, in that order. */
  function MissingLinks(g: Graph, keys: seq<string>): seq<Diagnostic>
    requires forall k :: k in keys ==> k in g.entities
  {
    if keys == [] then [] else
      var last := keys[|keys| - 1];
      MissingLinks(g, keys[..|keys| - 1]) + MissingIn(g, g.entities[last], |g.entities[last].links|)
  }

  function Validation(g: Graph): seq<Diagnostic> {
    MissingLinks(g, SortedKeys(g.entities.Keys))
  }

  method ValidateInvariants(g: Graph) returns (diagnostics: seq<Diagnostic>)
    ensures diagnostics == Validation(g)
  {
    hide Graph.Resolves, MissingLink;
    diagnostics := [];
    var keys := SortedKeys(g.entities.Keys);
    for i := 0 to |keys|
      invariant diagnostics == MissingLinks(g, keys[..i])
    {
      var entity := g.entities[keys[i]];
      for j := 0 to |entity.links|
        invariant diagnostics == MissingLinks(g, keys[..i]) + MissingIn(g, entity, j)
      {
        var link := entity.links[j];
        if !g.Resolves(link.target) {
          diagnostics := diagnostics + [MissingLink(entity, link)];
        }
      }
      assert keys[..i + 1][..i] == keys[..i];
    }
    assert keys[..|keys|] == keys;
  }

  // ----- Changesets -----

  /** An `f64` as far as quantity validation distinguishes values. */
  datatype Float64 = Finite(r: real) | Infinite(negative: bool) | NaN

  datatype Quantity = Quantity(value: Float64, unit: string)

  datatype Precondition =
    | PropertyEquals(target: string, property: string, value: Value)
    | EntityKind(target: string, expectedKind: string)
    | EntityExists(target: string, identity: Option<IdentityState>)
    | RevisionEquals(revision: string)
    | QueryHolds(description: string, queryHash: string)

  datatype RiskClass = Ui | Low | Medium | High

  datatype Operation =
    | SetPropertyOp(target: string, property: string, value: Value)
    | SetExpression(target: string, property: string, expression: string)
    | SketchSetDatum(constraint: string, datum: Quantity)
    | CreatePrimitive(name: string, primitive: string, parameters: map<string, Quantity>)
    | Boolean(result: string, operation: string, left: string, right: string)
    | SetVisibility(target: string, visible: bool)
    | SetSelection(targets: seq<string>, mode: string)
    | SetView(operation: string, viewParameters: Value)
    | CreateObject(name: string, kind: string, properties: Value)
    | DeleteObject(target: string, requireNoDependents: bool)
    | UndoOp
    | RedoOp
  {
    function Risk(): RiskClass {
      match this
      case SetSelection(_, _) | SetView(_, _) | SetVisibility(_, _) => Ui
      case SetPropertyOp(_, _, _) | SetExpression(_, _, _) | SketchSetDatum(_, _) => Low
      case CreatePrimitive(_, _, _) | CreateObject(_, _, _) => Medium
      case Boolean(_, _, _, _) | DeleteObject(_, _) | UndoOp | RedoOp => High
    }
  }

  datatype ChangeSet = ChangeSet(
    schemaVersion: string, requestId: string, session: string, document: string, baseRevision: string,
    description: Option<string>, preconditions: seq<Precondition>, operations: seq<Operation>,
    validate: seq<string>, idempotencyKey: string, approvalToken: Option<string>)
  {
    /** The part of a changeset that its hash covers. */
    function Normalized(): ChangeSet {
      this.(approvalToken := None)
    }
  }
}
