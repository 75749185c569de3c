/** Validating and replaying a changeset on a graph (`apply_changeset` and what it calls). */
module ChangeSets {
  import opened Text
  import opened Json
  import opened Ccir
  import opened Rekeying

  /** `Panicked` stands for an aborting index assignment into a JSON value that is not an object. */
  datatype RevisionError =
    | RevisionConflict(expected: string, current: string)
    | EntityNotFound(ref: string)
    | StaleReference(ref: string)
    | PreconditionFailed(reason: string)
    | UnsupportedOperation(reason: string)
    | HasDependents(ref: string)
    | NoUndo
    | NoRedo
    | Panicked

  datatype Result<+T> = Ok(value: T) | Err(error: RevisionError)

  // ----- Preconditions (`verify_preconditions`) -----

  function PreconditionError(g: Graph, p: Precondition): Option<RevisionError> {
    match p
    case PropertyEquals(target, property, value) =>
      if target !in g.entities then Some(EntityNotFound(target))
      else if PropertyValue(g.entities[target].properties, property) != Some(value) then
        Some(PreconditionFailed("property differs"))
      else None
    case EntityKind(target, kind) =>
      if target !in g.entities then Some(EntityNotFound(target))
      else if g.entities[target].kind != kind then Some(PreconditionFailed("kind differs"))
      else None
    case EntityExists(target, identity) =>
      if target !in g.entities then Some(EntityNotFound(target))
      else if identity.Some? && g.entities[target].identity.state != identity.value then
        Some(PreconditionFailed("identity state mismatch"))
      else None
    case RevisionEquals(revision) =>
      if revision != g.revision.Id() && revision != g.revision.GeometryId() then
        Some(RevisionConflict(revision, g.revision.Id()))
      else None
    case QueryHolds(_, _) => Some(UnsupportedOperation("query_holds precondition was not evaluated"))
  }

  function FirstPreconditionError(g: Graph, ps: seq<Precondition>): (e: Option<RevisionError>)
    ensures e.None? <==> forall i :: 0 <= i < |ps| ==> PreconditionError(g, ps[i]).None?
  {
    if ps == [] then None
    else if PreconditionError(g, ps[0]).Some? then PreconditionError(g, ps[0])
    else
      assert forall i :: 0 < i < |ps| ==> ps[i] == ps[1..][i - 1];
      FirstPreconditionError(g, ps[1..])
  }

  method VerifyPreconditions(g: Graph, ps: seq<Precondition>) returns (e: Option<RevisionError>)
    ensures e == FirstPreconditionError(g, ps)
  {
    for i := 0 to |ps|
      invariant FirstPreconditionError(g, ps) == FirstPreconditionError(g, ps[i..])
    {
      e := PreconditionError(g, ps[i]);
      if e.Some? { return; }
    }
    e := None;
  }

  // ----- Operation validation against the base graph (`validate_operations`) -----

  predicate IsAsciiLetter(c: char) {
    'a' <= c <= 'z' || 'A' <= c <= 'Z'
  }

  predicate IsNameChar(c: char) {
    IsAsciiLetter(c) || IsDigit(c) || c == '_'
  }

  predicate IsIdentifier(name: string) {
    name != "" && IsAsciiLetter(name[0]) && forall c :: c in name ==> IsNameChar(c)
  }

  predicate IsPropertyName(property: string) {
    && property != ""
    && (forall i :: 0 <= i < |property| - 1 ==> property[i] != '_' || property[i + 1] != '_')
    && (forall c :: c in property ==> IsNameChar(c))
  }

  function ExactEntity(g: Graph, ref: string): Result<Entity> {
    if ref !in g.entities then Err(EntityNotFound(ref))
    else if !g.entities[ref].identity.state.WriteEligible() then Err(StaleReference(ref))
    else Ok(g.entities[ref])
  }

  function ObjectEntity(g: Graph, ref: string): Result<Entity> {
    match ExactEntity(g, ref)
    case Err(e) => Err(e)
    case Ok(entity) =>
      if entity.kind == "cad.document" || (entity.source.Some? && entity.source.value.subelement.Some?) then
        Err(UnsupportedOperation("operation requires an object-level target"))
      else Ok(entity)
  }

  function ObjectRef(g: Graph, name: string): string {
    "fc://session/" + g.session + "/document/" + g.document + "/object/" + name
  }

  function ExpectedParameters(primitive: string): Option<set<string>> {
    match primitive
    case "box" => Some({"length", "width", "height"})
    case "cylinder" => Some({"radius", "height"})
    case "sphere" => Some({"radius"})
    case _ => None
  }

  predicate ValidQuantity(q: Quantity) {
    q.value.Finite? && q.value.r >= 0.0 && q.unit != ""
  }

  const SELECTION_MODES := {"replace", "add", "remove"}
  const VIEW_OPERATIONS := {"fit_all", "view_axo", "view_front", "view_rear", "view_left", "view_right", "view_top", "view_bottom"}
  const BOOLEAN_OPERATIONS := {"cut", "fuse", "common"}
  const OBJECT_KINDS := {"Part::Feature", "PartDesign::Feature", "PartDesign::Body", "PartDesign::FeaturePython", "Sketcher::SketchObject"}

  function SelectionError(g: Graph, targets: seq<string>): Option<RevisionError> {
    if targets == [] then None
    else match ExactEntity(g, targets[0])
      case Err(e) => Some(e)
      case Ok(entity) =>
        if entity.kind == "cad.document" then Some(UnsupportedOperation("document cannot be selected as an object"))
        else SelectionError(g, targets[1..])
  }

  function PropertyTargetError(g: Graph, target: string, property: string): Option<RevisionError> {
    match ObjectEntity(g, target)
    case Err(e) => Some(e)
    case Ok(entity) =>
      if !IsPropertyName(property) then Some(UnsupportedOperation("property names must be simple identifiers"))
      else if PropertyValue(entity.properties, property).None? then Some(UnsupportedOperation("property is not declared"))
      else None
  }

  function NewObjectError(g: Graph, name: string): Option<RevisionError> {
    if ObjectRef(g, name) in g.entities then Some(PreconditionFailed("object already exists")) else None
  }

  const BAD_NAME := UnsupportedOperation("object names must be simple ASCII identifiers")

  function OperationError(g: Graph, op: Operation): Option<RevisionError> {
    match op
    case SetPropertyOp(target, property, _) => PropertyTargetError(g, target, property)
    case SetExpression(target, property, _) => PropertyTargetError(g, target, property)
    case SketchSetDatum(constraint, _) => (
      match ExactEntity(g, constraint)
      case Err(e) => Some(e)
      case Ok(entity) =>
        if entity.kind != "sketch.constraint" then Some(UnsupportedOperation("sketch datum requires a sketch.constraint target"))
        else None)
    case SetVisibility(target, _) => (
      match ObjectEntity(g, target)
      case Err(e) => Some(e)
      case Ok(entity) =>
        if PropertyValue(entity.properties, "visible").None? then Some(UnsupportedOperation("visibility is not declared"))
        else None)
    case SetSelection(targets, mode) =>
      if mode !in SELECTION_MODES then Some(UnsupportedOperation("selection mode is not allowlisted"))
      else SelectionError(g, targets)
    case SetView(operation, _) =>
      if operation !in VIEW_OPERATIONS then Some(UnsupportedOperation("view operation is not allowlisted")) else None
    case CreatePrimitive(name, primitive, parameters) =>
      if !IsIdentifier(name) then Some(BAD_NAME)
      else if ExpectedParameters(primitive).None? then Some(UnsupportedOperation("primitive is not allowlisted"))
      else if parameters.Keys != ExpectedParameters(primitive).value then
        Some(UnsupportedOperation("primitive parameters do not match the allowlisted shape"))
      else if exists k :: k in parameters && !ValidQuantity(parameters[k]) then
        Some(UnsupportedOperation("primitive quantities must be finite, non-negative, and unit-tagged"))
      else None
    case Boolean(result, operation, left, right) =>
      if !IsIdentifier(result) then Some(BAD_NAME)
      else if operation !in BOOLEAN_OPERATIONS then Some(UnsupportedOperation("boolean operation is not allowlisted"))
      else if ObjectEntity(g, left).Err? then Some(ObjectEntity(g, left).error)
      else if ObjectEntity(g, right).Err? then Some(ObjectEntity(g, right).error)
      else NewObjectError(g, result)
    case CreateObject(name, kind, _) =>
      if !IsIdentifier(name) then Some(BAD_NAME)
      else if kind !in OBJECT_KINDS then Some(UnsupportedOperation("object type is not allowlisted"))
      else NewObjectError(g, name)
    case DeleteObject(target, _) =>
      if ObjectEntity(g, target).Err? then Some(ObjectEntity(g, target).error) else None
    case UndoOp | RedoOp => Some(UnsupportedOperation("undo/redo require a live bridge"))
  }

  function FirstOperationError(g: Graph, ops: seq<Operation>): (e: Option<RevisionError>)
    ensures e.None? <==> forall i :: 0 <= i < |ops| ==> OperationError(g, ops[i]).None?
  {
    if ops == [] then None
    else if OperationError(g, ops[0]).Some? then OperationError(g, ops[0])
    else
      assert forall i :: 0 < i < |ops| ==> ops[i] == ops[1..][i - 1];
      FirstOperationError(g, ops[1..])
  }

  method ValidateOperations(g: Graph, ops: seq<Operation>) returns (e: Option<RevisionError>)
    ensures e == FirstOperationError(g, ops)
  {
    for i := 0 to |ops|
      invariant FirstOperationError(g, ops) == FirstOperationError(g, ops[i..])
    {
      e := OperationError(g, ops[i]);
      if e.Some? { return; }
    }
    e := None;
  }

  // ----- Replaying one operation (`apply_operation`) -----

  function QuantityValue(q: Quantity): Value {
    Obj(map["value" := if q.value.Finite? then Num(Float(q.value.r)) else Null, "unit" := Str(q.unit)])
  }

  function NewEntity(g: Graph, name: string, kind: string, properties: Value, links: seq<Link>): Entity {
    Entity(ObjectRef(g, name), kind, "ccir/1.0", g.revision.Id(), Some(name), Some(name), None, map[], None,
           DEFAULT_IDENTITY, properties, links, [], None)
  }

  function Insert(g: Graph, entity: Entity): Graph {
    g.(entities := g.entities[entity.ref := entity])
  }

  /** `writable_entity` followed by `set_property`. */
  function WriteProperty(g: Graph, target: string, path: string, value: Value): Result<Graph> {
    match ExactEntity(g, target)
    case Err(e) => Err(e)
    case Ok(entity) =>
      match SetProperty(entity.properties, path, value)
      case None => Err(Panicked)
      case Some(properties) => Ok(g.(entities := g.entities[target := entity.(properties := properties)]))
  }

  predicate HasDependent(g: Graph, target: string) {
    exists k :: k in g.entities && g.entities[k].HasRelation("depends_on", target)
  }

  function ApplyOperation(g: Graph, op: Operation): Result<Graph> {
    match op
    case SetPropertyOp(target, property, value) => WriteProperty(g, target, property, value)
    case SetExpression(target, property, expression) => WriteProperty(g, target, "expressions." + property, Str(expression))
    case SketchSetDatum(constraint, datum) => WriteProperty(g, constraint, "datum", QuantityValue(datum))
    case CreatePrimitive(name, primitive, parameters) =>
      if ObjectRef(g, name) in g.entities then Err(PreconditionFailed("object already exists"))
      else
        var quantities := map k | k in parameters :: QuantityValue(parameters[k]);
        Ok(Insert(g, NewEntity(g, name, "cad.object",
                               Obj(map["primitive" := Str(primitive), "parameters" := Obj(quantities)]), [])))
    case Boolean(result, operation, left, right) =>
      if left !in g.entities then Err(EntityNotFound(left))
      else if right !in g.entities then Err(EntityNotFound(right))
      else
        var links := [Link("depends_on", g.entities[left].ref), Link("depends_on", g.entities[right].ref)];
        Ok(Insert(g, NewEntity(g, result, "cad.feature.boolean",
                               Obj(map["operation" := Str(operation), "valid" := Bool(true)]), links)))
    case SetVisibility(target, visible) => WriteProperty(g, target, "visible", Bool(visible))
    case SetSelection(targets, mode) =>
      var selection := Obj(map["targets" := Arr(seq(|targets|, i requires 0 <= i < |targets| => Str(targets[i]))), "mode" := Str(mode)]);
      Ok(g.(metadata := g.metadata["selection" := selection]))
    case SetView(operation, viewParameters) =>
      Ok(g.(metadata := g.metadata["view_operation" := Obj(map["operation" := Str(operation), "parameters" := viewParameters])]))
    case CreateObject(name, kind, properties) => Ok(Insert(g, NewEntity(g, name, kind, properties, [])))
    case DeleteObject(target, requireNoDependents) =>
      if requireNoDependents && HasDependent(g, target) then Err(HasDependents(target))
      else if target !in g.entities then Err(EntityNotFound(target))
      else Ok(g.(entities := g.entities - {target}))
    case UndoOp | RedoOp => Err(UnsupportedOperation("undo/redo require a live bridge"))
  }

  /** All operations in order, stopping at the first error. */
  function ApplyOperations(g: Graph, ops: seq<Operation>): Result<Graph>
    decreases |ops|
  {
    if ops == [] then Ok(g)
    else match ApplyOperation(g, ops[0])
      case Err(e) => Err(e)
      case Ok(next) => ApplyOperations(next, ops[1..])
  }

  // ----- The whole changeset (`apply_changeset`) -----

  predicate AnyRisky(ops: seq<Operation>) {
    exists i :: 0 <= i < |ops| && ops[i].Risk() != Ui
  }

  predicate AnyLabel(ops: seq<Operation>) {
    exists i :: 0 <= i < |ops| && ops[i].SetPropertyOp? && ops[i].property == "label"
  }

  predicate AnySelection(ops: seq<Operation>) {
    exists i :: 0 <= i < |ops| && ops[i].SetSelection?
  }

  predicate AnyView(ops: seq<Operation>) {
    exists i :: 0 <= i < |ops| && ops[i].SetView?
  }

  function RevisionAfter(r: Revision, ops: seq<Operation>): Revision {
    r.(geometry := if AnyRisky(ops) then Bump(r.geometry) else r.geometry,
       metadata := if AnyLabel(ops) then Bump(r.metadata) else r.metadata,
       focus := if AnySelection(ops) then Bump(r.focus) else r.focus,
       view := if AnyView(ops) then Bump(r.view) else r.view)
  }

  /** Give a graph its new revision, rewrite its references, and recompute its diagnostics. */
  function Published(g: Graph, revision: Revision): Graph {
    var moved := Rekeyed(g.(revision := revision), g.revision.Id(), revision.Id());
    moved.(diagnostics := Validation(moved))
  }

  function Applied(g: Graph, cs: ChangeSet): Result<Graph> {
    match FirstPreconditionError(g, cs.preconditions)
    case Some(e) => Err(e)
    case None =>
      match FirstOperationError(g, cs.operations)
      case Some(e) => Err(e)
      case None =>
        match ApplyOperations(g, cs.operations)
        case Err(e) => Err(e)
        case Ok(next) => Ok(Published(next, RevisionAfter(g.revision, cs.operations)))
  }

  lemma {:induction false} ApplyKeepsHeader(g: Graph, ops: seq<Operation>)
    requires ApplyOperations(g, ops).Ok?
    decreases |ops|
    ensures var h := ApplyOperations(g, ops).value;
      h.revision == g.revision && h.session == g.session && h.document == g.document && h.facts == g.facts
  {
    hide ExactEntity, HasDependent, NewEntity, SetProperty;
    if ops == [] {
    } else {
      ApplyKeepsHeader(ApplyOperation(g, ops[0]).value, ops[1..]);
    }
  }

  method ApplyChangeset(base: Graph, cs: ChangeSet) returns (r: Result<Graph>)
    ensures r == Applied(base, cs)
  {
    var failed := VerifyPreconditions(base, cs.preconditions);
    if failed.Some? { return Err(failed.value); }
    failed := ValidateOperations(base, cs.operations);
    if failed.Some? { return Err(failed.value); }
    var graph := base;
    var ops := cs.operations;
    for i := 0 to |ops|
      invariant ApplyOperations(base, ops) == ApplyOperations(graph, ops[i..])
    {
      var applied := ApplyOperation(graph, ops[i]);
      if applied.Err? { return Err(applied.error); }
      assert ops[i..][1..] == ops[i + 1..];
      graph := applied.value;
    }
    ApplyKeepsHeader(base, ops);
    var revision := base.revision;
    if AnyRisky(ops) { revision := revision.(geometry := Bump(revision.geometry)); }
    if AnyLabel(ops) { revision := revision.(metadata := Bump(revision.metadata)); }
    if AnySelection(ops) { revision := revision.(focus := Bump(revision.focus)); }
    if AnyView(ops) { revision := revision.(view := Bump(revision.view)); }
    graph := RekeyRefs(graph.(revision := revision), base.revision.Id(), revision.Id());
    var diagnostics := ValidateInvariants(graph);
    r := Ok(graph.(diagnostics := diagnostics));
  }
}
