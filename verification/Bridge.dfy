/** The live bridge: request handling, preview with rollback check, and commit (`BridgeState`). */
module Bridge {
  import opened Text
  import opened Lists
  import opened Ordered
  import opened Json
  import opened Ccir
  import opened Coalescer
  import opened EventRuns

  datatype FaultCode =
    | InvalidRequest | PermissionDenied | StaleReference | RevisionConflict | PreconditionFailed
    | WriteBlocked | RollbackVerificationFailed | BridgeBusy | ValidationFailed | SessionUnavailable

  datatype Fault = Fault(code: FaultCode, retryable: bool)

  datatype PreviewRecord = PreviewRecord(baseRevision: string, baseFingerprint: string, previewHash: string)

  /** The answer to a preview or commit; only a preview counts the recomputed objects. */
  datatype ChangeResponse = ChangeResponse(
    baseRevision: string, resultingRevision: string, changesetHash: string, previewHash: string,
    rolledBack: bool, rollbackVerified: bool, changedEntities: seq<string>, objectsRecomputed: Option<nat>,
    validation: Validation)

  datatype Validation = Validation(passed: bool, checks: seq<Value>)

  datatype Reply =
    | Responded(response: ChangeResponse)
    | Done(resultingRevision: string, action: string)
    | Shown(snapshot: Value)
    | Inspected(entity: Value, revision: Value)
    | Welcomed
    | Silent
    | Faulted(fault: Fault)

  /** A document observer callback: an event is emitted and the table flushed. */
  datatype Notification = Notification(eventClass: string, objectName: Option<string>, now: nat, force: bool)

  /** What FreeCAD does when it is asked to run a transaction: the document afterwards (whether or not it
      was restored), the callbacks fired meanwhile, the error message if it failed, and otherwise the changed
      entities and the validation checks. */
  datatype Effect<Doc> = Effect(
    doc: Doc, notifications: seq<Notification>, failure: Option<string>, changed: seq<string>, checks: seq<Value>)

  /** The fixed surroundings: session name and epoch, digest text of a JSON value, the pairing check of a nonce
      and a proof, and snapshot extraction from a document under given counters, for a requested document name,
      at a given time. */
  datatype Setup<!Doc> = Setup(
    session: string, epoch: string, sha: Value -> string, paired: (string, string) -> bool,
    extract: (Doc, Revision, Option<string>, nat) -> Value)

  datatype State<Doc> = State(
    doc: Doc, revision: Revision, previews: map<string, PreviewRecord>, writeBlocked: bool, events: Events)

  datatype Outcome<Doc> = Outcome(state: State<Doc>, reply: Reply)

  // ----- JSON access -----

  function AsStr(v: Option<Value>): Option<string> {
    if v.Some? && v.value.Str? then Some(v.value.s) else None
  }

  function GetStr(v: Value, key: string): Option<string> {
    AsStr(Get(v, key))
  }

  function GetItems(v: Value, key: string): seq<Value> {
    match Get(v, key) case Some(Arr(items)) => items case _ => []
  }

  function GetU64(v: Option<Value>, key: string): nat {
    if v.None? then 0
    else match Get(v.value, key) case Some(Num(Int(i))) => (if 0 <= i < U64_SIZE then i else 0) case _ => 0
  }

  function OrEmpty(s: Option<string>): string {
    if s.Some? then s.value else ""
  }

  /** `property_value` of the bridge: missing members read as null. */
  function PathOrNull(v: Value, path: seq<string>): Value
    decreases |path|
  {
    if path == [] then v
    else PathOrNull(match Get(v, path[0]) case Some(member) => member case None => Null, path[1..])
  }

  /** `revision_id` of a snapshot. */
  function SnapshotRevision(snapshot: Value): string {
    var r := Get(snapshot, "revision");
    if r.None? then ""
    else "g" + Decimal(GetU64(r, "geometry")) + ".m" + Decimal(GetU64(r, "metadata")) + ".f" + Decimal(GetU64(r, "focus"))
         + ".v" + Decimal(GetU64(r, "view")) + "." + OrEmpty(GetStr(r.value, "epoch"))
  }

  function SnapshotGeometry(snapshot: Value): string {
    var r := Get(snapshot, "revision");
    "g" + Decimal(GetU64(r, "geometry")) + "." + if r.Some? then OrEmpty(GetStr(r.value, "epoch")) else ""
  }

  predicate RevisionMatches(value: Option<string>, snapshot: Value) {
    value.Some? && (value.value == SnapshotRevision(snapshot) || value.value == SnapshotGeometry(snapshot))
  }

  function Without(v: Value, keys: set<string>): Value {
    match v case Obj(fields) => Obj(fields - keys) case _ => v
  }

  /** The changeset hash leaves out the approval token. */
  function ChangesetHash(sha: Value -> string, changeset: Value): string {
    sha(Without(changeset, {"approval_token"}))
  }

  /** The part of a snapshot that its fingerprint covers: all but the revision, and the revision and clock of the view. */
  function Fingerprinted(snapshot: Value): Value {
    match Without(snapshot, {"revision"})
    case Obj(fields) =>
      if "view" in fields then Obj(fields["view" := Without(fields["view"], {"revision", "timestamp_ms"})]) else Obj(fields)
    case v => v
  }

  function Fingerprint(sha: Value -> string, snapshot: Value): string {
    sha(Fingerprinted(snapshot))
  }

  function ErrorCode(message: string): FaultCode {
    if Contains(message, "busy") then BridgeBusy
    else if Contains(message, "revision") then RevisionConflict
    else if Contains(message, "validation") then ValidationFailed
    else InvalidRequest
  }

  // ----- Validating a changeset against a snapshot (`validate_changeset`) -----

  /** The entity listed under `ref`; of several the last one. */
  function EntityAt(entities: seq<Value>, ref: string): Option<Value> {
    if entities == [] then None
    else if GetStr(entities[|entities| - 1], "ref") == Some(ref) then Some(entities[|entities| - 1])
    else EntityAt(entities[..|entities| - 1], ref)
  }

  const SUBELEMENT_KINDS := {"face", "edge", "vertex", "constraint"}

  predicate HasSubelement(ref: string) {
    exists part :: part in Split(Split(ref, '@')[0], '/') && part in SUBELEMENT_KINDS
  }

  function TargetPreconditionFault(entities: seq<Value>, kind: string, p: Value): Option<Fault> {
    var target := GetStr(p, "target");
    if target.None? then Some(Fault(InvalidRequest, false))
    else match EntityAt(entities, target.value)
      case None => Some(Fault(StaleReference, true))
      case Some(entity) =>
        var properties := match Get(entity, "properties") case Some(v) => v case None => Null;
        var expected := match Get(p, "value") case Some(v) => v case None => Null;
        if kind == "entity_kind" && GetStr(entity, "kind") != GetStr(p, "expected_kind") then
          Some(Fault(PreconditionFailed, false))
        else if kind == "property_equals" && PathOrNull(properties, Split(OrEmpty(GetStr(p, "property")), '.')) != expected then
          Some(Fault(PreconditionFailed, false))
        else None
  }

  function PreconditionFault(snapshot: Value, entities: seq<Value>, p: Value): Option<Fault> {
    match GetStr(p, "kind")
    case None => Some(Fault(InvalidRequest, false))
    case Some(kind) =>
      if kind == "revision_equals" then
        if RevisionMatches(GetStr(p, "revision"), snapshot) then None else Some(Fault(RevisionConflict, true))
      else if kind in {"entity_exists", "entity_kind", "property_equals"} then TargetPreconditionFault(entities, kind, p)
      else Some(Fault(InvalidRequest, false))
  }

  function PreconditionsFault(snapshot: Value, entities: seq<Value>, ps: seq<Value>): Option<Fault> {
    if ps == [] then None
    else
      var first := PreconditionFault(snapshot, entities, ps[0]);
      if first.Some? then first else PreconditionsFault(snapshot, entities, ps[1..])
  }

  function ReferenceFault(entities: seq<Value>, op: Value, key: string): Option<Fault> {
    match GetStr(op, key)
    case None => None
    case Some(ref) =>
      match EntityAt(entities, ref)
      case None => Some(Fault(StaleReference, true))
      case Some(entity) =>
        var state := match Get(entity, "identity") case Some(identity) => GetStr(identity, "state") case None => None;
        if state == Some("exact") || state == Some("mapped_exact") then None else Some(Fault(StaleReference, true))
  }

  predicate NamesSubelement(op: Value, key: string) {
    GetStr(op, key).Some? && HasSubelement(GetStr(op, key).value)
  }

  function OperationFault(entities: seq<Value>, op: Value): Option<Fault> {
    match GetStr(op, "op")
    case None => Some(Fault(InvalidRequest, false))
    case Some(name) =>
      if ReferenceFault(entities, op, "target").Some? then ReferenceFault(entities, op, "target")
      else if ReferenceFault(entities, op, "constraint").Some? then ReferenceFault(entities, op, "constraint")
      else if ReferenceFault(entities, op, "left").Some? then ReferenceFault(entities, op, "left")
      else if ReferenceFault(entities, op, "right").Some? then ReferenceFault(entities, op, "right")
      else if name in {"set_property", "set_expression", "set_visibility", "delete_object"} && NamesSubelement(op, "target") then
        Some(Fault(InvalidRequest, false))
      else if name == "boolean" && (NamesSubelement(op, "left") || NamesSubelement(op, "right")) then
        Some(Fault(InvalidRequest, false))
      else None
  }

  function OperationsFault(entities: seq<Value>, ops: seq<Value>): Option<Fault> {
    if ops == [] then None
    else
      var first := OperationFault(entities, ops[0]);
      if first.Some? then first else OperationsFault(entities, ops[1..])
  }

  function ValidationFault(session: string, writeBlocked: bool, changeset: Value, snapshot: Value): Option<Fault> {
    var named := GetStr(changeset, "session");
    var ops, entities := GetItems(changeset, "operations"), GetItems(snapshot, "entities");
    if writeBlocked then Some(Fault(WriteBlocked, false))
    else if GetStr(changeset, "schema_version") != Some("changeset/1.0") then Some(Fault(InvalidRequest, false))
    else if named.Some? && named.value != "" && named.value != session then Some(Fault(PermissionDenied, false))
    else if GetStr(changeset, "document") != GetStr(snapshot, "document") then Some(Fault(InvalidRequest, false))
    else if ops == [] then Some(Fault(InvalidRequest, false))
    else if !RevisionMatches(GetStr(changeset, "base_revision"), snapshot) then Some(Fault(RevisionConflict, true))
    else if PreconditionsFault(snapshot, entities, GetItems(changeset, "preconditions")).Some? then
      PreconditionsFault(snapshot, entities, GetItems(changeset, "preconditions"))
    else OperationsFault(entities, ops)
  }

  // ----- Counters -----

  /** `flush_events`: every ready class bumps its counter once. */
  function FlushedState<Doc>(s: State<Doc>, force: bool, now: nat): State<Doc> {
    s.(revision := BumpAll(s.revision, SortedKeys(Ready(s.events, force, now))), events := Flushed(s.events, force, now))
  }

  function Notified<Doc>(s: State<Doc>, n: Notification): State<Doc> {
    FlushedState(s.(events := Emitted(s.events, n.eventClass, n.objectName, n.now)), n.force, n.now)
  }

  function NotifiedAll<Doc>(s: State<Doc>, ns: seq<Notification>): State<Doc> {
    if ns == [] then s else Notified(NotifiedAll(s, ns[..|ns| - 1]), ns[|ns| - 1])
  }

  function OperationClass(op: Value): string {
    match GetStr(op, "op")
    case Some("set_selection") => "focus"
    case Some("set_view") => "view"
    case Some("set_visibility") => "metadata"
    case _ => "geometry"
  }

  function ChangesetClasses(changeset: Value): set<string> {
    var ops := GetItems(changeset, "operations");
    set i | 0 <= i < |ops| :: OperationClass(ops[i])
  }

  /** `bump_for_changeset`: each class among the operations bumps its counter once. */
  function BumpForChangeset(r: Revision, changeset: Value): Revision {
    BumpAll(r, SortedKeys(ChangesetClasses(changeset)))
  }

  // ----- Requests -----

  function TheChangeset(payload: Value): Option<Value> {
    match Get(payload, "changeset") case Some(Obj(fields)) => Some(Obj(fields)) case _ => None
  }

  function SnapshotOf<Doc>(setup: Setup<Doc>, s: State<Doc>, changeset: Value, clock: nat): Value {
    setup.extract(s.doc, s.revision, GetStr(changeset, "document"), clock)
  }

  /** `apply`: the transaction with its observer callbacks. */
  function Transacted<Doc>(s: State<Doc>, effect: Effect<Doc>): State<Doc> {
    NotifiedAll(s.(doc := effect.doc), effect.notifications)
  }

  /** The validation part of a response: it passes unless some check has the status fail. */
  function Validated(checks: seq<Value>): Validation {
    Validation(forall i :: 0 <= i < |checks| ==> GetStr(checks[i], "status") != Some("fail"), checks)
  }

  function PreviewDigest(sha: Value -> string, baseRevision: string, baseFingerprint: string,
                         previewFingerprint: string, changesetHash: string): string {
    sha(Obj(map["base_revision" := Str(baseRevision), "base_fingerprint" := Str(baseFingerprint),
                "preview_fingerprint" := Str(previewFingerprint), "changeset_hash" := Str(changesetHash)]))
  }

  /** A validated preview: apply and abort, restore the counters, check the rollback, file the record. */
  function PreviewValidated<Doc>(setup: Setup<Doc>, s: State<Doc>, cs: Value, before: Value,
                                 effect: Effect<Doc>, clocks: (nat, nat, nat)): Outcome<Doc> {
    var applied := Transacted(s, effect);
    if effect.failure.Some? then Outcome(applied, Faulted(Fault(ErrorCode(effect.failure.value), false)))
    else
      var bumped := applied.(revision := BumpForChangeset(applied.revision, cs));
      var previewed := SnapshotOf(setup, bumped, cs, clocks.1);
      var restored := applied.(revision := s.revision);
      var after := SnapshotOf(setup, restored, cs, clocks.2);
      var base := Fingerprint(setup.sha, before);
      if Fingerprint(setup.sha, after) != base then
        Outcome(restored.(writeBlocked := true), Faulted(Fault(RollbackVerificationFailed, false)))
      else
        var hash := ChangesetHash(setup.sha, cs);
        var previewHash := PreviewDigest(setup.sha, SnapshotRevision(before), base, Fingerprint(setup.sha, previewed), hash);
        var record := PreviewRecord(SnapshotRevision(before), base, previewHash);
        Outcome(restored.(previews := s.previews[hash := record]),
                Responded(ChangeResponse(record.baseRevision, SnapshotRevision(previewed), hash, previewHash, true, true,
                                         effect.changed, Some(|effect.changed|), Validated(effect.checks))))
  }

  function PreviewOf<Doc>(setup: Setup<Doc>, s: State<Doc>, payload: Value, effect: Effect<Doc>, clocks: (nat, nat, nat)): Outcome<Doc> {
    match TheChangeset(payload)
    case None => Outcome(s, Faulted(Fault(InvalidRequest, false)))
    case Some(cs) =>
      var before := SnapshotOf(setup, s, cs, clocks.0);
      match ValidationFault(setup.session, s.writeBlocked, cs, before)
      case Some(fault) => Outcome(s, Faulted(fault))
      case None => PreviewValidated(setup, s, cs, before, effect, clocks)
  }

  /** A validated commit whose snapshot has the recorded fingerprint: apply, bump, use up the record. */
  function CommitValidated<Doc>(setup: Setup<Doc>, s: State<Doc>, cs: Value, record: PreviewRecord,
                                effect: Effect<Doc>, clocks: (nat, nat, nat)): Outcome<Doc> {
    var hash, applied := ChangesetHash(setup.sha, cs), Transacted(s, effect);
    if effect.failure.Some? then Outcome(applied, Faulted(Fault(ErrorCode(effect.failure.value), false)))
    else
      var bumped := applied.(revision := BumpForChangeset(applied.revision, cs));
      var after := SnapshotOf(setup, bumped, cs, clocks.1);
      Outcome(bumped.(previews := s.previews - {hash}),
              Responded(ChangeResponse(record.baseRevision, SnapshotRevision(after), hash, record.previewHash, false, true,
                                       effect.changed, None, Validated(effect.checks))))
  }

  function CommitOf<Doc>(setup: Setup<Doc>, s: State<Doc>, payload: Value, effect: Effect<Doc>, clocks: (nat, nat, nat)): Outcome<Doc> {
    match TheChangeset(payload)
    case None => Outcome(s, Faulted(Fault(InvalidRequest, false)))
    case Some(cs) =>
      var hash := ChangesetHash(setup.sha, cs);
      if hash !in s.previews || s.previews[hash].previewHash != OrEmpty(GetStr(payload, "preview_hash")) then
        Outcome(s, Faulted(Fault(InvalidRequest, false)))
      else
        var before := SnapshotOf(setup, s, cs, clocks.0);
        match ValidationFault(setup.session, s.writeBlocked, cs, before)
        case Some(fault) => Outcome(s, Faulted(fault))
        case None =>
          if Fingerprint(setup.sha, before) != s.previews[hash].baseFingerprint then Outcome(s, Faulted(Fault(RevisionConflict, true)))
          else CommitValidated(setup, s, cs, s.previews[hash], effect, clocks)
  }

  /** `undo` and `redo` of the bridge. */
  function NavigateOf<Doc>(s: State<Doc>, effect: Effect<Doc>, action: string): Outcome<Doc> {
    var applied := Transacted(s, effect);
    if effect.failure.Some? then Outcome(applied, Faulted(Fault(ErrorCode(effect.failure.value), false)))
    else
      var bumped := applied.(revision := BumpClass(applied.revision, "transaction"));
      Outcome(bumped, Done(bumped.revision.Id(), action))
  }

  /** `inspect`: the first entity of the snapshot under the reference. */
  function EntityIn(entities: seq<Value>, ref: string): Option<Value> {
    if entities == [] then None
    else if GetStr(entities[0], "ref") == Some(ref) then Some(entities[0])
    else EntityIn(entities[1..], ref)
  }

  function ShowOf<Doc>(setup: Setup<Doc>, s: State<Doc>, payload: Value, clock: nat): Value {
    setup.extract(s.doc, s.revision, GetStr(payload, "document"), clock)
  }

  function InspectOf<Doc>(setup: Setup<Doc>, s: State<Doc>, payload: Value, clock: nat): Reply {
    var snapshot := ShowOf(setup, s, payload, clock);
    match GetStr(payload, "ref")
    case None => Faulted(Fault(InvalidRequest, false))
    case Some(ref) =>
      match EntityIn(GetItems(snapshot, "entities"), ref)
      case None => Faulted(Fault(StaleReference, true))
      case Some(entity) => Inspected(entity, match Get(snapshot, "revision") case Some(revision) => revision case None => Null)
  }

  /** A request as it arrives. */
  datatype Envelope = Envelope(protocolVersion: string, message: string, sessionEpoch: string, payload: Value)

  /** Why a request is turned away before anything else happens. */
  datatype Refusal = WrongProtocol | BadProof | Unauthenticated | StaleEpoch {
    function AsFault(): Fault {
      match this
      case WrongProtocol => Fault(InvalidRequest, false)
      case BadProof | Unauthenticated => Fault(PermissionDenied, false)
      case StaleEpoch => Fault(SessionUnavailable, true)
    }
  }

  /** What a request amounts to once the protocol, the pairing and the epoch have been checked. */
  datatype Message =
    | Turned(refusal: Refusal)
    | Pairing
    | Snapshot(payload: Value)
    | Inspect(payload: Value)
    | PreviewMsg(payload: Value)
    | CommitMsg(payload: Value)
    | UndoMsg
    | RedoMsg
    | Unsupported(payload: Value)

  const IPC_VERSION := "ipc/1.0"

  function MessageOf(name: string, payload: Value): Message {
    match name
    case "bridge.snapshot" => Snapshot(payload)
    case "bridge.inspect" => Inspect(payload)
    case "bridge.preview" => PreviewMsg(payload)
    case "bridge.commit" => CommitMsg(payload)
    case "bridge.undo" => UndoMsg
    case "bridge.redo" => RedoMsg
    case _ => Unsupported(payload)
  }

  /** The checks of `handle` before anything else happens. */
  function Admitted<Doc>(setup: Setup<Doc>, request: Envelope, authenticated: bool): Message {
    if request.protocolVersion != IPC_VERSION then Turned(WrongProtocol)
    else if request.message == "bridge.authenticate" then
      if setup.paired(OrEmpty(GetStr(request.payload, "nonce")), OrEmpty(GetStr(request.payload, "proof"))) then Pairing
      else Turned(BadProof)
    else if !authenticated then Turned(Unauthenticated)
    else if request.sessionEpoch != setup.epoch then Turned(StaleEpoch)
    else MessageOf(request.message, request.payload)
  }

  /** Whether the connection counts as authenticated after the request. */
  function AuthenticatedAfter<Doc>(setup: Setup<Doc>, request: Envelope, authenticated: bool): bool {
    if request.protocolVersion == IPC_VERSION && request.message == "bridge.authenticate" then
      setup.paired(OrEmpty(GetStr(request.payload, "nonce")), OrEmpty(GetStr(request.payload, "proof")))
    else authenticated
  }

  predicate ForcesFlush(m: Message) {
    match m
    case Snapshot(payload) => GetStr(payload, "freshness") == Some("synchronized")
    case Unsupported(payload) => GetStr(payload, "freshness") == Some("synchronized")
    case _ => true
  }

  function Dispatched<Doc>(setup: Setup<Doc>, s: State<Doc>, m: Message, effect: Effect<Doc>, clocks: (nat, nat, nat)): Outcome<Doc> {
    match m
    case Turned(refusal) => Outcome(s, Faulted(refusal.AsFault()))
    case Pairing => Outcome(s, Welcomed)
    case Snapshot(payload) => Outcome(s, Shown(ShowOf(setup, s, payload, clocks.0)))
    case Inspect(payload) => Outcome(s, InspectOf(setup, s, payload, clocks.0))
    case PreviewMsg(payload) => PreviewOf(setup, s, payload, effect, clocks)
    case CommitMsg(payload) => CommitOf(setup, s, payload, effect, clocks)
    case UndoMsg => NavigateOf(s, effect, "undo")
    case RedoMsg => NavigateOf(s, effect, "redo")
    case Unsupported(_) => Outcome(s, Faulted(Fault(InvalidRequest, false)))
  }

  /** One request: unless it was turned away or only pairs, flush the event table; then dispatch (`handle`). */
  function HandleOf<Doc>(setup: Setup<Doc>, s: State<Doc>, m: Message, now: nat, effect: Effect<Doc>, clocks: (nat, nat, nat)): Outcome<Doc> {
    if m.Turned? || m.Pairing? then Dispatched(setup, s, m, effect, clocks)
    else Dispatched(setup, FlushedState(s, ForcesFlush(m), now), m, effect, clocks)
  }

  /** A request changes the bridge only on a connection that is authenticated, in the protocol's version and the
      session's epoch; and only a valid proof authenticates a connection. */
  lemma OnlyAdmittedRequestsAct<Doc>(setup: Setup<Doc>, s: State<Doc>, request: Envelope, authenticated: bool,
        now: nat, effect: Effect<Doc>, clocks: (nat, nat, nat))
    ensures HandleOf(setup, s, Admitted(setup, request, authenticated), now, effect, clocks).state != s ==>
              authenticated && request.protocolVersion == IPC_VERSION && request.sessionEpoch == setup.epoch
    ensures AuthenticatedAfter(setup, request, authenticated) && !authenticated ==>
              setup.paired(OrEmpty(GetStr(request.payload, "nonce")), OrEmpty(GetStr(request.payload, "proof")))
              && HandleOf(setup, s, Admitted(setup, request, authenticated), now, effect, clocks) == Outcome(s, Welcomed)
  {
    hide MessageOf, GetStr;
  }

  // ----- The bridge as an object -----

  class BridgeState<Doc> {
    const setup: Setup<Doc>
    const events: EventCoalescer
    var doc: Doc
    var revision: Revision
    var previews: map<string, PreviewRecord>
    var writeBlocked: bool

    function Value(): State<Doc>
      reads this, events
    {
      State(doc, revision, previews, writeBlocked, events.Value())
    }

    constructor (setup: Setup<Doc>, doc: Doc, epoch: string)
      ensures Value() == State(doc, Revision(0, 0, 0, 0, epoch), map[], false, Events(0, map[]))
      ensures this.setup == setup && fresh(events)
    {
      this.setup := setup;
      this.doc := doc;
      revision := Revision(0, 0, 0, 0, epoch);
      previews := map[];
      writeBlocked := false;
      events := new EventCoalescer();
    }

    method FlushEvents(force: bool, now: nat)
      modifies this`revision, events
      ensures Value() == FlushedState(old(Value()), force, now)
    {
      ghost var start := revision;
      ghost var before := events.Value();
      var classes := events.Flush(force, now);
      for i := 0 to |classes|
        invariant revision == BumpAll(start, classes[..i])
        invariant events.Value() == Flushed(before, force, now)
      {
        assert classes[..i + 1][..i] == classes[..i];
        revision := BumpClass(revision, classes[i]);
      }
      assert classes[..|classes|] == classes;
      var sorted := SortedKeys(Ready(before, force, now));
      SortedKeysDistinct(Ready(before, force, now));
      assert ToSet(sorted) == ToSet(classes);
      BumpOrderIrrelevant(start, classes, sorted);
    }

    /** A document or selection observer callback. */
    method Notify(n: Notification)
      modifies this`revision, events
      ensures Value() == Notified(old(Value()), n)
    {
      events.Emit(n.eventClass, n.objectName, n.now);
      FlushEvents(n.force, n.now);
    }

    /** The user edits the document, and an observer calls back. */
    method Observe(edited: Doc, n: Notification)
      modifies this`doc, this`revision, events
      ensures Value() == Notified(old(Value()).(doc := edited), n)
    {
      doc := edited;
      Notify(n);
    }

    /** The document runs a transaction; its observers call back meanwhile. */
    method Apply(effect: Effect<Doc>)
      modifies this`doc, this`revision, events
      ensures Value() == Transacted(old(Value()), effect)
    {
      doc := effect.doc;
      ghost var start := Value();
      for i := 0 to |effect.notifications|
        invariant Value() == NotifiedAll(start, effect.notifications[..i])
      {
        assert effect.notifications[..i + 1][..i] == effect.notifications[..i];
        Notify(effect.notifications[i]);
      }
      assert effect.notifications[..|effect.notifications|] == effect.notifications;
    }

    method BumpClasses(changeset: Value)
      modifies this`revision
      ensures revision == BumpForChangeset(old(revision), changeset)
    {
      hide BumpClass, ChangesetClasses;
      ghost var start := revision;
      var classes := SortedKeys(ChangesetClasses(changeset));
      for i := 0 to |classes|
        invariant revision == BumpAll(start, classes[..i])
      {
        assert classes[..i + 1][..i] == classes[..i];
        revision := BumpClass(revision, classes[i]);
      }
      assert classes[..|classes|] == classes;
    }

    method Preview(payload: Value, effect: Effect<Doc>, clocks: (nat, nat, nat)) returns (reply: Reply)
      modifies this, events
      ensures Outcome(Value(), reply) == PreviewOf(setup, old(Value()), payload, effect, clocks)
    {
      var found := TheChangeset(payload);
      if found.None? { return Faulted(Fault(InvalidRequest, false)); }
      var cs := found.value;
      var before := SnapshotOf(setup, Value(), cs, clocks.0);
      var invalid := ValidationFault(setup.session, writeBlocked, cs, before);
      if invalid.Some? { return Faulted(invalid.value); }
      var hash := ChangesetHash(setup.sha, cs);
      var base := Fingerprint(setup.sha, before);
      var counters := revision;
      Apply(effect);
      if effect.failure.Some? { return Faulted(Fault(ErrorCode(effect.failure.value), false)); }
      BumpClasses(cs);
      var previewed := SnapshotOf(setup, Value(), cs, clocks.1);
      revision := counters;
      var after := SnapshotOf(setup, Value(), cs, clocks.2);
      if Fingerprint(setup.sha, after) != base {
        writeBlocked := true;
        return Faulted(Fault(RollbackVerificationFailed, false));
      }
      var previewHash := PreviewDigest(setup.sha, SnapshotRevision(before), base, Fingerprint(setup.sha, previewed), hash);
      previews := previews[hash := PreviewRecord(SnapshotRevision(before), base, previewHash)];
      reply := Responded(ChangeResponse(SnapshotRevision(before), SnapshotRevision(previewed), hash, previewHash, true, true,
                                        effect.changed, Some(|effect.changed|), Validated(effect.checks)));
    }

    method Commit(payload: Value, effect: Effect<Doc>, clocks: (nat, nat, nat)) returns (reply: Reply)
      modifies this, events
      ensures Outcome(Value(), reply) == CommitOf(setup, old(Value()), payload, effect, clocks)
    {
      var found := TheChangeset(payload);
      if found.None? { return Faulted(Fault(InvalidRequest, false)); }
      var cs := found.value;
      var hash := ChangesetHash(setup.sha, cs);
      if hash !in previews { return Faulted(Fault(InvalidRequest, false)); }
      var record := previews[hash];
      if record.previewHash != OrEmpty(GetStr(payload, "preview_hash")) { return Faulted(Fault(InvalidRequest, false)); }
      var before := SnapshotOf(setup, Value(), cs, clocks.0);
      var invalid := ValidationFault(setup.session, writeBlocked, cs, before);
      if invalid.Some? { return Faulted(invalid.value); }
      if Fingerprint(setup.sha, before) != record.baseFingerprint { return Faulted(Fault(RevisionConflict, true)); }
      Apply(effect);
      if effect.failure.Some? { return Faulted(Fault(ErrorCode(effect.failure.value), false)); }
      BumpClasses(cs);
      var after := SnapshotOf(setup, Value(), cs, clocks.1);
      previews := previews - {hash};
      reply := Responded(ChangeResponse(record.baseRevision, SnapshotRevision(after), hash, record.previewHash, false, true,
                                        effect.changed, None, Validated(effect.checks)));
    }

    method Navigate(effect: Effect<Doc>, action: string) returns (reply: Reply)
      modifies this, events
      ensures Outcome(Value(), reply) == NavigateOf(old(Value()), effect, action)
    {
      Apply(effect);
      if effect.failure.Some? { return Faulted(Fault(ErrorCode(effect.failure.value), false)); }
      revision := BumpClass(revision, "transaction");
      reply := Done(revision.Id(), action);
    }

    method Handle(request: Envelope, authenticated: bool, now: nat, effect: Effect<Doc>, clocks: (nat, nat, nat))
      returns (reply: Reply, remains: bool)
      modifies this, events
      ensures Outcome(Value(), reply) == HandleOf(setup, old(Value()), Admitted(setup, request, authenticated), now, effect, clocks)
      ensures remains == AuthenticatedAfter(setup, request, authenticated)
    {
      remains := authenticated;
      if request.protocolVersion != IPC_VERSION { return Faulted(Fault(InvalidRequest, false)), remains; }
      if request.message == "bridge.authenticate" {
        remains := setup.paired(OrEmpty(GetStr(request.payload, "nonce")), OrEmpty(GetStr(request.payload, "proof")));
        return (if remains then Welcomed else Faulted(Fault(PermissionDenied, false))), remains;
      }
      if !authenticated { return Faulted(Fault(PermissionDenied, false)), remains; }
      if request.sessionEpoch != setup.epoch { return Faulted(Fault(SessionUnavailable, true)), remains; }
      var m := MessageOf(request.message, request.payload);
      reply := Serve(m, now, effect, clocks);
    }

    method Serve(m: Message, now: nat, effect: Effect<Doc>, clocks: (nat, nat, nat)) returns (reply: Reply)
      requires !m.Turned? && !m.Pairing?
      modifies this, events
      ensures Outcome(Value(), reply) == HandleOf(setup, old(Value()), m, now, effect, clocks)
    {
      FlushEvents(ForcesFlush(m), now);
      match m
      case Snapshot(payload) => reply := Shown(ShowOf(setup, Value(), payload, clocks.0));
      case Inspect(payload) => reply := InspectOf(setup, Value(), payload, clocks.0);
      case PreviewMsg(payload) => reply := Preview(payload, effect, clocks);
      case CommitMsg(payload) => reply := Commit(payload, effect, clocks);
      case UndoMsg => reply := Navigate(effect, "undo");
      case RedoMsg => reply := Navigate(effect, "redo");
      case Unsupported(_) => reply := Faulted(Fault(InvalidRequest, false));
    }
  }
}
