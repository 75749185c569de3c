/** Whole runs of the live bridge: the write protocol, the write block, and the revision counters. */
module BridgeRuns {
  import opened Text
  import opened Ordered
  import opened Json
  import opened Ccir
  import opened Coalescer
  import opened EventRuns
  import opened Bridge

  /** Between requests the user edits the document, with an observer's callback or (as when the view moves)
      without one; a request comes with everything that FreeCAD does meanwhile. */
  datatype Step<Doc> =
    | Callback(edited: Doc, n: Notification)
    | Unobserved(edited: Doc)
    | Request(m: Message, now: nat, effect: Effect<Doc>, clocks: (nat, nat, nat))

  function OutcomeOf<Doc>(setup: Setup<Doc>, s: State<Doc>, step: Step<Doc>): Outcome<Doc> {
    match step
    case Callback(edited, n) => Outcome(Notified(s.(doc := edited), n), Silent)
    case Unobserved(edited) => Outcome(s.(doc := edited), Silent)
    case Request(m, now, effect, clocks) => HandleOf(setup, s, m, now, effect, clocks)
  }

  function Next<Doc>(setup: Setup<Doc>, s: State<Doc>, step: Step<Doc>): State<Doc> {
    OutcomeOf(setup, s, step).state
  }

  function Run<Doc>(setup: Setup<Doc>, s: State<Doc>, steps: seq<Step<Doc>>): State<Doc> {
    if steps == [] then s else Next(setup, Run(setup, s, steps[..|steps| - 1]), steps[|steps| - 1])
  }

  // ----- Callbacks touch neither previews, nor the block, nor the document -----

  lemma {:induction false} CallbacksTouchCountersOnly<Doc>(s: State<Doc>, ns: seq<Notification>)
    ensures var t := NotifiedAll(s, ns); t.doc == s.doc && t.previews == s.previews && t.writeBlocked == s.writeBlocked
  {
    if ns == [] {
    } else {
      CallbacksTouchCountersOnly(s, ns[..|ns| - 1]);
    }
  }

  // ----- One request -----

  /** A successful preview leaves the counters as found, and the snapshot fingerprint too. */
  lemma PreviewLeavesAsFound<Doc>(setup: Setup<Doc>, s: State<Doc>, payload: Value, effect: Effect<Doc>, clocks: (nat, nat, nat))
    requires PreviewOf(setup, s, payload, effect, clocks).reply.Responded?
    ensures var t := PreviewOf(setup, s, payload, effect, clocks).state; var cs := TheChangeset(payload).value;
      && t.revision == s.revision
      && Fingerprint(setup.sha, SnapshotOf(setup, t, cs, clocks.2)) == Fingerprint(setup.sha, SnapshotOf(setup, s, cs, clocks.0))
      && t.previews == s.previews[ChangesetHash(setup.sha, cs) := t.previews[ChangesetHash(setup.sha, cs)]]
      && t.previews[ChangesetHash(setup.sha, cs)].baseFingerprint == Fingerprint(setup.sha, SnapshotOf(setup, s, cs, clocks.0))
  {
    CallbacksTouchCountersOnly(s.(doc := effect.doc), effect.notifications);
  }

  /** Any other preview keeps the record of every changeset, and the counters too unless its transaction fails. */
  lemma FaultedPreviewKeepsRecords<Doc>(setup: Setup<Doc>, s: State<Doc>, payload: Value, effect: Effect<Doc>, clocks: (nat, nat, nat))
    requires !PreviewOf(setup, s, payload, effect, clocks).reply.Responded?
    ensures var t := PreviewOf(setup, s, payload, effect, clocks).state;
      t.previews == s.previews && (effect.failure.None? ==> t.revision == s.revision)
  {
    CallbacksTouchCountersOnly(s.(doc := effect.doc), effect.notifications);
    hide NotifiedAll, BumpForChangeset, ValidationFault, SnapshotOf, Fingerprint, PreviewDigest, SnapshotRevision, ChangesetHash, ErrorCode, Validated;
  }

  /** A failed transaction returns before the counters are restored: when it is opened or aborted with a callback,
      the revision has moved on although the document may be as it was. */
  lemma FailedPreviewMovesOn<Doc>(setup: Setup<Doc>, s: State<Doc>, payload: Value, now: nat, message: string, clocks: (nat, nat, nat))
    requires s.events.pending == map[] && s.revision.Room(1) && TheChangeset(payload).Some?
    requires var cs := TheChangeset(payload).value;
      ValidationFault(setup.session, s.writeBlocked, cs, SnapshotOf(setup, s, cs, clocks.0)).None?
    ensures var effect := Effect(s.doc, [Notification("transaction", None, now, true)], Some(message), [], []);
      var t := PreviewOf(setup, s, payload, effect, clocks).state;
      t.doc == s.doc && t.revision == BumpClass(s.revision, "transaction") && t.revision.AdvancesFrom(s.revision)
  {
    OneTransactionBumps(s, now);
    BumpOneAdvances(s.revision, "transaction", 0);
    assert Counted("transaction");
    hide NotifiedAll, ValidationFault, SnapshotOf, BumpClass, ErrorCode;
  }

  lemma OneTransactionBumps<Doc>(s: State<Doc>, now: nat)
    requires s.events.pending == map[]
    ensures var t := NotifiedAll(s, [Notification("transaction", None, now, true)]);
      t.doc == s.doc && t.revision == BumpClass(s.revision, "transaction")
  {
    var n := Notification("transaction", None, now, true);
    hide BumpClass, BumpAll;
    assert [n][..0] == [];
    assert Ready(Emitted(s.events, "transaction", None, now), true, now) == {"transaction"};
    SortedSingleton("transaction");
    BumpSingle(s.revision, "transaction");
  }

  lemma SortedSingleton(c: string)
    ensures SortedKeys({c}) == [c]
  {
  }

  predicate Reviewed<Doc>(setup: Setup<Doc>, s: State<Doc>, payload: Value, cs: Value, clock: nat) {
    var hash, before := ChangesetHash(setup.sha, cs), SnapshotOf(setup, s, cs, clock);
    && !s.writeBlocked && hash in s.previews
    && s.previews[hash].previewHash == OrEmpty(GetStr(payload, "preview_hash"))
    && Fingerprint(setup.sha, before) == s.previews[hash].baseFingerprint
    && ValidationFault(setup.session, false, cs, before).None?
  }

  /** A commit reaches the document only after review: writes are not blocked, the changeset's preview
      record carries the given hash, and the snapshot has the recorded fingerprint. */
  lemma CommitNeedsReview<Doc>(setup: Setup<Doc>, s: State<Doc>, payload: Value, effect: Effect<Doc>, clocks: (nat, nat, nat))
    ensures var out := CommitOf(setup, s, payload, effect, clocks);
      out.state != s || out.reply.Responded? ==> TheChangeset(payload).Some? && Reviewed(setup, s, payload, TheChangeset(payload).value, clocks.0)
  {
  }

  // ----- What each request does to the block and to the preview records -----

  /** The rollback check failed. */
  predicate RollbackFailed(reply: Reply) {
    reply.Faulted? && reply.fault.code == RollbackVerificationFailed
  }

  predicate IsRollbackFault(f: Option<Fault>) {
    f.Some? && f.value.code == RollbackVerificationFailed
  }

  lemma {:induction false} PreconditionsAreOrdinary(snapshot: Value, entities: seq<Value>, ps: seq<Value>)
    ensures !IsRollbackFault(PreconditionsFault(snapshot, entities, ps))
    decreases |ps|
  {
    if ps == [] {
    } else {
      PreconditionsAreOrdinary(snapshot, entities, ps[1..]);
    }
  }

  lemma {:induction false} OperationsAreOrdinary(entities: seq<Value>, ops: seq<Value>)
    ensures !IsRollbackFault(OperationsFault(entities, ops))
    decreases |ops|
  {
    if ops == [] {
    } else {
      OperationsAreOrdinary(entities, ops[1..]);
    }
  }

  lemma ValidationIsOrdinary(session: string, blocked: bool, cs: Value, snapshot: Value)
    ensures !IsRollbackFault(ValidationFault(session, blocked, cs, snapshot))
    ensures blocked ==> ValidationFault(session, blocked, cs, snapshot).Some?
    ensures ValidationFault(session, blocked, cs, snapshot).None? ==> GetItems(cs, "operations") != []
  {
    PreconditionsAreOrdinary(snapshot, GetItems(snapshot, "entities"), GetItems(cs, "preconditions"));
    OperationsAreOrdinary(GetItems(snapshot, "entities"), GetItems(cs, "operations"));
  }

  /** The record that a successful preview files. */
  function Filed<Doc>(setup: Setup<Doc>, s: State<Doc>, payload: Value, clock: nat, response: ChangeResponse): PreviewRecord {
    PreviewRecord(response.baseRevision, Fingerprint(setup.sha, SnapshotOf(setup, s, ChangesetOrNull(payload), clock)), response.previewHash)
  }

  function ChangesetOrNull(payload: Value): Value {
    match TheChangeset(payload) case Some(cs) => cs case None => Null
  }

  lemma PreviewValidatedBlock<Doc>(setup: Setup<Doc>, s: State<Doc>, cs: Value, before: Value, effect: Effect<Doc>, clocks: (nat, nat, nat))
    ensures var out := PreviewValidated(setup, s, cs, before, effect, clocks);
      out.state.writeBlocked <==> s.writeBlocked || RollbackFailed(out.reply)
  {
    CallbacksTouchCountersOnly(s.(doc := effect.doc), effect.notifications);
  }

  lemma PreviewValidatedRecords<Doc>(setup: Setup<Doc>, s: State<Doc>, cs: Value, before: Value, effect: Effect<Doc>, clocks: (nat, nat, nat))
    ensures var out := PreviewValidated(setup, s, cs, before, effect, clocks);
      && (out.reply.Responded? ==>
            out.state.previews == s.previews[out.reply.response.changesetHash :=
              PreviewRecord(out.reply.response.baseRevision, Fingerprint(setup.sha, before), out.reply.response.previewHash)])
      && (!out.reply.Responded? ==> out.state.previews == s.previews)
  {
    hide Fingerprint, NotifiedAll, BumpForChangeset, PreviewDigest, SnapshotRevision, ErrorCode, Validated;
    CallbacksTouchCountersOnly(s.(doc := effect.doc), effect.notifications);
  }

  lemma PreviewSummary<Doc>(setup: Setup<Doc>, s: State<Doc>, payload: Value, effect: Effect<Doc>, clocks: (nat, nat, nat))
    ensures var out := PreviewOf(setup, s, payload, effect, clocks);
      && (out.reply.Responded? ==>
            && TheChangeset(payload).Some?
            && out.reply.response.changesetHash == ChangesetHash(setup.sha, TheChangeset(payload).value))
      && (out.state.writeBlocked <==> s.writeBlocked || RollbackFailed(out.reply))
      && (s.writeBlocked ==> out.reply.Faulted?)
      && (out.reply.Responded? ==>
            out.state.previews == s.previews[out.reply.response.changesetHash := Filed(setup, s, payload, clocks.0, out.reply.response)])
      && (!out.reply.Responded? ==> out.state.previews == s.previews)
  {
    if TheChangeset(payload).Some? {
      var cs := TheChangeset(payload).value;
      var before := SnapshotOf(setup, s, cs, clocks.0);
      ValidationIsOrdinary(setup.session, s.writeBlocked, cs, before);
      PreviewValidatedBlock(setup, s, cs, before, effect, clocks);
      PreviewValidatedRecords(setup, s, cs, before, effect, clocks);
    }
  }

  lemma CommitSummary<Doc>(setup: Setup<Doc>, s: State<Doc>, payload: Value, effect: Effect<Doc>, clocks: (nat, nat, nat))
    ensures var out := CommitOf(setup, s, payload, effect, clocks);
      && (out.reply.Responded? ==>
            && TheChangeset(payload).Some?
            && out.reply.response.changesetHash == ChangesetHash(setup.sha, TheChangeset(payload).value))
      && out.state.writeBlocked == s.writeBlocked && !RollbackFailed(out.reply)
      && (s.writeBlocked ==> out.reply.Faulted?)
      && (out.reply.Responded? ==> out.reply.response.changesetHash in s.previews
                                   && out.state.previews == s.previews - {out.reply.response.changesetHash})
      && (!out.reply.Responded? ==> out.state.previews == s.previews)
  {
    hide Fingerprint, ChangesetHash, ValidationFault, NotifiedAll, BumpForChangeset, SnapshotRevision, ErrorCode, Validated, GetStr;
    CallbacksTouchCountersOnly(s.(doc := effect.doc), effect.notifications);
    NoErrorCodeBlocks(effect);
    if TheChangeset(payload).Some? {
      var cs := TheChangeset(payload).value;
      ValidationIsOrdinary(setup.session, s.writeBlocked, cs, SnapshotOf(setup, s, cs, clocks.0));
    }
  }

  lemma NoErrorCodeBlocks<Doc>(effect: Effect<Doc>)
    ensures effect.failure.Some? ==> ErrorCode(effect.failure.value) != RollbackVerificationFailed
  {
    hide Contains;
  }

  lemma NavigateSummary<Doc>(s: State<Doc>, effect: Effect<Doc>, action: string)
    ensures var out := NavigateOf(s, effect, action);
      && out.state.writeBlocked == s.writeBlocked && !RollbackFailed(out.reply) && !out.reply.Responded?
      && out.state.previews == s.previews
  {
    CallbacksTouchCountersOnly(s.(doc := effect.doc), effect.notifications);
  }

  /** What any step does to the block and to the preview records. */
  ghost predicate StepSummary<Doc>(setup: Setup<Doc>, s: State<Doc>, step: Step<Doc>, t: State<Doc>, reply: Reply) {
    && (t.writeBlocked <==> s.writeBlocked || RollbackFailed(reply))
    && (s.writeBlocked ==> !reply.Responded?)
    && (reply.Responded? ==>
          && step.Request? && (step.m.PreviewMsg? || step.m.CommitMsg?) && TheChangeset(step.m.payload).Some?
          && reply.response.changesetHash == ChangesetHash(setup.sha, TheChangeset(step.m.payload).value))
    && (!reply.Responded? ==> t.previews == s.previews)
    && (reply.Responded? && step.m.PreviewMsg? ==>
          t.previews == s.previews[reply.response.changesetHash :=
            Filed(setup, FlushedState(s, true, step.now), step.m.payload, step.clocks.0, reply.response)])
    && (reply.Responded? && step.m.CommitMsg? ==>
          reply.response.changesetHash in s.previews && t.previews == s.previews - {reply.response.changesetHash})
  }

  lemma EveryStep<Doc>(setup: Setup<Doc>, s: State<Doc>, step: Step<Doc>)
    ensures StepSummary(setup, s, step, Next(setup, s, step), OutcomeOf(setup, s, step).reply)
  {
    match step
    case Callback(_, _) =>
    case Unobserved(_) =>
    case Request(m, now, effect, clocks) =>
      var ready := FlushedState(s, ForcesFlush(m), now);
      match m
      case PreviewMsg(payload) => PreviewSummary(setup, ready, payload, effect, clocks);
      case CommitMsg(payload) => CommitSummary(setup, ready, payload, effect, clocks);
      case UndoMsg => NavigateSummary(ready, effect, "undo");
      case RedoMsg => NavigateSummary(ready, effect, "redo");
      case _ =>
  }

  // ----- The write block is permanent -----

  /** A failed rollback check sets the block; nothing else does, and nothing clears it. */
  lemma RollbackFailureBlocks<Doc>(setup: Setup<Doc>, s: State<Doc>, step: Step<Doc>)
    ensures Next(setup, s, step).writeBlocked <==> s.writeBlocked || RollbackFailed(OutcomeOf(setup, s, step).reply)
  {
    EveryStep(setup, s, step);
  }

  /** After one failed rollback check no preview and no commit ever succeeds again. */
  lemma {:induction false} BlockIsPermanent<Doc>(setup: Setup<Doc>, s: State<Doc>, steps: seq<Step<Doc>>, i: nat)
    requires s.writeBlocked && i < |steps|
    ensures Run(setup, s, steps[..i]).writeBlocked
    ensures !OutcomeOf(setup, Run(setup, s, steps[..i]), steps[i]).reply.Responded?
    decreases i
  {
    if i == 0 {
    } else {
      BlockIsPermanent(setup, s, steps, i - 1);
      assert steps[..i][..i - 1] == steps[..i - 1];
      EveryStep(setup, Run(setup, s, steps[..i - 1]), steps[i - 1]);
    }
    EveryStep(setup, Run(setup, s, steps[..i]), steps[i]);
  }

  // ----- Previews are single-use -----

  predicate Previews<Doc>(setup: Setup<Doc>, s: State<Doc>, step: Step<Doc>, hash: string) {
    step.Request? && step.m.PreviewMsg? && OutcomeOf(setup, s, step).reply.Responded?
    && OutcomeOf(setup, s, step).reply.response.changesetHash == hash
  }

  predicate Commits<Doc>(setup: Setup<Doc>, s: State<Doc>, step: Step<Doc>, hash: string) {
    step.Request? && step.m.CommitMsg? && OutcomeOf(setup, s, step).reply.Responded?
    && OutcomeOf(setup, s, step).reply.response.changesetHash == hash
  }

  /** The record of the changeset's latest successful preview, unless it has been committed since. */
  function Pending<Doc>(setup: Setup<Doc>, s: State<Doc>, steps: seq<Step<Doc>>, hash: string): Option<PreviewRecord> {
    if steps == [] then RecordOf(s, hash) else
      var before, last := Run(setup, s, steps[..|steps| - 1]), steps[|steps| - 1];
      if Previews(setup, before, last, hash) then
        Some(Filed(setup, FlushedState(before, true, last.now), last.m.payload, last.clocks.0, OutcomeOf(setup, before, last).reply.response))
      else if Commits(setup, before, last, hash) then None
      else Pending(setup, s, steps[..|steps| - 1], hash)
  }

  /** What a successful preview showed: the changeset, the snapshot it was checked against, and the hash handed out. */
  datatype Review = Review(changeset: Value, snapshot: Value, previewHash: string)

  /** The snapshot that a preview or commit of `cs` is checked against. */
  function Met<Doc>(setup: Setup<Doc>, s: State<Doc>, cs: Value, now: nat, clock: nat): Value {
    SnapshotOf(setup, FlushedState(s, true, now), cs, clock)
  }

  /** The changeset's latest successful preview of the run, unless it has been committed since. */
  function LatestReview<Doc>(setup: Setup<Doc>, s: State<Doc>, steps: seq<Step<Doc>>, hash: string): Option<Review> {
    if steps == [] then None else
      var before, last := Run(setup, s, steps[..|steps| - 1]), steps[|steps| - 1];
      if Previews(setup, before, last, hash) then
        var cs := ChangesetOrNull(last.m.payload);
        Some(Review(cs, Met(setup, before, cs, last.now, last.clocks.0), OutcomeOf(setup, before, last).reply.response.previewHash))
      else if Commits(setup, before, last, hash) then None
      else LatestReview(setup, s, steps[..|steps| - 1], hash)
  }

  function RecordOf<Doc>(s: State<Doc>, hash: string): Option<PreviewRecord> {
    if hash in s.previews then Some(s.previews[hash]) else None
  }

  function PreviewCount<Doc>(setup: Setup<Doc>, s: State<Doc>, steps: seq<Step<Doc>>, hash: string): nat {
    if steps == [] then 0 else
      var front := steps[..|steps| - 1];
      PreviewCount(setup, s, front, hash) + if Previews(setup, Run(setup, s, front), steps[|steps| - 1], hash) then 1 else 0
  }

  function CommitCount<Doc>(setup: Setup<Doc>, s: State<Doc>, steps: seq<Step<Doc>>, hash: string): nat {
    if steps == [] then 0 else
      var front := steps[..|steps| - 1];
      CommitCount(setup, s, front, hash) + if Commits(setup, Run(setup, s, front), steps[|steps| - 1], hash) then 1 else 0
  }

  /** What one step does to the preview record of one changeset. */
  lemma StepRecord<Doc>(setup: Setup<Doc>, s: State<Doc>, step: Step<Doc>, hash: string)
    ensures !Previews(setup, s, step, hash) && !Commits(setup, s, step, hash) ==>
              RecordOf(Next(setup, s, step), hash) == RecordOf(s, hash)
    ensures Commits(setup, s, step, hash) ==> RecordOf(s, hash).Some? && RecordOf(Next(setup, s, step), hash).None?
    ensures Previews(setup, s, step, hash) ==>
              RecordOf(Next(setup, s, step), hash) ==
              Some(Filed(setup, FlushedState(s, true, step.now), step.m.payload, step.clocks.0, OutcomeOf(setup, s, step).reply.response))
  {
    EveryStep(setup, s, step);
  }

  /** The stored record is always that of the latest successful preview not committed since. */
  lemma {:induction false} RecordIsLatestPreview<Doc>(setup: Setup<Doc>, s: State<Doc>, steps: seq<Step<Doc>>, hash: string)
    ensures RecordOf(Run(setup, s, steps), hash) == Pending(setup, s, steps, hash)
  {
    if steps == [] {
    } else {
      var front := steps[..|steps| - 1];
      RecordIsLatestPreview(setup, s, front, hash);
      StepRecord(setup, Run(setup, s, front), steps[|steps| - 1], hash);
    }
  }

  /** Successful commits of a changeset never outnumber its successful previews. */
  lemma {:induction false} CommitsNeedPreviews<Doc>(setup: Setup<Doc>, s: State<Doc>, steps: seq<Step<Doc>>, hash: string)
    requires hash !in s.previews
    ensures CommitCount(setup, s, steps, hash) + (if hash in Run(setup, s, steps).previews then 1 else 0)
            <= PreviewCount(setup, s, steps, hash)
  {
    if steps == [] {
    } else {
      var front := steps[..|steps| - 1];
      CommitsNeedPreviews(setup, s, front, hash);
      StepRecord(setup, Run(setup, s, front), steps[|steps| - 1], hash);
    }
  }

  /** In a run, a commit succeeds only on a snapshot with the fingerprint that the changeset's latest
      successful preview recorded. */
  lemma CommitMatchesLatestPreview<Doc>(setup: Setup<Doc>, s: State<Doc>, steps: seq<Step<Doc>>, commit: Step<Doc>, hash: string)
    requires Commits(setup, Run(setup, s, steps), commit, hash)
    ensures var now := FlushedState(Run(setup, s, steps), true, commit.now); var cs := TheChangeset(commit.m.payload);
      && cs.Some? && Pending(setup, s, steps, hash).Some?
      && Fingerprint(setup.sha, SnapshotOf(setup, now, cs.value, commit.clocks.0)) == Pending(setup, s, steps, hash).value.baseFingerprint
      && Pending(setup, s, steps, hash).value.previewHash == OrEmpty(GetStr(commit.m.payload, "preview_hash"))
  {
    RecordIsLatestPreview(setup, s, steps, hash);
    CommitNeedsReview(setup, FlushedState(Run(setup, s, steps), true, commit.now), commit.m.payload, commit.effect, commit.clocks);
  }

  /** The values that a preview or commit request digests: its changeset without the approval token, and the
      fingerprinted part of the snapshot it is checked against. */
  function DigestedBy<Doc>(setup: Setup<Doc>, s: State<Doc>, step: Step<Doc>): set<Value> {
    if step.Request? && (step.m.PreviewMsg? || step.m.CommitMsg?) && TheChangeset(step.m.payload).Some? then
      var cs := TheChangeset(step.m.payload).value;
      {Without(cs, {"approval_token"}), Fingerprinted(Met(setup, s, cs, step.now, step.clocks.0))}
    else {}
  }

  function Digested<Doc>(setup: Setup<Doc>, s: State<Doc>, steps: seq<Step<Doc>>): set<Value> {
    if steps == [] then {} else
      var front := steps[..|steps| - 1];
      Digested(setup, s, front) + DigestedBy(setup, Run(setup, s, front), steps[|steps| - 1])
  }

  /** No two of finitely many values have the same digest. */
  predicate NoCollision(sha: Value -> string, values: set<Value>) {
    forall v, w :: v in values && w in values && sha(v) == sha(w) ==> v == w
  }

  /** What is known of the latest review: it stands for the stored record, it was digested, and it passed validation. */
  ghost predicate ReviewStands<Doc>(setup: Setup<Doc>, review: Review, record: PreviewRecord, digested: set<Value>, hash: string) {
    && ChangesetHash(setup.sha, review.changeset) == hash
    && record.baseFingerprint == Fingerprint(setup.sha, review.snapshot) && record.previewHash == review.previewHash
    && Without(review.changeset, {"approval_token"}) in digested && Fingerprinted(review.snapshot) in digested
    && ValidationFault(setup.session, false, review.changeset, review.snapshot).None?
  }

  lemma PreviewStands<Doc>(setup: Setup<Doc>, s: State<Doc>, step: Step<Doc>, hash: string)
    requires Previews(setup, s, step, hash)
    ensures var cs := ChangesetOrNull(step.m.payload); var response := OutcomeOf(setup, s, step).reply.response;
      ReviewStands(setup, Review(cs, Met(setup, s, cs, step.now, step.clocks.0), response.previewHash),
                   Filed(setup, FlushedState(s, true, step.now), step.m.payload, step.clocks.0, response), DigestedBy(setup, s, step), hash)
  {
    EveryStep(setup, s, step);
    hide ValidationFault, Fingerprinted, PreviewValidated;
    var ready, cs := FlushedState(s, true, step.now), ChangesetOrNull(step.m.payload);
    assert !ready.writeBlocked;
    assert ValidationFault(setup.session, ready.writeBlocked, cs, SnapshotOf(setup, ready, cs, step.clocks.0)).None?;
  }

  lemma {:induction false} LatestReviewStands<Doc>(setup: Setup<Doc>, s: State<Doc>, steps: seq<Step<Doc>>, hash: string)
    requires hash !in s.previews
    ensures LatestReview(setup, s, steps, hash).Some? <==> Pending(setup, s, steps, hash).Some?
    ensures LatestReview(setup, s, steps, hash).Some? ==>
              ReviewStands(setup, LatestReview(setup, s, steps, hash).value, Pending(setup, s, steps, hash).value, Digested(setup, s, steps), hash)
  {
    if steps == [] {
    } else {
      var front, last := steps[..|steps| - 1], steps[|steps| - 1];
      var before := Run(setup, s, front);
      LatestReviewStands(setup, s, front, hash);
      if Previews(setup, before, last, hash) { PreviewStands(setup, before, last, hash); }
    }
  }

  /** The request agrees with the review: the same changeset but for the approval token, a snapshot of the same
      content, and the hash that the preview handed out. */
  predicate AsReviewed(review: Review, payload: Value, cs: Value, snapshot: Value) {
    && Without(cs, {"approval_token"}) == Without(review.changeset, {"approval_token"})
    && Fingerprinted(snapshot) == Fingerprinted(review.snapshot)
    && OrEmpty(GetStr(payload, "preview_hash")) == review.previewHash
  }

  /** When no two of the changesets and snapshots that the run digests collide, a commit executes what was
      previewed, on the content it was previewed on, whatever the user edited in between. */
  lemma CommitsWhatWasPreviewed<Doc>(setup: Setup<Doc>, s: State<Doc>, steps: seq<Step<Doc>>, commit: Step<Doc>, hash: string)
    requires hash !in s.previews && NoCollision(setup.sha, Digested(setup, s, steps + [commit]))
    requires Commits(setup, Run(setup, s, steps), commit, hash)
    ensures LatestReview(setup, s, steps, hash).Some? && TheChangeset(commit.m.payload).Some?
    ensures var cs := TheChangeset(commit.m.payload).value;
      AsReviewed(LatestReview(setup, s, steps, hash).value, commit.m.payload, cs, Met(setup, Run(setup, s, steps), cs, commit.now, commit.clocks.0))
  {
    CommitMatchesLatestPreview(setup, s, steps, commit, hash);
    LatestReviewStands(setup, s, steps, hash);
    EveryStep(setup, Run(setup, s, steps), commit);
    assert (steps + [commit])[..|steps|] == steps;
  }

  // ----- A reviewed commit is accepted -----

  lemma SameFingerprinted(v: Value, w: Value)
    requires Fingerprinted(v) == Fingerprinted(w)
    ensures forall key :: key !in {"revision", "view"} ==> Get(v, key) == Get(w, key)
  {
    forall key | key !in {"revision", "view"} ensures Get(v, key) == Get(w, key) {
      assert Get(v, key) == Get(Fingerprinted(v), key) && Get(w, key) == Get(Fingerprinted(w), key);
    }
  }

  lemma SameRevision(v: Value, w: Value, id: Option<string>)
    requires Get(v, "revision") == Get(w, "revision")
    ensures RevisionMatches(id, v) == RevisionMatches(id, w)
  {
    hide Get, GetU64, GetStr;
  }

  lemma SamePreconditionFault(v: Value, w: Value, entities: seq<Value>, p: Value)
    requires Get(v, "revision") == Get(w, "revision")
    ensures PreconditionFault(v, entities, p) == PreconditionFault(w, entities, p)
  {
    SameRevision(v, w, GetStr(p, "revision"));
    hide Get, GetStr, RevisionMatches, TargetPreconditionFault;
  }

  lemma {:induction false} SamePreconditionsFault(v: Value, w: Value, entities: seq<Value>, ps: seq<Value>)
    requires Get(v, "revision") == Get(w, "revision")
    ensures PreconditionsFault(v, entities, ps) == PreconditionsFault(w, entities, ps)
    decreases |ps|
  {
    if ps == [] {
    } else {
      hide PreconditionFault;
      SamePreconditionFault(v, w, entities, ps[0]);
      SamePreconditionsFault(v, w, entities, ps[1..]);
    }
  }

  /** Validation sees nothing of the snapshot but its revision and its content. */
  lemma SameSnapshot(session: string, cs: Value, v: Value, w: Value)
    requires Fingerprinted(v) == Fingerprinted(w) && Get(v, "revision") == Get(w, "revision")
    ensures ValidationFault(session, false, cs, v) == ValidationFault(session, false, cs, w)
  {
    SameFingerprinted(v, w);
    SamePreconditionsFault(v, w, GetItems(v, "entities"), GetItems(cs, "preconditions"));
    SameRevision(v, w, GetStr(cs, "base_revision"));
    hide PreconditionsFault, OperationsFault, RevisionMatches, Get, Fingerprinted;
    assert GetItems(v, "entities") == GetItems(w, "entities") && GetStr(v, "document") == GetStr(w, "document");
    hide GetItems, GetStr;
  }

  /** Validation does not see the approval token. */
  lemma SameChangeset(session: string, cs: Value, ds: Value, v: Value)
    requires Without(cs, {"approval_token"}) == Without(ds, {"approval_token"})
    ensures ValidationFault(session, false, cs, v) == ValidationFault(session, false, ds, v)
  {
    SameMembers(cs, ds);
    hide PreconditionsFault, OperationsFault, RevisionMatches, Get, Without;
    assert GetStr(cs, "base_revision") == GetStr(ds, "base_revision") && GetStr(cs, "session") == GetStr(ds, "session");
    assert GetStr(cs, "schema_version") == GetStr(ds, "schema_version") && GetStr(cs, "document") == GetStr(ds, "document");
    assert GetItems(cs, "operations") == GetItems(ds, "operations") && GetItems(cs, "preconditions") == GetItems(ds, "preconditions");
    hide GetItems, GetStr;
  }

  lemma SameMembers(cs: Value, ds: Value)
    requires Without(cs, {"approval_token"}) == Without(ds, {"approval_token"})
    ensures forall key :: key != "approval_token" ==> Get(cs, key) == Get(ds, key)
  {
    forall key | key != "approval_token" ensures Get(cs, key) == Get(ds, key) {
      assert Get(cs, key) == Get(Without(cs, {"approval_token"}), key) && Get(ds, key) == Get(Without(ds, {"approval_token"}), key);
    }
  }

  /** When a single commit request succeeds. */
  lemma CommitSucceeds<Doc>(setup: Setup<Doc>, s: State<Doc>, step: Step<Doc>, cs: Value)
    requires step.Request? && step.m.CommitMsg? && TheChangeset(step.m.payload) == Some(cs)
    ensures var hash, now := ChangesetHash(setup.sha, cs), Met(setup, s, cs, step.now, step.clocks.0);
      Commits(setup, s, step, hash) <==>
        && hash in s.previews && s.previews[hash].previewHash == OrEmpty(GetStr(step.m.payload, "preview_hash"))
        && !s.writeBlocked && ValidationFault(setup.session, false, cs, now).None?
        && Fingerprint(setup.sha, now) == s.previews[hash].baseFingerprint && step.effect.failure.None?
  {
    var now := Met(setup, s, cs, step.now, step.clocks.0);
    ValidationIsOrdinary(setup.session, s.writeBlocked, cs, now);
    hide ValidationFault, Fingerprint, ChangesetHash, GetStr, BumpForChangeset, SnapshotRevision, ErrorCode, Validated, NotifiedAll;
  }

  /** The converse: while the counters are those of the review, a commit succeeds exactly when it is as reviewed,
      writes are not blocked and the transaction does not fail. */
  lemma ReviewedCommitSucceeds<Doc>(setup: Setup<Doc>, s: State<Doc>, steps: seq<Step<Doc>>, commit: Step<Doc>, cs: Value)
    requires ChangesetHash(setup.sha, cs) !in s.previews && NoCollision(setup.sha, Digested(setup, s, steps + [commit]))
    requires commit.Request? && commit.m.CommitMsg? && TheChangeset(commit.m.payload) == Some(cs)
    requires LatestReview(setup, s, steps, ChangesetHash(setup.sha, cs)).Some?
    ensures var hash, before := ChangesetHash(setup.sha, cs), Run(setup, s, steps);
      var review, now := LatestReview(setup, s, steps, hash).value, Met(setup, before, cs, commit.now, commit.clocks.0);
      Get(now, "revision") == Get(review.snapshot, "revision") ==>
        (Commits(setup, before, commit, hash) <==>
         AsReviewed(review, commit.m.payload, cs, now) && !before.writeBlocked && commit.effect.failure.None?)
  {
    var hash, before := ChangesetHash(setup.sha, cs), Run(setup, s, steps);
    var review, now := LatestReview(setup, s, steps, hash).value, Met(setup, before, cs, commit.now, commit.clocks.0);
    LatestReviewStands(setup, s, steps, hash);
    RecordIsLatestPreview(setup, s, steps, hash);
    CommitSucceeds(setup, before, commit, cs);
    hide Commits, ValidationFault, Fingerprinted, Without, Digested, GetStr, Met, Run, LatestReview, Pending, ChangesetHash;
    if Commits(setup, before, commit, hash) {
      CommitsWhatWasPreviewed(setup, s, steps, commit, hash);
    } else if AsReviewed(review, commit.m.payload, cs, now) && Get(now, "revision") == Get(review.snapshot, "revision") {
      SameChangeset(setup.session, cs, review.changeset, now);
      SameSnapshot(setup.session, review.changeset, now, review.snapshot);
    }
  }

  // ----- The revision between requests -----

  lemma {:induction false} BumpAllConcat(r: Revision, a: seq<string>, b: seq<string>)
    ensures BumpAll(r, a + b) == BumpAll(BumpAll(r, a), b)
    decreases |b|
  {
    if b == [] {
      assert a + b == a;
    } else {
      var front, last := b[..|b| - 1], b[|b| - 1];
      assert (a + b)[..|a + b| - 1] == a + front && (a + b)[|a + b| - 1] == last;
      BumpAllConcat(r, a, front);
    }
  }

  predicate Counted(c: string) {
    CounterOf(c).Some?
  }

  /** With room for every bump, counters only grow, strictly so when some class has a counter. */
  lemma {:induction false} BumpAllAdvances(r: Revision, classes: seq<string>, n: nat)
    requires r.Room(|classes| + n)
    ensures BumpAll(r, classes).AtLeast(r) && BumpAll(r, classes).Room(n)
    ensures (exists i :: 0 <= i < |classes| && Counted(classes[i])) ==> BumpAll(r, classes).AdvancesFrom(r)
  {
    if classes == [] {
    } else {
      var front, last := classes[..|classes| - 1], classes[|classes| - 1];
      BumpAllAdvances(r, front, n + 1);
      BumpOneAdvances(BumpAll(r, front), last, n);
      if i :| 0 <= i < |classes| && Counted(classes[i]) {
        if i < |front| { assert Counted(front[i]); }
      }
    }
  }

  lemma BumpOneAdvances(r: Revision, c: string, n: nat)
    requires r.Room(n + 1)
    ensures BumpClass(r, c).AtLeast(r) && BumpClass(r, c).Room(n)
    ensures Counted(c) ==> BumpClass(r, c) != r
  {
    if Counted(c) { BumpCounterAdvances(r, CounterOf(c).value, n); }
  }

  lemma BumpCounterAdvances(r: Revision, name: CounterName, n: nat)
    requires r.Room(n + 1)
    ensures BumpCounter(r, name).AtLeast(r) && BumpCounter(r, name).Room(n) && BumpCounter(r, name) != r
  {
  }

  function NotificationBumps(e: Events, ns: seq<Notification>): seq<string> {
    if ns == [] then [] else
      var n := ns[|ns| - 1];
      var before := EventsAfter(e, ns[..|ns| - 1]);
      NotificationBumps(e, ns[..|ns| - 1]) + SortedKeys(Ready(Emitted(before, n.eventClass, n.objectName, n.now), n.force, n.now))
  }

  function EventsAfter(e: Events, ns: seq<Notification>): Events {
    if ns == [] then e else
      var n := ns[|ns| - 1];
      Flushed(Emitted(EventsAfter(e, ns[..|ns| - 1]), n.eventClass, n.objectName, n.now), n.force, n.now)
  }

  lemma {:induction false} NotificationsBump<Doc>(s: State<Doc>, ns: seq<Notification>)
    ensures NotifiedAll(s, ns).revision == BumpAll(s.revision, NotificationBumps(s.events, ns))
    ensures NotifiedAll(s, ns).events == EventsAfter(s.events, ns)
  {
    if ns == [] {
    } else {
      var n := ns[|ns| - 1];
      NotificationsBump(s, ns[..|ns| - 1]);
      BumpAllConcat(s.revision, NotificationBumps(s.events, ns[..|ns| - 1]),
                    SortedKeys(Ready(Emitted(EventsAfter(s.events, ns[..|ns| - 1]), n.eventClass, n.objectName, n.now), n.force, n.now)));
    }
  }

  /** A class of the list has a counter. */
  ghost predicate SomeCounted(classes: seq<string>) {
    exists i :: 0 <= i < |classes| && Counted(classes[i])
  }

  lemma PreviewBumps<Doc>(setup: Setup<Doc>, s: State<Doc>, payload: Value, effect: Effect<Doc>, clocks: (nat, nat, nat)) returns (bumps: seq<string>)
    ensures PreviewOf(setup, s, payload, effect, clocks).state.revision == BumpAll(s.revision, bumps)
    ensures |bumps| <= |NotificationBumps(s.events, effect.notifications)|
  {
    bumps := [];
    if TheChangeset(payload).Some? {
      var cs := TheChangeset(payload).value;
      var before := SnapshotOf(setup, s, cs, clocks.0);
      if ValidationFault(setup.session, s.writeBlocked, cs, before).None? {
        bumps := ValidatedPreviewBumps(setup, s, cs, before, effect, clocks);
      }
    }
  }

  lemma ValidatedPreviewBumps<Doc>(setup: Setup<Doc>, s: State<Doc>, cs: Value, before: Value, effect: Effect<Doc>,
        clocks: (nat, nat, nat)) returns (bumps: seq<string>)
    ensures PreviewValidated(setup, s, cs, before, effect, clocks).state.revision == BumpAll(s.revision, bumps)
    ensures |bumps| <= |NotificationBumps(s.events, effect.notifications)|
  {
    NotificationsBump(s.(doc := effect.doc), effect.notifications);
    bumps := if effect.failure.Some? then NotificationBumps(s.events, effect.notifications) else [];
  }

  lemma CommitBumps<Doc>(setup: Setup<Doc>, s: State<Doc>, payload: Value, effect: Effect<Doc>, clocks: (nat, nat, nat)) returns (bumps: seq<string>)
    ensures CommitOf(setup, s, payload, effect, clocks).state.revision == BumpAll(s.revision, bumps)
    ensures |bumps| <= |NotificationBumps(s.events, effect.notifications)| + |PayloadClasses(payload)|
    ensures CommitOf(setup, s, payload, effect, clocks).reply.Responded? ==> SomeCounted(bumps)
  {
    bumps := [];
    if TheChangeset(payload).Some? {
      var cs := TheChangeset(payload).value;
      var hash, before := ChangesetHash(setup.sha, cs), SnapshotOf(setup, s, cs, clocks.0);
      if hash in s.previews && s.previews[hash].previewHash == OrEmpty(GetStr(payload, "preview_hash"))
         && ValidationFault(setup.session, s.writeBlocked, cs, before).None?
         && Fingerprint(setup.sha, before) == s.previews[hash].baseFingerprint {
        ValidationIsOrdinary(setup.session, s.writeBlocked, cs, before);
        bumps := ValidatedCommitBumps(setup, s, cs, s.previews[hash], effect, clocks);
      }
    }
  }

  lemma ValidatedCommitBumps<Doc>(setup: Setup<Doc>, s: State<Doc>, cs: Value, record: PreviewRecord, effect: Effect<Doc>,
        clocks: (nat, nat, nat)) returns (bumps: seq<string>)
    requires GetItems(cs, "operations") != []
    ensures CommitValidated(setup, s, cs, record, effect, clocks).state.revision == BumpAll(s.revision, bumps)
    ensures |bumps| <= |NotificationBumps(s.events, effect.notifications)| + |ChangesetClasses(cs)|
    ensures CommitValidated(setup, s, cs, record, effect, clocks).reply.Responded? ==> SomeCounted(bumps)
  {
    hide NotificationBumps, ChangesetClasses, SortedKeys, SnapshotRevision, ErrorCode, Validated, ChangesetHash, NotifiedAll, BumpAll, GetItems;
    var callbacks, classes := NotificationBumps(s.events, effect.notifications), SortedKeys(ChangesetClasses(cs));
    NotificationsBump(s.(doc := effect.doc), effect.notifications);
    BumpAllConcat(s.revision, callbacks, classes);
    bumps := if effect.failure.Some? then callbacks else callbacks + classes;
    ClassesAreCounted(cs);
    if SomeCounted(classes) {
      var k :| 0 <= k < |classes| && Counted(classes[k]);
      assert (callbacks + classes)[|callbacks| + k] == classes[k];
    }
  }

  lemma ClassesAreCounted(cs: Value)
    requires GetItems(cs, "operations") != []
    ensures SomeCounted(SortedKeys(ChangesetClasses(cs)))
  {
    hide SortedKeys, Counted, OperationClass;
    var classes, c := SortedKeys(ChangesetClasses(cs)), OperationClass(GetItems(cs, "operations")[0]);
    OperationClassCounted(GetItems(cs, "operations")[0]);
    assert c in ChangesetClasses(cs);
    var k :| 0 <= k < |classes| && classes[k] == c;
    assert Counted(classes[k]);
  }

  lemma OperationClassCounted(op: Value)
    ensures Counted(OperationClass(op))
  {
  }

  lemma NavigateBumps<Doc>(s: State<Doc>, effect: Effect<Doc>, action: string) returns (bumps: seq<string>)
    ensures NavigateOf(s, effect, action).state.revision == BumpAll(s.revision, bumps)
    ensures |bumps| <= |NotificationBumps(s.events, effect.notifications)| + 1
    ensures !NavigateOf(s, effect, action).reply.Faulted? ==> SomeCounted(bumps)
  {
    var callbacks := NotificationBumps(s.events, effect.notifications);
    NotificationsBump(s.(doc := effect.doc), effect.notifications);
    BumpAllConcat(s.revision, callbacks, ["transaction"]);
    BumpSingle(BumpAll(s.revision, callbacks), "transaction");
    bumps := if effect.failure.Some? then callbacks else callbacks + ["transaction"];
    assert effect.failure.None? ==> Counted(bumps[|callbacks|]);
  }

  lemma BumpSingle(r: Revision, c: string)
    ensures BumpAll(r, [c]) == BumpClass(r, c)
  {
    assert [c][..0] == [];
  }

  function PayloadClasses(payload: Value): set<string> {
    match TheChangeset(payload) case Some(cs) => ChangesetClasses(cs) case None => {}
  }

  /** An upper bound on the counter bumps of one step: the classes flushed first, the classes flushed by
      callbacks, and what the request itself bumps. */
  function BumpBound<Doc>(s: State<Doc>, step: Step<Doc>): nat {
    match step
    case Callback(_, n) => |Ready(Emitted(s.events, n.eventClass, n.objectName, n.now), n.force, n.now)|
    case Unobserved(_) => 0
    case Request(m, now, effect, _) =>
      |Ready(s.events, ForcesFlush(m), now)|
      + |NotificationBumps(FlushedState(s, ForcesFlush(m), now).events, effect.notifications)|
      + (match m case CommitMsg(payload) => |PayloadClasses(payload)| case _ => 1)
  }

  predicate Changing<Doc>(step: Step<Doc>) {
    step.Request? && (step.m.CommitMsg? || step.m.UndoMsg? || step.m.RedoMsg?)
  }

  lemma StepBumps<Doc>(setup: Setup<Doc>, s: State<Doc>, step: Step<Doc>) returns (bumps: seq<string>)
    ensures Next(setup, s, step).revision == BumpAll(s.revision, bumps) && |bumps| <= BumpBound(s, step)
    ensures Changing(step) && !OutcomeOf(setup, s, step).reply.Faulted? ==> SomeCounted(bumps)
  {
    match step
    case Unobserved(_) => bumps := [];
    case Callback(_, n) => bumps := SortedKeys(Ready(Emitted(s.events, n.eventClass, n.objectName, n.now), n.force, n.now));
    case Request(m, now, effect, clocks) =>
      hide PreviewOf, CommitOf, NavigateOf, BumpClass, NotificationBumps, Ready;
      if m.Turned? || m.Pairing? {
        bumps := [];
      } else {
        var rest := RequestBumps(setup, FlushedState(s, ForcesFlush(m), now), m, effect, clocks);
        bumps := SortedKeys(Ready(s.events, ForcesFlush(m), now)) + rest;
        FlushThen(s.revision, SortedKeys(Ready(s.events, ForcesFlush(m), now)), rest);
      }
  }

  lemma FlushThen(r: Revision, flushed: seq<string>, rest: seq<string>)
    ensures BumpAll(r, flushed + rest) == BumpAll(BumpAll(r, flushed), rest)
    ensures SomeCounted(rest) ==> SomeCounted(flushed + rest)
  {
    BumpAllConcat(r, flushed, rest);
    if SomeCounted(rest) {
      var i :| 0 <= i < |rest| && Counted(rest[i]);
      assert Counted((flushed + rest)[|flushed| + i]);
    }
  }

  lemma RequestBumps<Doc>(setup: Setup<Doc>, ready: State<Doc>, m: Message, effect: Effect<Doc>, clocks: (nat, nat, nat)) returns (bumps: seq<string>)
    ensures Dispatched(setup, ready, m, effect, clocks).state.revision == BumpAll(ready.revision, bumps)
    ensures |bumps| <= |NotificationBumps(ready.events, effect.notifications)|
                       + (match m case CommitMsg(payload) => |PayloadClasses(payload)| case _ => 1)
    ensures (m.CommitMsg? || m.UndoMsg? || m.RedoMsg?) && !Dispatched(setup, ready, m, effect, clocks).reply.Faulted? ==> SomeCounted(bumps)
  {
    match m
    case PreviewMsg(payload) => bumps := PreviewBumps(setup, ready, payload, effect, clocks);
    case CommitMsg(payload) =>
      bumps := CommitBumps(setup, ready, payload, effect, clocks);
    case UndoMsg => bumps := NavigateBumps(ready, effect, "undo");
    case RedoMsg => bumps := NavigateBumps(ready, effect, "redo");
    case _ => bumps := [];
  }

  function RunBumps<Doc>(setup: Setup<Doc>, s: State<Doc>, steps: seq<Step<Doc>>): nat {
    if steps == [] then 0 else
      var front := steps[..|steps| - 1];
      RunBumps(setup, s, front) + BumpBound(Run(setup, s, front), steps[|steps| - 1])
  }

  /** At request boundaries the revision never decreases, as long as no counter can wrap. */
  lemma {:induction false} RunNeverGoesBack<Doc>(setup: Setup<Doc>, s: State<Doc>, steps: seq<Step<Doc>>, n: nat)
    requires s.revision.Room(RunBumps(setup, s, steps) + n)
    ensures Run(setup, s, steps).revision.AtLeast(s.revision)
    ensures Run(setup, s, steps).revision.Room(n)
  {
    if steps == [] {
    } else {
      var front, last := steps[..|steps| - 1], steps[|steps| - 1];
      var before := Run(setup, s, front);
      RunNeverGoesBack(setup, s, front, BumpBound(before, last) + n);
      var bumps := StepBumps(setup, before, last);
      BumpAllAdvances(before.revision, bumps, BumpBound(before, last) - |bumps| + n);
    }
  }

  /** Every accepted commit, undo or redo strictly raises the revision. */
  lemma CommitRaisesRevision<Doc>(setup: Setup<Doc>, s: State<Doc>, step: Step<Doc>)
    requires s.revision.Room(BumpBound(s, step))
    requires Changing(step) && !OutcomeOf(setup, s, step).reply.Faulted?
    ensures Next(setup, s, step).revision.AdvancesFrom(s.revision)
  {
    var bumps := StepBumps(setup, s, step);
    BumpAllAdvances(s.revision, bumps, 0);
  }
}
