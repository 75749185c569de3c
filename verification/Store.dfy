/** The revision store: retained history, undo and redo stacks, preview and commit (`RevisionStore`). */
module Store {
  import opened Text
  import opened Ordered
  import opened Ccir
  import opened Rekeying
  import opened ChangeSets
  import opened Diffs

  /** SHA-256 over serialised values, as a free injective function; `Foreign` is any other text. */
  datatype Digest =
    | GraphDigest(graph: Graph)
    | ChangeSetDigest(changeset: ChangeSet)
    | PreviewDigest(baseRevision: string, previewRevision: string, baseFingerprint: Digest,
                    previewFingerprint: Digest, diff: Diff, changesetHash: Digest)
    | Foreign(text: string)

  datatype Preview = PreviewData(
    baseRevision: string, previewRevision: string, baseFingerprint: Digest, previewFingerprint: Digest,
    graph: Graph, diff: Diff, changesetHash: Digest, rolledBack: bool, rollbackFingerprintVerified: bool)

  datatype RevisionRecord = RevisionRecord(
    revision: Revision, fingerprint: Digest, parent: Option<string>, source: string, graph: Graph)

  function PreviewHash(p: Preview): Digest {
    PreviewDigest(p.baseRevision, p.previewRevision, p.baseFingerprint, p.previewFingerprint, p.diff, p.changesetHash)
  }

  // ----- The store as a value -----

  datatype State = State(
    current: Graph, history: map<string, RevisionRecord>, maxRevisions: nat,
    undoStack: seq<Graph>, redoStack: seq<Graph>)

  const DEFAULT_RETENTION: nat := 50

  function InitialState(graph: Graph): State {
    State(graph, map[graph.revision.Id() := RevisionRecord(graph.revision, GraphDigest(graph), None, "initial", graph)],
          DEFAULT_RETENTION, [], [])
  }

  /** `trim_history`: drop the smallest id, in string order, until at most `max` records are left. */
  function Trimmed(history: map<string, RevisionRecord>, max: nat): map<string, RevisionRecord>
    decreases |history|
  {
    if |history| <= max then history
    else
      assert history.Keys != {};
      assert |history - {Least(history.Keys)}| < |history| by { RemoveShrinks(history, Least(history.Keys)); }
      Trimmed(history - {Least(history.Keys)}, max)
  }

  lemma RemoveShrinks<V>(m: map<string, V>, k: string)
    requires k in m
    ensures |m - {k}| == |m| - 1
  {
    assert (m - {k}).Keys == m.Keys - {k};
  }

  /** Make `graph` current and record it, with the old current revision as its parent. */
  function Recorded(s: State, graph: Graph, source: string): RevisionRecord {
    RevisionRecord(graph.revision, GraphDigest(graph), Some(s.current.revision.Id()), source, graph)
  }

  function Installed(s: State, graph: Graph, source: string): State {
    s.(current := graph,
       history := Trimmed(s.history[graph.revision.Id() := Recorded(s, graph, source)], s.maxRevisions))
  }

  /** `verify_base`. */
  function BaseError(g: Graph, cs: ChangeSet): Option<RevisionError> {
    if cs.baseRevision != g.revision.Id() && cs.baseRevision != g.revision.GeometryId() then
      Some(RevisionConflict(cs.baseRevision, g.revision.Id()))
    else None
  }

  function PreviewOf(base: Graph, cs: ChangeSet): Result<Preview> {
    match BaseError(base, cs)
    case Some(e) => Err(e)
    case None =>
      match Applied(base, cs)
      case Err(e) => Err(e)
      case Ok(next) =>
        Ok(PreviewData(base.revision.Id(), next.revision.Id(), GraphDigest(base), GraphDigest(next), next,
                   DiffOf(base, next, "agent_preview"), ChangeSetDigest(cs.Normalized()), true, true))
  }

  datatype Outcome = Outcome(state: State, result: Result<RevisionRecord>)

  function CommitOf(s: State, cs: ChangeSet, expected: Digest): Outcome {
    match PreviewOf(s.current, cs)
    case Err(e) => Outcome(s, Err(e))
    case Ok(preview) =>
      if PreviewHash(preview) != expected then
        Outcome(s, Err(PreconditionFailed("preview hash differs from reviewed state")))
      else
        Outcome(Installed(s, preview.graph, "agent_commit").(undoStack := s.undoStack + [s.current], redoStack := []),
                Ok(Recorded(s, preview.graph, "agent_commit")))
  }

  /** The popped graph under the next geometry revision (`publish_navigation`). */
  function Navigated(s: State, graph: Graph): Graph {
    Published(graph, s.current.revision.(geometry := Bump(s.current.revision.geometry)))
  }

  function UndoOf(s: State): Outcome {
    if s.undoStack == [] then Outcome(s, Err(NoUndo))
    else
      var n := |s.undoStack| - 1;
      var graph := Navigated(s, s.undoStack[n]);
      Outcome(Installed(s, graph, "agent_undo").(undoStack := s.undoStack[..n], redoStack := s.redoStack + [s.current]),
              Ok(Recorded(s, graph, "agent_undo")))
  }

  function RedoOf(s: State): Outcome {
    if s.redoStack == [] then Outcome(s, Err(NoRedo))
    else
      var n := |s.redoStack| - 1;
      var graph := Navigated(s, s.redoStack[n]);
      Outcome(Installed(s, graph, "agent_redo").(redoStack := s.redoStack[..n], undoStack := s.undoStack + [s.current]),
              Ok(Recorded(s, graph, "agent_redo")))
  }

  // ----- The store as an object -----

  class RevisionStore {
    var current: Graph
    var history: map<string, RevisionRecord>
    var maxRevisions: nat
    var undoStack: seq<Graph>
    var redoStack: seq<Graph>

    function Value(): State
      reads this
    {
      State(current, history, maxRevisions, undoStack, redoStack)
    }

    constructor (graph: Graph)
      ensures Value() == InitialState(graph)
    {
      current := graph;
      history := map[graph.revision.Id() := RevisionRecord(graph.revision, GraphDigest(graph), None, "initial", graph)];
      maxRevisions := DEFAULT_RETENTION;
      undoStack, redoStack := [], [];
    }

    /** The limit is taken over, but never below one record; nothing is trimmed yet. */
    method WithRetention(max: nat)
      modifies this`maxRevisions
      ensures maxRevisions >= 1 && (max >= 1 ==> maxRevisions == max) && (max == 0 ==> maxRevisions == 1)
      ensures Value() == old(Value()).(maxRevisions := maxRevisions)
    {
      maxRevisions := if max < 1 then 1 else max;
    }

    method VerifyBase(cs: ChangeSet) returns (e: Option<RevisionError>)
      ensures e == BaseError(current, cs)
    {
      var id := current.revision.Id();
      if cs.baseRevision != id && cs.baseRevision != current.revision.GeometryId() {
        return Some(RevisionConflict(cs.baseRevision, id));
      }
      return None;
    }

    method Preview(cs: ChangeSet) returns (r: Result<Preview>)
      ensures r == PreviewOf(current, cs)
    {
      var failed := VerifyBase(cs);
      if failed.Some? { return Err(failed.value); }
      var base := current;
      var baseFingerprint := GraphDigest(base);
      var applied := ApplyChangeset(base, cs);
      if applied.Err? { return Err(applied.error); }
      var next := applied.value;
      var diff := DiffGraphs(base, next, "agent_preview");
      var verified := GraphDigest(base) == baseFingerprint;
      r := Ok(PreviewData(base.revision.Id(), next.revision.Id(), baseFingerprint, GraphDigest(next), next, diff,
                            ChangeSetDigest(cs.Normalized()), true, verified));
    }

    method Commit(cs: ChangeSet, expected: Digest) returns (r: Result<RevisionRecord>)
      modifies this
      ensures Outcome(Value(), r) == CommitOf(old(Value()), cs, expected)
    {
      hide Applied, DiffOf, BaseError, PreviewHash, Revision.Id;
      var previewed := Preview(cs);
      if previewed.Err? { return Err(previewed.error); }
      var preview := previewed.value;
      if PreviewHash(preview) != expected {
        return Err(PreconditionFailed("preview hash differs from reviewed state"));
      }
      if !preview.rollbackFingerprintVerified {
        return Err(PreconditionFailed("rollback fingerprint was not verified"));
      }
      var parent := current.revision.Id();
      undoStack := undoStack + [current];
      redoStack := [];
      current := preview.graph;
      var record := RevisionRecord(current.revision, GraphDigest(current), Some(parent), "agent_commit", current);
      history := history[current.revision.Id() := record];
      TrimHistory();
      r := Ok(record);
    }

    method Undo() returns (r: Result<RevisionRecord>)
      modifies this
      ensures Outcome(Value(), r) == UndoOf(old(Value()))
    {
      if undoStack == [] { return Err(NoUndo); }
      var previous := undoStack[|undoStack| - 1];
      undoStack := undoStack[..|undoStack| - 1];
      redoStack := redoStack + [current];
      var record := PublishNavigation(previous, "agent_undo");
      r := Ok(record);
    }

    method Redo() returns (r: Result<RevisionRecord>)
      modifies this
      ensures Outcome(Value(), r) == RedoOf(old(Value()))
    {
      if redoStack == [] { return Err(NoRedo); }
      var next := redoStack[|redoStack| - 1];
      redoStack := redoStack[..|redoStack| - 1];
      undoStack := undoStack + [current];
      var record := PublishNavigation(next, "agent_redo");
      r := Ok(record);
    }

    method PublishNavigation(graph: Graph, source: string) returns (record: RevisionRecord)
      modifies this`current, this`history
      ensures Value() == Installed(old(Value()), Navigated(old(Value()), graph), source)
      ensures record == Recorded(old(Value()), Navigated(old(Value()), graph), source)
    {
      var parent := current.revision;
      var sourceId := graph.revision.Id();
      var moved := graph.(revision := parent.(geometry := Bump(parent.geometry)));
      moved := RekeyRefs(moved, sourceId, moved.revision.Id());
      var diagnostics := ValidateInvariants(moved);
      moved := moved.(diagnostics := diagnostics);
      record := RevisionRecord(moved.revision, GraphDigest(moved), Some(parent.Id()), source, moved);
      current := moved;
      history := history[moved.revision.Id() := record];
      TrimHistory();
    }

    method TrimHistory()
      modifies this`history
      ensures history == Trimmed(old(history), maxRevisions)
    {
      while |history| > maxRevisions
        invariant Trimmed(history, maxRevisions) == Trimmed(old(history), maxRevisions)
        decreases |history|
      {
        var first := Least(history.Keys);
        RemoveShrinks(history, first);
        history := history - {first};
      }
    }
  }
}
