/** Whole runs of commit, undo and redo: the content zipper, revisions and history, dependencies. */
module StoreRuns {
  import opened Text
  import opened Ordered
  import opened Lists
  import opened Ccir
  import opened Rekeying
  import opened ChangeSets
  import opened ChangeSetLaws
  import opened Store

  datatype Step = Commit(cs: ChangeSet, expected: Digest) | Undo | Redo

  function OutcomeOf(s: State, step: Step): Outcome {
    match step
    case Commit(cs, expected) => CommitOf(s, cs, expected)
    case Undo => UndoOf(s)
    case Redo => RedoOf(s)
  }

  function Next(s: State, step: Step): State {
    OutcomeOf(s, step).state
  }

  function Run(s: State, steps: seq<Step>): State
    decreases |steps|
  {
    if steps == [] then s else Run(Next(s, steps[0]), steps[1..])
  }

  lemma {:induction false} RunConcat(s: State, a: seq<Step>, b: seq<Step>)
    ensures Run(s, a + b) == Run(Run(s, a), b)
    decreases |a|
  {
    if a == [] {
      assert a + b == b;
    } else {
      assert (a + b)[0] == a[0] && (a + b)[1..] == a[1..] + b;
      RunConcat(Next(s, a[0]), a[1..], b);
    }
  }

  /** A rejected step leaves the store exactly as it was. */
  lemma RejectedStepChangesNothing(s: State, step: Step)
    ensures OutcomeOf(s, step).result.Err? ==> Next(s, step) == s
    ensures OutcomeOf(s, step).result.Ok? ==> OutcomeOf(s, step).result.value.graph == Next(s, step).current
  {
  }

  /** How an accepted step changes the graphs of the store. */
  ghost predicate Effect(s: State, t: State, step: Step) {
    match step
    case Commit(cs, _) =>
      Applied(s.current, cs) == Ok(t.current) && t.undoStack == s.undoStack + [s.current] && t.redoStack == []
    case Undo =>
      var n := |s.undoStack| - 1;
      n >= 0 && t.current == Navigated(s, s.undoStack[n])
      && t.undoStack == s.undoStack[..n] && t.redoStack == s.redoStack + [s.current]
    case Redo =>
      var n := |s.redoStack| - 1;
      n >= 0 && t.current == Navigated(s, s.redoStack[n])
      && t.redoStack == s.redoStack[..n] && t.undoStack == s.undoStack + [s.current]
  }

  lemma StepEffect(s: State, step: Step)
    ensures OutcomeOf(s, step).result.Ok? ==> Effect(s, Next(s, step), step)
    ensures OutcomeOf(s, step).result.Err? ==> Next(s, step) == s
    ensures step.Undo? ==> (OutcomeOf(s, step).result.Ok? <==> s.undoStack != [])
    ensures step.Redo? ==> (OutcomeOf(s, step).result.Ok? <==> s.redoStack != [])
  {
    hide Applied, Navigated, Trimmed, BaseError;
  }

  // ----- Every graph in the store is well-formed -----

  predicate WellFormedGraphs(graphs: seq<Graph>) {
    forall i :: 0 <= i < |graphs| ==> WellFormed(graphs[i])
  }

  predicate AllWellFormed(s: State) {
    WellFormed(s.current) && WellFormedGraphs(s.undoStack) && WellFormedGraphs(s.redoStack)
  }

  lemma NavigatedIsWellFormed(s: State, g: Graph)
    requires WellFormed(s.current) && WellFormed(g)
    ensures WellFormed(Navigated(s, g))
  {
    PublishedIsWellFormed(g, s.current.revision.(geometry := Bump(s.current.revision.geometry)));
  }

  lemma EffectKeepsWellFormed(s: State, t: State, step: Step)
    requires AllWellFormed(s) && Effect(s, t, step)
    ensures AllWellFormed(t)
  {
    hide Applied, Navigated, WellFormed;
    match step
    case Commit(cs, _) => AppliedIsWellFormed(s.current, cs);
    case Undo => NavigatedIsWellFormed(s, s.undoStack[|s.undoStack| - 1]);
    case Redo => NavigatedIsWellFormed(s, s.redoStack[|s.redoStack| - 1]);
  }

  lemma StepKeepsWellFormed(s: State, step: Step)
    requires AllWellFormed(s)
    ensures AllWellFormed(Next(s, step))
  {
    StepEffect(s, step);
    if OutcomeOf(s, step).result.Ok? { EffectKeepsWellFormed(s, Next(s, step), step); }
  }

  lemma {:induction false} RunKeepsWellFormed(s: State, steps: seq<Step>)
    requires AllWellFormed(s)
    ensures AllWellFormed(Run(s, steps))
    decreases |steps|
  {
    if steps == [] {
    } else {
      StepKeepsWellFormed(s, steps[0]);
      RunKeepsWellFormed(Next(s, steps[0]), steps[1..]);
    }
  }

  // ----- Undo and redo are a zipper over content -----

  /** The content of a graph: its references stripped of the graph's own revision id (the `@` stays, so
      that a qualified and an unqualified reference differ), revision stamps and diagnostics dropped. */
  function Content(g: Graph): Graph {
    Rekeyed(g, g.revision.Id(), "").(revision := Revision(0, 0, 0, 0, ""), diagnostics := [])
  }

  /** Publishing a graph under another revision does not change its content. */
  lemma PublishingKeepsContent(g: Graph, revision: Revision)
    requires WellFormed(g)
    ensures Content(Published(g, revision)) == Content(g)
  {
    var a, b := g.revision.Id(), revision.Id();
    assert a != "";
    RekeyComposes(g, a, b, "");
    RekeyIgnoresHeader(g, revision, a, b);
    RekeyIgnoresHeader(Rekeyed(g, a, b), revision, b, "");
  }

  lemma RekeyIgnoresHeader(g: Graph, revision: Revision, a: string, b: string)
    ensures forall ds :: Rekeyed(g.(revision := revision, diagnostics := ds), a, b)
                      == Rekeyed(g, a, b).(revision := revision, diagnostics := ds)
    ensures Rekeyed(g.(revision := revision), a, b) == Rekeyed(g, a, b).(revision := revision)
  {
  }

  datatype Zipper = Zipper(left: seq<Graph>, here: Graph, right: seq<Graph>)

  datatype Move = Stay | Back | Forward | Append(content: Graph)

  function Moved(z: Zipper, m: Move): Zipper {
    match m
    case Stay => z
    case Back =>
      if z.left == [] then z
      else Zipper(z.left[..|z.left| - 1], z.left[|z.left| - 1], z.right + [z.here])
    case Forward =>
      if z.right == [] then z
      else Zipper(z.left + [z.here], z.right[|z.right| - 1], z.right[..|z.right| - 1])
    case Append(content) => Zipper(z.left + [z.here], content, [])
  }

  function MovedAll(z: Zipper, moves: seq<Move>): Zipper
    decreases |moves|
  {
    if moves == [] then z else MovedAll(Moved(z, moves[0]), moves[1..])
  }

  function Contents(graphs: seq<Graph>): (r: seq<Graph>)
    ensures |r| == |graphs| && forall i :: 0 <= i < |graphs| ==> r[i] == Content(graphs[i])
  {
    seq(|graphs|, i requires 0 <= i < |graphs| => Content(graphs[i]))
  }

  function ZipperOf(s: State): Zipper {
    Zipper(Contents(s.undoStack), Content(s.current), Contents(s.redoStack))
  }

  /** What a step does to the contents: a rejected commit stays, an accepted one appends its result. */
  function MoveOf(s: State, step: Step): Move {
    match step
    case Commit(_, _) => if OutcomeOf(s, step).result.Ok? then Append(Content(Next(s, step).current)) else Stay
    case Undo => Back
    case Redo => Forward
  }

  lemma NavigationKeepsContent(s: State, g: Graph)
    requires WellFormed(g)
    ensures Content(Navigated(s, g)) == Content(g)
  {
    PublishingKeepsContent(g, s.current.revision.(geometry := Bump(s.current.revision.geometry)));
  }

  lemma ContentsAppend(graphs: seq<Graph>, g: Graph)
    ensures Contents(graphs + [g]) == Contents(graphs) + [Content(g)]
  {
  }

  lemma ContentsDrop(graphs: seq<Graph>)
    requires graphs != []
    ensures Contents(graphs[..|graphs| - 1]) == Contents(graphs)[..|graphs| - 1]
  {
  }

  lemma BackMove(s: State, t: State)
    requires s.undoStack != [] && Content(t.current) == Content(s.undoStack[|s.undoStack| - 1])
    requires t.undoStack == s.undoStack[..|s.undoStack| - 1] && t.redoStack == s.redoStack + [s.current]
    ensures ZipperOf(t) == Moved(ZipperOf(s), Back)
  {
    ContentsDrop(s.undoStack);
    ContentsAppend(s.redoStack, s.current);
  }

  lemma ForwardMove(s: State, t: State)
    requires s.redoStack != [] && Content(t.current) == Content(s.redoStack[|s.redoStack| - 1])
    requires t.redoStack == s.redoStack[..|s.redoStack| - 1] && t.undoStack == s.undoStack + [s.current]
    ensures ZipperOf(t) == Moved(ZipperOf(s), Forward)
  {
    ContentsDrop(s.redoStack);
    ContentsAppend(s.undoStack, s.current);
  }

  lemma EffectMovesZipper(s: State, t: State, step: Step)
    requires AllWellFormed(s) && Effect(s, t, step)
    ensures step.Commit? ==> ZipperOf(t) == Moved(ZipperOf(s), Append(Content(t.current)))
    ensures step.Undo? ==> ZipperOf(t) == Moved(ZipperOf(s), Back)
    ensures step.Redo? ==> ZipperOf(t) == Moved(ZipperOf(s), Forward)
  {
    match step
    case Commit(_, _) =>
      ContentsAppend(s.undoStack, s.current);
    case Undo =>
      NavigationKeepsContent(s, s.undoStack[|s.undoStack| - 1]);
      BackMove(s, t);
    case Redo =>
      NavigationKeepsContent(s, s.redoStack[|s.redoStack| - 1]);
      ForwardMove(s, t);
  }

  lemma StepMovesZipper(s: State, step: Step)
    requires AllWellFormed(s)
    ensures ZipperOf(Next(s, step)) == Moved(ZipperOf(s), MoveOf(s, step))
  {
    StepEffect(s, step);
    if OutcomeOf(s, step).result.Ok? { EffectMovesZipper(s, Next(s, step), step); }
  }

  function MovesOf(s: State, steps: seq<Step>): seq<Move>
    decreases |steps|
  {
    if steps == [] then [] else [MoveOf(s, steps[0])] + MovesOf(Next(s, steps[0]), steps[1..])
  }

  /** Every run of the store is, in contents, the run of a zipper. */
  lemma {:induction false} RunMovesZipper(s: State, steps: seq<Step>)
    requires AllWellFormed(s)
    ensures ZipperOf(Run(s, steps)) == MovedAll(ZipperOf(s), MovesOf(s, steps))
    decreases |steps|
  {
    if steps == [] {
    } else {
      StepMovesZipper(s, steps[0]);
      StepKeepsWellFormed(s, steps[0]);
      RunMovesZipper(Next(s, steps[0]), steps[1..]);
      var moves := MovesOf(s, steps);
      assert moves[0] == MoveOf(s, steps[0]) && moves[1..] == MovesOf(Next(s, steps[0]), steps[1..]);
    }
  }

  function Times<T>(x: T, n: nat): seq<T> {
    seq(n, _ => x)
  }

  lemma TimesSplit<T>(x: T, n: nat)
    requires n > 0
    ensures Times(x, n) == [x] + Times(x, n - 1) == Times(x, n - 1) + [x]
  {
  }

  lemma {:induction false} MovedConcat(z: Zipper, a: seq<Move>, b: seq<Move>)
    ensures MovedAll(z, a + b) == MovedAll(MovedAll(z, a), b)
    decreases |a|
  {
    if a == [] {
      assert a + b == b;
    } else {
      assert (a + b)[0] == a[0] && (a + b)[1..] == a[1..] + b;
      MovedConcat(Moved(z, a[0]), a[1..], b);
    }
  }

  lemma {:induction false} BackTimes(z: Zipper, n: nat)
    requires n <= |z.left|
    ensures var m := |z.left| - n;
      MovedAll(z, Times(Back, n)).left == z.left[..m] && (n > 0 ==> MovedAll(z, Times(Back, n)).here == z.left[m])
    decreases n
  {
    if n == 0 {
    } else {
      TimesSplit(Back, n);
      assert Times(Back, n)[0] == Back && Times(Back, n)[1..] == Times(Back, n - 1);
      BackTimes(Moved(z, Back), n - 1);
    }
  }

  lemma {:induction false} BackThenForward(z: Zipper, n: nat)
    requires n <= |z.left|
    ensures MovedAll(z, Times(Back, n) + Times(Forward, n)) == z
    decreases n
  {
    if n == 0 {
      assert Times(Back, n) + Times(Forward, n) == [];
    } else {
      var inner := Times(Back, n - 1) + Times(Forward, n - 1);
      TimesSplit(Back, n);
      TimesSplit(Forward, n);
      assert Times(Back, n) + Times(Forward, n) == [Back] + inner + [Forward];
      MovedConcat(z, [Back] + inner, [Forward]);
      MovedConcat(z, [Back], inner);
      assert MovedAll(z, [Back]) == Moved(z, Back);
      BackThenForward(Moved(z, Back), n - 1);
      assert MovedAll(Moved(z, Back), [Forward]) == Moved(Moved(z, Back), Forward) == z;
    }
  }

  /** The moves of undo and redo steps do not depend on the store. */
  lemma {:induction false} NavigationMoves(s: State, back: nat, forth: nat)
    ensures MovesOf(s, Times(Undo, back) + Times(Redo, forth)) == Times(Back, back) + Times(Forward, forth)
    decreases back + forth
  {
    hide Next;
    var steps := Times(Undo, back) + Times(Redo, forth);
    if back > 0 {
      TimesSplit(Undo, back);
      TimesSplit(Back, back);
      assert steps[0] == Undo && steps[1..] == Times(Undo, back - 1) + Times(Redo, forth);
      NavigationMoves(Next(s, Undo), back - 1, forth);
    } else if forth > 0 {
      TimesSplit(Redo, forth);
      TimesSplit(Forward, forth);
      assert steps[0] == Redo && steps[1..] == Times(Undo, 0) + Times(Redo, forth - 1);
      NavigationMoves(Next(s, Redo), 0, forth - 1);
    }
  }

  /** Any mix of `back` undos and then `forth` redos moves the contents accordingly. */
  lemma NavigationRun(s: State, back: nat, forth: nat)
    requires AllWellFormed(s)
    ensures ZipperOf(Run(s, Times(Undo, back) + Times(Redo, forth)))
         == MovedAll(ZipperOf(s), Times(Back, back) + Times(Forward, forth))
  {
    NavigationMoves(s, back, forth);
    RunMovesZipper(s, Times(Undo, back) + Times(Redo, forth));
  }

  /** n undos make the n-th newest content on the undo stack current. */
  lemma UndosReachBack(s: State, n: nat)
    requires AllWellFormed(s) && 0 < n <= |s.undoStack|
    ensures Content(Run(s, Times(Undo, n)).current) == Content(s.undoStack[|s.undoStack| - n])
  {
    hide Run, AllWellFormed, Content;
    NavigationRun(s, n, 0);
    assert Times(Undo, n) + Times(Redo, 0) == Times(Undo, n);
    assert Times(Back, n) + Times(Forward, 0) == Times(Back, n);
    BackTimes(ZipperOf(s), n);
  }

  /** n undos and then n redos restore the content of the current graph and of both stacks. */
  lemma UndosThenRedosRestore(s: State, n: nat)
    requires AllWellFormed(s) && n <= |s.undoStack|
    ensures ZipperOf(Run(s, Times(Undo, n) + Times(Redo, n))) == ZipperOf(s)
  {
    NavigationRun(s, n, n);
    BackThenForward(ZipperOf(s), n);
  }

  // ----- Revisions and history -----

  /** Retention bounds the history, and every record is filed under the id of a revision that is not
      ahead of the current one. */
  predicate HistoryInv(s: State) {
    && 1 <= |s.history| <= s.maxRevisions
    && forall id :: id in s.history ==> RecordInv(s, id)
  }

  predicate RecordInv(s: State, id: string)
    requires id in s.history
  {
    var record := s.history[id];
    && record.revision.Id() == id
    && record.graph.revision == record.revision
    && record.fingerprint == GraphDigest(record.graph)
    && s.current.revision.AtLeast(record.revision)
  }

  lemma {:induction false} TrimSubset(history: map<string, RevisionRecord>, max: nat)
    requires |history| >= 1 && max >= 1
    ensures 1 <= |Trimmed(history, max)| <= max
    ensures |history| <= max ==> Trimmed(history, max) == history
    ensures forall id :: id in Trimmed(history, max) ==> id in history && Trimmed(history, max)[id] == history[id]
    decreases |history|
  {
    if |history| > max {
      RemoveShrinks(history, Least(history.Keys));
      TrimSubset(history - {Least(history.Keys)}, max);
    }
  }

  ghost function Newer(history: map<string, RevisionRecord>, id: string): set<string> {
    set j | j in history && Less(id, j)
  }

  /** Trimming keeps exactly the records with fewer than `max` string-greater ids. */
  lemma {:induction false} TrimKeepsGreatest(history: map<string, RevisionRecord>, max: nat, id: string)
    requires id in history
    ensures id in Trimmed(history, max) <==> |Newer(history, id)| < max
    decreases |history|
  {
    var least := Least(history.Keys);
    var rest := history - {least};
    LessIrreflexive(id);
    if |history| <= max {
      assert Newer(history, id) <= history.Keys - {id};
      SubsetSize(Newer(history, id), history.Keys - {id});
    } else {
      RemoveShrinks(history, least);
      if id == least {
        forall j ensures j in Newer(history, id) <==> j in history.Keys - {least} {}
        assert Newer(history, id) == history.Keys - {least};
        NotReintroduced(rest, max, id);
      } else {
        assert Less(least, id);
        LessAsymmetric(least, id);
        assert Newer(rest, id) == Newer(history, id);
        TrimKeepsGreatest(rest, max, id);
      }
    }
  }

  lemma {:induction false} NotReintroduced(history: map<string, RevisionRecord>, max: nat, id: string)
    requires id !in history
    ensures id !in Trimmed(history, max)
    decreases |history|
  {
    if |history| > max {
      RemoveShrinks(history, Least(history.Keys));
      NotReintroduced(history - {Least(history.Keys)}, max, id);
    }
  }

  /** The step published a graph (rather than being rejected), and with which revision. */
  lemma StepRevision(s: State, step: Step)
    requires OutcomeOf(s, step).result.Ok?
    ensures var r := Next(s, step).current.revision;
      match step
      case Commit(cs, _) => r == RevisionAfter(s.current.revision, cs.operations)
      case _ => r == s.current.revision.(geometry := Bump(s.current.revision.geometry))
    ensures exists source :: Next(s, step).history == Installed(s, Next(s, step).current, source).history
    ensures Next(s, step).maxRevisions == s.maxRevisions
  {
    hide RekeyedOver, RekeyedFacts, Validation, FirstOperationError, FirstPreconditionError, Trimmed, RevisionAfter, ApplyOperations, BaseError;
    if step.Commit? {
      assert Applied(s.current, step.cs).Ok?;
      ApplyKeepsHeader(s.current, step.cs.operations);
      assert Next(s, step).history == Installed(s, Next(s, step).current, "agent_commit").history;
    } else if step.Undo? {
      assert Next(s, step).history == Installed(s, Next(s, step).current, "agent_undo").history;
    } else {
      assert Next(s, step).history == Installed(s, Next(s, step).current, "agent_redo").history;
    }
  }

  predicate Advancing(step: Step) {
    step.Commit? ==> !OnlyVisibility(step.cs.operations)
  }

  /** The revision never goes back; an accepted undo or redo strictly advances it, and an accepted commit
      does exactly when some operation is not set_visibility. */
  lemma StepAdvancesRevision(s: State, step: Step)
    requires s.current.revision.Room(1)
    ensures Next(s, step).current.revision.AtLeast(s.current.revision)
    ensures OutcomeOf(s, step).result.Ok? ==>
              (Next(s, step).current.revision.AdvancesFrom(s.current.revision) <==> Advancing(step))
    ensures forall n: nat :: s.current.revision.Room(n + 1) ==> Next(s, step).current.revision.Room(n)
  {
    RejectedStepChangesNothing(s, step);
    if OutcomeOf(s, step).result.Ok? {
      StepRevision(s, step);
      if step.Commit? { RevisionAfterAdvances(s.current.revision, step.cs.operations); }
    }
  }

  lemma NewIdIsUnused(s: State, revision: Revision)
    requires HistoryInv(s) && revision.AtLeast(s.current.revision) && revision != s.current.revision
    ensures revision.Id() !in s.history
  {
    if revision.Id() in s.history {
      assert RecordInv(s, revision.Id());
      RevisionIdInjective(s.history[revision.Id()].revision, revision);
    }
  }

  lemma InstalledRecords(s: State, graph: Graph, source: string)
    requires 1 <= |s.history| <= s.maxRevisions
    ensures var h := Installed(s, graph, source).history;
      && 1 <= |h| <= s.maxRevisions
      && (forall id :: id in h && id != graph.revision.Id() ==> id in s.history && h[id] == s.history[id])
      && (graph.revision.Id() in h ==> h[graph.revision.Id()] == Recorded(s, graph, source))
  {
    TrimSubset(s.history[graph.revision.Id() := Recorded(s, graph, source)], s.maxRevisions);
  }

  lemma InstalledKeepsHistory(s: State, graph: Graph, source: string)
    requires HistoryInv(s) && graph.revision.AtLeast(s.current.revision)
    ensures HistoryInv(Installed(s, graph, source))
  {
    hide Trimmed, Revision.Id;
    InstalledRecords(s, graph, source);
    forall k | k in Installed(s, graph, source).history
      ensures RecordInv(Installed(s, graph, source), k)
    {
      if k != graph.revision.Id() { assert RecordInv(s, k); }
    }
  }

  lemma StepKeepsHistory(s: State, step: Step)
    requires HistoryInv(s) && s.current.revision.Room(1)
    ensures HistoryInv(Next(s, step))
  {
    RejectedStepChangesNothing(s, step);
    if OutcomeOf(s, step).result.Ok? {
      StepRevision(s, step);
      StepAdvancesRevision(s, step);
      var next := Next(s, step);
      var source :| next.history == Installed(s, next.current, source).history;
      InstalledKeepsHistory(s, next.current, source);
      forall id | id in next.history ensures RecordInv(next, id) {
        assert RecordInv(Installed(s, next.current, source), id);
      }
    }
  }

  /** On a strict advance the published id is new to the history, its record (when retained) names the
      previous revision, which is strictly earlier, as its parent, and no surviving record changed. */
  lemma AdvancePublishesNewId(s: State, step: Step)
    requires HistoryInv(s) && s.current.revision.Room(1)
    requires Next(s, step).current.revision != s.current.revision
    ensures var next := Next(s, step); var id := next.current.revision.Id();
      && id !in s.history
      && next.current.revision.AdvancesFrom(s.current.revision)
      && (forall k :: k in next.history && k != id ==> k in s.history && next.history[k] == s.history[k])
      && (id in next.history ==> next.history[id].parent == Some(s.current.revision.Id())
                                 && next.history[id].graph == next.current)
  {
    RejectedStepChangesNothing(s, step);
    StepRevision(s, step);
    StepAdvancesRevision(s, step);
    var next := Next(s, step);
    var source :| next.history == Installed(s, next.current, source).history;
    InstalledRecords(s, next.current, source);
    NewIdIsUnused(s, next.current.revision);
  }

  /** What any accepted step files: the record under the published id, if it is retained, holds the new current
      graph and names that very id as its parent exactly when the step is a commit of set_visibility operations
      only, which thereby overwrites the record that the id had; every other retained record is unchanged. */
  lemma PublishedRecord(s: State, step: Step)
    requires OutcomeOf(s, step).result.Ok? && s.current.revision.Room(1)
    requires 1 <= |s.history| <= s.maxRevisions
    ensures var next := Next(s, step); var id := next.current.revision.Id();
      && (id in next.history ==>
            && next.history[id].graph == next.current && next.history[id].revision == next.current.revision
            && (next.history[id].parent == Some(id) <==> !Advancing(step)))
      && (id == s.current.revision.Id() <==> !Advancing(step))
      && forall k :: k in next.history && k != id ==> k in s.history && next.history[k] == s.history[k]
  {
    StepRevision(s, step);
    StepAdvancesRevision(s, step);
    var next := Next(s, step);
    var source :| next.history == Installed(s, next.current, source).history;
    InstalledRecords(s, next.current, source);
    RevisionIdInjective(s.current.revision, next.current.revision);
    hide Next, Installed, Revision.Id, Advancing;
  }

  /** Over whole runs the revision never goes back and the history stays bounded and consistent. */
  lemma {:induction false} RunAdvances(s: State, steps: seq<Step>, n: nat)
    requires HistoryInv(s) && s.current.revision.Room(|steps| + n)
    ensures HistoryInv(Run(s, steps))
    ensures Run(s, steps).current.revision.AtLeast(s.current.revision)
    ensures Run(s, steps).current.revision.Room(n)
    decreases |steps|
  {
    hide Next, HistoryInv;
    if steps == [] {
    } else {
      StepAdvancesRevision(s, steps[0]);
      StepKeepsHistory(s, steps[0]);
      RunAdvances(Next(s, steps[0]), steps[1..], n);
    }
  }

  lemma AtLeastTransitive(a: Revision, b: Revision, c: Revision)
    requires c.AtLeast(b) && b.AtLeast(a)
    ensures c.AtLeast(a) && (c == a ==> b == a)
  {
  }

  lemma RunAround(s: State, steps: seq<Step>, i: nat)
    requires i < |steps|
    ensures Run(s, steps) == Run(Next(Run(s, steps[..i]), steps[i]), steps[i + 1..])
  {
    var rest := steps[i..];
    assert steps == steps[..i] + rest;
    RunConcat(s, steps[..i], rest);
    assert rest[0] == steps[i] && rest[1..] == steps[i + 1..];
  }

  /** A run with at least one accepted step that is not a mere visibility commit ends strictly ahead, so
      under a revision id that was not in the history. */
  lemma RunAdvancesStrictly(s: State, steps: seq<Step>, i: nat)
    requires HistoryInv(s) && s.current.revision.Room(|steps|)
    requires i < |steps| && OutcomeOf(Run(s, steps[..i]), steps[i]).result.Ok? && Advancing(steps[i])
    ensures Run(s, steps).current.revision.AdvancesFrom(s.current.revision)
    ensures Run(s, steps).current.revision.Id() !in s.history
  {
    hide HistoryInv, Next;
    var before := Run(s, steps[..i]);
    var after := Next(before, steps[i]);
    RunAdvances(s, steps[..i], |steps| - i);
    assert after.current.revision.AdvancesFrom(before.current.revision) && after.current.revision.Room(|steps| - i - 1) && HistoryInv(after) by {
      StepAdvancesRevision(before, steps[i]);
      StepKeepsHistory(before, steps[i]);
    }
    RunAdvances(after, steps[i + 1..], 0);
    RunAround(s, steps, i);
    AtLeastTransitive(s.current.revision, before.current.revision, after.current.revision);
    AtLeastTransitive(s.current.revision, after.current.revision, Run(s, steps).current.revision);
    NewIdIsUnused(s, Run(s, steps).current.revision);
  }

  lemma InitialHistory(graph: Graph, retention: nat)
    requires retention >= 1
    ensures HistoryInv(InitialState(graph).(maxRevisions := retention))
  {
    var s := InitialState(graph).(maxRevisions := retention);
    forall id | id in s.history ensures RecordInv(s, id) {}
  }

  /** After any accepted step the record just published is retained exactly when fewer than the limit of
      the earlier ids are greater than its id in string order. */
  lemma NewestIsRetained(s: State, step: Step)
    requires OutcomeOf(s, step).result.Ok?
    ensures var id := Next(s, step).current.revision.Id();
      id in Next(s, step).history <==> |Newer(s.history, id)| < s.maxRevisions
  {
    hide Less, Trimmed, OutcomeOf, Revision.Id;
    StepRevision(s, step);
    var next := Next(s, step);
    var id := next.current.revision.Id();
    var source :| next.history == Installed(s, next.current, source).history;
    var grown := s.history[id := Recorded(s, next.current, source)];
    TrimKeepsGreatest(grown, s.maxRevisions, id);
    LessIrreflexive(id);
    assert Newer(grown, id) == Newer(s.history, id);
  }

  lemma GeometryTenSortsBeforeNine(a: Revision, b: Revision)
    requires a.geometry == 9 && b.geometry == 10
    ensures Less(b.Id(), a.Id())
  {
    assert Decimal(9) == "9" && Decimal(1) == "1" && Decimal(10) == "10";
    assert a.Id()[0] == 'g' == b.Id()[0] && a.Id()[1..][0] == '9' && b.Id()[1..][0] == '1';
    assert Less(b.Id()[1..], a.Id()[1..]);
  }

  /** So the newest record can be the one that is dropped: going from g9 to g10 with one record kept. */
  lemma NewestCanBeEvicted(s: State)
    requires HistoryInv(s) && s.current.revision.geometry == 9 && s.current.revision.Room(1)
    requires s.maxRevisions == 1 && s.current.revision.Id() in s.history && s.undoStack != []
    ensures Next(s, Undo).current.revision.geometry == 10
    ensures Next(s, Undo).current.revision.Id() !in Next(s, Undo).history
  {
    hide Less, Trimmed, Installed, Revision.Id, HistoryInv;
    StepRevision(s, Undo);
    NewestIsRetained(s, Undo);
    GeometryTenSortsBeforeNine(s.current.revision, Next(s, Undo).current.revision);
    assert s.current.revision.Id() in Newer(s.history, Next(s, Undo).current.revision.Id());
  }

  lemma EmptyChangeIsApplied(g: Graph)
    ensures PreviewOf(g, EmptyChange(g)).Ok? && PreviewOf(g, EmptyChange(g)).value.graph.revision == g.revision
  {
    assert FirstOperationError(g, []).None? && FirstPreconditionError(g, []).None?;
  }

  lemma EmptyCommit(s: State, commit: Step)
    requires s.maxRevisions == 1 && s.history.Keys == {s.current.revision.Id()} && HistoryInv(s) && s.current.revision.Room(1)
    requires commit == Commit(EmptyChange(s.current), PreviewHash(PreviewOf(s.current, EmptyChange(s.current)).value))
    ensures var t := Next(s, commit);
      && OutcomeOf(s, commit).result.Ok? && HistoryInv(t) && t.current.revision == s.current.revision && t.maxRevisions == 1
      && t.current.revision.Id() in t.history && t.undoStack != []
  {
    EmptyChangeIsApplied(s.current);
    assert OutcomeOf(s, commit).result.Ok?;
    StepKeepsHistory(s, commit);
    StepRevision(s, commit);
    NewestIsRetained(s, commit);
    LessIrreflexive(s.current.revision.Id());
    assert Newer(s.history, s.current.revision.Id()) == {};
  }

  function EmptyChange(g: Graph): ChangeSet {
    ChangeSet("changeset/1.0", "", g.session, g.document, g.revision.Id(), None, [], [], [], "", None)
  }

  lemma TwoSteps(s: State, first: Step, second: Step)
    ensures Run(s, [first, second]) == Next(Next(s, first), second)
  {
    hide Next;
    assert [first, second][1..] == [second] && [second][1..] == [];
    assert Run(Next(s, first), [second]) == Run(Next(Next(s, first), second), []);
  }

  /** Such a store is reached from a new one: commit an empty changeset to a graph at g9, and undo it. */
  lemma NewestIsEvicted(graph: Graph) returns (steps: seq<Step>)
    requires graph.revision.geometry == 9 && graph.revision.Room(1)
    ensures var t := Run(InitialState(graph).(maxRevisions := 1), steps);
      |steps| == 2 && t.current.revision.geometry == 10 && t.current.revision.Id() !in t.history
  {
    hide HistoryInv, Revision.Id, Next, EmptyChange, PreviewOf, PreviewHash, OutcomeOf;
    var s := InitialState(graph).(maxRevisions := 1);
    EmptyChangeIsApplied(graph);
    InitialHistory(graph, 1);
    var commit := Commit(EmptyChange(graph), PreviewHash(PreviewOf(graph, EmptyChange(graph)).value));
    EmptyCommit(s, commit);
    NewestCanBeEvicted(Next(s, commit));
    steps := [commit, Undo];
    TwoSteps(s, commit, Undo);
  }

  // ----- Preview and commit agree -----

  lemma PreviewIgnoresApproval(g: Graph, a: ChangeSet, b: ChangeSet)
    requires a.Normalized() == b.Normalized()
    ensures PreviewOf(g, a) == PreviewOf(g, b)
  {
    hide FirstPreconditionError, FirstOperationError, ApplyOperations, Published, RevisionAfter;
    assert a.operations == a.Normalized().operations == b.operations;
    assert a.preconditions == a.Normalized().preconditions == b.preconditions;
    assert a.baseRevision == a.Normalized().baseRevision == b.baseRevision;
  }

  /** A commit accepts the hash of a preview taken at any other time exactly when the changeset is the
      previewed one up to its approval token and the current graph is the previewed base; it then
      installs the previewed graph. */
  lemma CommitMatchesPreview(base: Graph, reviewed: ChangeSet, p: Preview, s: State, cs: ChangeSet)
    requires PreviewOf(base, reviewed) == Ok(p)
    ensures var out := CommitOf(s, cs, PreviewHash(p));
      && (out.result.Ok? <==> s.current == base && cs.Normalized() == reviewed.Normalized())
      && (out.result.Ok? ==> out.state.current == p.graph && out.state.undoStack == s.undoStack + [base])
      && (out.result.Err? ==> out.state == s)
  {
    if s.current == base && cs.Normalized() == reviewed.Normalized() {
      PreviewIgnoresApproval(base, cs, reviewed);
    }
  }

  // ----- Dependency closure over runs -----

  predicate DependenciesResolveIn(graphs: seq<Graph>) {
    forall i :: 0 <= i < |graphs| ==> DependenciesResolve(graphs[i])
  }

  predicate AllDependenciesResolve(s: State) {
    DependenciesResolve(s.current) && DependenciesResolveIn(s.undoStack) && DependenciesResolveIn(s.redoStack)
  }

  predicate StrictDeletes(steps: seq<Step>) {
    forall i :: 0 <= i < |steps| && steps[i].Commit? ==> DeletesAreStrict(steps[i].cs.operations)
  }

  lemma EffectKeepsDependencies(s: State, t: State, step: Step)
    requires AllWellFormed(s) && AllDependenciesResolve(s) && Effect(s, t, step)
    requires step.Commit? ==> DeletesAreStrict(step.cs.operations)
    ensures AllDependenciesResolve(t)
  {
    hide Applied, Published, DependenciesResolve, WellFormed;
    var revision := s.current.revision.(geometry := Bump(s.current.revision.geometry));
    match step
    case Commit(cs, _) => AppliedKeepsDependencies(s.current, cs);
    case Undo => PublishedKeepsDependencies(s.undoStack[|s.undoStack| - 1], revision);
    case Redo => PublishedKeepsDependencies(s.redoStack[|s.redoStack| - 1], revision);
  }

  lemma StepKeepsDependencies(s: State, step: Step)
    requires AllWellFormed(s) && AllDependenciesResolve(s)
    requires step.Commit? ==> DeletesAreStrict(step.cs.operations)
    ensures AllDependenciesResolve(Next(s, step))
  {
    StepEffect(s, step);
    if OutcomeOf(s, step).result.Ok? { EffectKeepsDependencies(s, Next(s, step), step); }
  }

  /** If every delete is strict, no run leaves a dangling dependency in the current graph or on a stack. */
  lemma {:induction false} RunKeepsDependencies(s: State, steps: seq<Step>)
    requires AllWellFormed(s) && AllDependenciesResolve(s) && StrictDeletes(steps)
    ensures AllDependenciesResolve(Run(s, steps))
    decreases |steps|
  {
    if steps == [] {
    } else {
      StepKeepsDependencies(s, steps[0]);
      StepKeepsWellFormed(s, steps[0]);
      RunKeepsDependencies(Next(s, steps[0]), steps[1..]);
    }
  }
}
