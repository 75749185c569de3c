/** Structured differences between two graphs, matched by logical path (`diff_graphs`). */
module Diffs {
  import opened Text
  import opened Ordered
  import opened Ccir

  datatype EntityChange = EntityChange(ref: string, fields: set<string>, before: Entity, after: Entity)

  datatype Signal = SameLogicalPath | SameKind | SameSourceFingerprint | PathOnly

  datatype Action = UseMappedReference | ReResolveAtFeature | ReselectOwner

  datatype MappingCandidate = MappingCandidate(ref: string, confidence: real, signals: seq<Signal>)

  datatype EntityMapping = EntityMapping(
    source: string, targetRevision: string, state: IdentityState,
    candidates: seq<MappingCandidate>, writeEligible: bool, recommendedAction: Action)

  datatype Diff = Diff(
    from: Revision, to: Revision, added: seq<string>, removed: seq<string>, changed: seq<EntityChange>,
    mappings: seq<EntityMapping>, factsAdded: seq<Fact>, factsRemoved: seq<Fact>,
    diagnosticsChanged: seq<Diagnostic>, source: string)

  // ----- Logical paths -----

  /** The reference without its revision: the part before the last `@`. */
  function LogicalPath(ref: string): string {
    match RSplitOnce(ref, '@')
    case None => ref
    case Some((path, _)) => path
  }

  /** Paths of `keys` in order: when two keys share a path the later one wins. */
  function PathsOver(keys: seq<string>): (paths: map<string, string>)
    ensures forall p :: p in paths ==> paths[p] in keys
  {
    if keys == [] then map[] else
      var last := keys[|keys| - 1];
      assert keys == keys[..|keys| - 1] + [last];
      PathsOver(keys[..|keys| - 1])[LogicalPath(last) := last]
  }

  function PathsOf(g: Graph): (paths: map<string, string>)
    ensures forall p :: p in paths ==> paths[p] in g.entities
  {
    PathsOver(SortedKeys(g.entities.Keys))
  }

  lemma {:induction false} PathOver(keys: seq<string>, k: string, p: string)
    ensures k in keys ==> LogicalPath(k) in PathsOver(keys)
    ensures p in PathsOver(keys) ==> LogicalPath(PathsOver(keys)[p]) == p
  {
    if keys == [] {
    } else {
      var last, front := keys[|keys| - 1], keys[..|keys| - 1];
      assert keys == front + [last];
      PathOver(front, k, p);
    }
  }

  /** Every key has its path listed, and every listed path is the path of the key it names. */
  lemma PathMeaning(g: Graph, k: string, p: string)
    ensures k in g.entities ==> LogicalPath(k) in PathsOf(g)
    ensures p in PathsOf(g) ==> LogicalPath(PathsOf(g)[p]) == p
  {
    PathOver(SortedKeys(g.entities.Keys), k, p);
  }

  lemma {:induction false} LaterWins(keys: seq<string>, j: string)
    requires StrictlySorted(keys) && j in keys
    ensures LogicalPath(j) in PathsOver(keys)
    ensures PathsOver(keys)[LogicalPath(j)] == j || Less(j, PathsOver(keys)[LogicalPath(j)])
    decreases |keys|
  {
    hide LogicalPath;
    var front, last := keys[..|keys| - 1], keys[|keys| - 1];
    assert keys == front + [last];
    if j != last { LaterWins(front, j); }
  }

  /** Of the references with one path the string-greatest is listed. */
  lemma GreatestWins(g: Graph, k: string)
    requires k in g.entities
    ensures LogicalPath(k) in PathsOf(g)
    ensures PathsOf(g)[LogicalPath(k)] == k <==>
            forall j :: j in g.entities && LogicalPath(j) == LogicalPath(k) ==> j == k || Less(j, k)
  {
    hide LogicalPath;
    var keys := SortedKeys(g.entities.Keys);
    SortedKeysSorted(g.entities.Keys);
    LaterWins(keys, k);
    var winner := PathsOf(g)[LogicalPath(k)];
    PathMeaning(g, k, LogicalPath(k));
    forall j | j in g.entities && LogicalPath(j) == LogicalPath(k) ensures j == winner || Less(j, winner) { LaterWins(keys, j); }
    if winner != k { LessAsymmetric(k, winner); }
  }

  method LogicalPaths(g: Graph) returns (paths: map<string, string>)
    ensures paths == PathsOf(g)
  {
    hide LogicalPath;
    var keys := SortedKeys(g.entities.Keys);
    paths := map[];
    for i := 0 to |keys|
      invariant paths == PathsOver(keys[..i])
    {
      assert keys[..i + 1][..i] == keys[..i];
      paths := paths[LogicalPath(keys[i]) := keys[i]];
    }
    assert keys[..|keys|] == keys;
  }

  // ----- One matched pair -----

  function Fingerprint(e: Entity): Option<string> {
    if e.source.Some? then e.source.value.fingerprint else None
  }

  function ChangedFields(before: Entity, after: Entity): set<string> {
    (if before.kind != after.kind then {"kind"} else {})
    + (if before.name != after.name then {"name"} else {})
    + (if before.displayLabel != after.displayLabel then {"label"} else {})
    + (if before.properties != after.properties then {"properties"} else {})
    + (if before.links != after.links then {"links"} else {})
    + (if before.bounds != after.bounds then {"bounds"} else {})
  }

  predicate SameFingerprint(before: Entity, after: Entity) {
    before.kind == after.kind && Fingerprint(before) == Fingerprint(after)
  }

  function KeptMapping(source: string, target: string, same: bool, revision: string): EntityMapping {
    var state := if same then MappedExact else MappedHeuristic;
    EntityMapping(
      source, revision, state,
      [MappingCandidate(target, if same then 1.0 else 0.55,
                        if same then [SameLogicalPath, SameKind, SameSourceFingerprint] else [SameLogicalPath, PathOnly])],
      state.WriteEligible(),
      if same then UseMappedReference else ReResolveAtFeature)
  }

  function DeletedMapping(source: string, revision: string): EntityMapping {
    EntityMapping(source, revision, Deleted, [], false, ReselectOwner)
  }

  // ----- The difference, path by path -----

  /** References of `own` whose path `other` does not have. */
  function Unmatched(paths: seq<string>, own: map<string, string>, other: map<string, string>): seq<string>
    requires forall p :: p in paths ==> p in own
  {
    if paths == [] then [] else
      var last := paths[|paths| - 1];
      Unmatched(paths[..|paths| - 1], own, other) + if last in other then [] else [own[last]]
  }

  function DeletedMappings(refs: seq<string>, revision: string): (r: seq<EntityMapping>)
    ensures |r| == |refs| && forall i :: 0 <= i < |refs| ==> r[i] == DeletedMapping(refs[i], revision)
  {
    seq(|refs|, i requires 0 <= i < |refs| => DeletedMapping(refs[i], revision))
  }

  /** Every listed reference is an entity. */
  predicate Into(paths: map<string, string>, g: Graph) {
    forall p :: p in paths ==> paths[p] in g.entities
  }

  /** The entity at `path` is in both graphs, under different references. */
  predicate Moves(path: string, fromPaths: map<string, string>, toPaths: map<string, string>) {
    path in fromPaths && path in toPaths && fromPaths[path] != toPaths[path]
  }

  function MappingAt(path: string, from: Graph, fromPaths: map<string, string>, to: Graph, toPaths: map<string, string>): (m: EntityMapping)
    requires Into(fromPaths, from) && Into(toPaths, to) && Moves(path, fromPaths, toPaths)
  {
    var a, b := fromPaths[path], toPaths[path];
    KeptMapping(a, b, SameFingerprint(from.entities[a], to.entities[b]), to.revision.Id())
  }

  function KeptMappings(paths: seq<string>, from: Graph, fromPaths: map<string, string>, to: Graph, toPaths: map<string, string>): seq<EntityMapping>
    requires Into(fromPaths, from) && Into(toPaths, to)
  {
    if paths == [] then [] else
      var last := paths[|paths| - 1];
      KeptMappings(paths[..|paths| - 1], from, fromPaths, to, toPaths)
      + if Moves(last, fromPaths, toPaths) then [MappingAt(last, from, fromPaths, to, toPaths)] else []
  }

  function Changes(paths: seq<string>, from: Graph, fromPaths: map<string, string>, to: Graph, toPaths: map<string, string>): seq<EntityChange>
    requires Into(fromPaths, from) && Into(toPaths, to)
    requires forall p :: p in paths ==> p in toPaths
  {
    if paths == [] then [] else
      var last := paths[|paths| - 1];
      var front := Changes(paths[..|paths| - 1], from, fromPaths, to, toPaths);
      if last in fromPaths && from.entities[fromPaths[last]] != to.entities[toPaths[last]] then
        var before, after := from.entities[fromPaths[last]], to.entities[toPaths[last]];
        front + [EntityChange(toPaths[last], ChangedFields(before, after), before, after)]
      else front
  }

  function FactsMissingFrom(facts: seq<Fact>, g: Graph): seq<Fact> {
    if facts == [] then [] else
      var last := facts[|facts| - 1];
      FactsMissingFrom(facts[..|facts| - 1], g) + if g.IsFact(last.ref) then [] else [last]
  }

  function AllUnmatched(own: map<string, string>, other: map<string, string>): seq<string> {
    Unmatched(SortedKeys(own.Keys), own, other)
  }

  function AllMappings(from: Graph, fromPaths: map<string, string>, to: Graph, toPaths: map<string, string>): seq<EntityMapping>
    requires Into(fromPaths, from) && Into(toPaths, to)
  {
    KeptMappings(SortedKeys(toPaths.Keys), from, fromPaths, to, toPaths)
    + DeletedMappings(AllUnmatched(fromPaths, toPaths), to.revision.Id())
  }

  function DiffBetween(from: Graph, fromPaths: map<string, string>, to: Graph, toPaths: map<string, string>, source: string): Diff
    requires Into(fromPaths, from) && Into(toPaths, to)
  {
    Diff(from.revision, to.revision, AllUnmatched(toPaths, fromPaths), AllUnmatched(fromPaths, toPaths),
         Changes(SortedKeys(toPaths.Keys), from, fromPaths, to, toPaths), AllMappings(from, fromPaths, to, toPaths),
         FactsMissingFrom(to.facts, from), FactsMissingFrom(from.facts, to), to.diagnostics, source)
  }

  function DiffOf(from: Graph, to: Graph, source: string): Diff {
    DiffBetween(from, PathsOf(from), to, PathsOf(to), source)
  }

  method FactsAbsent(facts: seq<Fact>, g: Graph) returns (absent: seq<Fact>)
    ensures absent == FactsMissingFrom(facts, g)
  {
    absent := [];
    for i := 0 to |facts|
      invariant absent == FactsMissingFrom(facts[..i], g)
    {
      assert facts[..i + 1][..i] == facts[..i];
      if !g.IsFact(facts[i].ref) { absent := absent + [facts[i]]; }
    }
    assert facts[..|facts|] == facts;
  }

  /** The first loop of `diff_graphs`: the paths of the new graph. */
  method MatchPaths(from: Graph, fromPaths: map<string, string>, to: Graph, toPaths: map<string, string>)
    returns (added: seq<string>, changed: seq<EntityChange>, mappings: seq<EntityMapping>)
    requires Into(fromPaths, from) && Into(toPaths, to)
    ensures added == AllUnmatched(toPaths, fromPaths)
    ensures changed == Changes(SortedKeys(toPaths.Keys), from, fromPaths, to, toPaths)
    ensures mappings == KeptMappings(SortedKeys(toPaths.Keys), from, fromPaths, to, toPaths)
  {
    hide ChangedFields, SameFingerprint, KeptMapping, SortedKeys;
    added, changed, mappings := [], [], [];
    var paths := SortedKeys(toPaths.Keys);
    for i := 0 to |paths|
      invariant added == Unmatched(paths[..i], toPaths, fromPaths)
      invariant changed == Changes(paths[..i], from, fromPaths, to, toPaths)
      invariant mappings == KeptMappings(paths[..i], from, fromPaths, to, toPaths)
    {
      assert paths[..i + 1][..i] == paths[..i];
      var path := paths[i];
      if path !in fromPaths {
        added := added + [toPaths[path]];
      } else {
        var a, b := fromPaths[path], toPaths[path];
        var before, after := from.entities[a], to.entities[b];
        if before != after {
          changed := changed + [EntityChange(b, ChangedFields(before, after), before, after)];
        }
        if a != b {
          mappings := mappings + [KeptMapping(a, b, SameFingerprint(before, after), to.revision.Id())];
        }
      }
    }
    assert paths[..|paths|] == paths;
  }

  /** The second loop of `diff_graphs`: the paths that are gone. */
  method GonePaths(fromPaths: map<string, string>, toPaths: map<string, string>, revision: string)
    returns (removed: seq<string>, mappings: seq<EntityMapping>)
    ensures removed == AllUnmatched(fromPaths, toPaths) && mappings == DeletedMappings(removed, revision)
  {
    removed, mappings := [], [];
    var gone := SortedKeys(fromPaths.Keys);
    for i := 0 to |gone|
      invariant removed == Unmatched(gone[..i], fromPaths, toPaths)
      invariant mappings == DeletedMappings(removed, revision)
    {
      assert gone[..i + 1][..i] == gone[..i];
      if gone[i] !in toPaths {
        removed := removed + [fromPaths[gone[i]]];
        mappings := mappings + [DeletedMapping(fromPaths[gone[i]], revision)];
      }
    }
    assert gone[..|gone|] == gone;
  }

  method DiffGraphs(from: Graph, to: Graph, source: string) returns (diff: Diff)
    ensures diff == DiffOf(from, to, source)
  {
    var fromPaths := LogicalPaths(from);
    var toPaths := LogicalPaths(to);
    var added, changed, kept := MatchPaths(from, fromPaths, to, toPaths);
    var removed, gone := GonePaths(fromPaths, toPaths, to.revision.Id());
    var factsAdded := FactsAbsent(to.facts, from);
    var factsRemoved := FactsAbsent(from.facts, to);
    diff := Diff(from.revision, to.revision, added, removed, changed, kept + gone, factsAdded, factsRemoved, to.diagnostics, source);
  }

  // ----- What the lists contain -----

  lemma {:induction false} UnmatchedMeaning(paths: seq<string>, own: map<string, string>, other: map<string, string>, ref: string)
    requires forall p :: p in paths ==> p in own
    ensures ref in Unmatched(paths, own, other) <==> exists p :: p in paths && p !in other && own[p] == ref
  {
    if paths == [] {
    } else {
      var last, front := paths[|paths| - 1], paths[..|paths| - 1];
      assert paths == front + [last];
      UnmatchedMeaning(front, own, other, ref);
    }
  }

  lemma {:induction false} KeptMappingsMeaning(
    paths: seq<string>, from: Graph, fromPaths: map<string, string>, to: Graph, toPaths: map<string, string>, m: EntityMapping)
    requires Into(fromPaths, from) && Into(toPaths, to)
    ensures m in KeptMappings(paths, from, fromPaths, to, toPaths) <==>
            exists p :: p in paths && Moves(p, fromPaths, toPaths) && m == MappingAt(p, from, fromPaths, to, toPaths)
  {
    if paths == [] {
    } else {
      var last, front := paths[|paths| - 1], paths[..|paths| - 1];
      assert paths == front + [last];
      KeptMappingsMeaning(front, from, fromPaths, to, toPaths, m);
    }
  }

  /** No two entities of the graph have the same logical path. */
  predicate PathInjective(g: Graph) {
    forall j, k :: j in g.entities && k in g.entities && LogicalPath(j) == LogicalPath(k) ==> j == k
  }

  /** `paths` lists every entity of `g` under its logical path, and nothing else. */
  ghost predicate Indexes(paths: map<string, string>, g: Graph) {
    && (forall k {:trigger LogicalPath(k)} :: k in g.entities ==> LogicalPath(k) in paths && paths[LogicalPath(k)] == k)
    && (forall p {:trigger paths[p]} :: p in paths ==> paths[p] in g.entities && LogicalPath(paths[p]) == p)
  }

  lemma PathsIndex(g: Graph)
    requires PathInjective(g)
    ensures Indexes(PathsOf(g), g)
  {
    forall k | k in g.entities ensures LogicalPath(k) in PathsOf(g) && PathsOf(g)[LogicalPath(k)] == k {
      PathMeaning(g, k, LogicalPath(k));
    }
    forall p | p in PathsOf(g) ensures LogicalPath(PathsOf(g)[p]) == p {
      PathMeaning(g, p, p);
    }
  }

  ghost predicate IsSource(mappings: seq<EntityMapping>, ref: string) {
    exists m :: m in mappings && m.source == ref
  }

  ghost predicate IsCandidate(mappings: seq<EntityMapping>, ref: string) {
    exists m, j :: m in mappings && 0 <= j < |m.candidates| && m.candidates[j].ref == ref
  }

  // ----- A diff is a patch of the key set -----

  lemma UnmatchedKeys(own: map<string, string>, g: Graph, other: map<string, string>, ref: string)
    requires Indexes(own, g)
    ensures ref in AllUnmatched(own, other) <==> ref in g.entities && LogicalPath(ref) !in other
  {
    UnmatchedMeaning(SortedKeys(own.Keys), own, other, ref);
  }

  /** The sources of the mappings are exactly the old keys that moved or went away. */
  lemma SourceKeys(from: Graph, fromPaths: map<string, string>, to: Graph, toPaths: map<string, string>, ref: string)
    requires Indexes(fromPaths, from) && Indexes(toPaths, to)
    ensures IsSource(AllMappings(from, fromPaths, to, toPaths), ref) <==> ref in from.entities && ref !in to.entities
  {
    hide LogicalPath, Unmatched, KeptMappings;
    var paths, removed := SortedKeys(toPaths.Keys), AllUnmatched(fromPaths, toPaths);
    var kept, gone := KeptMappings(paths, from, fromPaths, to, toPaths), DeletedMappings(removed, to.revision.Id());
    var p := LogicalPath(ref);
    UnmatchedKeys(fromPaths, from, toPaths, ref);
    if IsSource(kept + gone, ref) {
      var m: EntityMapping :| m in kept + gone && m.source == ref;
      KeptMappingsMeaning(paths, from, fromPaths, to, toPaths, m);
    }
    if ref in from.entities && ref !in to.entities {
      if p in toPaths {
        var m := MappingAt(p, from, fromPaths, to, toPaths);
        KeptMappingsMeaning(paths, from, fromPaths, to, toPaths, m);
        assert m in kept + gone && m.source == ref;
      } else {
        var i :| 0 <= i < |removed| && removed[i] == ref;
        assert gone[i] in kept + gone && gone[i].source == ref;
      }
    }
  }

  lemma CandidateIsNewKey(from: Graph, fromPaths: map<string, string>, to: Graph, toPaths: map<string, string>, m: EntityMapping, j: nat)
    requires Indexes(fromPaths, from) && Indexes(toPaths, to)
    requires m in AllMappings(from, fromPaths, to, toPaths) && j < |m.candidates|
    ensures m.candidates[j].ref in to.entities && m.candidates[j].ref !in from.entities
    ensures LogicalPath(m.candidates[j].ref) in fromPaths
  {
    var paths := SortedKeys(toPaths.Keys);
    KeptMappingsMeaning(paths, from, fromPaths, to, toPaths, m);
    assert m in KeptMappings(paths, from, fromPaths, to, toPaths);
  }

  lemma NewKeyIsCandidate(from: Graph, fromPaths: map<string, string>, to: Graph, toPaths: map<string, string>, ref: string)
    requires Indexes(fromPaths, from) && Indexes(toPaths, to)
    requires ref in to.entities && ref !in from.entities && LogicalPath(ref) in fromPaths
    ensures IsCandidate(AllMappings(from, fromPaths, to, toPaths), ref)
  {
    var paths := SortedKeys(toPaths.Keys);
    var m := MappingAt(LogicalPath(ref), from, fromPaths, to, toPaths);
    KeptMappingsMeaning(paths, from, fromPaths, to, toPaths, m);
    assert m in AllMappings(from, fromPaths, to, toPaths) && m.candidates[0].ref == ref;
  }

  /** The candidates of the mappings are exactly the new keys of entities that moved. */
  lemma CandidateKeys(from: Graph, fromPaths: map<string, string>, to: Graph, toPaths: map<string, string>, ref: string)
    requires Indexes(fromPaths, from) && Indexes(toPaths, to)
    ensures IsCandidate(AllMappings(from, fromPaths, to, toPaths), ref) <==>
            ref in to.entities && ref !in from.entities && LogicalPath(ref) in fromPaths
  {
    var mappings := AllMappings(from, fromPaths, to, toPaths);
    if IsCandidate(mappings, ref) {
      var m: EntityMapping, j :| m in mappings && 0 <= j < |m.candidates| && m.candidates[j].ref == ref;
      CandidateIsNewKey(from, fromPaths, to, toPaths, m, j);
    }
    if ref in to.entities && ref !in from.entities && LogicalPath(ref) in fromPaths {
      NewKeyIsCandidate(from, fromPaths, to, toPaths, ref);
    }
  }

  /** Applying a diff to the old key set gives the new one; the opposite diff swaps added and removed. */
  lemma DiffIsPatch(from: Graph, to: Graph, source: string, ref: string)
    requires PathInjective(from) && PathInjective(to)
    ensures var d := DiffOf(from, to, source);
      && (ref in to.entities <==>
           (ref in from.entities && !IsSource(d.mappings, ref)) || ref in d.added || IsCandidate(d.mappings, ref))
      && DiffOf(to, from, source).removed == d.added && DiffOf(to, from, source).added == d.removed
  {
    PathsIndex(from);
    PathsIndex(to);
    SourceKeys(from, PathsOf(from), to, PathsOf(to), ref);
    CandidateKeys(from, PathsOf(from), to, PathsOf(to), ref);
    UnmatchedKeys(PathsOf(to), to, PathsOf(from), ref);
  }
}
