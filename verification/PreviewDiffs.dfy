/** What the diff of a preview reports about the objects that a changeset creates and deletes. */
module PreviewDiffs {
  import opened Text
  import opened Json
  import opened Ccir
  import opened Rekeying
  import opened ChangeSets
  import opened ChangeSetLaws
  import opened Diffs

  // ----- Logical paths survive rekeying -----

  lemma BarePath(ref: string)
    requires '@' !in ref
    ensures LogicalPath(ref) == ref
  {
  }

  lemma QualifiedPath(prefix: string, id: string)
    requires '@' !in id
    ensures LogicalPath(prefix + ("@" + id)) == prefix
  {
    var ref := prefix + ("@" + id);
    assert ref == prefix + ['@'] + id;
    var cut := RSplitOnce(ref, '@').value;
    CutAtLast(prefix, cut.0, id, cut.1, '@');
  }

  lemma ReplaceKeepsPath(ref: string, a: string, b: string)
    requires RefOf(ref, a) && '@' !in a && '@' !in b
    ensures LogicalPath(ReplaceRevision(ref, a, b)) == LogicalPath(ref)
  {
    match StripSuffix(ref, "@" + a)
    case None =>
    case Some(prefix) =>
      QualifiedPath(prefix, a);
      QualifiedPath(prefix, b);
  }

  // ----- From the base graph to the published one -----

  /** The changeset was accepted on a well-formed base, and `to` is the graph it leads to. */
  ghost predicate Accepted(base: Graph, cs: ChangeSet, to: Graph) {
    WellFormed(base) && Applied(base, cs) == Ok(to)
  }

  lemma AcceptedChecks(base: Graph, cs: ChangeSet, to: Graph, i: nat)
    requires Accepted(base, cs, to) && i < |cs.operations|
    ensures OperationError(base, cs.operations[i]).None?
  {
    assert FirstOperationError(base, cs.operations).None?;
  }

  lemma DeleteNeedsTarget(g: Graph, op: Operation)
    requires op.DeleteObject? && OperationError(g, op).None?
    ensures op.target in g.entities
  {
  }

  lemma DeletedAreInBase(base: Graph, cs: ChangeSet, to: Graph)
    requires Accepted(base, cs, to)
    ensures DeletedRefs(cs.operations) <= base.entities.Keys
  {
    forall ref | ref in DeletedRefs(cs.operations) ensures ref in base.entities {
      var i :| 0 <= i < |cs.operations| && cs.operations[i].DeleteObject? && cs.operations[i].target == ref;
      AcceptedChecks(base, cs, to, i);
      DeleteNeedsTarget(base, cs.operations[i]);
    }
  }

  lemma CreatedAreBare(base: Graph, cs: ChangeSet, to: Graph)
    requires Accepted(base, cs, to)
    ensures forall c :: c in CreatedRefs(base, cs.operations) ==> '@' !in c
  {
    hide Applied, ObjectRef;
    forall c | c in CreatedRefs(base, cs.operations) ensures '@' !in c {
      var i :| 0 <= i < |cs.operations| && CreatedName(cs.operations[i]).Some?
               && c == ObjectRef(base, CreatedName(cs.operations[i]).value);
      AcceptedChecks(base, cs, to, i);
      NewRefIsBare(base, CreatedName(cs.operations[i]).value);
    }
  }

  /** The keys of the new graph are the rewritten keys that replaying left. */
  lemma PublishedKeys(base: Graph, cs: ChangeSet, to: Graph)
    requires Accepted(base, cs, to)
    ensures var h, a, b := ApplyOperations(base, cs.operations).value, base.revision.Id(), to.revision.Id();
      && GraphOf(h, a) && '@' !in a && '@' !in b
      && KeysChanged(base, h, DeletedRefs(cs.operations), CreatedRefs(base, cs.operations))
      && (a == b ==> to.entities == h.entities)
      && (a != b ==> Mapped(h.entities, to.entities, a, b))
  {
    var h := ApplyOperations(base, cs.operations).value;
    OperationsKeepRefs(base, base, cs.operations, base.revision.Id());
    OperationsKeys(base, cs.operations);
    ApplyKeepsHeader(base, cs.operations);
    var revision := RevisionAfter(base.revision, cs.operations);
    RevisionIdHasNoAt(base.revision);
    RevisionIdHasNoAt(revision);
    RekeyIsomorphism(h.(revision := revision), base.revision.Id(), revision.Id());
  }

  /** A key of the new graph, followed back through rekeying. */
  lemma KeyBack(base: Graph, cs: ChangeSet, to: Graph, r: string) returns (k: string)
    requires Accepted(base, cs, to) && r in to.entities
    ensures RefOf(k, base.revision.Id()) && r == ReplaceRevision(k, base.revision.Id(), to.revision.Id())
    ensures k in ApplyOperations(base, cs.operations).value.entities
    ensures LogicalPath(r) == LogicalPath(k)
  {
    var a, b := base.revision.Id(), to.revision.Id();
    PublishedKeys(base, cs, to);
    k := ReplaceRevision(r, b, a);
    if a == b { ReplaceComposes(r, a, a, a); }
    ReplaceKeepsPath(k, a, b);
  }

  /** A key left by replaying, followed forward through rekeying. */
  lemma KeyForward(base: Graph, cs: ChangeSet, to: Graph, k: string)
    requires Accepted(base, cs, to) && k in ApplyOperations(base, cs.operations).value.entities
    ensures ReplaceRevision(k, base.revision.Id(), to.revision.Id()) in to.entities
    ensures LogicalPath(ReplaceRevision(k, base.revision.Id(), to.revision.Id())) == LogicalPath(k)
    ensures '@' !in k ==> ReplaceRevision(k, base.revision.Id(), to.revision.Id()) == k
  {
    var a, b := base.revision.Id(), to.revision.Id();
    PublishedKeys(base, cs, to);
    if a == b { ReplaceComposes(k, a, a, a); }
    ReplaceKeepsPath(k, a, b);
    if '@' !in k { BareIsUnqualified(k, a); }
  }

  // ----- When a created object is reported -----

  /** No entity of the base graph already sits at the path of a created object. */
  predicate FreshPaths(base: Graph, ops: seq<Operation>) {
    forall k :: k in base.entities ==> LogicalPath(k) !in CreatedRefs(base, ops)
  }

  lemma AtPath(g: Graph, path: string) returns (k: string)
    requires path in PathsOf(g)
    ensures k in g.entities && LogicalPath(k) == path
  {
    PathMeaning(g, path, path);
    k := PathsOf(g)[path];
  }

  /** The diff of a preview lists a created object as added exactly when no entity of the base graph has
      its logical path. The freshness check of the operation itself only looks at the unqualified key. */
  lemma CreatedIsReported(base: Graph, cs: ChangeSet, to: Graph, source: string, c: string)
    requires Accepted(base, cs, to) && c in CreatedRefs(base, cs.operations)
    ensures c in DiffOf(base, to, source).added <==> forall k :: k in base.entities ==> LogicalPath(k) != c
  {
    hide Applied, ApplyOperations, WellFormed, PathsOf, LogicalPath, Unmatched, CreatedRefs;
    CreatedAreBare(base, cs, to);
    BarePath(c);
    UnmatchedMeaning(SortedPaths(to), PathsOf(to), PathsOf(base), c);
    if c in DiffOf(base, to, source).added {
      var p :| p in PathsOf(to) && p !in PathsOf(base) && PathsOf(to)[p] == c;
      PathMeaning(to, c, p);
      forall k | k in base.entities ensures LogicalPath(k) != c { PathMeaning(base, k, c); }
    }
    if forall k :: k in base.entities ==> LogicalPath(k) != c {
      if c in PathsOf(base) { var k := AtPath(base, c); }
      PublishedKeys(base, cs, to);
      DeletedAreInBase(base, cs, to);
      KeyForward(base, cs, to, c);
      PathMeaning(to, c, c);
      var r := PathsOf(to)[c];
      var k := KeyBack(base, cs, to, r);
      assert k !in base.entities;
      BarePath(k);
    }
  }

  const BOX := "Box"

  /** A document with one extracted entity, qualified by the revision. */
  function OneBox(): Graph {
    var revision := Revision(0, 0, 0, 0, "e");
    var empty := Graph("ccir/1.0", "s", "d", revision, map[], [], [], map[]);
    var ref := ObjectRef(empty, BOX) + ("@" + revision.Id());
    Insert(empty, NewEntity(empty, BOX, "cad.object", Null, []).(ref := ref))
  }

  lemma OneBoxIsWellFormed()
    ensures var g := OneBox(); var ref := ObjectRef(g, BOX) + ("@" + g.revision.Id());
      && WellFormed(g) && '@' !in ObjectRef(g, BOX) && '@' !in g.revision.Id()
      && ref in g.entities && ObjectRef(g, BOX) !in g.entities
  {
    var g := OneBox();
    NewRefIsBare(g, BOX);
    RevisionIdHasNoAt(g.revision);
    QualifiedHasAt(ObjectRef(g, BOX), g.revision.Id());
  }

  lemma SingleCreation(g: Graph, name: string, kind: string, properties: Value)
    requires IsIdentifier(name) && kind in OBJECT_KINDS && ObjectRef(g, name) !in g.entities
    ensures var ops := [CreateObject(name, kind, properties)];
      && FirstOperationError(g, ops).None? && ApplyOperations(g, ops).Ok? && ObjectRef(g, name) in CreatedRefs(g, ops)
  {
    var ops := [CreateObject(name, kind, properties)];
    assert OperationError(g, ops[0]).None?;
    assert CreatedName(ops[0]) == Some(name);
    assert ApplyOperations(ApplyOperation(g, ops[0]).value, ops[1..]).Ok?;
  }

  /** So a creation can be accepted and yet be missing from the diff: a new Box beside the extracted one. */
  lemma ShadowedCreation(source: string) returns (base: Graph, cs: ChangeSet, to: Graph, c: string)
    ensures Accepted(base, cs, to) && c in CreatedRefs(base, cs.operations) && c !in base.entities
    ensures c !in DiffOf(base, to, source).added
  {
    base := OneBox();
    OneBoxIsWellFormed();
    cs := ChangeSet("ccir/1.0", "", "s", "d", base.revision.Id(), None, [], [CreateObject(BOX, "Part::Feature", Null)], [], "", None);
    c := ObjectRef(base, BOX);
    SingleCreation(base, BOX, "Part::Feature", Null);
    to := Applied(base, cs).value;
    QualifiedPath(c, base.revision.Id());
    CreatedIsReported(base, cs, to, source, c);
  }

  function SortedPaths(g: Graph): seq<string> {
    Ordered.SortedKeys(PathsOf(g).Keys)
  }

  // ----- Fresh names: the diff is exact -----

  lemma PublishedPathInjective(base: Graph, cs: ChangeSet, to: Graph)
    requires Accepted(base, cs, to) && PathInjective(base) && FreshPaths(base, cs.operations)
    ensures PathInjective(to)
  {
    forall r, s | r in to.entities && s in to.entities && LogicalPath(r) == LogicalPath(s) ensures r == s {
      var j := KeyBack(base, cs, to, r);
      var k := KeyBack(base, cs, to, s);
      PublishedKeys(base, cs, to);
      CreatedAreBare(base, cs, to);
      if j !in base.entities { BarePath(j); }
      if k !in base.entities { BarePath(k); }
    }
  }

  lemma KeptPaths(base: Graph, cs: ChangeSet, to: Graph, path: string)
    requires Accepted(base, cs, to) && PathInjective(base) && FreshPaths(base, cs.operations)
    ensures path in PathsOf(to) <==>
      path in CreatedRefs(base, cs.operations)
      || exists k :: k in base.entities && k !in DeletedRefs(cs.operations) && LogicalPath(k) == path
  {
    hide Applied, ApplyOperations, WellFormed, PathsOf, LogicalPath, CreatedRefs, DeletedRefs;
    PublishedKeys(base, cs, to);
    CreatedAreBare(base, cs, to);
    DeletedAreInBase(base, cs, to);
    if path in PathsOf(to) {
      var r := AtPath(to, path);
      var k := KeyBack(base, cs, to, r);
      if k in CreatedRefs(base, cs.operations) { BarePath(k); }
    }
    if path in CreatedRefs(base, cs.operations) {
      BarePath(path);
      if path in base.entities { assert false; }
      KeyForward(base, cs, to, path);
      PathMeaning(to, path, path);
    }
    if k :| k in base.entities && k !in DeletedRefs(cs.operations) && LogicalPath(k) == path {
      KeyForward(base, cs, to, k);
      PathMeaning(to, ReplaceRevision(k, base.revision.Id(), to.revision.Id()), path);
    }
  }

  /** With fresh names, the preview's diff lists exactly the created and the deleted objects. */
  lemma PreviewDiffIsExact(base: Graph, cs: ChangeSet, to: Graph, source: string, ref: string)
    requires Accepted(base, cs, to) && PathInjective(base) && FreshPaths(base, cs.operations)
    ensures ref in DiffOf(base, to, source).added <==> ref in CreatedRefs(base, cs.operations)
    ensures ref in DiffOf(base, to, source).removed <==> ref in DeletedRefs(cs.operations)
  {
    hide Applied, WellFormed, PathsOf, LogicalPath;
    PublishedPathInjective(base, cs, to);
    PathsIndex(base);
    PathsIndex(to);
    UnmatchedKeys(PathsOf(to), to, PathsOf(base), ref);
    UnmatchedKeys(PathsOf(base), base, PathsOf(to), ref);
    KeptPaths(base, cs, to, LogicalPath(ref));
    DeletedAreInBase(base, cs, to);
    CreatedAreBare(base, cs, to);
    if ref in CreatedRefs(base, cs.operations) {
      BarePath(ref);
      KeptPaths(base, cs, to, ref);
      CreatedIsReported(base, cs, to, source, ref);
    }
    if ref in to.entities && LogicalPath(ref) !in PathsOf(base) {
      var k := KeyBack(base, cs, to, ref);
      PublishedKeys(base, cs, to);
      assert k !in base.entities;
      KeyForward(base, cs, to, k);
    }
  }

  lemma AcceptedRevision(base: Graph, cs: ChangeSet, to: Graph)
    requires Accepted(base, cs, to)
    ensures ApplyOperations(base, cs.operations).Ok? && to.revision == RevisionAfter(base.revision, cs.operations)
  {
    hide ApplyOperations, RekeyedOver, RekeyedFacts, Validation, WellFormed;
  }

  /** An entity that a revision-advancing changeset neither creates nor deletes keeps its kind and source
      and, when its reference is qualified, gets a different one. */
  lemma SurvivorKeepsOrigin(base: Graph, cs: ChangeSet, to: Graph, k: string)
    requires Accepted(base, cs, to) && !OnlyVisibility(cs.operations)
    requires k in base.entities && StripSuffix(k, "@" + base.revision.Id()).Some? && k !in DeletedRefs(cs.operations)
    ensures var r := ReplaceRevision(k, base.revision.Id(), to.revision.Id());
      && r != k && r in to.entities && LogicalPath(r) == LogicalPath(k)
      && to.entities[r].kind == base.entities[k].kind && to.entities[r].source == base.entities[k].source
  {
    AcceptedRevision(base, cs, to);
    hide Applied, ApplyOperations, Revision.Id, LogicalPath, WellFormed, CreatedRefs, DeletedRefs, RevisionAfter, StripSuffix;
    var a, b, h := base.revision.Id(), to.revision.Id(), ApplyOperations(base, cs.operations).value;
    PublishedKeys(base, cs, to);
    CreatedAreBare(base, cs, to);
    var prefix := StripSuffix(k, "@" + a).value;
    QualifiedHasAt(prefix, a);
    assert SameOrigin(base, h, k);
    KeyForward(base, cs, to, k);
    assert a != b by {
      RevisionAfterAdvances(base.revision, cs.operations);
      RevisionIdInjective(base.revision, to.revision);
    }
    if ReplaceRevision(k, a, b) == k { SameSuffix(prefix, a, b); }
  }

  /** ... and maps every surviving qualified entity to its new reference, exactly and write-eligibly. */
  lemma SurvivorsMapExactly(base: Graph, cs: ChangeSet, to: Graph, source: string, k: string) returns (m: EntityMapping)
    requires Accepted(base, cs, to) && PathInjective(base) && FreshPaths(base, cs.operations)
    requires !OnlyVisibility(cs.operations)
    requires k in base.entities && StripSuffix(k, "@" + base.revision.Id()).Some? && k !in DeletedRefs(cs.operations)
    ensures m in DiffOf(base, to, source).mappings && m.source == k && m.state == MappedExact && m.writeEligible
    ensures |m.candidates| == 1 && m.candidates[0].ref == ReplaceRevision(k, base.revision.Id(), to.revision.Id())
    ensures m.candidates[0].ref in to.entities
  {
    SurvivorKeepsOrigin(base, cs, to, k);
    PublishedPathInjective(base, cs, to);
    PathsIndex(base);
    PathsIndex(to);
    m := MappingAt(LogicalPath(k), base, PathsOf(base), to, PathsOf(to));
    MoveIsMapped(base, PathsOf(base), to, PathsOf(to), LogicalPath(k));
  }

  lemma SameSuffix(prefix: string, a: string, b: string)
    requires prefix + ("@" + a) == prefix + ("@" + b)
    ensures a == b
  {
    assert a == (prefix + ("@" + a))[|prefix| + 1..] == (prefix + ("@" + b))[|prefix| + 1..] == b;
  }

  lemma MoveIsMapped(from: Graph, fromPaths: map<string, string>, to: Graph, toPaths: map<string, string>, path: string)
    requires Into(fromPaths, from) && Into(toPaths, to) && Moves(path, fromPaths, toPaths)
    ensures MappingAt(path, from, fromPaths, to, toPaths) in AllMappings(from, fromPaths, to, toPaths)
  {
    var m := MappingAt(path, from, fromPaths, to, toPaths);
    KeptMappingsMeaning(Ordered.SortedKeys(toPaths.Keys), from, fromPaths, to, toPaths, m);
  }
}
