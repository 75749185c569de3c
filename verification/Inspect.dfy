/** The bounded neighbourhood search of `inspect_entity`. */
module Inspect {
  import opened Text
  import opened Lists
  import opened Ccir
  import opened Json
  import opened Filters

  const MAX_NEIGHBORHOOD: nat := 8

  /** One reported link: its relation and the entity it leads to. */
  datatype Neighbor = Neighbor(relation: string, target: Entity)

  datatype Omission = Omission(kind: string, count: nat, reason: string, profile: string)

  /** The entity itself, as a summary or with all its parts. */
  datatype EntityView = Summarized(summary: Value) | Detailed(entity: Entity)

  datatype EntityResult = EntityResult(
    ref: string, observedRevision: Revision, view: EntityView, links: seq<Neighbor>, facts: seq<Fact>,
    complete: bool, omissions: seq<Omission>)

  // ----- Distance along resolvable links -----

  /** A link of `a` leads to an entity of the graph whose own reference is `b`. */
  predicate Leads(g: Graph, a: string, b: string) {
    a in g.entities && exists i :: 0 <= i < |g.entities[a].links| && Arrives(g, g.entities[a].links[i], b)
  }

  predicate Arrives(g: Graph, link: Link, b: string) {
    link.target in g.entities && g.entities[link.target].ref == b
  }

  ghost predicate Route(g: Graph, path: seq<string>, s: string, t: string) {
    && path != [] && path[0] == s && path[|path| - 1] == t
    && forall i :: 0 <= i < |path| - 1 ==> Leads(g, path[i], path[i + 1])
  }

  ghost predicate Within(g: Graph, s: string, t: string, n: nat) {
    exists path :: Route(g, path, s, t) && |path| == n + 1
  }

  /** The shortest route from `s` to `t` has `n` links. */
  ghost predicate Apart(g: Graph, s: string, t: string, n: nat) {
    Within(g, s, t, n) && forall m: nat :: m < n ==> !Within(g, s, t, m)
  }

  lemma WithinZero(g: Graph, s: string, t: string)
    ensures Within(g, s, t, 0) <==> s == t
  {
    if s == t { assert Route(g, [s], s, t); }
  }

  lemma WithinStep(g: Graph, s: string, a: string, b: string, n: nat)
    requires Within(g, s, a, n) && Leads(g, a, b)
    ensures Within(g, s, b, n + 1)
  {
    var path :| Route(g, path, s, a) && |path| == n + 1;
    assert Route(g, path + [b], s, b);
  }

  lemma WithinLast(g: Graph, s: string, t: string, n: nat) returns (a: string)
    requires n > 0 && Within(g, s, t, n)
    ensures Within(g, s, a, n - 1) && Leads(g, a, t)
  {
    var path :| Route(g, path, s, t) && |path| == n + 1;
    a := path[n - 1];
    assert Leads(g, path[n - 1], path[n]);
    assert Route(g, path[..n], s, a);
  }

  // ----- What one expansion reports -----

  /** The resolvable links among some links, in order. */
  function Resolvable(g: Graph, links: seq<Link>): seq<Neighbor> {
    if links == [] then []
    else
      var last := links[|links| - 1];
      Resolvable(g, links[..|links| - 1])
      + if last.target in g.entities then [Neighbor(last.relation, g.entities[last.target])] else []
  }

  function OutLinks(g: Graph, ref: string): seq<Neighbor> {
    if ref in g.entities then Resolvable(g, g.entities[ref].links) else []
  }

  /** All links reported for some references, in their order. */
  function OutLinksOf(g: Graph, refs: seq<string>): seq<Neighbor> {
    if refs == [] then [] else OutLinksOf(g, refs[..|refs| - 1]) + OutLinks(g, refs[|refs| - 1])
  }

  ghost function Arrivals(g: Graph, links: seq<Link>): set<string> {
    set i | 0 <= i < |links| && links[i].target in g.entities :: g.entities[links[i].target].ref
  }

  /** The loop body: the links of one entity, and the targets that were not seen before. */
  method Expand(g: Graph, entity: Entity, visited: set<string>) returns (found: seq<string>, links: seq<Neighbor>)
    ensures links == Resolvable(g, entity.links)
    ensures Distinct(found) && ToSet(found) == Arrivals(g, entity.links) - visited
  {
    found, links := [], [];
    for i := 0 to |entity.links|
      invariant links == Resolvable(g, entity.links[..i])
      invariant Distinct(found) && ToSet(found) == Arrivals(g, entity.links[..i]) - visited
    {
      var link := entity.links[i];
      assert entity.links[..i + 1][..i] == entity.links[..i];
      ArrivalsStep(g, entity.links, i);
      if link.target in g.entities {
        var target := g.entities[link.target];
        links := links + [Neighbor(link.relation, target)];
        if target.ref !in visited && target.ref !in found {
          assert target.ref !in ToSet(found);
          assert ToSet(found + [target.ref]) == ToSet(found) + {target.ref};
          found := found + [target.ref];
        }
        assert target.ref !in visited ==> target.ref in ToSet(found);
      }
    }
    assert entity.links[..|entity.links|] == entity.links;
  }

  lemma ArrivalsStep(g: Graph, links: seq<Link>, i: nat)
    requires i < |links|
    ensures Arrivals(g, links[..i + 1]) ==
            Arrivals(g, links[..i]) + if links[i].target in g.entities then {g.entities[links[i].target].ref} else {}
  {
    var a, b := links[..i], links[..i + 1];
    assert forall k :: 0 <= k < i ==> a[k] == b[k];
    assert b[i] == links[i];
    assert links[i].target in g.entities ==> g.entities[b[i].target].ref in Arrivals(g, b);
    forall r | r in Arrivals(g, a) ensures r in Arrivals(g, b) {
      var k :| 0 <= k < |a| && a[k].target in g.entities && g.entities[a[k].target].ref == r;
      assert g.entities[b[k].target].ref == r;
    }
    forall r | r in Arrivals(g, b) && !(links[i].target in g.entities && r == g.entities[links[i].target].ref) ensures r in Arrivals(g, a) {
      var k :| 0 <= k < |b| && b[k].target in g.entities && g.entities[b[k].target].ref == r;
      assert g.entities[a[k].target].ref == r;
    }
  }

  lemma ArrivalsAreLed(g: Graph, ref: string, t: string)
    requires ref in g.entities
    ensures t in Arrivals(g, g.entities[ref].links) <==> Leads(g, ref, t)
  {
    var links := g.entities[ref].links;
    if Leads(g, ref, t) {
      var i :| 0 <= i < |links| && Arrives(g, links[i], t);
      assert g.entities[links[i].target].ref in Arrivals(g, links);
    }
    if t in Arrivals(g, links) {
      var i :| 0 <= i < |links| && links[i].target in g.entities && g.entities[links[i].target].ref == t;
      assert Arrives(g, links[i], t);
    }
  }

  // ----- The search -----

  /** A reference with its distance. */
  type Listed = (string, nat)

  function Refs(listed: seq<Listed>): (r: seq<string>)
    ensures |r| == |listed| && forall i :: 0 <= i < |listed| ==> r[i] == listed[i].0
  {
    seq(|listed|, i requires 0 <= i < |listed| => listed[i].0)
  }

  function AtDistance(refs: seq<string>, n: nat): (r: seq<Listed>)
    ensures |r| == |refs| && forall i :: 0 <= i < |refs| ==> r[i] == (refs[i], n)
  {
    seq(|refs|, i requires 0 <= i < |refs| => (refs[i], n))
  }

  /** The references of the list that are expanded: those nearer than the depth. */
  function Nearer(listed: seq<Listed>, depth: nat): seq<string> {
    if listed == [] then []
    else
      var last := listed[|listed| - 1];
      Nearer(listed[..|listed| - 1], depth) + if last.1 < depth then [last.0] else []
  }

  /** Every listed reference is at its shortest distance, and nearer ones come first; no distance is more than
      one above that of the next reference to take from the queue. */
  ghost predicate Levelled(g: Graph, start: string, depth: nat, listed: seq<Listed>, done: nat) {
    && listed != [] && listed[0] == (start, 0) && done <= |listed| && Distinct(Refs(listed))
    && (forall k :: 0 <= k < |listed| ==> listed[k].1 <= depth && Apart(g, start, listed[k].0, listed[k].1))
    && (forall i, j :: 0 <= i < j < |listed| ==> listed[i].1 <= listed[j].1)
    && (done < |listed| ==> forall k :: 0 <= k < |listed| ==> listed[k].1 <= listed[done].1 + 1)
  }

  /** Whatever an expanded reference leads to is listed. */
  ghost predicate Closed(g: Graph, depth: nat, listed: seq<Listed>, done: nat)
    requires done <= |listed|
  {
    forall k, t :: 0 <= k < done && listed[k].1 < depth && Leads(g, listed[k].0, t) ==> t in ToSet(Refs(listed))
  }

  /** Everything up to the distance of the next reference is listed. */
  lemma {:induction false} NearIsListed(g: Graph, start: string, depth: nat, listed: seq<Listed>, done: nat, bound: nat, t: string, n: nat)
    requires Levelled(g, start, depth, listed, done) && Closed(g, depth, listed, done)
    requires n <= bound <= depth && forall k :: done <= k < |listed| ==> listed[k].1 >= bound
    requires Within(g, start, t, n)
    ensures t in ToSet(Refs(listed))
    decreases n
  {
    if n == 0 {
      WithinZero(g, start, t);
      assert Refs(listed)[0] == start;
    } else {
      var a := WithinLast(g, start, t, n);
      NearIsListed(g, start, depth, listed, done, bound, a, n - 1);
      var k :| 0 <= k < |listed| && Refs(listed)[k] == a;
      assert listed[k].1 <= n - 1 by { assert Apart(g, start, a, listed[k].1); }
      assert Leads(g, listed[k].0, t);
    }
  }

  /** Taking the next reference from the queue, when it is too far away to expand. */
  lemma SkipKeeps(g: Graph, start: string, depth: nat, listed: seq<Listed>, done: nat)
    requires Levelled(g, start, depth, listed, done) && Closed(g, depth, listed, done) && done < |listed|
    requires listed[done].1 >= depth || listed[done].0 !in g.entities
    ensures Levelled(g, start, depth, listed, done + 1) && Closed(g, depth, listed, done + 1)
  {
  }

  lemma FoundAreApart(g: Graph, start: string, depth: nat, listed: seq<Listed>, done: nat, t: string)
    requires Levelled(g, start, depth, listed, done) && Closed(g, depth, listed, done) && done < |listed|
    requires listed[done].1 < depth && Leads(g, listed[done].0, t) && t !in ToSet(Refs(listed))
    ensures Apart(g, start, t, listed[done].1 + 1)
  {
    var n := listed[done].1;
    WithinStep(g, start, listed[done].0, t, n);
    forall m: nat | m < n + 1 ensures !Within(g, start, t, m) {
      if Within(g, start, t, m) { NearIsListed(g, start, depth, listed, done, n, t, m); }
    }
  }

  /** Taking the next reference from the queue and expanding it. */
  lemma ExpandKeeps(g: Graph, start: string, depth: nat, listed: seq<Listed>, done: nat, found: seq<string>)
    requires Levelled(g, start, depth, listed, done) && Closed(g, depth, listed, done) && done < |listed|
    requires listed[done].1 < depth && listed[done].0 in g.entities && Distinct(found)
    requires ToSet(found) == Arrivals(g, g.entities[listed[done].0].links) - ToSet(Refs(listed))
    ensures var all := listed + AtDistance(found, listed[done].1 + 1);
      && Levelled(g, start, depth, all, done + 1) && Closed(g, depth, all, done + 1)
      && ToSet(Refs(all)) == ToSet(Refs(listed)) + ToSet(found)
  {
    hide Apart, Leads, Arrivals;
    var n, ref := listed[done].1, listed[done].0;
    var all := listed + AtDistance(found, n + 1);
    assert Refs(all) == Refs(listed) + found;
    ToSetConcat(Refs(listed), found);
    forall i | 0 <= i < |found| ensures Apart(g, start, found[i], n + 1) && found[i] !in Refs(listed) {
      assert found[i] in ToSet(found);
      ArrivalsAreLed(g, ref, found[i]);
      FoundAreApart(g, start, depth, listed, done, found[i]);
    }
    forall t | Leads(g, ref, t) ensures t in ToSet(Refs(all)) { ArrivalsAreLed(g, ref, t); }
    DistinctConcat(Refs(listed), found);
  }

  lemma DistinctConcat(a: seq<string>, b: seq<string>)
    requires Distinct(a) && Distinct(b) && forall i :: 0 <= i < |b| ==> b[i] !in a
    ensures Distinct(a + b)
  {
    var c := a + b;
    forall i, j | 0 <= i < j < |c| ensures c[i] != c[j] {
      if i < |a| <= j { assert b[j - |a|] !in a; }
    }
  }

  /** The neighbourhood: exactly the references nearer than the depth, each once, nearer ones first. */
  ghost predicate IsNeighborhood(g: Graph, start: string, depth: nat, refs: seq<string>) {
    && Distinct(refs)
    && (forall t :: t in refs <==> exists n: nat :: n < depth && Apart(g, start, t, n))
    && (forall i, j, m: nat, n: nat :: 0 <= i < j < |refs| && Apart(g, start, refs[i], m) && Apart(g, start, refs[j], n) ==> m <= n)
  }

  lemma NothingNearer(depth: nat)
    ensures Nearer([], depth) == [] && Refs([]) == []
  {
  }

  lemma NearerLast(listed: seq<Listed>, depth: nat)
    requires listed != []
    ensures var front, last := listed[..|listed| - 1], listed[|listed| - 1];
      && Nearer(listed, depth) == Nearer(front, depth) + (if last.1 < depth then [last.0] else [])
      && Refs(listed) == Refs(front) + [last.0] && |Refs(front)| == |front|
  {
  }

  lemma {:induction false} NearerIsPrefix(listed: seq<Listed>, depth: nat) returns (m: nat)
    requires forall i, j :: 0 <= i < j < |listed| ==> listed[i].1 <= listed[j].1
    ensures m <= |listed| && Nearer(listed, depth) == Refs(listed)[..m]
    ensures m == |listed| || listed[m].1 >= depth
    ensures forall k :: 0 <= k < |listed| ==> (k < m <==> listed[k].1 < depth)
    decreases |listed|
  {
    hide Nearer, Refs;
    if listed == [] {
      m := 0;
      NothingNearer(depth);
    } else {
      var front, last := listed[..|listed| - 1], listed[|listed| - 1];
      m := NearerIsPrefix(front, depth);
      assert listed == front + [last];
      NearerLast(listed, depth);
      assert forall k :: 0 <= k < |front| ==> front[k] == listed[k] && listed[k].1 <= last.1;
      if last.1 < depth { m := |listed|; }
    }
  }

  lemma ApartOnce(g: Graph, s: string, t: string, m: nat, n: nat)
    requires Apart(g, s, t, m) && Apart(g, s, t, n)
    ensures m == n
  {
    assert m < n ==> !Within(g, s, t, m);
    assert n < m ==> !Within(g, s, t, n);
  }

  /** When the queue is empty, the expanded references are the neighbourhood. */
  lemma FinishedIsNeighborhood(g: Graph, start: string, depth: nat, listed: seq<Listed>)
    requires Levelled(g, start, depth, listed, |listed|) && Closed(g, depth, listed, |listed|)
    ensures IsNeighborhood(g, start, depth, Nearer(listed, depth))
  {
    hide Nearer, Within;
    var refs := Nearer(listed, depth);
    var m := NearerIsPrefix(listed, depth);
    assert forall k :: 0 <= k < m ==> refs[k] == listed[k].0 && Apart(g, start, refs[k], listed[k].1);
    assert Distinct(refs) by { assert forall i, j :: 0 <= i < j < |refs| ==> Refs(listed)[i] != Refs(listed)[j]; }
    forall t, n: nat | n < depth && Apart(g, start, t, n) ensures t in refs {
      NearIsListed(g, start, depth, listed, |listed|, depth, t, n);
      var k :| 0 <= k < |listed| && Refs(listed)[k] == t;
      ApartOnce(g, start, t, n, listed[k].1);
      assert refs[k] == t;
    }
    forall i, j, a: nat, b: nat | 0 <= i < j < |refs| && Apart(g, start, refs[i], a) && Apart(g, start, refs[j], b) ensures a <= b {
      ApartOnce(g, start, refs[i], a, listed[i].1);
      ApartOnce(g, start, refs[j], b, listed[j].1);
    }
  }

  ghost function AllRefs(g: Graph): set<string> {
    set k | k in g.entities :: g.entities[k].ref
  }

  lemma ArrivalsInGraph(g: Graph, links: seq<Link>)
    ensures Arrivals(g, links) <= AllRefs(g)
  {
  }

  lemma NearerStep(g: Graph, listed: seq<Listed>, done: nat, depth: nat)
    requires done < |listed|
    ensures OutLinksOf(g, Nearer(listed[..done + 1], depth)) ==
            OutLinksOf(g, Nearer(listed[..done], depth)) + if listed[done].1 < depth then OutLinks(g, listed[done].0) else []
  {
    var next, refs := listed[..done + 1], Nearer(listed[..done], depth);
    assert next[..done] == listed[..done] && next[done] == listed[done];
    assert (refs + [listed[done].0])[..|refs|] == refs;
    assert refs + [] == refs;
  }

  lemma GrowthShrinks(all: set<string>, visited: set<string>, found: seq<string>)
    requires ToSet(found) <= all && ToSet(found) !! visited
    ensures |all - (visited + ToSet(found))| <= |all - visited|
    ensures found != [] ==> |all - (visited + ToSet(found))| < |all - visited|
  {
    assert all - visited == (all - (visited + ToSet(found))) + ToSet(found);
    if found != [] { assert found[0] in ToSet(found); }
  }

  /** The invariant of the queue loop. */
  ghost predicate Searching(g: Graph, start: string, depth: nat, listed: seq<Listed>, done: nat, queue: seq<Listed>,
                            visited: set<string>, links: seq<Neighbor>) {
    && done <= |listed| && queue == listed[done..] && visited == ToSet(Refs(listed)) && visited <= AllRefs(g) + {start}
    && Levelled(g, start, depth, listed, done) && Closed(g, depth, listed, done)
    && links == OutLinksOf(g, Nearer(listed[..done], depth))
  }

  lemma SearchStarts(g: Graph, start: string, depth: nat)
    ensures Searching(g, start, depth, [(start, 0)], 0, [(start, 0)], {start}, [])
  {
    WithinZero(g, start, start);
    assert Refs([(start, 0)]) == [start];
  }

  lemma SearchSkips(g: Graph, start: string, depth: nat, listed: seq<Listed>, done: nat, queue: seq<Listed>,
                    visited: set<string>, links: seq<Neighbor>)
    requires Searching(g, start, depth, listed, done, queue, visited, links) && queue != []
    requires queue[0].0 !in g.entities || queue[0].1 >= depth
    ensures Searching(g, start, depth, listed, done + 1, queue[1..], visited, links)
  {
    assert listed[done] == queue[0];
    NearerStep(g, listed, done, depth);
    SkipKeeps(g, start, depth, listed, done);
    assert links + [] == links;
  }

  lemma SearchExpands(g: Graph, start: string, depth: nat, listed: seq<Listed>, done: nat, queue: seq<Listed>,
                      visited: set<string>, links: seq<Neighbor>, found: seq<string>)
    requires Searching(g, start, depth, listed, done, queue, visited, links) && queue != []
    requires queue[0].0 in g.entities && queue[0].1 < depth && Distinct(found)
    requires ToSet(found) == Arrivals(g, g.entities[queue[0].0].links) - visited
    ensures Searching(g, start, depth, listed + AtDistance(found, queue[0].1 + 1), done + 1,
                      queue[1..] + AtDistance(found, queue[0].1 + 1), visited + ToSet(found), links + OutLinks(g, queue[0].0))
  {
    hide Levelled, Closed, Distinct, Arrivals, Nearer;
    assert listed[done] == queue[0];
    var more := AtDistance(found, queue[0].1 + 1);
    NearerStep(g, listed, done, depth);
    ArrivalsInGraph(g, g.entities[queue[0].0].links);
    ExpandKeeps(g, start, depth, listed, done, found);
    assert (listed + more)[done + 1..] == listed[done + 1..] + more;
    assert (listed + more)[..done + 1] == listed[..done + 1];
  }

  ghost function Unseen(g: Graph, start: string, visited: set<string>): nat {
    |AllRefs(g) + {start} - visited|
  }

  /** Every expansion that adds to the queue uses up references that were not seen before. */
  lemma SearchShrinks(g: Graph, start: string, depth: nat, listed: seq<Listed>, done: nat, queue: seq<Listed>,
                      visited: set<string>, links: seq<Neighbor>, found: seq<string>)
    requires Searching(g, start, depth, listed, done, queue, visited, links) && queue != [] && queue[0].0 in g.entities
    requires ToSet(found) == Arrivals(g, g.entities[queue[0].0].links) - visited
    ensures Unseen(g, start, visited + ToSet(found)) <= Unseen(g, start, visited)
    ensures found != [] ==> Unseen(g, start, visited + ToSet(found)) < Unseen(g, start, visited)
  {
    hide Levelled, Closed, Arrivals;
    ArrivalsInGraph(g, g.entities[queue[0].0].links);
    GrowthShrinks(AllRefs(g) + {start}, visited, found);
  }

  lemma SearchEnds(g: Graph, start: string, depth: nat, listed: seq<Listed>, done: nat, visited: set<string>, links: seq<Neighbor>)
    requires Searching(g, start, depth, listed, done, [], visited, links)
    ensures IsInspection(g, start, depth, links)
  {
    assert listed[..done] == listed;
    FinishedIsNeighborhood(g, start, depth, listed);
  }

  /** The links of the whole neighbourhood, one expansion after the other. */
  ghost predicate IsInspection(g: Graph, start: string, depth: nat, links: seq<Neighbor>) {
    exists near :: IsNeighborhood(g, start, depth, near) && links == OutLinksOf(g, near)
  }

  /** The queue loop; it ends on cyclic graphs too. */
  method Search(g: Graph, start: string, depth: nat) returns (links: seq<Neighbor>)
    ensures IsInspection(g, start, depth, links)
  {
    hide Searching, Unseen, IsInspection;
    links := [];
    var queue: seq<Listed> := [(start, 0)];
    var visited := {start};
    ghost var listed: seq<Listed>, done := [(start, 0)], 0;
    SearchStarts(g, start, depth);
    while queue != []
      invariant Searching(g, start, depth, listed, done, queue, visited, links)
      decreases Unseen(g, start, visited), |queue|
    {
      var (reference, distance) := queue[0];
      if reference !in g.entities || distance >= depth {
        SearchSkips(g, start, depth, listed, done, queue, visited, links);
        queue := queue[1..];
      } else {
        var found, more := Expand(g, g.entities[reference], visited);
        SearchExpands(g, start, depth, listed, done, queue, visited, links, found);
        SearchShrinks(g, start, depth, listed, done, queue, visited, links, found);
        listed := listed + AtDistance(found, distance + 1);
        queue := queue[1..] + AtDistance(found, distance + 1);
        visited := visited + set r | r in found;
        links := links + more;
      }
      done := done + 1;
    }
    SearchEnds(g, start, depth, listed, done, visited, links);
  }

  predicate Topological(relation: string) {
    relation in ["adjacent_to", "bounds", "bounded_by", "contains"]
  }

  function Min(a: nat, b: nat): nat {
    if a < b then a else b
  }

  const DETAILED := {"parametric", "sketch_diagnostic", "topology", "analytical"}

  function ViewOf(entity: Entity, profile: string): EntityView {
    if profile in DETAILED then Detailed(entity) else Summarized(Summary(entity))
  }

  /** The facts that give an entity as evidence, in order. */
  function FactsAbout(facts: seq<Fact>, ref: string): (r: seq<Fact>)
    ensures forall f :: f in r <==> f in facts && ref in f.evidence
  {
    if facts == [] then []
    else (if ref in facts[0].evidence then [facts[0]] else []) + FactsAbout(facts[1..], ref)
  }

  const NO_TOPOLOGY := Omission("topology", 1, "unsupported_or_absent", "topology")

  /** Topology was asked for, but no link reports any. */
  predicate LacksTopology(profile: string, depth: nat, links: seq<Neighbor>) {
    profile == "topology" && depth > 0 && forall link :: link in links ==> !Topological(link.relation)
  }

  /** The links are the resolvable links of exactly the references at shortest distance below the requested
      depth, at most 8, one expansion each; a topology request that found no topology is incomplete. */
  method InspectEntity(g: Graph, ref: string, profile: string, neighborhoodDepth: nat, topologyDepth: nat)
    returns (r: Option<EntityResult>)
    ensures r.None? <==> ref !in g.entities
    ensures r.Some? ==> r.value.ref == g.entities[ref].ref && r.value.observedRevision == g.revision
    ensures r.Some? ==> r.value.view == ViewOf(g.entities[ref], profile) && r.value.facts == FactsAbout(g.facts, g.entities[ref].ref)
    ensures r.Some? ==> IsInspection(g, g.entities[ref].ref, Min(neighborhoodDepth, MAX_NEIGHBORHOOD), r.value.links)
    ensures r.Some? ==> r.value.complete == (r.value.omissions == [])
    ensures r.Some? ==> (r.value.omissions == if LacksTopology(profile, topologyDepth, r.value.links) then [NO_TOPOLOGY] else [])
  {
    hide IsInspection, ViewOf, Topological;
    if ref !in g.entities { return None; }
    var entity := g.entities[ref];
    var links := Search(g, entity.ref, Min(neighborhoodDepth, MAX_NEIGHBORHOOD));
    var omissions := [];
    if profile == "topology" && topologyDepth > 0 {
      var topology := 0;
      for i := 0 to |links|
        invariant topology == 0 <==> forall k :: 0 <= k < i ==> !Topological(links[k].relation)
        invariant topology >= 0
      {
        if Topological(links[i].relation) { topology := topology + 1; }
      }
      if topology == 0 { omissions := [NO_TOPOLOGY]; }
    }
    r := Some(EntityResult(entity.ref, g.revision, ViewOf(entity, profile), links, FactsAbout(g.facts, entity.ref),
                           omissions == [], omissions));
  }

  /** Some entity nearer than the depth has this link. */
  ghost predicate IsNear(g: Graph, start: string, depth: nat, item: Neighbor) {
    exists t, n: nat :: n < depth && Apart(g, start, t, n) && item in OutLinks(g, t)
  }

  lemma {:induction false} OutLinksOfMeaning(g: Graph, refs: seq<string>, item: Neighbor)
    ensures item in OutLinksOf(g, refs) <==> exists t :: t in refs && item in OutLinks(g, t)
    decreases |refs|
  {
    if refs == [] {
    } else {
      OutLinksOfMeaning(g, refs[..|refs| - 1], item);
      assert refs == refs[..|refs| - 1] + [refs[|refs| - 1]];
    }
  }

  /** An inspection reports a link iff it is a resolvable out-link of an entity nearer than the depth. */
  lemma InspectionIsExact(g: Graph, start: string, depth: nat, links: seq<Neighbor>, item: Neighbor)
    requires IsInspection(g, start, depth, links)
    ensures item in links <==> IsNear(g, start, depth, item)
  {
    var near :| IsNeighborhood(g, start, depth, near) && links == OutLinksOf(g, near);
    OutLinksOfMeaning(g, near, item);
  }

  function Without(refs: seq<string>, i: nat): seq<string>
    requires i < |refs|
  {
    refs[..i] + refs[i + 1..]
  }

  lemma OutLinksOfSnoc(g: Graph, refs: seq<string>, ref: string)
    ensures OutLinksOf(g, refs + [ref]) == OutLinksOf(g, refs) + OutLinks(g, ref)
  {
    assert (refs + [ref])[..|refs|] == refs;
  }

  lemma {:induction false} OutLinksOfWithout(g: Graph, refs: seq<string>, i: nat)
    requires i < |refs|
    ensures multiset(OutLinksOf(g, refs)) == multiset(OutLinksOf(g, Without(refs, i))) + multiset(OutLinks(g, refs[i]))
    decreases |refs|
  {
    hide OutLinks, OutLinksOf;
    var front, last := refs[..|refs| - 1], refs[|refs| - 1];
    assert refs == front + [last];
    OutLinksOfSnoc(g, front, last);
    if i == |front| {
      assert Without(refs, i) == front;
    } else {
      OutLinksOfWithout(g, front, i);
      assert Without(refs, i) == Without(front, i) + [last];
      OutLinksOfSnoc(g, Without(front, i), last);
    }
  }

  lemma {:induction false} OutLinksInAnyOrder(g: Graph, a: seq<string>, b: seq<string>)
    requires Distinct(a) && Distinct(b) && |a| == |b| && forall r :: r in a <==> r in b
    ensures multiset(OutLinksOf(g, a)) == multiset(OutLinksOf(g, b))
    decreases |a|
  {
    hide OutLinks, OutLinksOf;
    if a == [] {
    } else {
      var n := |a| - 1;
      assert a[n] in b;
      var i :| 0 <= i < |b| && b[i] == a[n];
      OutLinksOfWithout(g, a, n);
      OutLinksOfWithout(g, b, i);
      assert Without(a, n) == a[..n];
      forall r ensures r in a[..n] <==> r in Without(b, i) {
        assert r in a[..n] <==> r in a && r != a[n];
        assert r in Without(b, i) <==> r in b && r != b[i];
      }
      OutLinksInAnyOrder(g, a[..n], Without(b, i));
    }
  }

  /** Every inspection of the same neighbourhood reports the same links the same number of times. */
  lemma InspectionIsUnique(g: Graph, start: string, depth: nat, a: seq<Neighbor>, b: seq<Neighbor>)
    requires IsInspection(g, start, depth, a) && IsInspection(g, start, depth, b)
    ensures multiset(a) == multiset(b)
  {
    var m :| IsNeighborhood(g, start, depth, m) && a == OutLinksOf(g, m);
    var n :| IsNeighborhood(g, start, depth, n) && b == OutLinksOf(g, n);
    DistinctSize(m);
    DistinctSize(n);
    assert ToSet(m) == ToSet(n);
    OutLinksInAnyOrder(g, m, n);
  }
}
