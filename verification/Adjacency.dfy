/** Face adjacency from shared edges, as the extractor adds it to the extracted entities. */
module Adjacency {
  import opened Text

  /** The members `add_adjacency` looks at; each may be absent or of another type. */
  datatype Link = Link(relation: Option<string>, target: Option<string>)

  datatype Entity = Entity(ref: Option<string>, kind: Option<string>, links: Option<seq<Link>>)

  const FACE := "cad.face"
  const BOUNDED_BY := "bounded_by"
  const ADJACENT_TO := "adjacent_to"

  /** A face reference and an edge it is bounded by. */
  type Incidence = (string, string)

  type Groups = map<string, seq<string>>

  function BoundingLinks(face: string, links: seq<Link>): seq<Incidence> {
    if links == [] then []
    else
      var last := links[|links| - 1];
      BoundingLinks(face, links[..|links| - 1])
      + if last.relation == Some(BOUNDED_BY) && last.target.Some? then [(face, last.target.value)] else []
  }

  function IncidencesOf(entity: Entity): seq<Incidence> {
    if entity.kind == Some(FACE) && entity.ref.Some? && entity.links.Some?
    then BoundingLinks(entity.ref.value, entity.links.value) else []
  }

  function Incidences(entities: seq<Entity>): seq<Incidence> {
    if entities == [] then []
    else Incidences(entities[..|entities| - 1]) + IncidencesOf(entities[|entities| - 1])
  }

  // ----- Grouping faces by edge -----

  function FacesOn(incidences: seq<Incidence>, edge: string): seq<string> {
    if incidences == [] then []
    else
      var last := incidences[|incidences| - 1];
      FacesOn(incidences[..|incidences| - 1], edge) + if last.1 == edge then [last.0] else []
  }

  lemma {:induction false} FacesOnCount(incidences: seq<Incidence>, edge: string, face: string)
    ensures multiset(FacesOn(incidences, edge))[face] == multiset(incidences)[(face, edge)]
    decreases |incidences|
  {
    if incidences == [] {
    } else {
      var front, last := incidences[..|incidences| - 1], incidences[|incidences| - 1];
      FacesOnCount(front, edge, face);
      assert incidences == front + [last];
    }
  }

  ghost predicate Grouped(groups: Groups, incidences: seq<Incidence>) {
    forall edge {:trigger FacesOn(incidences, edge)} ::
      && (edge in groups.Keys <==> FacesOn(incidences, edge) != [])
      && (edge in groups ==> groups[edge] == FacesOn(incidences, edge))
  }

  function Push(groups: Groups, key: string, value: string): Groups {
    groups[key := (if key in groups then groups[key] else []) + [value]]
  }

  lemma PushGroups(groups: Groups, incidences: seq<Incidence>, face: string, edge: string)
    requires Grouped(groups, incidences)
    ensures Grouped(Push(groups, edge, face), incidences + [(face, edge)])
  {
    var more := incidences + [(face, edge)];
    assert more[..|more| - 1] == incidences;
    forall other ensures FacesOn(more, other) == FacesOn(incidences, other) + if other == edge then [face] else [] {}
  }

  method GroupByEdge(entities: array<Entity>) returns (groups: Groups)
    ensures Grouped(groups, Incidences(entities[..]))
  {
    groups := map[];
    var i := 0;
    while i < entities.Length
      invariant 0 <= i <= entities.Length
      invariant Grouped(groups, Incidences(entities[..i]))
    {
      var entity := entities[i];
      assert entities[..i + 1][..i] == entities[..i];
      assert Incidences(entities[..i + 1]) == Incidences(entities[..i]) + IncidencesOf(entity);
      if entity.kind == Some(FACE) && entity.ref.Some? && entity.links.Some? {
        groups := GroupLinks(groups, entity.ref.value, entity.links.value, Incidences(entities[..i]));
      } else {
        assert Incidences(entities[..i]) + IncidencesOf(entity) == Incidences(entities[..i]);
      }
      i := i + 1;
    }
    assert entities[..i] == entities[..];
  }

  method GroupLinks(start: Groups, face: string, links: seq<Link>, ghost before: seq<Incidence>) returns (groups: Groups)
    requires Grouped(start, before)
    ensures Grouped(groups, before + BoundingLinks(face, links))
  {
    groups := start;
    var j := 0;
    assert before + BoundingLinks(face, links[..0]) == before;
    while j < |links|
      invariant 0 <= j <= |links|
      invariant Grouped(groups, before + BoundingLinks(face, links[..j]))
    {
      var link := links[j];
      ghost var now := before + BoundingLinks(face, links[..j]);
      assert links[..j + 1][..j] == links[..j];
      if link.relation == Some(BOUNDED_BY) && link.target.Some? {
        PushGroups(groups, now, face, link.target.value);
        assert before + BoundingLinks(face, links[..j + 1]) == now + [(face, link.target.value)];
        groups := Push(groups, link.target.value, face);
      } else {
        assert BoundingLinks(face, links[..j + 1]) == BoundingLinks(face, links[..j]);
      }
      j := j + 1;
    }
    assert links[..j] == links;
  }

  // ----- The shared-edge relation -----

  /** How often a source has collected a target. */
  ghost function Times(groups: Groups, source: string, target: string): nat {
    if source in groups then multiset(groups[source])[target] else 0
  }

  /** The sum over some edges of the product of the two faces' link multiplicities. */
  ghost function Shared(incidences: seq<Incidence>, edges: set<string>, a: string, b: string): nat {
    if edges == {} then 0
    else
      var edge :| edge in edges;
      multiset(incidences)[(a, edge)] * multiset(incidences)[(b, edge)] + Shared(incidences, edges - {edge}, a, b)
  }

  lemma {:induction false} SharedRemove(incidences: seq<Incidence>, edges: set<string>, a: string, b: string, edge: string)
    requires edge in edges
    ensures Shared(incidences, edges, a, b) ==
            multiset(incidences)[(a, edge)] * multiset(incidences)[(b, edge)] + Shared(incidences, edges - {edge}, a, b)
    decreases |edges|
  {
    var picked :| picked in edges
      && Shared(incidences, edges, a, b) ==
         multiset(incidences)[(a, picked)] * multiset(incidences)[(b, picked)] + Shared(incidences, edges - {picked}, a, b);
    if picked != edge {
      SharedRemove(incidences, edges - {picked}, a, b, edge);
      SharedRemove(incidences, edges - {edge}, a, b, picked);
      assert edges - {picked} - {edge} == edges - {edge} - {picked};
    }
  }

  lemma {:induction false} SharedIsSymmetric(incidences: seq<Incidence>, edges: set<string>, a: string, b: string)
    ensures Shared(incidences, edges, a, b) == Shared(incidences, edges, b, a)
    decreases |edges|
  {
    if edges == {} {
    } else {
      var edge :| edge in edges;
      SharedRemove(incidences, edges, a, b, edge);
      SharedRemove(incidences, edges, b, a, edge);
      SharedIsSymmetric(incidences, edges - {edge}, a, b);
    }
  }

  ghost predicate CommonEdge(incidences: seq<Incidence>, edges: set<string>, a: string, b: string) {
    exists edge :: edge in edges && (a, edge) in incidences && (b, edge) in incidences
  }

  lemma {:induction false} SharedIsPositive(incidences: seq<Incidence>, edges: set<string>, a: string, b: string)
    ensures Shared(incidences, edges, a, b) > 0 <==> CommonEdge(incidences, edges, a, b)
    decreases |edges|
  {
    if edges == {} {
    } else {
      var edge :| edge in edges;
      SharedRemove(incidences, edges, a, b, edge);
      SharedIsPositive(incidences, edges - {edge}, a, b);
      ProductIsPositive(multiset(incidences)[(a, edge)], multiset(incidences)[(b, edge)]);
      assert (a, edge) in incidences <==> (a, edge) in multiset(incidences);
      assert (b, edge) in incidences <==> (b, edge) in multiset(incidences);
    }
  }

  lemma ProductIsPositive(m: nat, n: nat)
    ensures m * n > 0 <==> m > 0 && n > 0
  {
  }

  // ----- Collecting adjacent faces -----

  /** One source meets the faces of an edge; itself excepted. */
  ghost function Fan(source: string, faces: seq<string>, a: string, b: string): nat {
    if a == source && b != source then multiset(faces)[b] else 0
  }

  /** Some sources meet the faces of an edge. */
  ghost function Pairs(sources: seq<string>, faces: seq<string>, a: string, b: string): nat {
    if a != b then multiset(sources)[a] * multiset(faces)[b] else 0
  }

  lemma PairsStep(sources: seq<string>, source: string, faces: seq<string>, a: string, b: string)
    ensures Pairs(sources + [source], faces, a, b) == Pairs(sources, faces, a, b) + Fan(source, faces, a, b)
  {
    var m, n := multiset(sources)[a], multiset(faces)[b];
    assert multiset(sources + [source])[a] == m + if a == source then 1 else 0;
    assert (m + 1) * n == m * n + n;
  }

  method AddTargets(start: Groups, source: string, faces: seq<string>) returns (groups: Groups)
    ensures forall a, b :: Times(groups, a, b) == Times(start, a, b) + Fan(source, faces, a, b)
  {
    groups := start;
    var q := 0;
    while q < |faces|
      invariant 0 <= q <= |faces|
      invariant forall a, b :: Times(groups, a, b) == Times(start, a, b) + Fan(source, faces[..q], a, b)
    {
      assert faces[..q + 1] == faces[..q] + [faces[q]];
      if source != faces[q] { groups := Push(groups, source, faces[q]); }
      q := q + 1;
    }
    assert faces[..q] == faces;
  }

  method AddPairs(start: Groups, faces: seq<string>) returns (groups: Groups)
    ensures forall a, b :: Times(groups, a, b) == Times(start, a, b) + Pairs(faces, faces, a, b)
  {
    groups := start;
    var p := 0;
    while p < |faces|
      invariant 0 <= p <= |faces|
      invariant forall a, b :: Times(groups, a, b) == Times(start, a, b) + Pairs(faces[..p], faces, a, b)
    {
      assert faces[..p + 1] == faces[..p] + [faces[p]];
      groups := AddTargets(groups, faces[p], faces);
      forall a, b ensures Times(groups, a, b) == Times(start, a, b) + Pairs(faces[..p + 1], faces, a, b) {
        PairsStep(faces[..p], faces[p], faces, a, b);
      }
      p := p + 1;
    }
    assert faces[..p] == faces;
  }

  /** The edges are taken in any order, as a hash map yields them. */
  method CollectAdjacent(edgeFaces: Groups, ghost incidences: seq<Incidence>) returns (adjacent: Groups)
    requires Grouped(edgeFaces, incidences)
    ensures forall a, b :: Times(adjacent, a, b) == if a != b then Shared(incidences, edgeFaces.Keys, a, b) else 0
  {
    adjacent := map[];
    var rest, seen := edgeFaces.Keys, {};
    while rest != {}
      invariant rest !! seen && rest + seen == edgeFaces.Keys
      invariant forall a, b :: Times(adjacent, a, b) == if a != b then Shared(incidences, seen, a, b) else 0
      decreases |rest|
    {
      var edge :| edge in rest;
      ghost var before := adjacent;
      var faces := edgeFaces[edge];
      adjacent := AddPairs(adjacent, faces);
      assert faces == FacesOn(incidences, edge);
      assert seen + {edge} - {edge} == seen;
      forall a, b ensures Times(adjacent, a, b) == if a != b then Shared(incidences, seen + {edge}, a, b) else 0 {
        FacesOnCount(incidences, edge, a);
        FacesOnCount(incidences, edge, b);
        SharedRemove(incidences, seen + {edge}, a, b, edge);
        assert Times(adjacent, a, b) == Times(before, a, b) + Pairs(faces, faces, a, b);
      }
      rest, seen := rest - {edge}, seen + {edge};
    }
    assert seen == edgeFaces.Keys;
  }

  function AdjacentLink(target: string): Link {
    Link(Some(ADJACENT_TO), Some(target))
  }

  function AdjacentLinks(targets: seq<string>): (r: seq<Link>)
    ensures |r| == |targets| && forall i :: 0 <= i < |targets| ==> r[i] == AdjacentLink(targets[i])
  {
    seq(|targets|, i requires 0 <= i < |targets| => AdjacentLink(targets[i]))
  }

  lemma {:induction false} AdjacentLinksCount(targets: seq<string>, target: string)
    ensures multiset(AdjacentLinks(targets))[AdjacentLink(target)] == multiset(targets)[target]
    decreases |targets|
  {
    if targets == [] {
    } else {
      var front, last := targets[..|targets| - 1], targets[|targets| - 1];
      AdjacentLinksCount(front, target);
      assert targets == front + [last] && AdjacentLinks(targets) == AdjacentLinks(front) + [AdjacentLink(last)];
    }
  }

  function Extended(entity: Entity, adjacent: Groups): Entity {
    if entity.ref.Some? && entity.ref.value in adjacent && entity.links.Some?
    then entity.(links := Some(entity.links.value + AdjacentLinks(adjacent[entity.ref.value])))
    else entity
  }

  /** What the pass adds to one entity: only adjacent_to links, after the links it had. */
  ghost predicate Grown(before: Entity, after: Entity, incidences: seq<Incidence>, edges: set<string>) {
    && after.ref == before.ref && after.kind == before.kind
    && (after.links.Some? <==> before.links.Some?)
    && (before.links.Some? ==>
          && before.links.value <= after.links.value
          && (forall link :: link in AddedLinks(before, after) ==> exists target :: link == AdjacentLink(target))
          && forall target :: multiset(AddedLinks(before, after))[AdjacentLink(target)] ==
               if before.ref.Some? && before.ref.value != target then Shared(incidences, edges, before.ref.value, target) else 0)
  }

  ghost function AddedLinks(before: Entity, after: Entity): seq<Link> {
    if before.links.Some? && after.links.Some? && before.links.value <= after.links.value
    then after.links.value[|before.links.value|..] else []
  }

  ghost function Edges(incidences: seq<Incidence>): set<string> {
    set i | 0 <= i < |incidences| :: incidences[i].1
  }

  lemma ExtendedIsGrown(entity: Entity, adjacent: Groups, incidences: seq<Incidence>, edges: set<string>)
    requires forall a, b :: Times(adjacent, a, b) == if a != b then Shared(incidences, edges, a, b) else 0
    ensures Grown(entity, Extended(entity, adjacent), incidences, edges)
  {
    var after := Extended(entity, adjacent);
    if entity.links.Some? {
      var targets := if entity.ref.Some? && entity.ref.value in adjacent then adjacent[entity.ref.value] else [];
      assert after.links.value == entity.links.value + AdjacentLinks(targets);
      assert AddedLinks(entity, after) == AdjacentLinks(targets);
      forall target ensures multiset(AddedLinks(entity, after))[AdjacentLink(target)] == multiset(targets)[target] {
        AdjacentLinksCount(targets, target);
      }
      assert forall target :: entity.ref.Some? ==> multiset(targets)[target] == Times(adjacent, entity.ref.value, target);
    }
  }

  lemma GroupedKeys(groups: Groups, incidences: seq<Incidence>)
    requires Grouped(groups, incidences)
    ensures groups.Keys == Edges(incidences)
  {
    forall edge ensures edge in groups.Keys <==> edge in Edges(incidences) {
      FacesOnEdge(incidences, edge);
    }
  }

  lemma {:induction false} FacesOnEdge(incidences: seq<Incidence>, edge: string)
    ensures FacesOn(incidences, edge) != [] <==> edge in Edges(incidences)
    decreases |incidences|
  {
    if incidences == [] {
    } else {
      var front, last := incidences[..|incidences| - 1], incidences[|incidences| - 1];
      FacesOnEdge(front, edge);
      assert incidences == front + [last];
      assert Edges(incidences) == Edges(front) + {last.1};
    }
  }

  /** What `AddAdjacency` promises for the sequences before and after it. */
  ghost predicate Passed(before: seq<Entity>, after: seq<Entity>) {
    && |after| == |before|
    && forall i :: 0 <= i < |before| ==> Grown(before[i], after[i], Incidences(before), Edges(Incidences(before)))
  }

  /** The whole pass: every entity keeps its links and gains, per shared edge, one link for each pair of incidences. */
  method AddAdjacency(entities: array<Entity>)
    modifies entities
    ensures Passed(old(entities[..]), entities[..])
  {
    ghost var before := entities[..];
    ghost var incidences := Incidences(before);
    var edgeFaces := GroupByEdge(entities);
    GroupedKeys(edgeFaces, incidences);
    var adjacent := CollectAdjacent(edgeFaces, incidences);
    var k := 0;
    while k < entities.Length
      invariant 0 <= k <= entities.Length
      invariant forall i :: 0 <= i < k ==> Grown(before[i], entities[i], incidences, Edges(incidences))
      invariant forall i :: k <= i < entities.Length ==> entities[i] == before[i]
    {
      ExtendedIsGrown(entities[k], adjacent, incidences, Edges(incidences));
      entities[k] := Extended(entities[k], adjacent);
      k := k + 1;
    }
  }

  // ----- The relation between faces -----

  predicate UniqueRefs(entities: seq<Entity>) {
    forall i, j :: 0 <= i < j < |entities| && entities[i].ref.Some? ==> entities[i].ref != entities[j].ref
  }

  /** How many bounded_by links an entity has to an edge, when it is a face. */
  ghost function Multiplicity(entity: Entity, edge: string): nat {
    if entity.ref.Some? then multiset(IncidencesOf(entity))[(entity.ref.value, edge)] else 0
  }

  lemma {:induction false} LinksOfOneFace(face: string, links: seq<Link>, other: string, edge: string)
    requires (other, edge) in BoundingLinks(face, links)
    ensures other == face && Link(Some(BOUNDED_BY), Some(edge)) in links
    decreases |links|
  {
    var front, last := links[..|links| - 1], links[|links| - 1];
    if (other, edge) in BoundingLinks(face, front) { LinksOfOneFace(face, front, other, edge); }
  }

  lemma {:induction false} NotAmong(entities: seq<Entity>, ref: string, edge: string)
    requires forall i :: 0 <= i < |entities| ==> entities[i].ref != Some(ref)
    ensures multiset(Incidences(entities))[(ref, edge)] == 0
    decreases |entities|
  {
    if entities == [] {
    } else {
      var last := entities[|entities| - 1];
      NotAmong(entities[..|entities| - 1], ref, edge);
      if (ref, edge) in IncidencesOf(last) { LinksOfOneFace(last.ref.value, last.links.value, ref, edge); }
      assert (ref, edge) !in IncidencesOf(last);
      assert (ref, edge) !in multiset(IncidencesOf(last));
    }
  }

  /** With unique references, the incidences of a face are its own links. */
  lemma {:induction false} OwnIncidences(entities: seq<Entity>, i: nat, edge: string)
    requires UniqueRefs(entities) && i < |entities| && entities[i].ref.Some?
    ensures multiset(Incidences(entities))[(entities[i].ref.value, edge)] == Multiplicity(entities[i], edge)
    decreases |entities|
  {
    var front, last, ref := entities[..|entities| - 1], entities[|entities| - 1], entities[i].ref.value;
    if i == |entities| - 1 {
      NotAmong(front, ref, edge);
    } else {
      OwnIncidences(front, i, edge);
      assert last.ref != Some(ref);
      if (ref, edge) in IncidencesOf(last) { LinksOfOneFace(last.ref.value, last.links.value, ref, edge); }
      assert (ref, edge) !in multiset(IncidencesOf(last));
    }
  }

  /** How many adjacent_to links the pass added from one entity to another. */
  ghost function AddedTo(before: Entity, after: Entity, target: Entity): nat {
    if target.ref.Some? then multiset(AddedLinks(before, after))[AdjacentLink(target.ref.value)] else 0
  }

  ghost predicate IsFace(entity: Entity) {
    entity.kind == Some(FACE) && entity.ref.Some? && entity.links.Some?
  }

  ghost predicate HasEdge(entity: Entity, edge: string) {
    entity.links.Some? && Link(Some(BOUNDED_BY), Some(edge)) in entity.links.value
  }

  /** The sum over some edges of the product of the two entities' own multiplicities. */
  ghost function Weight(edges: set<string>, first: Entity, second: Entity): nat {
    if edges == {} then 0
    else
      var edge :| edge in edges;
      Multiplicity(first, edge) * Multiplicity(second, edge) + Weight(edges - {edge}, first, second)
  }

  lemma {:induction false} SharedIsWeight(entities: seq<Entity>, i: nat, j: nat, edges: set<string>)
    requires UniqueRefs(entities) && i < |entities| && j < |entities| && entities[i].ref.Some? && entities[j].ref.Some?
    ensures Shared(Incidences(entities), edges, entities[i].ref.value, entities[j].ref.value) == Weight(edges, entities[i], entities[j])
    decreases |edges|
  {
    if edges == {} {
    } else {
      var edge :| edge in edges
        && Weight(edges, entities[i], entities[j]) ==
           Multiplicity(entities[i], edge) * Multiplicity(entities[j], edge) + Weight(edges - {edge}, entities[i], entities[j]);
      SharedRemove(Incidences(entities), edges, entities[i].ref.value, entities[j].ref.value, edge);
      SharedIsWeight(entities, i, j, edges - {edge});
      OwnIncidences(entities, i, edge);
      OwnIncidences(entities, j, edge);
    }
  }

  lemma {:induction false} LinkIsIncidence(face: string, links: seq<Link>, edge: string)
    ensures (face, edge) in BoundingLinks(face, links) <==> Link(Some(BOUNDED_BY), Some(edge)) in links
    decreases |links|
  {
    if links == [] {
    } else {
      var front, last := links[..|links| - 1], links[|links| - 1];
      LinkIsIncidence(face, front, edge);
      assert links == front + [last];
    }
  }

  /** Whether a reference has an incidence with an edge is whether that entity is a face with such a link. */
  lemma IncidenceIsLink(entities: seq<Entity>, i: nat, edge: string)
    requires UniqueRefs(entities) && i < |entities| && entities[i].ref.Some?
    ensures (entities[i].ref.value, edge) in Incidences(entities) <==> IsFace(entities[i]) && HasEdge(entities[i], edge)
  {
    var pair := (entities[i].ref.value, edge);
    OwnIncidences(entities, i, edge);
    assert pair in Incidences(entities) <==> pair in multiset(Incidences(entities));
    assert pair in IncidencesOf(entities[i]) <==> pair in multiset(IncidencesOf(entities[i]));
    if IsFace(entities[i]) { LinkIsIncidence(entities[i].ref.value, entities[i].links.value, edge); }
  }

  lemma EdgeOfIncidence(incidences: seq<Incidence>, pair: Incidence)
    requires pair in incidences
    ensures pair.1 in Edges(incidences)
  {
  }

  ghost predicate ShareEdge(first: Entity, second: Entity) {
    exists edge :: HasEdge(first, edge) && HasEdge(second, edge)
  }

  /** With unique references the added links are the shared-edge relation: between two different entities they are
      as many each way, the sum over edges of the product of the multiplicities, and there are some exactly when
      both are faces bounded by a common edge; no face becomes adjacent to itself. */
  lemma AdjacencyIsSharedEdge(before: seq<Entity>, after: seq<Entity>, i: nat, j: nat)
    requires Passed(before, after) && UniqueRefs(before) && i < |before| && j < |before|
    requires before[i].ref.Some? && before[i].links.Some? && before[j].ref.Some? && before[j].links.Some?
    ensures AddedTo(before[i], after[i], before[j]) == AddedTo(before[j], after[j], before[i])
    ensures AddedTo(before[i], after[i], before[j]) ==
            if i == j then 0 else Weight(Edges(Incidences(before)), before[i], before[j])
    ensures AddedTo(before[i], after[i], before[j]) > 0 <==>
            i != j && IsFace(before[i]) && IsFace(before[j]) && ShareEdge(before[i], before[j])
  {
    var incidences := Incidences(before);
    var edges, a, b := Edges(incidences), before[i].ref.value, before[j].ref.value;
    assert Grown(before[i], after[i], incidences, edges) && Grown(before[j], after[j], incidences, edges);
    if i != j {
      assert a != b;
      SharedIsSymmetric(incidences, edges, a, b);
      SharedIsWeight(before, i, j, edges);
      SharedIsPositive(incidences, edges, a, b);
      CommonEdgeIsLinks(before, i, j);
    }
  }

  lemma CommonEdgeIsLinks(before: seq<Entity>, i: nat, j: nat)
    requires UniqueRefs(before) && i < |before| && j < |before| && before[i].ref.Some? && before[j].ref.Some?
    ensures CommonEdge(Incidences(before), Edges(Incidences(before)), before[i].ref.value, before[j].ref.value) <==>
            IsFace(before[i]) && IsFace(before[j]) && ShareEdge(before[i], before[j])
  {
    var incidences := Incidences(before);
    var edges, a, b := Edges(incidences), before[i].ref.value, before[j].ref.value;
    if CommonEdge(incidences, edges, a, b) {
      var edge :| edge in edges && (a, edge) in incidences && (b, edge) in incidences;
      IncidenceIsLink(before, i, edge);
      IncidenceIsLink(before, j, edge);
    }
    if IsFace(before[i]) && IsFace(before[j]) && ShareEdge(before[i], before[j]) {
      var edge :| HasEdge(before[i], edge) && HasEdge(before[j], edge);
      IncidenceIsLink(before, i, edge);
      IncidenceIsLink(before, j, edge);
      EdgeOfIncidence(incidences, (a, edge));
    }
  }

  /** An entity that is not a face is left as it was. */
  lemma OthersUnchanged(before: seq<Entity>, after: seq<Entity>, i: nat)
    requires Passed(before, after) && UniqueRefs(before) && i < |before| && !IsFace(before[i])
    ensures after[i] == before[i]
  {
    var incidences := Incidences(before);
    var edges, added := Edges(incidences), AddedLinks(before[i], after[i]);
    assert Grown(before[i], after[i], incidences, edges);
    if before[i].links.Some? && added != [] {
      assert added[0] in added;
      var target :| added[0] == AdjacentLink(target);
      assert added[0] in multiset(added);
      var a := before[i].ref.value;
      SharedIsPositive(incidences, edges, a, target);
      var edge :| edge in edges && (a, edge) in incidences && (target, edge) in incidences;
      IncidenceIsLink(before, i, edge);
      assert false;
    }
    if before[i].links.Some? { assert after[i].links.value == before[i].links.value + added == before[i].links.value; }
  }
}
