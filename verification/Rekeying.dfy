/**
 Rewriting revision-qualified references when a graph is published under a new revision
 (`rekey_refs`, `replace_revision`): on well-formed graphs it is a graph isomorphism.
 */
module Rekeying {
  import opened Text
  import opened Lists
  import opened Ordered
  import opened Ccir

  /** `replace_revision`. */
  function ReplaceRevision(ref: string, a: string, b: string): string {
    match StripSuffix(ref, "@" + a)
    case None => ref
    case Some(prefix) => prefix + ("@" + b)
  }

  function ReplaceAll(refs: seq<string>, a: string, b: string): (r: seq<string>)
    ensures |r| == |refs|
    ensures forall i :: 0 <= i < |refs| ==> r[i] == ReplaceRevision(refs[i], a, b)
  {
    seq(|refs|, i requires 0 <= i < |refs| => ReplaceRevision(refs[i], a, b))
  }

  function RekeyedLinks(links: seq<Link>, a: string, b: string): (r: seq<Link>)
    ensures |r| == |links|
    ensures forall i :: 0 <= i < |links| ==> r[i] == Link(links[i].relation, ReplaceRevision(links[i].target, a, b))
  {
    seq(|links|, i requires 0 <= i < |links| => Link(links[i].relation, ReplaceRevision(links[i].target, a, b)))
  }

  function RekeyedEntity(key: string, entity: Entity, a: string, b: string): Entity {
    entity.(ref := ReplaceRevision(key, a, b), revision := b, links := RekeyedLinks(entity.links, a, b))
  }

  function RekeyedFact(fact: Fact, a: string, b: string): Fact {
    fact.(ref := ReplaceRevision(fact.ref, a, b),
          evidence := ReplaceAll(fact.evidence, a, b),
          contradicting := ReplaceAll(fact.contradicting, a, b))
  }

  function RekeyedFacts(facts: seq<Fact>, a: string, b: string): (r: seq<Fact>)
    ensures |r| == |facts|
    ensures forall i :: 0 <= i < |facts| ==> r[i] == RekeyedFact(facts[i], a, b)
  {
    seq(|facts|, i requires 0 <= i < |facts| => RekeyedFact(facts[i], a, b))
  }

  /** The entities under `keys`, inserted one after the other: on a collision the later key wins. */
  function RekeyedOver(entities: map<string, Entity>, keys: seq<string>, a: string, b: string): map<string, Entity>
    requires forall k :: k in keys ==> k in entities
  {
    if keys == [] then map[] else
      var last := keys[|keys| - 1];
      RekeyedOver(entities, keys[..|keys| - 1], a, b)
        [ReplaceRevision(last, a, b) := RekeyedEntity(last, entities[last], a, b)]
  }

  function Rekeyed(g: Graph, a: string, b: string): Graph {
    if a == b then g
    else g.(entities := RekeyedOver(g.entities, SortedKeys(g.entities.Keys), a, b),
            facts := RekeyedFacts(g.facts, a, b))
  }

  method RekeyRefs(g: Graph, a: string, b: string) returns (r: Graph)
    ensures r == Rekeyed(g, a, b)
  {
    hide ReplaceRevision, RekeyedEntity, RekeyedFact;
    if a == b { return g; }
    var entities := map[];
    var keys := SortedKeys(g.entities.Keys);
    for i := 0 to |keys|
      invariant entities == RekeyedOver(g.entities, keys[..i], a, b)
    {
      assert keys[..i + 1][..i] == keys[..i];
      entities := entities[ReplaceRevision(keys[i], a, b) := RekeyedEntity(keys[i], g.entities[keys[i]], a, b)];
    }
    assert keys[..|keys|] == keys;
    var facts: seq<Fact> := [];
    for i := 0 to |g.facts|
      invariant |facts| == i
      invariant forall j :: 0 <= j < i ==> facts[j] == RekeyedFact(g.facts[j], a, b)
    {
      facts := facts + [RekeyedFact(g.facts[i], a, b)];
    }
    assert facts == RekeyedFacts(g.facts, a, b);
    r := g.(entities := entities, facts := facts);
  }

  // ----- Well-formed graphs -----

  /** A reference qualified by revision `id`, or not qualified at all. */
  predicate RefOf(ref: string, id: string) {
    StripSuffix(ref, "@" + id).Some? || '@' !in ref
  }

  predicate RefsOf(refs: seq<string>, id: string) {
    forall i :: 0 <= i < |refs| ==> RefOf(refs[i], id)
  }

  predicate EntityOf(entity: Entity, id: string) {
    forall i :: 0 <= i < |entity.links| ==> RefOf(entity.links[i].target, id)
  }

  predicate FactOf(fact: Fact, id: string) {
    RefOf(fact.ref, id) && RefsOf(fact.evidence, id) && RefsOf(fact.contradicting, id)
  }

  /** Every key equals its entity's reference, and every reference is one of revision `id`. */
  predicate GraphOf(g: Graph, id: string) {
    && g.Keyed()
    && (forall k :: k in g.entities ==> RefOf(k, id) && EntityOf(g.entities[k], id))
    && (forall i :: 0 <= i < |g.facts| ==> FactOf(g.facts[i], id))
  }

  /** The invariant of a revision store's graphs: references are qualified by the graph's own revision. */
  predicate WellFormed(g: Graph) {
    GraphOf(g, g.revision.Id()) && '@' !in g.revision.epoch && '@' !in g.session && '@' !in g.document
  }

  // ----- One reference -----

  lemma QualifiedHasAt(prefix: string, id: string)
    ensures '@' in prefix + ("@" + id)
    ensures StripSuffix(prefix + ("@" + id), "@" + id) == Some(prefix)
  {
    assert (prefix + ("@" + id))[|prefix|] == '@';
    StripAppended(prefix, "@" + id);
  }

  lemma BareIsUnqualified(ref: string, id: string)
    requires '@' !in ref
    ensures StripSuffix(ref, "@" + id).None?
  {
    var r := StripSuffix(ref, "@" + id);
    if r.Some? { QualifiedHasAt(r.value, id); }
  }

  /** Rewriting composes. */
  lemma ReplaceComposes(ref: string, a: string, b: string, c: string)
    requires RefOf(ref, a)
    ensures RefOf(ReplaceRevision(ref, a, b), b)
    ensures ReplaceRevision(ReplaceRevision(ref, a, b), b, c) == ReplaceRevision(ref, a, c)
    ensures ReplaceRevision(ref, a, a) == ref
  {
    match StripSuffix(ref, "@" + a)
    case Some(prefix) => QualifiedHasAt(prefix, b);
    case None => BareIsUnqualified(ref, b);
  }

  lemma ReplaceInjective(r: string, s: string, a: string, b: string)
    requires RefOf(r, a) && RefOf(s, a)
    ensures ReplaceRevision(r, a, b) == ReplaceRevision(s, a, b) <==> r == s
  {
    ReplaceComposes(r, a, b, a);
    ReplaceComposes(s, a, b, a);
  }

  // ----- Whole graphs -----

  lemma {:induction false} RekeyedOverMeaning(entities: map<string, Entity>, keys: seq<string>, a: string, b: string)
    requires forall k :: k in keys ==> k in entities && RefOf(k, a)
    requires Distinct(keys)
    ensures var m := RekeyedOver(entities, keys, a, b);
      && |m| == |keys|
      && (forall k {:trigger ReplaceRevision(k, a, b)} :: k in keys ==>
            ReplaceRevision(k, a, b) in m && m[ReplaceRevision(k, a, b)] == RekeyedEntity(k, entities[k], a, b))
      && (forall r {:trigger ReplaceRevision(r, b, a)} :: r in m ==>
            ReplaceRevision(r, b, a) in keys && ReplaceRevision(ReplaceRevision(r, b, a), a, b) == r)
  {
    if keys == [] {
    } else {
      var last, front := keys[|keys| - 1], keys[..|keys| - 1];
      RekeyedOverMeaning(entities, front, a, b);
      forall k | k in front ensures ReplaceRevision(k, a, b) != ReplaceRevision(last, a, b) {
        ReplaceInjective(k, last, a, b);
      }
      ReplaceComposes(last, a, b, a);
      var m := RekeyedOver(entities, front, a, b);
      assert ReplaceRevision(last, a, b) !in m;
      forall k | k in keys ensures k == last || k in front {
        var i :| 0 <= i < |keys| && keys[i] == k;
        if i < |front| { assert front[i] == k; }
      }
    }
  }

  lemma RekeyedEntityComposes(key: string, entity: Entity, a: string, b: string, c: string)
    requires RefOf(key, a) && EntityOf(entity, a)
    ensures EntityOf(RekeyedEntity(key, entity, a, b), b)
    ensures RekeyedEntity(ReplaceRevision(key, a, b), RekeyedEntity(key, entity, a, b), b, c) == RekeyedEntity(key, entity, a, c)
    ensures entity.ref == key ==> RekeyedEntity(key, entity, a, a) == entity.(revision := a)
  {
    ReplaceComposes(key, a, b, c);
    forall i | 0 <= i < |entity.links|
      ensures RefOf(ReplaceRevision(entity.links[i].target, a, b), b)
      ensures ReplaceRevision(ReplaceRevision(entity.links[i].target, a, b), b, c) == ReplaceRevision(entity.links[i].target, a, c)
      ensures ReplaceRevision(entity.links[i].target, a, a) == entity.links[i].target
    {
      ReplaceComposes(entity.links[i].target, a, b, c);
    }
    assert RekeyedLinks(RekeyedLinks(entity.links, a, b), b, c) == RekeyedLinks(entity.links, a, c);
    assert RekeyedLinks(entity.links, a, a) == entity.links;
  }

  lemma ReplaceAllComposes(refs: seq<string>, a: string, b: string, c: string)
    requires RefsOf(refs, a)
    ensures RefsOf(ReplaceAll(refs, a, b), b)
    ensures ReplaceAll(ReplaceAll(refs, a, b), b, c) == ReplaceAll(refs, a, c)
    ensures ReplaceAll(refs, a, a) == refs
  {
    forall i | 0 <= i < |refs|
      ensures RefOf(ReplaceRevision(refs[i], a, b), b)
      ensures ReplaceRevision(ReplaceRevision(refs[i], a, b), b, c) == ReplaceRevision(refs[i], a, c)
      ensures ReplaceRevision(refs[i], a, a) == refs[i]
    {
      ReplaceComposes(refs[i], a, b, c);
    }
  }

  lemma RekeyedFactsCompose(facts: seq<Fact>, a: string, b: string, c: string)
    requires forall i :: 0 <= i < |facts| ==> FactOf(facts[i], a)
    ensures forall i :: 0 <= i < |facts| ==> FactOf(RekeyedFacts(facts, a, b)[i], b)
    ensures RekeyedFacts(RekeyedFacts(facts, a, b), b, c) == RekeyedFacts(facts, a, c)
    ensures RekeyedFacts(facts, a, a) == facts
  {
    forall i | 0 <= i < |facts|
      ensures FactOf(RekeyedFact(facts[i], a, b), b)
      ensures RekeyedFact(RekeyedFact(facts[i], a, b), b, c) == RekeyedFact(facts[i], a, c)
      ensures RekeyedFact(facts[i], a, a) == facts[i]
    {
      ReplaceComposes(facts[i].ref, a, b, c);
      ReplaceAllComposes(facts[i].evidence, a, b, c);
      ReplaceAllComposes(facts[i].contradicting, a, b, c);
    }
  }

  /** `m1` is `m0` with every key, entity and link rewritten from `a` to `b`, and nothing else. */
  ghost predicate Mapped(m0: map<string, Entity>, m1: map<string, Entity>, a: string, b: string) {
    && (forall k {:trigger ReplaceRevision(k, a, b)} :: k in m0 ==>
          ReplaceRevision(k, a, b) in m1 && m1[ReplaceRevision(k, a, b)] == RekeyedEntity(k, m0[k], a, b))
    && (forall r {:trigger ReplaceRevision(r, b, a)} :: r in m1 ==>
          ReplaceRevision(r, b, a) in m0 && ReplaceRevision(ReplaceRevision(r, b, a), a, b) == r)
  }

  ghost predicate EntitiesOf(m: map<string, Entity>, id: string) {
    forall k :: k in m ==> RefOf(k, id) && EntityOf(m[k], id)
  }

  lemma MappedUnique(m0: map<string, Entity>, m1: map<string, Entity>, m2: map<string, Entity>, a: string, b: string)
    requires Mapped(m0, m1, a, b) && Mapped(m0, m2, a, b)
    ensures m1 == m2
  {
    forall r ensures r in m1 <==> r in m2 {
      if r in m1 { assert ReplaceRevision(r, b, a) in m0; }
      if r in m2 { assert ReplaceRevision(r, b, a) in m0; }
    }
    forall r | r in m1 ensures m1[r] == m2[r] {
      assert ReplaceRevision(r, b, a) in m0;
    }
  }

  lemma MappedComposes(m0: map<string, Entity>, m1: map<string, Entity>, m2: map<string, Entity>,
                       a: string, b: string, c: string)
    requires EntitiesOf(m0, a) && EntitiesOf(m1, b) && EntitiesOf(m2, c)
    requires Mapped(m0, m1, a, b) && Mapped(m1, m2, b, c)
    ensures Mapped(m0, m2, a, c)
  {
    forall k | k in m0
      ensures ReplaceRevision(k, a, c) in m2
      ensures m2[ReplaceRevision(k, a, c)] == RekeyedEntity(k, m0[k], a, c)
    {
      ReplaceComposes(k, a, b, c);
      RekeyedEntityComposes(k, m0[k], a, b, c);
      assert ReplaceRevision(k, a, b) in m1;
    }
    forall r | r in m2
      ensures ReplaceRevision(r, c, a) in m0 && ReplaceRevision(ReplaceRevision(r, c, a), a, c) == r
    {
      assert ReplaceRevision(r, c, b) in m1;
      assert ReplaceRevision(ReplaceRevision(r, c, b), b, a) in m0;
      ReplaceComposes(r, c, b, a);
      ReplaceComposes(r, c, a, c);
      ReplaceComposes(r, c, c, c);
    }
  }

  /** Rekeying loses and merges no entity, keeps keys equal to references, and maps every link along. */
  lemma RekeyIsomorphism(g: Graph, a: string, b: string)
    requires GraphOf(g, a)
    ensures var h := Rekeyed(g, a, b);
      && GraphOf(h, b)
      && |h.entities| == |g.entities|
      && (a != b ==> Mapped(g.entities, h.entities, a, b))
      && h == g.(entities := h.entities, facts := RekeyedFacts(g.facts, a, b))
  {
    var keys := SortedKeys(g.entities.Keys);
    RekeyedFactsCompose(g.facts, a, b, b);
    if a != b {
      SortedKeysDistinct(g.entities.Keys);
      RekeyedOverMeaning(g.entities, keys, a, b);
      var h := Rekeyed(g, a, b);
      forall r | r in h.entities
        ensures h.entities[r].ref == r && RefOf(r, b) && EntityOf(h.entities[r], b)
      {
        var k := ReplaceRevision(r, b, a);
        ReplaceComposes(k, a, b, b);
        RekeyedEntityComposes(k, g.entities[k], a, b, b);
      }
    }
  }

  /** A reference of revision `a` resolves before rekeying iff its rewritten form resolves after. */
  lemma RekeyKeepsResolution(g: Graph, a: string, b: string, target: string)
    requires GraphOf(g, a) && RefOf(target, a)
    ensures ReplaceRevision(target, a, b) in Rekeyed(g, a, b).entities <==> target in g.entities
    ensures Rekeyed(g, a, b).Resolves(ReplaceRevision(target, a, b)) <==> g.Resolves(target)
  {
    var h, t := Rekeyed(g, a, b), ReplaceRevision(target, a, b);
    RekeyIsomorphism(g, a, b);
    ReplaceComposes(target, a, b, a);
    ReplaceComposes(target, a, a, a);
    if t in h.entities && a != b { assert ReplaceRevision(t, b, a) in g.entities; }
    forall i | 0 <= i < |g.facts| ensures h.facts[i].ref == t <==> g.facts[i].ref == target {
      assert FactOf(g.facts[i], a);
      ReplaceInjective(g.facts[i].ref, target, a, b);
    }
    if g.IsFact(target) { var i :| 0 <= i < |g.facts| && g.facts[i].ref == target; assert h.facts[i].ref == t; }
    if h.IsFact(t) { var i :| 0 <= i < |h.facts| && h.facts[i].ref == t; assert g.facts[i].ref == target; }
  }

  /** Rewriting from `a` to `b` and on to `c` is rewriting from `a` to `c`, except that the early exit for
      equal ids skips restamping: back to `a`, entities keep whatever revision field they carried. */
  lemma RekeyComposes(g: Graph, a: string, b: string, c: string)
    requires GraphOf(g, a)
    ensures Rekeyed(Rekeyed(g, a, b), b, c) == Rekeyed(g, a, c) <==>
            a != c || a == b || forall k :: k in g.entities ==> g.entities[k].revision == a
  {
    var h := Rekeyed(g, a, b);
    var viaB, direct := Rekeyed(h, b, c), Rekeyed(g, a, c);
    RekeyIsomorphism(g, a, b);
    RekeyIsomorphism(h, b, c);
    RekeyIsomorphism(g, a, c);
    RekeyedFactsCompose(g.facts, a, b, c);
    if a != b && b != c {
      MappedComposes(g.entities, h.entities, viaB.entities, a, b, c);
      if a != c {
        MappedUnique(g.entities, viaB.entities, direct.entities, a, c);
      } else {
        RestampedOnly(g, viaB.entities, a);
      }
    }
  }

  /** Rewriting `a` to itself without the early exit only restamps the revision fields. */
  lemma RestampedOnly(g: Graph, m: map<string, Entity>, a: string)
    requires GraphOf(g, a) && Mapped(g.entities, m, a, a)
    ensures m == g.entities <==> forall k :: k in g.entities ==> g.entities[k].revision == a
  {
    forall k | k in g.entities ensures k in m && m[k] == g.entities[k].(revision := a) {
      ReplaceComposes(k, a, a, a);
      RekeyedEntityComposes(k, g.entities[k], a, a, a);
    }
    forall r | r in m ensures r in g.entities {
      ReplaceComposes(ReplaceRevision(r, a, a), a, a, a);
    }
  }

  // ----- The number of unresolved links -----

  /** The unresolved links of the entities in `keys`, as (entity, link index) pairs. */
  ghost function MissingPairs(g: Graph, keys: set<string>): set<(string, nat)>
    requires keys <= g.entities.Keys
  {
    set k, i: nat | k in keys && i < |g.entities[k].links| && !g.Resolves(g.entities[k].links[i].target) :: (k, i)
  }

  ghost function MissingOf(g: Graph, key: string, n: nat): set<(string, nat)>
    requires key in g.entities && n <= |g.entities[key].links|
  {
    set i: nat | i < n && !g.Resolves(g.entities[key].links[i].target) :: (key, i)
  }

  lemma MissingOfStep(g: Graph, key: string, n: nat)
    requires key in g.entities && n < |g.entities[key].links|
    ensures (key, n) !in MissingOf(g, key, n)
    ensures MissingOf(g, key, n + 1) ==
            MissingOf(g, key, n) + if g.Resolves(g.entities[key].links[n].target) then {} else {(key, n)}
  {
    hide Graph.Resolves;
  }

  lemma MissingInStep(g: Graph, entity: Entity, n: nat)
    requires n < |entity.links|
    ensures |MissingIn(g, entity, n + 1)| == |MissingIn(g, entity, n)| + if g.Resolves(entity.links[n].target) then 0 else 1
  {
    hide Graph.Resolves, MissingLink;
  }

  lemma {:induction false} MissingInCount(g: Graph, key: string, n: nat)
    requires key in g.entities && n <= |g.entities[key].links|
    ensures |MissingIn(g, g.entities[key], n)| == |MissingOf(g, key, n)|
  {
    hide Graph.Resolves;
    if n == 0 {
      assert MissingOf(g, key, n) == {};
    } else {
      hide MissingOf, MissingIn;
      MissingInCount(g, key, n - 1);
      MissingOfStep(g, key, n - 1);
      MissingInStep(g, g.entities[key], n - 1);
    }
  }

  lemma MissingPairsSplit(g: Graph, keys: set<string>, key: string)
    requires keys <= g.entities.Keys && key in g.entities && key !in keys
    ensures MissingPairs(g, keys + {key}) == MissingPairs(g, keys) + MissingOf(g, key, |g.entities[key].links|)
    ensures MissingPairs(g, keys) !! MissingOf(g, key, |g.entities[key].links|)
  {
  }

  lemma {:induction false} MissingLinksCount(g: Graph, keys: seq<string>)
    requires forall k :: k in keys ==> k in g.entities
    requires Distinct(keys)
    ensures |MissingLinks(g, keys)| == |MissingPairs(g, ToSet(keys))|
  {
    hide MissingIn, MissingOf;
    if keys == [] {
      assert MissingPairs(g, ToSet(keys)) == {};
    } else {
      hide MissingPairs;
      var last, front := keys[|keys| - 1], keys[..|keys| - 1];
      MissingLinksCount(g, front);
      MissingInCount(g, last, |g.entities[last].links|);
      assert last !in ToSet(front);
      hide Distinct;
      assert keys == front + [last];
      ToSetConcat(front, [last]);
      assert ToSet([last]) == {last};
      MissingPairsSplit(g, ToSet(front), last);
    }
  }

  /** The two entities have as many links, and the i-th resolves in `g` iff it does in `h`. */
  ghost predicate SameResolution(g: Graph, e: Entity, h: Graph, f: Entity) {
    && |e.links| == |f.links|
    && forall i :: 0 <= i < |e.links| ==> (g.Resolves(e.links[i].target) <==> h.Resolves(f.links[i].target))
  }

  lemma {:induction false} MissingInKept(g: Graph, e: Entity, h: Graph, f: Entity, n: nat)
    requires SameResolution(g, e, h, f) && n <= |e.links|
    ensures |MissingIn(g, e, n)| == |MissingIn(h, f, n)|
  {
    if n == 0 {
    } else {
      MissingInKept(g, e, h, f, n - 1);
    }
  }

  lemma {:induction false} MissingLinksKept(g: Graph, keys: seq<string>, h: Graph, moved: seq<string>)
    requires |keys| == |moved|
    requires forall i :: 0 <= i < |keys| ==> keys[i] in g.entities && moved[i] in h.entities
    requires forall i :: 0 <= i < |keys| ==> SameResolution(g, g.entities[keys[i]], h, h.entities[moved[i]])
    ensures |MissingLinks(g, keys)| == |MissingLinks(h, moved)|
  {
    if keys == [] {
    } else {
      var n := |keys| - 1;
      MissingLinksKept(g, keys[..n], h, moved[..n]);
      MissingInKept(g, g.entities[keys[n]], h, h.entities[moved[n]], |g.entities[keys[n]].links|);
    }
  }

  lemma RekeyedResolution(g: Graph, a: string, b: string, key: string)
    requires GraphOf(g, a) && a != b && key in g.entities
    ensures ReplaceRevision(key, a, b) in Rekeyed(g, a, b).entities
    ensures SameResolution(g, g.entities[key], Rekeyed(g, a, b), Rekeyed(g, a, b).entities[ReplaceRevision(key, a, b)])
  {
    RekeyIsomorphism(g, a, b);
    var links := g.entities[key].links;
    assert EntityOf(g.entities[key], a);
    forall i | 0 <= i < |links|
      ensures Rekeyed(g, a, b).Resolves(ReplaceRevision(links[i].target, a, b)) <==> g.Resolves(links[i].target)
    {
      RekeyKeepsResolution(g, a, b, links[i].target);
    }
  }

  lemma MovedKeys(m0: map<string, Entity>, keys: seq<string>, m1: map<string, Entity>, a: string, b: string)
    requires EntitiesOf(m0, a) && Mapped(m0, m1, a, b)
    requires forall k :: k in keys <==> k in m0
    requires Distinct(keys)
    ensures Distinct(ReplaceAll(keys, a, b))
    ensures forall r :: r in ReplaceAll(keys, a, b) <==> r in m1
  {
    var moved := ReplaceAll(keys, a, b);
    forall i, j | 0 <= i < j < |moved| ensures moved[i] != moved[j] {
      ReplaceInjective(keys[i], keys[j], a, b);
    }
    forall r | r in m1 ensures r in moved {
      var i :| 0 <= i < |keys| && keys[i] == ReplaceRevision(r, b, a);
      assert moved[i] == r;
    }
  }

  /** Counting does not depend on the order of the entities. */
  lemma CountInAnyOrder(g: Graph, keys: seq<string>)
    requires forall k :: k in keys <==> k in g.entities
    requires Distinct(keys)
    ensures |MissingLinks(g, keys)| == |Validation(g)|
  {
    var sorted := SortedKeys(g.entities.Keys);
    SortedKeysDistinct(g.entities.Keys);
    MissingLinksCount(g, keys);
    MissingLinksCount(g, sorted);
    assert ToSet(keys) == ToSet(sorted);
  }

  lemma MovedCount(g: Graph, a: string, b: string, keys: seq<string>)
    requires GraphOf(g, a) && a != b && forall k :: k in keys ==> k in g.entities
    ensures forall k :: k in ReplaceAll(keys, a, b) ==> k in Rekeyed(g, a, b).entities
    ensures |MissingLinks(Rekeyed(g, a, b), ReplaceAll(keys, a, b))| == |MissingLinks(g, keys)|
  {
    hide Rekeyed, ReplaceRevision, MissingLinks, RefOf, SameResolution;
    var h, moved := Rekeyed(g, a, b), ReplaceAll(keys, a, b);
    forall i | 0 <= i < |keys|
      ensures moved[i] in h.entities && SameResolution(g, g.entities[keys[i]], h, h.entities[moved[i]])
    {
      RekeyedResolution(g, a, b, keys[i]);
    }
    MissingLinksKept(g, keys, h, moved);
  }

  /** Publishing under a new revision neither creates nor repairs dangling links. */
  lemma RekeyKeepsDiagnosticCount(g: Graph, a: string, b: string)
    requires GraphOf(g, a)
    ensures |Validation(Rekeyed(g, a, b))| == |Validation(g)|
  {
    if a != b {
      hide Rekeyed, ReplaceRevision, MissingLinks, RefOf, Mapped, Distinct, SortedKeys, EntityOf, FactOf;
      var keys := SortedKeys(g.entities.Keys);
      MovedCount(g, a, b, keys);
      RekeyIsomorphism(g, a, b);
      SortedKeysDistinct(g.entities.Keys);
      MovedKeys(g.entities, keys, Rekeyed(g, a, b).entities, a, b);
      hide GraphOf, EntitiesOf;
      CountInAnyOrder(Rekeyed(g, a, b), ReplaceAll(keys, a, b));
    }
  }
}
