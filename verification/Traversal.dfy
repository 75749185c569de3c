/** Relational traversal of a graph (`traverse` in the query engine): bounded shortest-distance reachability. */
module Traversal {
  import opened Lists
  import opened Ordered
  import opened Ccir

  datatype TraversalStep = TraversalStep(relation: string, maxDepth: nat)

  // ----- Walks -----

  predicate Linked(g: Graph, relation: string, a: string, b: string) {
    a in g.entities && Link(relation, b) in g.entities[a].links
  }

  /** A sequence of references, each linked to the next by `relation`. */
  ghost predicate Walk(g: Graph, relation: string, path: seq<string>) {
    path != [] && forall i :: 0 <= i < |path| - 1 ==> Linked(g, relation, path[i], path[i + 1])
  }

  ghost predicate WalkBetween(g: Graph, relation: string, path: seq<string>, s: string, t: string, n: nat) {
    Walk(g, relation, path) && |path| == n + 1 && path[0] == s && path[n] == t
  }

  ghost predicate Reaches(g: Graph, relation: string, s: string, t: string, n: nat) {
    exists path :: WalkBetween(g, relation, path, s, t, n)
  }

  /** The shortest walk from `s` to `t` has `n` links. */
  ghost predicate Distance(g: Graph, relation: string, s: string, t: string, n: nat) {
    Reaches(g, relation, s, t, n) && forall m: nat :: m < n ==> !Reaches(g, relation, s, t, m)
  }

  /** `t` is at shortest distance 1 to `step.maxDepth` from `s` along the step's relation. */
  ghost predicate Near(g: Graph, step: TraversalStep, s: string, t: string) {
    exists n :: 1 <= n <= step.maxDepth && Distance(g, step.relation, s, t, n)
  }

  /** One reference per step boundary, each near the one before. */
  ghost predicate Choice(g: Graph, starts: set<string>, steps: seq<TraversalStep>, chain: seq<string>) {
    && |chain| == |steps| + 1 && chain[0] in starts
    && forall i :: 0 <= i < |steps| ==> Near(g, steps[i], chain[i], chain[i + 1])
  }

  ghost predicate Chosen(g: Graph, starts: set<string>, steps: seq<TraversalStep>, t: string) {
    exists chain :: Choice(g, starts, steps, chain) && chain[|steps|] == t
  }

  // ----- Balls: what can be reached in at most n links -----

  function LinkTargets(links: seq<Link>, relation: string): set<string> {
    set i | 0 <= i < |links| && links[i].relation == relation :: links[i].target
  }

  function Targets(g: Graph, relation: string, from: set<string>): set<string> {
    set r, t | r in from && r in g.entities && t in LinkTargets(g.entities[r].links, relation) :: t
  }

  function Ball(g: Graph, relation: string, s: string, n: nat): set<string> {
    if n == 0 then {s} else Ball(g, relation, s, n - 1) + Targets(g, relation, Ball(g, relation, s, n - 1))
  }

  lemma TargetsMeaning(g: Graph, relation: string, from: set<string>, t: string)
    ensures t in Targets(g, relation, from) <==> exists r :: r in from && Linked(g, relation, r, t)
  {
    if t in Targets(g, relation, from) {
      var r :| r in from && r in g.entities && t in LinkTargets(g.entities[r].links, relation);
      var links := g.entities[r].links;
      var i :| 0 <= i < |links| && links[i].relation == relation && links[i].target == t;
      assert links[i] == Link(relation, t);
    }
    if r :| r in from && Linked(g, relation, r, t) {
      var links := g.entities[r].links;
      var i :| 0 <= i < |links| && links[i] == Link(relation, t);
      assert links[i].target in LinkTargets(links, relation);
    }
  }

  lemma {:induction false} BallIsSound(g: Graph, relation: string, s: string, n: nat, t: string) returns (m: nat)
    requires t in Ball(g, relation, s, n)
    ensures m <= n && Reaches(g, relation, s, t, m)
  {
    if n == 0 {
      assert WalkBetween(g, relation, [s], s, t, 0);
      m := 0;
    } else if t in Ball(g, relation, s, n - 1) {
      m := BallIsSound(g, relation, s, n - 1, t);
    } else {
      TargetsMeaning(g, relation, Ball(g, relation, s, n - 1), t);
      var r :| r in Ball(g, relation, s, n - 1) && Linked(g, relation, r, t);
      var k := BallIsSound(g, relation, s, n - 1, r);
      var path :| WalkBetween(g, relation, path, s, r, k);
      assert WalkBetween(g, relation, path + [t], s, t, k + 1);
      m := k + 1;
    }
  }

  lemma {:induction false} BallIsComplete(g: Graph, relation: string, path: seq<string>, s: string, t: string, n: nat)
    requires WalkBetween(g, relation, path, s, t, n)
    ensures t in Ball(g, relation, s, n)
  {
    if n == 0 {
    } else {
      var r := path[n - 1];
      assert WalkBetween(g, relation, path[..n], s, r, n - 1);
      BallIsComplete(g, relation, path[..n], s, r, n - 1);
      assert Linked(g, relation, path[n - 1], path[n]);
      TargetsMeaning(g, relation, Ball(g, relation, s, n - 1), t);
    }
  }

  lemma {:induction false} BallMonotone(g: Graph, relation: string, s: string, m: nat, n: nat)
    requires m <= n
    ensures Ball(g, relation, s, m) <= Ball(g, relation, s, n)
    decreases n
  {
    if m < n { BallMonotone(g, relation, s, m, n - 1); }
  }

  lemma {:induction false} BallStable(g: Graph, relation: string, s: string, m: nat, n: nat)
    requires m <= n && Ball(g, relation, s, m + 1) == Ball(g, relation, s, m)
    ensures Ball(g, relation, s, n) == Ball(g, relation, s, m)
    decreases n
  {
    hide Targets;
    if m < n {
      assert Ball(g, relation, s, m + 1) == Ball(g, relation, s, m) + Targets(g, relation, Ball(g, relation, s, m));
      BallStable(g, relation, s, m, n - 1);
    }
  }

  lemma ShortestExists(g: Graph, relation: string, s: string, t: string, m: nat) returns (n: nat)
    requires Reaches(g, relation, s, t, m)
    ensures n <= m && Distance(g, relation, s, t, n)
    decreases m
  {
    if k: nat :| k < m && Reaches(g, relation, s, t, k) {
      n := ShortestExists(g, relation, s, t, k);
    } else {
      n := m;
    }
  }

  lemma DistanceZero(g: Graph, relation: string, s: string, t: string)
    ensures Reaches(g, relation, s, t, 0) <==> s == t
  {
    if Reaches(g, relation, s, t, 0) { var path :| WalkBetween(g, relation, path, s, t, 0); }
    if s == t { assert WalkBetween(g, relation, [s], s, t, 0); }
  }

  /** The ball without its centre holds exactly the references at shortest distance 1 to n. */
  lemma BallIsNear(g: Graph, step: TraversalStep, s: string, t: string)
    ensures t in Ball(g, step.relation, s, step.maxDepth) - {s} <==> Near(g, step, s, t)
  {
    var relation := step.relation;
    if t in Ball(g, relation, s, step.maxDepth) - {s} {
      var m := BallIsSound(g, relation, s, step.maxDepth, t);
      var n := ShortestExists(g, relation, s, t, m);
      DistanceZero(g, relation, s, t);
    }
    if Near(g, step, s, t) {
      var n :| 1 <= n <= step.maxDepth && Distance(g, relation, s, t, n);
      var path :| WalkBetween(g, relation, path, s, t, n);
      BallIsComplete(g, relation, path, s, t, n);
      BallMonotone(g, relation, s, n, step.maxDepth);
      DistanceZero(g, relation, s, t);
    }
  }

  // ----- The traversal loop -----

  function StepFrom(g: Graph, step: TraversalStep, starts: set<string>): set<string> {
    set s, t | s in starts && t in Ball(g, step.relation, s, step.maxDepth) - {s} :: t
  }

  function Reached(g: Graph, starts: set<string>, steps: seq<TraversalStep>): set<string>
    decreases |steps|
  {
    if steps == [] then starts else Reached(g, StepFrom(g, steps[0], starts), steps[1..])
  }

  /** The set computed step by step is the set of ends of step-by-step choices. */
  lemma {:induction false} ReachedIsChosen(g: Graph, starts: set<string>, steps: seq<TraversalStep>, t: string)
    ensures t in Reached(g, starts, steps) <==> Chosen(g, starts, steps, t)
    decreases |steps|
  {
    if steps == [] {
      if t in starts { assert Choice(g, starts, steps, [t]); }
    } else {
      var next := StepFrom(g, steps[0], starts);
      ReachedIsChosen(g, next, steps[1..], t);
      if Chosen(g, next, steps[1..], t) {
        var chain :| Choice(g, next, steps[1..], chain) && chain[|steps| - 1] == t;
        var s :| s in starts && chain[0] in Ball(g, steps[0].relation, s, steps[0].maxDepth) - {s};
        BallIsNear(g, steps[0], s, chain[0]);
        var longer := [s] + chain;
        forall i | 0 <= i < |steps| ensures Near(g, steps[i], longer[i], longer[i + 1]) {
          if i > 0 { assert Near(g, steps[1..][i - 1], chain[i - 1], chain[i]); }
        }
        assert Choice(g, starts, steps, longer);
      }
      if Chosen(g, starts, steps, t) {
        var chain :| Choice(g, starts, steps, chain) && chain[|steps|] == t;
        BallIsNear(g, steps[0], chain[0], chain[1]);
        forall i | 0 <= i < |steps| - 1 ensures Near(g, steps[1..][i], chain[1..][i], chain[1..][i + 1]) {
          assert Near(g, steps[i + 1], chain[i + 1], chain[i + 2]);
        }
        assert Choice(g, next, steps[1..], chain[1..]);
      }
    }
  }

  /** One level of the search: the unseen targets of the frontier, in order of discovery. */
  method Level(g: Graph, relation: string, frontier: seq<string>, seen0: set<string>)
    returns (following: seq<string>, seen: set<string>)
    ensures ToSet(following) == Targets(g, relation, ToSet(frontier)) - seen0
    ensures seen == seen0 + Targets(g, relation, ToSet(frontier))
  {
    seen := seen0;
    following := [];
    for i := 0 to |frontier|
      invariant ToSet(following) == Targets(g, relation, ToSet(frontier[..i])) - seen0
      invariant seen == seen0 + Targets(g, relation, ToSet(frontier[..i]))
    {
      var ref := frontier[i];
      ghost var before := Targets(g, relation, ToSet(frontier[..i]));
      assert ToSet(frontier[..i + 1]) == ToSet(frontier[..i]) + {ref};
      if ref in g.entities {
        var links := g.entities[ref].links;
        for j := 0 to |links|
          invariant ToSet(following) == before + LinkTargets(links[..j], relation) - seen0
          invariant seen == seen0 + before + LinkTargets(links[..j], relation)
        {
          LinkTargetsStep(links, relation, j);
          if links[j].relation == relation && links[j].target !in seen {
            assert ToSet(following + [links[j].target]) == ToSet(following) + {links[j].target};
            seen := seen + {links[j].target};
            following := following + [links[j].target];
          }
        }
        assert links[..|links|] == links;
        assert Targets(g, relation, ToSet(frontier[..i + 1])) == before + LinkTargets(links, relation);
      } else {
        assert Targets(g, relation, ToSet(frontier[..i + 1])) == before;
      }
    }
    assert frontier[..|frontier|] == frontier;
  }

  lemma LinkTargetsStep(links: seq<Link>, relation: string, j: nat)
    requires j < |links|
    ensures LinkTargets(links[..j + 1], relation) ==
            LinkTargets(links[..j], relation) + if links[j].relation == relation then {links[j].target} else {}
  {
    var a, b := links[..j], links[..j + 1];
    assert forall i :: 0 <= i < j ==> a[i] == b[i] == links[i];
    forall t ensures t in LinkTargets(b, relation) <==>
        t in LinkTargets(a, relation) || (links[j].relation == relation && t == links[j].target) {
      if t in LinkTargets(b, relation) {
        var i :| 0 <= i < |b| && b[i].relation == relation && b[i].target == t;
        if i < j { assert a[i].target == t; }
      }
      if t in LinkTargets(a, relation) {
        var i :| 0 <= i < |a| && a[i].relation == relation && a[i].target == t;
        assert b[i].target == t;
      }
      assert b[j] == links[j];
    }
  }

  /** All references near one start, appended to `next0` level by level. */
  method Explore(g: Graph, step: TraversalStep, start: string, next0: seq<string>) returns (next: seq<string>)
    ensures ToSet(next) == ToSet(next0) + (Ball(g, step.relation, start, step.maxDepth) - {start})
  {
    next := next0;
    var frontier := [start];
    var seen := {start};
    var depth := 0;
    while depth < step.maxDepth
      invariant depth <= step.maxDepth
      invariant seen == Ball(g, step.relation, start, depth) && start in seen
      invariant ToSet(frontier) <= seen && Targets(g, step.relation, seen - ToSet(frontier)) <= seen
      invariant ToSet(next) == ToSet(next0) + (seen - {start})
    {
      ghost var inner := seen;
      var following, grown := Level(g, step.relation, frontier, seen);
      assert Targets(g, step.relation, inner)
          == Targets(g, step.relation, inner - ToSet(frontier)) + Targets(g, step.relation, ToSet(frontier)) by {
        TargetsUnion(g, step.relation, inner - ToSet(frontier), ToSet(frontier));
        assert inner - ToSet(frontier) + ToSet(frontier) == inner;
      }
      assert ToSet(next + following) == ToSet(next) + ToSet(following);
      next := next + following;
      frontier, seen := following, grown;
      depth := depth + 1;
      assert seen - ToSet(frontier) == inner;
      if frontier == [] {
        assert ToSet(frontier) == {};
        BallStable(g, step.relation, start, depth - 1, step.maxDepth);
        break;
      }
    }
  }

  lemma TargetsUnion(g: Graph, relation: string, a: set<string>, b: set<string>)
    ensures Targets(g, relation, a + b) == Targets(g, relation, a) + Targets(g, relation, b)
  {
  }

  /** The references at the end of every step-by-step choice of near references, each once, ascending. */
  method Traverse(g: Graph, starts: seq<string>, steps: seq<TraversalStep>) returns (refs: seq<string>)
    ensures StrictlySorted(refs)
    ensures refs == SortedKeys(Reached(g, ToSet(starts), steps))
    ensures forall t :: t in refs <==> Chosen(g, ToSet(starts), steps, t)
  {
    var current := starts;
    for i := 0 to |steps|
      invariant Reached(g, ToSet(starts), steps) == Reached(g, ToSet(current), steps[i..])
    {
      var next := [];
      for j := 0 to |current|
        invariant ToSet(next) == StepFrom(g, steps[i], ToSet(current[..j]))
      {
        next := Explore(g, steps[i], current[j], next);
        assert ToSet(current[..j + 1]) == ToSet(current[..j]) + {current[j]};
        assert StepFrom(g, steps[i], ToSet(current[..j + 1]))
            == StepFrom(g, steps[i], ToSet(current[..j])) + (Ball(g, steps[i].relation, current[j], steps[i].maxDepth) - {current[j]});
      }
      assert current[..|current|] == current;
      assert steps[i..][1..] == steps[i + 1..];
      current := next;
    }
    refs := Deduped(Sorted(current));
    SortThenDedup(current);
    SortedKeysSorted(ToSet(current));
    forall t ensures t in refs <==> Chosen(g, ToSet(starts), steps, t) {
      ReachedIsChosen(g, ToSet(starts), steps, t);
    }
  }
}
