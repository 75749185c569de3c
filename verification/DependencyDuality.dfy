/** Upstream and downstream dependency paths are mirror images, up to self-links. */
module DependencyDuality {
  import opened Ccir
  import opened Dependencies

  function Reversed(path: seq<Hop>): (r: seq<Hop>)
    ensures |r| == |path| && forall i :: 0 <= i < |path| ==> r[i] == path[|path| - 1 - i]
  {
    seq(|path|, i requires 0 <= i < |path| => path[|path| - 1 - i])
  }

  /** `path` is listed downstream of `a` and ends at `b`. */
  ghost predicate DownTo(g: Graph, a: string, b: string, path: seq<Hop>) {
    Chain(g, false, a, path) && End(false, a, path) == b
  }

  ghost predicate UpTo(g: Graph, b: string, a: string, path: seq<Hop>) {
    Chain(g, true, b, path) && End(true, b, path) == a
  }

  // ----- Chains in index form -----

  /** Consecutive links of the graph leading from `a` to `b`. */
  ghost predicate Route(g: Graph, a: string, b: string, path: seq<Hop>) {
    && (forall i :: 0 <= i < |path| ==> IsLink(g, false, path[i]))
    && (forall i :: 0 < i < |path| ==> path[i - 1].to == path[i].from)
    && (if path == [] then a == b else path[0].from == a && path[|path| - 1].to == b)
  }

  /** Each target is new among the endpoints of the earlier hops. */
  predicate FreshTargets(path: seq<Hop>) {
    forall j, i :: 0 <= j < i < |path| ==> path[j].from != path[i].to && path[j].to != path[i].to
  }

  /** Each source is new among the endpoints of the later hops. */
  predicate FreshSources(path: seq<Hop>) {
    forall i, j :: 0 <= i < j < |path| ==> path[i].from != path[j].from && path[i].from != path[j].to
  }

  predicate NoSelfHop(path: seq<Hop>) {
    forall i :: 0 <= i < |path| ==> path[i].from != path[i].to
  }

  lemma SameLinks(g: Graph, hop: Hop)
    requires g.Keyed()
    ensures IsLink(g, true, hop) <==> IsLink(g, false, hop)
  {
  }

  lemma RouteSnoc(g: Graph, a: string, b: string, path: seq<Hop>, hop: Hop)
    ensures Route(g, a, b, path + [hop]) <==> Route(g, a, hop.from, path) && IsLink(g, false, hop) && hop.to == b
    ensures FreshTargets(path + [hop]) <==> FreshTargets(path) && !IsEndpoint(path, hop.to)
  {
    hide IsLink;
    var longer := path + [hop];
    assert longer[|path|] == hop && forall i :: 0 <= i < |path| ==> longer[i] == path[i];
  }

  lemma RouteCons(g: Graph, a: string, b: string, hop: Hop, path: seq<Hop>)
    ensures Route(g, a, b, [hop] + path) <==> hop.from == a && IsLink(g, false, hop) && Route(g, hop.to, b, path)
    ensures FreshSources([hop] + path) <==> FreshSources(path) && !IsEndpoint(path, hop.from)
  {
    hide *;
    RouteThrough(g, a, b, hop, path);
    SourcesThrough(hop, path);
  }

  lemma RouteThrough(g: Graph, a: string, b: string, hop: Hop, path: seq<Hop>)
    ensures Route(g, a, b, [hop] + path) <==> hop.from == a && IsLink(g, false, hop) && Route(g, hop.to, b, path)
  {
    hide IsLink;
    var longer := [hop] + path;
    if Route(g, a, b, longer) {
      forall i | 0 <= i < |path| ensures IsLink(g, false, path[i]) && (i > 0 ==> path[i - 1].to == path[i].from) {
        assert longer[i + 1] == path[i] && IsLink(g, false, longer[i + 1]) && longer[i].to == longer[i + 1].from;
      }
      assert longer[0] == hop && (path != [] ==> longer[1] == path[0] && longer[|path|] == path[|path| - 1]);
    }
    if hop.from == a && IsLink(g, false, hop) && Route(g, hop.to, b, path) {
      forall i | 0 <= i < |longer| ensures IsLink(g, false, longer[i]) && (i > 0 ==> longer[i - 1].to == longer[i].from) {
        if i > 0 { assert longer[i] == path[i - 1]; }
        if i > 1 { assert longer[i - 1] == path[i - 2]; }
      }
    }
  }

  lemma SourcesThrough(hop: Hop, path: seq<Hop>)
    ensures FreshSources([hop] + path) <==> FreshSources(path) && !IsEndpoint(path, hop.from)
  {
    var longer := [hop] + path;
    assert longer[0] == hop && forall i :: 0 <= i < |path| ==> longer[i + 1] == path[i];
    assert forall i :: 0 < i < |longer| ==> longer[i] == path[i - 1];
  }

  lemma {:induction false} DownToMeaning(g: Graph, a: string, b: string, path: seq<Hop>)
    ensures DownTo(g, a, b, path) <==> Route(g, a, b, path) && FreshTargets(path)
    decreases |path|
  {
    hide IsLink, IsEndpoint;
    if path == [] {
    } else {
      var front, hop := path[..|path| - 1], path[|path| - 1];
      assert path == front + [hop];
      ChainStep(g, false, a, front, hop);
      RouteSnoc(g, a, b, front, hop);
      DownToMeaning(g, a, hop.from, front);
    }
  }

  lemma {:induction false} UpToMeaning(g: Graph, b: string, a: string, path: seq<Hop>)
    requires g.Keyed()
    ensures UpTo(g, b, a, Reversed(path)) <==> Route(g, a, b, path) && FreshSources(path)
    decreases |path|
  {
    hide IsLink, IsEndpoint;
    if path == [] {
    } else {
      var hop, rest := path[0], path[1..];
      assert path == [hop] + rest;
      assert Reversed(path) == Reversed(rest) + [hop];
      ChainStep(g, true, b, Reversed(rest), hop);
      RouteCons(g, a, b, hop, rest);
      SameLinks(g, hop);
      SameEndpoints(rest, hop.from);
      UpToMeaning(g, b, hop.to, rest);
    }
  }

  lemma SameEndpoints(path: seq<Hop>, node: string)
    ensures IsEndpoint(Reversed(path), node) <==> IsEndpoint(path, node)
  {
    if IsEndpoint(path, node) {
      var i :| 0 <= i < |path| && (path[i].from == node || path[i].to == node);
      assert Reversed(path)[|path| - 1 - i] == path[i];
    }
  }

  /** Without self-hops, fresh targets one way are fresh sources the other way. */
  lemma FreshnessIsSymmetric(g: Graph, a: string, b: string, path: seq<Hop>)
    requires Route(g, a, b, path) && NoSelfHop(path)
    ensures FreshTargets(path) <==> FreshSources(path)
  {
    if FreshTargets(path) {
      forall i, j | 0 <= i < j < |path| ensures path[i].from != path[j].from && path[i].from != path[j].to {
        assert path[j - 1].to == path[j].from;
      }
    }
    if FreshSources(path) {
      forall j, i | 0 <= j < i < |path| ensures path[j].from != path[i].to && path[j].to != path[i].to {
        assert path[j].to == path[j + 1].from;
      }
    }
  }

  lemma PathDuality(g: Graph, a: string, b: string, path: seq<Hop>)
    requires g.Keyed() && (|path| <= 1 || NoSelfHop(path))
    ensures DownTo(g, a, b, path) <==> UpTo(g, b, a, Reversed(path))
  {
    DownToMeaning(g, a, b, path);
    UpToMeaning(g, b, a, path);
    if |path| > 1 && Route(g, a, b, path) { FreshnessIsSymmetric(g, a, b, path); }
  }

  // ----- When a whole graph is dual -----

  /** For all entities `a` and `b`, the downstream paths of `a` that end at `b` are the reversed upstream
      paths of `b` that end at `a`, up to the given length. */
  ghost predicate Dual(g: Graph, depth: nat) {
    forall a, b, path :: a in g.entities && b in g.entities && |path| <= depth ==>
      (DownTo(g, a, b, path) <==> UpTo(g, b, a, Reversed(path)))
  }

  predicate NoSelfLinks(g: Graph) {
    forall k :: k in g.entities ==> forall link :: link in g.entities[k].links ==> link.target != k
  }

  /** An entity with a link to itself and a link to or from another entity. */
  ghost predicate LoopBeside(g: Graph, loop: Hop, other: Hop) {
    && IsLink(g, false, loop) && loop.from == loop.to
    && IsLink(g, false, other) && other.from != other.to && other.to in g.entities
    && (other.from == loop.from || other.to == loop.from)
  }

  /** A graph without self-links is dual at every depth. */
  lemma NoSelfLinksIsDual(g: Graph, depth: nat)
    requires g.Keyed() && NoSelfLinks(g)
    ensures Dual(g, depth)
  {
    assert forall loop, other :: !LoopBeside(g, loop, other);
    DualExactly(g, depth);
  }

  lemma LoopFirstBreaks(g: Graph, loop: Hop, other: Hop)
    requires g.Keyed() && LoopBeside(g, loop, other)
    ensures !Dual(g, 2)
  {
    var path := if other.from == loop.from then [loop, other] else [other, loop];
    var a, b := path[0].from, path[1].to;
    DownToMeaning(g, a, b, path);
    UpToMeaning(g, b, a, path);
    assert Route(g, a, b, path);
    if other.from == loop.from {
      assert path[0].from == path[1].from;
      assert !FreshSources(path) && FreshTargets(path);
    } else {
      assert path[0].to == path[1].to;
      assert !FreshTargets(path) && FreshSources(path);
    }
  }

  /** A self-hop in a longer path stands at its beginning or end, next to a link to another entity. */
  lemma SelfHopHasNeighbor(g: Graph, a: string, b: string, path: seq<Hop>, i: nat) returns (other: Hop)
    requires g.Keyed() && b in g.entities && |path| > 1
    requires Route(g, a, b, path) && (FreshTargets(path) || FreshSources(path))
    requires i < |path| && path[i].from == path[i].to
    ensures LoopBeside(g, path[i], other)
  {
    if FreshTargets(path) {
      forall k | 0 < k < |path| ensures path[k].from != path[k].to { assert path[k - 1].to == path[k].from; }
      other := path[1];
      assert path[0].to == path[1].from;
      if |path| > 2 { assert path[1].to == path[2].from && IsLink(g, false, path[2]); }
    } else {
      forall k | 0 <= k < |path| - 1 ensures path[k].from != path[k].to { assert path[k].to == path[k + 1].from; }
      other := path[i - 1];
      assert path[i - 1].to == path[i].from;
    }
  }

  /** Exactly when a graph is dual: paths have at most one hop, or no entity has both a link to itself and
      a link to or from another entity. */
  lemma DualExactly(g: Graph, depth: nat)
    requires g.Keyed()
    ensures Dual(g, depth) <==> depth <= 1 || forall loop, other :: !LoopBeside(g, loop, other)
  {
    if depth <= 1 || forall loop, other :: !LoopBeside(g, loop, other) {
      forall a, b, path: seq<Hop> | a in g.entities && b in g.entities && |path| <= depth
        ensures DownTo(g, a, b, path) <==> UpTo(g, b, a, Reversed(path))
      {
        if |path| <= 1 {
          PathDuality(g, a, b, path);
        } else {
          DownToMeaning(g, a, b, path);
          UpToMeaning(g, b, a, path);
          if Route(g, a, b, path) && (FreshTargets(path) || FreshSources(path)) {
            if i :| 0 <= i < |path| && path[i].from == path[i].to {
              var other := SelfHopHasNeighbor(g, a, b, path, i);
            }
            PathDuality(g, a, b, path);
          }
        }
      }
    }
    if depth >= 2 && exists loop, other :: LoopBeside(g, loop, other) {
      var loop, other :| LoopBeside(g, loop, other);
      LoopFirstBreaks(g, loop, other);
    }
  }
}
