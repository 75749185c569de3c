/** Enumerating dependency paths breadth-first (`explain_dependencies`). */
module Dependencies {
  import opened Text
  import opened Lists
  import opened Ordered
  import opened Json
  import opened Ccir

  datatype Hop = Hop(from: string, relation: string, to: string)

  const MAX_DEPTH: nat := 8

  datatype Explanation = Explanation(ref: string, paths: seq<seq<Hop>>, controllingProperties: seq<Value>, cycles: seq<seq<string>>, health: seq<Diagnostic>)

  // ----- Specification: hop chains -----

  /** The hop is a link of the graph; upstream the sources are all entities, downstream the one stored
      under the hop's source. */
  predicate IsLink(g: Graph, upstream: bool, hop: Hop) {
    if upstream then exists k :: k in g.entities && g.entities[k].ref == hop.from && Link(hop.relation, hop.to) in g.entities[k].links
    else hop.from in g.entities && Link(hop.relation, hop.to) in g.entities[hop.from].links
  }

  /** The end of the hop nearer to the start of the search, and the one further away. */
  function Near(upstream: bool, hop: Hop): string {
    if upstream then hop.to else hop.from
  }

  function Far(upstream: bool, hop: Hop): string {
    if upstream then hop.from else hop.to
  }

  function End(upstream: bool, ref: string, path: seq<Hop>): string {
    if path == [] then ref else Far(upstream, path[|path| - 1])
  }

  predicate IsEndpoint(path: seq<Hop>, node: string) {
    exists i :: 0 <= i < |path| && (path[i].from == node || path[i].to == node)
  }

  /** `hop` continues `path`: a link from its end to a node that is no endpoint of an earlier hop. */
  predicate Extends(g: Graph, upstream: bool, ref: string, path: seq<Hop>, hop: Hop) {
    && IsLink(g, upstream, hop)
    && Near(upstream, hop) == End(upstream, ref, path)
    && !IsEndpoint(path, Far(upstream, hop))
  }

  /** A chain of hops from `ref` in which every hop continues the ones before it. */
  predicate Chain(g: Graph, upstream: bool, ref: string, path: seq<Hop>) {
    forall i :: 0 <= i < |path| ==> Extends(g, upstream, ref, path[..i], path[i])
  }

  lemma ChainStep(g: Graph, upstream: bool, ref: string, path: seq<Hop>, hop: Hop)
    ensures Chain(g, upstream, ref, path + [hop]) <==> Chain(g, upstream, ref, path) && Extends(g, upstream, ref, path, hop)
  {
    var longer := path + [hop];
    assert forall i :: 0 <= i <= |path| ==> longer[..i] == path[..i];
    assert longer[|path|] == hop && path[..|path|] == path;
    assert forall i :: 0 <= i < |path| ==> longer[i] == path[i];
    if Chain(g, upstream, ref, longer) {
      assert Extends(g, upstream, ref, longer[..|path|], longer[|path|]);
      forall i | 0 <= i < |path| ensures Extends(g, upstream, ref, path[..i], path[i]) {
        assert Extends(g, upstream, ref, longer[..i], longer[i]);
      }
    }
  }

  // ----- All hop lists up to a length: a finite universe for termination -----

  function Hops(g: Graph): set<Hop> {
    set k, link | k in g.entities && link in g.entities[k].links :: Hop(g.entities[k].ref, link.relation, link.target)
  }

  function KeyedHops(g: Graph): set<Hop> {
    set k, link | k in g.entities && link in g.entities[k].links :: Hop(k, link.relation, link.target)
  }

  ghost function Universe(hops: set<Hop>, n: nat): set<seq<Hop>> {
    if n == 0 then {[]}
    else Universe(hops, n - 1) + set path, hop | path in Universe(hops, n - 1) && hop in hops :: path + [hop]
  }

  lemma {:induction false} UniverseMonotone(hops: set<Hop>, m: nat, n: nat)
    requires m <= n
    ensures Universe(hops, m) <= Universe(hops, n)
    decreases n
  {
    if m < n { UniverseMonotone(hops, m, n - 1); }
  }

  lemma {:induction false} InUniverse(g: Graph, upstream: bool, ref: string, path: seq<Hop>, n: nat)
    requires Chain(g, upstream, ref, path) && |path| <= n
    ensures path in Universe(Hops(g) + KeyedHops(g), n)
  {
    hide IsEndpoint, IsLink, Hops, KeyedHops;
    if path == [] {
      UniverseMonotone(Hops(g) + KeyedHops(g), 0, n);
    } else {
      var front, hop := path[..|path| - 1], path[|path| - 1];
      assert path == front + [hop];
      ChainStep(g, upstream, ref, front, hop);
      LinkIsHop(g, upstream, hop);
      hide Chain, Extends;
      InUniverse(g, upstream, ref, front, n - 1);
    }
  }

  lemma LinkIsHop(g: Graph, upstream: bool, hop: Hop)
    requires IsLink(g, upstream, hop)
    ensures hop in Hops(g) + KeyedHops(g)
  {
    if upstream {
      var k :| k in g.entities && g.entities[k].ref == hop.from && Link(hop.relation, hop.to) in g.entities[k].links;
    }
  }

  // ----- Neighbours of the current node, in the order of the source -----

  /** (neighbour, relation) pairs. */
  function DownNeighbors(links: seq<Link>): (r: seq<(string, string)>)
    ensures |r| == |links| && forall i :: 0 <= i < |links| ==> r[i] == (links[i].target, links[i].relation)
  {
    seq(|links|, i requires 0 <= i < |links| => (links[i].target, links[i].relation))
  }

  function UpLinks(entity: Entity, links: seq<Link>, current: string): (r: seq<(string, string)>)
    ensures forall n :: n in r <==> n.0 == entity.ref && Link(n.1, current) in links
  {
    if links == [] then [] else
      (if links[0].target == current then [(entity.ref, links[0].relation)] else [])
      + UpLinks(entity, links[1..], current)
  }

  function UpNeighbors(g: Graph, keys: seq<string>, current: string): (r: seq<(string, string)>)
    requires forall k :: k in keys ==> k in g.entities
    ensures forall n :: n in r <==> exists k :: k in keys && g.entities[k].ref == n.0 && Link(n.1, current) in g.entities[k].links
  {
    if keys == [] then [] else
      UpLinks(g.entities[keys[0]], g.entities[keys[0]].links, current) + UpNeighbors(g, keys[1..], current)
  }

  function Neighbors(g: Graph, upstream: bool, current: string): seq<(string, string)> {
    if upstream then UpNeighbors(g, SortedKeys(g.entities.Keys), current)
    else if current in g.entities then DownNeighbors(g.entities[current].links)
    else []
  }

  function HopTo(upstream: bool, current: string, neighbor: (string, string)): Hop {
    if upstream then Hop(neighbor.0, neighbor.1, current) else Hop(current, neighbor.1, neighbor.0)
  }

  lemma NeighborsAreLinks(g: Graph, upstream: bool, current: string, n: (string, string))
    ensures n in Neighbors(g, upstream, current) <==> IsLink(g, upstream, HopTo(upstream, current, n))
  {
    if !upstream && current in g.entities {
      var links := g.entities[current].links;
      if Link(n.1, n.0) in links {
        var i :| 0 <= i < |links| && links[i] == Link(n.1, n.0);
        assert DownNeighbors(links)[i] == n;
      }
      if n in DownNeighbors(links) {
        var i :| 0 <= i < |links| && DownNeighbors(links)[i] == n;
        assert links[i] == Link(n.1, n.0);
      }
    }
  }

  // ----- The search -----

  function Froms(path: seq<Hop>): (r: seq<string>)
    ensures |r| == |path|
  {
    seq(|path|, i requires 0 <= i < |path| => path[i].from)
  }

  /** The path can be continued to one of its own nodes. */
  ghost predicate TurnsBack(g: Graph, upstream: bool, ref: string, path: seq<Hop>) {
    exists hop :: IsLink(g, upstream, hop) && Near(upstream, hop) == End(upstream, ref, path) && IsEndpoint(path, Far(upstream, hop))
  }

  /** One entry for every neighbour, with multiplicity, that is already a node of the path. */
  function Backs(path: seq<Hop>, neighbors: seq<(string, string)>): seq<seq<string>> {
    if neighbors == [] then []
    else
      var n := |neighbors| - 1;
      Backs(path, neighbors[..n]) + if IsEndpoint(path, neighbors[n].0) then [Froms(path)] else []
  }

  function CycleEntries(g: Graph, upstream: bool, ref: string, path: seq<Hop>): seq<seq<string>> {
    Backs(path, Neighbors(g, upstream, End(upstream, ref, path)))
  }

  ghost function Turning(path: seq<Hop>, neighbors: seq<(string, string)>): set<nat> {
    set j: nat | j < |neighbors| && IsEndpoint(path, neighbors[j].0)
  }

  /** The entries of a path are all alike, as many as neighbours that it turns back to. */
  lemma {:induction false} BacksCount(path: seq<Hop>, neighbors: seq<(string, string)>)
    ensures |Backs(path, neighbors)| == |Turning(path, neighbors)|
    ensures forall i :: 0 <= i < |Backs(path, neighbors)| ==> Backs(path, neighbors)[i] == Froms(path)
    decreases |neighbors|
  {
    hide IsEndpoint;
    if neighbors == [] {
    } else {
      var n := |neighbors| - 1;
      BacksCount(path, neighbors[..n]);
      assert n !in Turning(path, neighbors[..n]);
      assert Turning(path, neighbors) == Turning(path, neighbors[..n]) + if IsEndpoint(path, neighbors[n].0) then {n} else {};
    }
  }

  lemma TurningBack(g: Graph, upstream: bool, ref: string, path: seq<Hop>)
    ensures CycleEntries(g, upstream, ref, path) == [] <==> !TurnsBack(g, upstream, ref, path)
  {
    hide Neighbors, IsEndpoint, IsLink;
    var current := End(upstream, ref, path);
    var neighbors := Neighbors(g, upstream, current);
    BacksCount(path, neighbors);
    if j: nat :| j in Turning(path, neighbors) {
      var hop := HopTo(upstream, current, neighbors[j]);
      NeighborsAreLinks(g, upstream, current, neighbors[j]);
      assert IsLink(g, upstream, hop) && Near(upstream, hop) == current && Far(upstream, hop) == neighbors[j].0;
    }
    if TurnsBack(g, upstream, ref, path) {
      var hop :| IsLink(g, upstream, hop) && Near(upstream, hop) == current && IsEndpoint(path, Far(upstream, hop));
      var n := (Far(upstream, hop), hop.relation);
      assert HopTo(upstream, current, n) == hop;
      NeighborsAreLinks(g, upstream, current, n);
      var j: nat :| j < |neighbors| && neighbors[j] == n;
      assert j in Turning(path, neighbors);
    }
  }

  /** Every continuation of `path` is in `paths`. */
  ghost predicate Closed(g: Graph, upstream: bool, ref: string, path: seq<Hop>, paths: set<seq<Hop>>) {
    forall hop {:trigger path + [hop]} :: Extends(g, upstream, ref, path, hop) ==> path + [hop] in paths
  }

  /** Each of the paths continues `path` by one hop. */
  ghost predicate Continuations(g: Graph, upstream: bool, ref: string, path: seq<Hop>, found: seq<seq<Hop>>) {
    forall i :: 0 <= i < |found| ==>
      |found[i]| == |path| + 1 && found[i][..|path|] == path && Extends(g, upstream, ref, path, found[i][|path|])
  }

  /** What has been found when the first `k` neighbours have been looked at. */
  ghost predicate Expanding(g: Graph, upstream: bool, ref: string, path: seq<Hop>, visited: set<seq<Hop>>,
                            neighbors: seq<(string, string)>, k: nat, found: seq<seq<Hop>>)
    requires k <= |neighbors|
  {
    && Distinct(found) && ToSet(found) !! visited && Continuations(g, upstream, ref, path, found)
    && forall j :: 0 <= j < k && !IsEndpoint(path, neighbors[j].0) ==>
         path + [HopTo(upstream, End(upstream, ref, path), neighbors[j])] in visited + ToSet(found)
  }

  lemma ExpandingPasses(g: Graph, upstream: bool, ref: string, path: seq<Hop>, visited: set<seq<Hop>>,
                        neighbors: seq<(string, string)>, k: nat, found: seq<seq<Hop>>)
    requires k < |neighbors| && Expanding(g, upstream, ref, path, visited, neighbors, k, found)
    requires IsEndpoint(path, neighbors[k].0)
          || path + [HopTo(upstream, End(upstream, ref, path), neighbors[k])] in visited + ToSet(found)
    ensures Expanding(g, upstream, ref, path, visited, neighbors, k + 1, found)
  {
    hide Distinct, Continuations, IsEndpoint;
  }

  lemma ExpandingAdds(g: Graph, upstream: bool, ref: string, path: seq<Hop>, visited: set<seq<Hop>>,
                      neighbors: seq<(string, string)>, k: nat, found: seq<seq<Hop>>)
    requires neighbors == Neighbors(g, upstream, End(upstream, ref, path)) && k < |neighbors|
    requires Expanding(g, upstream, ref, path, visited, neighbors, k, found) && !IsEndpoint(path, neighbors[k].0)
    requires path + [HopTo(upstream, End(upstream, ref, path), neighbors[k])] !in visited + ToSet(found)
    ensures Expanding(g, upstream, ref, path, visited, neighbors, k + 1,
                      found + [path + [HopTo(upstream, End(upstream, ref, path), neighbors[k])]])
  {
    hide IsEndpoint, IsLink, Neighbors;
    var hop := HopTo(upstream, End(upstream, ref, path), neighbors[k]);
    var more := found + [path + [hop]];
    NeighborsAreLinks(g, upstream, End(upstream, ref, path), neighbors[k]);
    assert Extends(g, upstream, ref, path, hop);
    hide Extends, End, HopTo;
    ToSetConcat(found, [path + [hop]]);
    assert ToSet([path + [hop]]) == {path + [hop]};
    assert more[|found|] == path + [hop] && (path + [hop])[..|path|] == path && (path + [hop])[|path|] == hop;
    assert forall i :: 0 <= i < |found| ==> found[i] in ToSet(found);
  }

  lemma ExpandingEnds(g: Graph, upstream: bool, ref: string, path: seq<Hop>, visited: set<seq<Hop>>, found: seq<seq<Hop>>)
    requires var neighbors := Neighbors(g, upstream, End(upstream, ref, path));
      Expanding(g, upstream, ref, path, visited, neighbors, |neighbors|, found)
    ensures Closed(g, upstream, ref, path, visited + ToSet(found))
  {
    hide IsEndpoint, IsLink, Neighbors, Continuations, Distinct, ToSet;
    var current := End(upstream, ref, path);
    var neighbors := Neighbors(g, upstream, current);
    forall hop | Extends(g, upstream, ref, path, hop) ensures path + [hop] in visited + ToSet(found) {
      var n := (Far(upstream, hop), hop.relation);
      assert HopTo(upstream, current, n) == hop;
      NeighborsAreLinks(g, upstream, current, n);
      var j :| 0 <= j < |neighbors| && neighbors[j] == n;
    }
  }

  /** The loop body of the search: all continuations of one path that were not seen before, and its cycle entries. */
  method Expand(g: Graph, upstream: bool, ref: string, path: seq<Hop>, visited: set<seq<Hop>>)
    returns (found: seq<seq<Hop>>, back: seq<seq<string>>)
    ensures Distinct(found) && ToSet(found) !! visited
    ensures Continuations(g, upstream, ref, path, found) && Closed(g, upstream, ref, path, visited + ToSet(found))
    ensures back == CycleEntries(g, upstream, ref, path)
  {
    hide Neighbors, IsEndpoint, Expanding;
    var current := End(upstream, ref, path);
    var neighbors := Neighbors(g, upstream, current);
    found, back := [], [];
    NothingFound(g, upstream, ref, path, visited, neighbors);
    for k := 0 to |neighbors|
      invariant Expanding(g, upstream, ref, path, visited, neighbors, k, found)
      invariant back == Backs(path, neighbors[..k])
    {
      assert neighbors[..k + 1][..k] == neighbors[..k];
      var extended := path + [HopTo(upstream, current, neighbors[k])];
      if IsEndpoint(path, neighbors[k].0) {
        ExpandingPasses(g, upstream, ref, path, visited, neighbors, k, found);
        back := back + [Froms(path)];
      } else if extended in visited || extended in found {
        ExpandingPasses(g, upstream, ref, path, visited, neighbors, k, found);
      } else {
        ExpandingAdds(g, upstream, ref, path, visited, neighbors, k, found);
        found := found + [extended];
      }
    }
    ExpandingEnds(g, upstream, ref, path, visited, found);
    ExpandingFound(g, upstream, ref, path, visited, neighbors, found);
    assert neighbors[..|neighbors|] == neighbors;
  }

  lemma NothingFound(g: Graph, upstream: bool, ref: string, path: seq<Hop>, visited: set<seq<Hop>>, neighbors: seq<(string, string)>)
    ensures Expanding(g, upstream, ref, path, visited, neighbors, 0, [])
  {
  }

  lemma ExpandingFound(g: Graph, upstream: bool, ref: string, path: seq<Hop>, visited: set<seq<Hop>>,
                       neighbors: seq<(string, string)>, found: seq<seq<Hop>>)
    requires Expanding(g, upstream, ref, path, visited, neighbors, |neighbors|, found)
    ensures Distinct(found) && ToSet(found) !! visited && Continuations(g, upstream, ref, path, found)
  {
  }

  /** All paths listed so far are chains of length 1 to `depth`, each once, in order of length. */
  ghost predicate Sound(g: Graph, upstream: bool, ref: string, depth: nat, paths: seq<seq<Hop>>) {
    && Distinct(paths)
    && (forall i :: 0 <= i < |paths| ==> 1 <= |paths[i]| <= depth && Chain(g, upstream, ref, paths[i]))
    && (forall i, j :: 0 <= i < j < |paths| ==> |paths[i]| <= |paths[j]|)
  }

  /** The empty path followed by `paths`: everything that is ever put in the queue, in order. */
  function Listed(paths: seq<seq<Hop>>, k: nat): seq<Hop>
    requires k <= |paths|
  {
    if k == 0 then [] else paths[k - 1]
  }

  function Entry(upstream: bool, ref: string, path: seq<Hop>): (string, seq<Hop>, nat) {
    (End(upstream, ref, path), path, |path|)
  }

  function Entries(upstream: bool, ref: string, paths: seq<seq<Hop>>): (r: seq<(string, seq<Hop>, nat)>)
    ensures |r| == |paths| && forall i :: 0 <= i < |paths| ==> r[i] == Entry(upstream, ref, paths[i])
  {
    seq(|paths|, i requires 0 <= i < |paths| => Entry(upstream, ref, paths[i]))
  }

  /** The queue holds what is left of the list after the first `done`. */
  ghost predicate Queued(upstream: bool, ref: string, paths: seq<seq<Hop>>, done: nat, queue: seq<(string, seq<Hop>, nat)>) {
    && done + |queue| == |paths| + 1
    && forall k :: done <= k <= |paths| ==> queue[k - done] == Entry(upstream, ref, Listed(paths, k))
  }

  /** Paths never get shorter along the list, nor longer than one hop more than the next to expand. */
  ghost predicate Levelled(paths: seq<seq<Hop>>, done: nat) {
    && (forall i, j :: 0 <= i < j < |paths| ==> |paths[i]| <= |paths[j]|)
    && (done <= |paths| ==> forall j :: 0 <= j < |paths| ==> |paths[j]| <= |Listed(paths, done)| + 1)
  }

  ghost predicate ExpandedUpTo(g: Graph, upstream: bool, ref: string, depth: nat, paths: seq<seq<Hop>>, done: nat)
    requires done <= |paths| + 1
  {
    forall k :: 0 <= k < done && |Listed(paths, k)| < depth ==> Closed(g, upstream, ref, Listed(paths, k), ToSet(paths))
  }

  ghost predicate NoneTurnsBack(g: Graph, upstream: bool, ref: string, depth: nat, paths: seq<seq<Hop>>, done: nat)
    requires done <= |paths| + 1
  {
    forall k :: 0 <= k < done && |Listed(paths, k)| < depth ==> !TurnsBack(g, upstream, ref, Listed(paths, k))
  }

  /** The cycle entries of the first `done` paths of the list that are shorter than the depth, in order. */
  function Cycles(g: Graph, upstream: bool, ref: string, depth: nat, paths: seq<seq<Hop>>, done: nat): seq<seq<string>>
    requires done <= |paths| + 1
  {
    if done == 0 then []
    else
      var path := Listed(paths, done - 1);
      Cycles(g, upstream, ref, depth, paths, done - 1) + if |path| < depth then CycleEntries(g, upstream, ref, path) else []
  }

  lemma {:induction false} CyclesAppend(g: Graph, upstream: bool, ref: string, depth: nat, paths: seq<seq<Hop>>, done: nat, found: seq<seq<Hop>>)
    requires done <= |paths| + 1
    ensures Cycles(g, upstream, ref, depth, paths + found, done) == Cycles(g, upstream, ref, depth, paths, done)
    decreases done
  {
    hide CycleEntries;
    if done == 0 {
    } else {
      CyclesAppend(g, upstream, ref, depth, paths, done - 1, found);
      assert Listed(paths + found, done - 1) == Listed(paths, done - 1);
    }
  }

  lemma {:induction false} NoCycles(g: Graph, upstream: bool, ref: string, depth: nat, paths: seq<seq<Hop>>, done: nat)
    requires done <= |paths| + 1
    ensures Cycles(g, upstream, ref, depth, paths, done) == [] <==> NoneTurnsBack(g, upstream, ref, depth, paths, done)
    decreases done
  {
    hide CycleEntries, TurnsBack;
    if done == 0 {
    } else {
      hide NoneTurnsBack;
      NoCycles(g, upstream, ref, depth, paths, done - 1);
      NoneTurnsBackStep(g, upstream, ref, depth, paths, done - 1);
      TurningBack(g, upstream, ref, Listed(paths, done - 1));
    }
  }

  lemma NoneTurnsBackStep(g: Graph, upstream: bool, ref: string, depth: nat, paths: seq<seq<Hop>>, done: nat)
    requires done <= |paths|
    ensures NoneTurnsBack(g, upstream, ref, depth, paths, done + 1) <==>
            NoneTurnsBack(g, upstream, ref, depth, paths, done)
            && (|Listed(paths, done)| < depth ==> !TurnsBack(g, upstream, ref, Listed(paths, done)))
  {
    hide TurnsBack;
  }

  lemma ExpandKeepsSound(g: Graph, upstream: bool, ref: string, depth: nat, paths: seq<seq<Hop>>, done: nat, found: seq<seq<Hop>>)
    requires Sound(g, upstream, ref, depth, paths) && Levelled(paths, done) && done <= |paths|
    requires |Listed(paths, done)| < depth && Continuations(g, upstream, ref, Listed(paths, done), found)
    requires Distinct(found) && ToSet(found) !! ToSet(paths)
    ensures Sound(g, upstream, ref, depth, paths + found)
  {
    var all, path := paths + found, Listed(paths, done);
    forall i | 0 <= i < |found| ensures Chain(g, upstream, ref, found[i]) {
      assert found[i] == path + [found[i][|path|]];
      ChainStep(g, upstream, ref, path, found[i][|path|]);
    }
    forall i, j | 0 <= i < j < |all| ensures all[i] != all[j] {
      if i < |paths| <= j { assert paths[i] in ToSet(paths) && found[j - |paths|] in ToSet(found); }
    }
  }

  lemma ExpandKeepsLevels(g: Graph, upstream: bool, ref: string, paths: seq<seq<Hop>>, done: nat, found: seq<seq<Hop>>)
    requires Levelled(paths, done) && done <= |paths|
    requires Continuations(g, upstream, ref, Listed(paths, done), found)
    ensures Levelled(paths + found, done + 1)
  {
    var all := paths + found;
    assert forall k :: 0 <= k <= |paths| ==> Listed(all, k) == Listed(paths, k);
  }

  lemma ExpandKeepsExpanded(g: Graph, upstream: bool, ref: string, depth: nat, paths: seq<seq<Hop>>, done: nat, found: seq<seq<Hop>>)
    requires done <= |paths| && ExpandedUpTo(g, upstream, ref, depth, paths, done)
    requires Closed(g, upstream, ref, Listed(paths, done), ToSet(paths) + ToSet(found))
    ensures ExpandedUpTo(g, upstream, ref, depth, paths + found, done + 1)
    ensures ToSet(paths + found) == ToSet(paths) + ToSet(found)
  {
    var all := paths + found;
    assert ToSet(all) == ToSet(paths) + ToSet(found);
    forall k | 0 <= k < done + 1 && |Listed(all, k)| < depth
      ensures Closed(g, upstream, ref, Listed(all, k), ToSet(all))
    {
      assert Listed(all, k) == Listed(paths, k);
    }
  }

  lemma QueueMoves(upstream: bool, ref: string, paths: seq<seq<Hop>>, done: nat, queue: seq<(string, seq<Hop>, nat)>, found: seq<seq<Hop>>)
    requires Queued(upstream, ref, paths, done, queue) && queue != []
    ensures done <= |paths| && queue[0] == Entry(upstream, ref, Listed(paths, done))
    ensures Queued(upstream, ref, paths + found, done + 1, queue[1..] + Entries(upstream, ref, found))
  {
    assert forall k :: 0 <= k <= |paths| ==> Listed(paths + found, k) == Listed(paths, k);
  }

  /** When everything listed has been expanded, every chain is listed. */
  lemma {:induction false} ExpandedIsComplete(g: Graph, upstream: bool, ref: string, depth: nat,
        paths: seq<seq<Hop>>, path: seq<Hop>) returns (k: nat)
    requires ExpandedUpTo(g, upstream, ref, depth, paths, |paths| + 1)
    requires Chain(g, upstream, ref, path) && |path| <= depth
    ensures k <= |paths| && Listed(paths, k) == path
    decreases |path|
  {
    hide IsLink, IsEndpoint, TurnsBack;
    if path == [] {
      k := 0;
    } else {
      var front, hop := path[..|path| - 1], path[|path| - 1];
      assert path == front + [hop];
      ChainStep(g, upstream, ref, front, hop);
      var j := ExpandedIsComplete(g, upstream, ref, depth, paths, front);
      assert Closed(g, upstream, ref, Listed(paths, j), ToSet(paths));
      var i :| 0 <= i < |paths| && paths[i] == path;
      k := i + 1;
    }
  }

  lemma FoundInUniverse(g: Graph, upstream: bool, ref: string, depth: nat, paths: seq<seq<Hop>>)
    requires Sound(g, upstream, ref, depth, paths)
    ensures |paths| <= |Universe(Hops(g) + KeyedHops(g), depth)|
  {
    forall p | p in ToSet(paths) ensures p in Universe(Hops(g) + KeyedHops(g), depth) {
      var i :| 0 <= i < |paths| && paths[i] == p;
      InUniverse(g, upstream, ref, p, depth);
    }
    DistinctSize(paths);
    SubsetSize(ToSet(paths), Universe(Hops(g) + KeyedHops(g), depth));
  }

  /** The listed paths cannot grow for ever: a bound on their number, for termination. */
  lemma ListBound(g: Graph, upstream: bool, ref: string, depth: nat) returns (bound: nat)
    ensures forall paths {:trigger Sound(g, upstream, ref, depth, paths)} :: Sound(g, upstream, ref, depth, paths) ==> |paths| <= bound
  {
    bound := |Universe(Hops(g) + KeyedHops(g), depth)|;
    forall paths | Sound(g, upstream, ref, depth, paths) ensures |paths| <= bound { FoundInUniverse(g, upstream, ref, depth, paths); }
  }

  /** The finished search, read as a specification. */
  lemma SearchIsExact(g: Graph, upstream: bool, ref: string, depth: nat, paths: seq<seq<Hop>>)
    requires Sound(g, upstream, ref, depth, paths) && ExpandedUpTo(g, upstream, ref, depth, paths, |paths| + 1)
    ensures forall path :: path in paths <==> 1 <= |path| <= depth && Chain(g, upstream, ref, path)
    ensures NoneTurnsBack(g, upstream, ref, depth, paths, |paths| + 1) <==>
            forall path :: Chain(g, upstream, ref, path) && |path| < depth ==> !TurnsBack(g, upstream, ref, path)
  {
    forall path | 1 <= |path| <= depth && Chain(g, upstream, ref, path) ensures path in paths {
      var k := ExpandedIsComplete(g, upstream, ref, depth, paths, path);
    }
    if NoneTurnsBack(g, upstream, ref, depth, paths, |paths| + 1) {
      forall path | Chain(g, upstream, ref, path) && |path| < depth ensures !TurnsBack(g, upstream, ref, path) {
        var k := ExpandedIsComplete(g, upstream, ref, depth, paths, path);
      }
    } else {
      var k :| 0 <= k <= |paths| && |Listed(paths, k)| < depth && TurnsBack(g, upstream, ref, Listed(paths, k));
      assert Chain(g, upstream, ref, Listed(paths, k));
    }
  }

  type Queue = seq<(string, seq<Hop>, nat)>

  /** The invariant of the search loop. */
  ghost predicate Searching(g: Graph, upstream: bool, ref: string, depth: nat, paths: seq<seq<Hop>>, done: nat,
                            queue: Queue, cycles: seq<seq<string>>) {
    && Sound(g, upstream, ref, depth, paths) && Queued(upstream, ref, paths, done, queue)
    && Levelled(paths, done)
    && ExpandedUpTo(g, upstream, ref, depth, paths, done)
    && cycles == Cycles(g, upstream, ref, depth, paths, done)
  }

  lemma SearchIsSound(g: Graph, upstream: bool, ref: string, depth: nat, paths: seq<seq<Hop>>, done: nat,
                      queue: Queue, cycles: seq<seq<string>>)
    requires Searching(g, upstream, ref, depth, paths, done, queue, cycles)
    ensures Sound(g, upstream, ref, depth, paths)
  {
  }

  lemma SearchStarts(g: Graph, upstream: bool, ref: string, depth: nat)
    ensures Searching(g, upstream, ref, depth, [], 0, [(ref, [], 0)], [])
  {
  }

  lemma QueueSkips(upstream: bool, ref: string, paths: seq<seq<Hop>>, done: nat, queue: Queue)
    requires Queued(upstream, ref, paths, done, queue) && queue != []
    ensures done <= |paths| && queue[0] == Entry(upstream, ref, Listed(paths, done))
    ensures Queued(upstream, ref, paths, done + 1, queue[1..])
  {
  }

  lemma SkipKeepsExpanded(g: Graph, upstream: bool, ref: string, depth: nat, paths: seq<seq<Hop>>, done: nat)
    requires done <= |paths| && ExpandedUpTo(g, upstream, ref, depth, paths, done) && |Listed(paths, done)| >= depth
    ensures ExpandedUpTo(g, upstream, ref, depth, paths, done + 1)
  {
  }

  lemma SearchSkips(g: Graph, upstream: bool, ref: string, depth: nat, paths: seq<seq<Hop>>, done: nat, queue: Queue, cycles: seq<seq<string>>)
    requires Searching(g, upstream, ref, depth, paths, done, queue, cycles) && queue != [] && queue[0].2 >= depth
    ensures Searching(g, upstream, ref, depth, paths, done + 1, queue[1..], cycles)
  {
    hide Sound, Queued, Levelled, ExpandedUpTo, Cycles, Chain;
    QueueSkips(upstream, ref, paths, done, queue);
    LevelsSkip(paths, done);
    CyclesSkip(g, upstream, ref, depth, paths, done);
    SkipKeepsExpanded(g, upstream, ref, depth, paths, done);
  }

  lemma LevelsSkip(paths: seq<seq<Hop>>, done: nat)
    requires Levelled(paths, done) && done <= |paths|
    ensures Levelled(paths, done + 1)
  {
  }

  lemma CyclesSkip(g: Graph, upstream: bool, ref: string, depth: nat, paths: seq<seq<Hop>>, done: nat)
    requires done <= |paths| && |Listed(paths, done)| >= depth
    ensures Cycles(g, upstream, ref, depth, paths, done + 1) == Cycles(g, upstream, ref, depth, paths, done)
  {
    hide CycleEntries;
  }

  lemma SearchExpands(g: Graph, upstream: bool, ref: string, depth: nat, paths: seq<seq<Hop>>, done: nat, queue: Queue,
                      cycles: seq<seq<string>>, found: seq<seq<Hop>>, back: seq<seq<string>>)
    requires Searching(g, upstream, ref, depth, paths, done, queue, cycles) && queue != [] && queue[0].2 < depth
    requires Continuations(g, upstream, ref, queue[0].1, found) && Distinct(found) && ToSet(found) !! ToSet(paths)
    requires Closed(g, upstream, ref, queue[0].1, ToSet(paths) + ToSet(found))
    requires back == CycleEntries(g, upstream, ref, queue[0].1)
    ensures Searching(g, upstream, ref, depth, paths + found, done + 1, queue[1..] + Entries(upstream, ref, found), cycles + back)
    ensures ToSet(paths + found) == ToSet(paths) + ToSet(found)
  {
    QueueMoves(upstream, ref, paths, done, queue, found);
    ExpandKeepsSound(g, upstream, ref, depth, paths, done, found);
    ExpandKeepsLevels(g, upstream, ref, paths, done, found);
    ExpandKeepsExpanded(g, upstream, ref, depth, paths, done, found);
    CyclesAppend(g, upstream, ref, depth, paths, done, found);
  }

  lemma SearchEnds(g: Graph, upstream: bool, ref: string, depth: nat, paths: seq<seq<Hop>>, done: nat, cycles: seq<seq<string>>)
    requires Searching(g, upstream, ref, depth, paths, done, [], cycles)
    ensures Sound(g, upstream, ref, depth, paths)
    ensures forall path :: path in paths <==> 1 <= |path| <= depth && Chain(g, upstream, ref, path)
    ensures cycles == Cycles(g, upstream, ref, depth, paths, |paths| + 1)
    ensures cycles == [] <==>
            forall path :: Chain(g, upstream, ref, path) && |path| < depth ==> !TurnsBack(g, upstream, ref, path)
  {
    SearchIsExact(g, upstream, ref, depth, paths);
    NoCycles(g, upstream, ref, depth, paths, |paths| + 1);
  }

  function ControllingProperties(entity: Entity): seq<Value> {
    match Get(entity.properties, "controlling_properties") case Some(Arr(items)) => items case _ => []
  }

  /**
   The dependency paths of `ref`: exactly the hop chains of length 1 to `depth`, each once, shorter ones
   first. The cycles are one entry per neighbour that a path shorter than `depth` turns back to, in the
   order of the paths; so there are none iff no chain shorter than `depth` can be continued to one of its
   own nodes.
   */
  method ExplainDependencies(g: Graph, ref: string, direction: string, depth: nat) returns (r: Option<Explanation>)
    ensures r.None? <==> depth > MAX_DEPTH || ref !in g.entities
    ensures r.Some? ==> r.value.ref == ref && r.value.health == g.diagnostics
    ensures r.Some? ==> r.value.controllingProperties == ControllingProperties(g.entities[ref])
    ensures r.Some? ==> Sound(g, direction == "upstream", ref, depth, r.value.paths)
    ensures r.Some? ==> forall path :: path in r.value.paths <==>
              1 <= |path| <= depth && Chain(g, direction == "upstream", ref, path)
    ensures r.Some? ==> r.value.cycles == Cycles(g, direction == "upstream", ref, depth, r.value.paths, |r.value.paths| + 1)
    ensures r.Some? ==> (r.value.cycles == [] <==>
              forall path :: Chain(g, direction == "upstream", ref, path) && |path| < depth ==>
                !TurnsBack(g, direction == "upstream", ref, path))
  {
    if depth > MAX_DEPTH || ref !in g.entities { return None; }
    var paths, cycles := Search(g, direction == "upstream", ref, depth);
    r := Some(Explanation(ref, paths, ControllingProperties(g.entities[ref]), cycles, g.diagnostics));
  }

  /** The queue loop of `explain_dependencies`; it ends on cyclic graphs too. */
  method Search(g: Graph, upstream: bool, ref: string, depth: nat) returns (paths: seq<seq<Hop>>, cycles: seq<seq<string>>)
    ensures Sound(g, upstream, ref, depth, paths)
    ensures forall path :: path in paths <==> 1 <= |path| <= depth && Chain(g, upstream, ref, path)
    ensures cycles == Cycles(g, upstream, ref, depth, paths, |paths| + 1)
    ensures cycles == [] <==>
            forall path :: Chain(g, upstream, ref, path) && |path| < depth ==> !TurnsBack(g, upstream, ref, path)
  {
    hide Searching, Sound;
    paths, cycles := [], [];
    var queue: Queue := [(ref, [], 0)];
    var visited: set<seq<Hop>> := {};
    ghost var done := 0;
    ghost var bound := ListBound(g, upstream, ref, depth);
    SearchStarts(g, upstream, ref, depth);
    while queue != []
      invariant Searching(g, upstream, ref, depth, paths, done, queue, cycles)
      invariant visited == ToSet(paths)
      decreases 2 * (bound - |paths|) + |queue|
    {
      var (current, path, currentDepth) := queue[0];
      SearchIsSound(g, upstream, ref, depth, paths, done, queue, cycles);
      if currentDepth >= depth {
        SearchSkips(g, upstream, ref, depth, paths, done, queue, cycles);
        queue, done := queue[1..], done + 1;
      } else {
        var found, back := Expand(g, upstream, ref, path, visited);
        var paths', queue', cycles' := paths + found, queue[1..] + Entries(upstream, ref, found), cycles + back;
        visited := visited + set p | p in found;
        SearchExpands(g, upstream, ref, depth, paths, done, queue, cycles, found, back);
        paths, queue, cycles, done := paths', queue', cycles', done + 1;
      }
    }
    SearchEnds(g, upstream, ref, depth, paths, done, cycles);
  }
}
