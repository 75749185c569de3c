/** Executing a bounded query with continuation-token paging (`execute`, `continuation_offset`). */
module Query {
  import opened Text
  import opened Lists
  import opened Ordered
  import opened Json
  import opened Ccir
  import opened QueryOrder
  import opened Traversal
  import opened Filters

  datatype Scope = Document | Selection | Refs(refs: seq<string>)

  /** Everything in a query except its continuation token; this is what the query hash covers. */
  datatype QuerySpec = QuerySpec(
    revision: string, from: Scope, kind: seq<string>, predicateValue: Value, traverse: seq<TraversalStep>,
    select: seq<string>, orderBy: seq<OrderBy>, limit: nat, costBudget: Option<nat>, tolerance: Option<Quantity>)

  /** `OutOfRange` stands for the aborting slice when a token's offset lies beyond the result list. */
  datatype QueryError =
    | RevisionMismatch(requested: string, actual: string)
    | CostExceeded(estimated: nat, budget: nat)
    | InvalidContinuation
    | DepthExceeded(depth: nat)
    | OutOfRange

  datatype QueryMatch = QueryMatch(ref: string, projection: Value, evidencePath: seq<string>)

  datatype Tolerances = Tolerances(linear: Option<Quantity>, angularDeg: real)

  /** What all answers to one query on one graph have in common. */
  datatype Header = Header(queryHash: string, observedRevision: string, tolerances: Tolerances, estimated: nat)

  datatype QueryResult = QueryResult(
    header: Header, complete: bool, matches: seq<QueryMatch>, omittedCounts: map<string, nat>,
    continuation: Option<string>, executed: nat)

  datatype Answer = Answered(result: QueryResult) | Refused(error: QueryError)

  /** What the query engine is given from elsewhere: the text of the SHA-256 digest of a query without
      its continuation, and the printing of floats. */
  datatype Engine = Engine(hash: QuerySpec -> string, floats: FloatText)

  // ----- Sorting and deduplication -----

  function Compare(g: Graph, a: string, b: string, order: seq<OrderBy>, floats: FloatText): Ordering {
    CompareEntities(Find(g, a), Find(g, b), order, floats)
  }

  function Find(g: Graph, ref: string): Option<Entity> {
    if ref in g.entities then Some(g.entities[ref]) else None
  }

  /** Insert after everything that is not greater, as a stable sort does. */
  function Inserted(g: Graph, refs: seq<string>, ref: string, order: seq<OrderBy>, floats: FloatText): (r: seq<string>)
    ensures multiset(r) == multiset(refs) + multiset{ref}
  {
    if refs == [] then [ref] else
      var last := refs[|refs| - 1];
      assert refs == refs[..|refs| - 1] + [last];
      if Compare(g, last, ref, order, floats) != Gt then refs + [ref]
      else Inserted(g, refs[..|refs| - 1], ref, order, floats) + [last]
  }

  /** `sort_by`. */
  function SortedBy(g: Graph, refs: seq<string>, order: seq<OrderBy>, floats: FloatText): (r: seq<string>)
    ensures multiset(r) == multiset(refs)
  {
    if refs == [] then [] else
      assert refs == refs[..|refs| - 1] + [refs[|refs| - 1]];
      Inserted(g, SortedBy(g, refs[..|refs| - 1], order, floats), refs[|refs| - 1], order, floats)
  }

  predicate Ascending(g: Graph, refs: seq<string>, order: seq<OrderBy>, floats: FloatText) {
    forall i, j :: 0 <= i < j < |refs| ==> Compare(g, refs[i], refs[j], order, floats) != Gt
  }

  predicate StrictlyAscending(g: Graph, refs: seq<string>, order: seq<OrderBy>, floats: FloatText) {
    forall i, j :: 0 <= i < j < |refs| ==> Compare(g, refs[i], refs[j], order, floats) == Lt
  }

  predicate Entities(g: Graph, refs: seq<string>) {
    forall r :: r in refs ==> r in g.entities
  }

  lemma CompareLaws(g: Graph, a: string, b: string, c: string, order: seq<OrderBy>, floats: FloatText)
    requires g.Keyed() && a in g.entities && b in g.entities && c in g.entities
    ensures Compare(g, b, a, order, floats) == Compare(g, a, b, order, floats).Reverse()
    ensures Chained(Compare(g, a, b, order, floats), Compare(g, b, c, order, floats), Compare(g, a, c, order, floats))
    ensures Compare(g, a, b, order, floats) == Eq <==> a == b
  {
    CompareEntitiesIsTotalOrder(Find(g, a), Find(g, b), Find(g, c), order, floats);
  }

  lemma {:induction false} InsertedAscending(g: Graph, refs: seq<string>, ref: string, order: seq<OrderBy>, floats: FloatText)
    requires g.Keyed() && Entities(g, refs) && ref in g.entities && Ascending(g, refs, order, floats)
    ensures Ascending(g, Inserted(g, refs, ref, order, floats), order, floats)
    decreases |refs|
  {
    hide Compare;
    if refs == [] {
    } else {
      var last, front := refs[|refs| - 1], refs[..|refs| - 1];
      assert refs == front + [last];
      if Compare(g, last, ref, order, floats) != Gt {
        forall i | 0 <= i < |refs| ensures Compare(g, refs[i], ref, order, floats) != Gt {
          CompareLaws(g, refs[i], last, ref, order, floats);
          CompareLaws(g, refs[i], ref, ref, order, floats);
        }
      } else {
        InsertedAscending(g, front, ref, order, floats);
        CompareLaws(g, last, ref, ref, order, floats);
        forall i | 0 <= i < |Inserted(g, front, ref, order, floats)|
          ensures Compare(g, Inserted(g, front, ref, order, floats)[i], last, order, floats) != Gt
        {
          InsertedMember(g, front, ref, order, floats, i);
        }
      }
    }
  }

  lemma InsertedMember(g: Graph, refs: seq<string>, ref: string, order: seq<OrderBy>, floats: FloatText, i: nat)
    requires i < |Inserted(g, refs, ref, order, floats)|
    ensures Inserted(g, refs, ref, order, floats)[i] == ref || Inserted(g, refs, ref, order, floats)[i] in refs
  {
    var placed := Inserted(g, refs, ref, order, floats);
    assert multiset(placed) == multiset(refs) + multiset{ref};
    hide Inserted, Compare;
    assert placed[i] in multiset(placed);
  }

  lemma {:induction false} SortedByAscending(g: Graph, refs: seq<string>, order: seq<OrderBy>, floats: FloatText)
    requires g.Keyed() && Entities(g, refs)
    ensures Ascending(g, SortedBy(g, refs, order, floats), order, floats)
    ensures forall x :: x in SortedBy(g, refs, order, floats) <==> x in refs
    decreases |refs|
  {
    assert forall x :: x in SortedBy(g, refs, order, floats) <==> x in multiset(SortedBy(g, refs, order, floats));
    assert forall x :: x in refs <==> x in multiset(refs);
    if refs == [] {
    } else {
      var front := refs[..|refs| - 1];
      SortedByAscending(g, front, order, floats);
      InsertedAscending(g, SortedBy(g, front, order, floats), refs[|refs| - 1], order, floats);
    }
  }

  /** On a sorted list, dropping adjacent duplicates leaves no duplicate at all. */
  lemma {:induction false} DedupedStrict(g: Graph, refs: seq<string>, order: seq<OrderBy>, floats: FloatText)
    requires g.Keyed() && Entities(g, refs) && Ascending(g, refs, order, floats)
    ensures StrictlyAscending(g, Deduped(refs), order, floats)
    decreases |refs|
  {
    if |refs| <= 1 {
    } else {
      var rest := refs[1..];
      assert Ascending(g, rest, order, floats) by {
        assert forall i :: 0 <= i < |rest| ==> rest[i] == refs[i + 1];
      }
      DedupedStrict(g, rest, order, floats);
      if refs[0] != refs[1] {
        forall j | 0 <= j < |Deduped(rest)| ensures Compare(g, refs[0], Deduped(rest)[j], order, floats) == Lt {
          var x := Deduped(rest)[j];
          assert x in rest;
          var k :| 0 <= k < |rest| && rest[k] == x;
          assert refs[k + 1] == x;
          CompareLaws(g, refs[0], refs[1], x, order, floats);
          CompareLaws(g, refs[0], x, x, order, floats);
          CompareLaws(g, refs[1], x, x, order, floats);
        }
      }
    }
  }

  // ----- The result list -----

  predicate KeepsRef(g: Graph, kinds: seq<string>, predicateValue: Value, ref: string) {
    && ref in g.entities
    && (kinds == [] || g.entities[ref].kind in kinds)
    && MatchesPredicate(g.entities[ref], predicateValue, g)
  }

  /** `retain`. */
  function Kept(g: Graph, refs: seq<string>, kinds: seq<string>, predicateValue: Value): (r: seq<string>)
    ensures forall x :: x in r <==> x in refs && KeepsRef(g, kinds, predicateValue, x)
  {
    if refs == [] then []
    else (if KeepsRef(g, kinds, predicateValue, refs[0]) then [refs[0]] else [])
         + Kept(g, refs[1..], kinds, predicateValue)
  }

  function ScopeRefs(g: Graph, query: QuerySpec, selection: seq<string>): seq<string> {
    match query.from
    case Document => SortedKeys(g.entities.Keys)
    case Selection => selection
    case Refs(refs) => refs
  }

  /** The references the query is about: its scope, or what the traversal reaches from it. */
  ghost predicate InReach(g: Graph, query: QuerySpec, selection: seq<string>, ref: string) {
    if query.traverse == [] then ref in ScopeRefs(g, query, selection)
    else Chosen(g, ToSet(ScopeRefs(g, query, selection)), query.traverse, ref)
  }

  function Listing(g: Graph, query: QuerySpec, selection: seq<string>, engine: Engine): (list: seq<string>)
    ensures Entities(g, list)
  {
    var scope := ScopeRefs(g, query, selection);
    var refs := if query.traverse == [] then scope else SortedKeys(Reached(g, ToSet(scope), query.traverse));
    var kept := Kept(g, refs, query.kind, query.predicateValue);
    var sorted := SortedBy(g, kept, query.orderBy, engine.floats);
    assert forall x :: x in sorted ==> x in multiset(sorted) && x in multiset(kept) && x in kept;
    Deduped(sorted)
  }

  /** The result list holds exactly the matching references in reach, each once, in strictly ascending order. */
  lemma ListingIsExact(g: Graph, query: QuerySpec, selection: seq<string>, engine: Engine)
    requires g.Keyed()
    ensures StrictlyAscending(g, Listing(g, query, selection, engine), query.orderBy, engine.floats)
    ensures forall ref :: ref in Listing(g, query, selection, engine) <==>
              InReach(g, query, selection, ref) && KeepsRef(g, query.kind, query.predicateValue, ref)
  {
    var scope := ScopeRefs(g, query, selection);
    var refs := if query.traverse == [] then scope else SortedKeys(Reached(g, ToSet(scope), query.traverse));
    var kept := Kept(g, refs, query.kind, query.predicateValue);
    SortedByAscending(g, kept, query.orderBy, engine.floats);
    DedupedStrict(g, SortedBy(g, kept, query.orderBy, engine.floats), query.orderBy, engine.floats);
    forall ref ensures ref in refs <==> InReach(g, query, selection, ref) {
      ReachedIsChosen(g, ToSet(scope), query.traverse, ref);
    }
  }

  /** There is only one strictly ascending list of a given set of entities. */
  lemma {:induction false} AscendingUnique(g: Graph, a: seq<string>, b: seq<string>, order: seq<OrderBy>, floats: FloatText)
    requires g.Keyed() && Entities(g, a) && Entities(g, b)
    requires StrictlyAscending(g, a, order, floats) && StrictlyAscending(g, b, order, floats)
    requires forall x :: x in a <==> x in b
    ensures a == b
    decreases |a|
  {
    assert a != [] ==> a[0] in b;
    assert b != [] ==> b[0] in a;
    if a == [] || b == [] {
    } else {
      FirstIsLeast(g, a, b[0], order, floats);
      FirstIsLeast(g, b, a[0], order, floats);
      CompareLaws(g, a[0], b[0], b[0], order, floats);
      assert a[0] == b[0];
      forall x ensures x in a[1..] <==> x in b[1..] {
        TailMembers(g, a, x, order, floats);
        TailMembers(g, b, x, order, floats);
      }
      AscendingUnique(g, a[1..], b[1..], order, floats);
    }
  }

  lemma FirstIsLeast(g: Graph, a: seq<string>, x: string, order: seq<OrderBy>, floats: FloatText)
    requires g.Keyed() && Entities(g, a) && StrictlyAscending(g, a, order, floats) && x in a
    ensures a[0] == x || Compare(g, a[0], x, order, floats) == Lt
  {
    var i :| 0 <= i < |a| && a[i] == x;
  }

  lemma TailMembers(g: Graph, a: seq<string>, x: string, order: seq<OrderBy>, floats: FloatText)
    requires g.Keyed() && Entities(g, a) && StrictlyAscending(g, a, order, floats) && a != []
    ensures x in a[1..] <==> x in a && x != a[0]
  {
    if x in a[1..] {
      var i :| 0 <= i < |a[1..]| && a[1..][i] == x;
      assert a[i + 1] == x;
      CompareLaws(g, a[0], x, x, order, floats);
    }
    if x in a && x != a[0] {
      var i :| 0 <= i < |a| && a[i] == x;
      assert a[1..][i - 1] == x;
    }
  }

  // ----- Tokens -----

  function Token(hash: string, offset: nat): string {
    "qcont:" + hash + [':'] + Decimal(offset)
  }

  function StripPrefix(text: string, prefix: string): Option<string> {
    if |prefix| <= |text| && text[..|prefix|] == prefix then Some(text[|prefix|..]) else None
  }

  /** `continuation_offset`. */
  function Offset(token: Option<string>, hash: string): Option<nat> {
    match token
    case None => Some(0)
    case Some(text) =>
      match StripPrefix(text, "qcont:")
      case None => None
      case Some(rest) =>
        match RSplitOnce(rest, ':')
        case None => None
        case Some((tokenHash, offset)) => if tokenHash != hash then None else ParseUsize(offset)
  }

  /** A printed token parses back to its offset, whatever characters the hash is made of. */
  lemma TokenRoundTrip(hash: string, offset: nat)
    requires offset < U64_SIZE
    ensures Offset(Some(Token(hash, offset)), hash) == Some(offset)
  {
    var text, digits := Token(hash, offset), Decimal(offset);
    var rest := hash + [':'] + digits;
    assert text == "qcont:" + rest;
    assert text[..6] == "qcont:" && text[6..] == rest;
    assert rest[|hash|] == ':';
    var cut := RSplitOnce(rest, ':').value;
    assert ':' !in digits;
    CutAtLast(hash, cut.0, digits, cut.1, ':');
    ParsePrinted(offset);
  }

  // ----- Execution -----

  function MaxDepth(steps: seq<TraversalStep>): nat {
    if steps == [] then 0
    else if steps[0].maxDepth > MaxDepth(steps[1..]) then steps[0].maxDepth
    else MaxDepth(steps[1..])
  }

  function TraversalCost(steps: seq<TraversalStep>): nat {
    if steps == [] then 0 else (steps[0].maxDepth + 1) * 4 + TraversalCost(steps[1..])
  }

  function EstimateCost(g: Graph, query: QuerySpec): nat {
    var scope := match query.from
      case Document => |g.entities|
      case Selection => 8
      case Refs(refs) => |refs|;
    var cost := scope * (1 + TraversalCost(query.traverse) + |query.select|);
    if cost >= U64_SIZE then U64_SIZE - 1 else cost
  }

  const MAX_QUERY_DEPTH: nat := 8
  const DEFAULT_BUDGET: nat := 10_000
  const MAX_LIMIT: nat := 1_000

  function PageSize(query: QuerySpec): (n: nat)
    ensures 1 <= n <= MAX_LIMIT
  {
    if query.limit < 1 then 1 else if query.limit > MAX_LIMIT then MAX_LIMIT else query.limit
  }

  /** The checks before any work is done. */
  function RequestError(g: Graph, query: QuerySpec): Option<QueryError> {
    var depth := MaxDepth(query.traverse);
    var budget := if query.costBudget.Some? then query.costBudget.value else DEFAULT_BUDGET;
    if query.revision != g.revision.Id() && query.revision != g.revision.GeometryId() then
      Some(RevisionMismatch(query.revision, g.revision.Id()))
    else if depth > MAX_QUERY_DEPTH then Some(DepthExceeded(depth))
    else if EstimateCost(g, query) > budget then Some(CostExceeded(EstimateCost(g, query), budget))
    else None
  }

  const OMITTED := "matches_after_limit"

  /** One page of a result list. */
  function Page(header: Header, size: nat, continuation: Option<string>, list: seq<QueryMatch>): Answer {
    match Offset(continuation, header.queryHash)
    case None => Refused(InvalidContinuation)
    case Some(start) =>
      if start > |list| then Refused(OutOfRange)
      else
        var end := if start + size < |list| then start + size else |list|;
        Answered(QueryResult(header, end == |list|, list[start..end],
                             if end < |list| then map[OMITTED := |list| - end] else map[],
                             if end < |list| then Some(Token(header.queryHash, end)) else None, end - start))
  }

  /** `evidence_path`. */
  function EvidencePath(ref: string, scope: Scope): seq<string> {
    match scope
    case Selection => ["selection", "contains", ref]
    case Refs(_) => ["explicit_scope", ref]
    case Document => ["document", "contains", ref]
  }

  function MatchOf(g: Graph, query: QuerySpec, ref: string): QueryMatch
    requires ref in g.entities
  {
    QueryMatch(ref, Projection(g.entities[ref], query.select), EvidencePath(ref, query.from))
  }

  /** What is reported for each reference of a list. */
  function Reported(g: Graph, query: QuerySpec, refs: seq<string>): (r: seq<QueryMatch>)
    requires Entities(g, refs)
    ensures |r| == |refs| && forall i :: 0 <= i < |refs| ==> r[i] == MatchOf(g, query, refs[i])
  {
    seq(|refs|, i requires 0 <= i < |refs| => MatchOf(g, query, refs[i]))
  }

  function HeaderOf(g: Graph, query: QuerySpec, engine: Engine): Header {
    Header(engine.hash(query), g.revision.Id(), Tolerances(query.tolerance, 0.1), EstimateCost(g, query))
  }

  function Executed(g: Graph, query: QuerySpec, continuation: Option<string>, selection: seq<string>, engine: Engine): Answer {
    match RequestError(g, query)
    case Some(e) => Refused(e)
    case None =>
      Page(HeaderOf(g, query, engine), PageSize(query), continuation, Reported(g, query, Listing(g, query, selection, engine)))
  }

  /** Scope, traversal, filter, sort and deduplication. */
  method List(g: Graph, query: QuerySpec, selection: seq<string>, engine: Engine) returns (refs: seq<string>)
    ensures refs == Listing(g, query, selection, engine)
  {
    refs := ScopeRefs(g, query, selection);
    if query.traverse != [] { refs := Traverse(g, refs, query.traverse); }
    refs := Kept(g, refs, query.kind, query.predicateValue);
    refs := SortedBy(g, refs, query.orderBy, engine.floats);
    refs := Deduped(refs);
  }

  /** Cut one page out of the list and report its references. */
  method TakePage(g: Graph, query: QuerySpec, continuation: Option<string>, refs: seq<string>, engine: Engine) returns (r: Answer)
    requires Entities(g, refs)
    ensures r == Page(HeaderOf(g, query, engine), PageSize(query), continuation, Reported(g, query, refs))
  {
    hide MatchOf, Offset, Token, EstimateCost, PageSize, HeaderOf;
    var header, size := HeaderOf(g, query, engine), PageSize(query);
    var offset := Offset(continuation, header.queryHash);
    if offset.None? { return Refused(InvalidContinuation); }
    var start := offset.value;
    var end := if start + size < |refs| then start + size else |refs|;
    if start > end { return Refused(OutOfRange); }
    var matches := Reported(g, query, refs[start..end]);
    assert matches == Reported(g, query, refs)[start..end];
    var omitted := if end < |refs| then map[OMITTED := |refs| - end] else map[];
    var token := if end < |refs| then Some(Token(header.queryHash, end)) else None;
    r := Answered(QueryResult(header, end == |refs|, matches, omitted, token, end - start));
  }

  method CheckRequest(g: Graph, query: QuerySpec) returns (e: Option<QueryError>)
    ensures e == RequestError(g, query)
  {
    if query.revision != g.revision.Id() && query.revision != g.revision.GeometryId() {
      return Some(RevisionMismatch(query.revision, g.revision.Id()));
    }
    var depth := MaxDepth(query.traverse);
    if depth > MAX_QUERY_DEPTH { return Some(DepthExceeded(depth)); }
    var estimated := EstimateCost(g, query);
    var budget := if query.costBudget.Some? then query.costBudget.value else DEFAULT_BUDGET;
    if estimated > budget { return Some(CostExceeded(estimated, budget)); }
    return None;
  }

  method Execute(g: Graph, query: QuerySpec, continuation: Option<string>, selection: seq<string>, engine: Engine) returns (r: Answer)
    ensures r == Executed(g, query, continuation, selection, engine)
  {
    var failed := CheckRequest(g, query);
    if failed.Some? { return Refused(failed.value); }
    var refs := List(g, query, selection, engine);
    r := TakePage(g, query, continuation, refs, engine);
  }

  // ----- Paging is lossless -----

  /** The pages from `start` on, following each continuation token until a page is complete. */
  function Pages(header: Header, size: nat, continuation: Option<string>, list: seq<QueryMatch>, start: nat): seq<QueryResult>
    requires start <= |list| < U64_SIZE && size >= 1
    requires Offset(continuation, header.queryHash) == Some(start)
    decreases |list| - start
  {
    var page := Page(header, size, continuation, list).result;
    if page.complete then [page] else
      TokenRoundTrip(header.queryHash, start + size);
      [page] + Pages(header, size, page.continuation, list, start + size)
  }

  /** The pages of a whole query. */
  function PagesOf(g: Graph, query: QuerySpec, continuation: Option<string>, selection: seq<string>, engine: Engine, start: nat): seq<QueryResult>
    requires start <= |Listing(g, query, selection, engine)| < U64_SIZE
    requires Offset(continuation, engine.hash(query)) == Some(start)
  {
    Pages(HeaderOf(g, query, engine), PageSize(query), continuation, Reported(g, query, Listing(g, query, selection, engine)), start)
  }

  lemma {:induction false} PagesAreAnswered(header: Header, size: nat, continuation: Option<string>, list: seq<QueryMatch>, start: nat, i: nat)
    requires start <= |list| < U64_SIZE && size >= 1
    requires Offset(continuation, header.queryHash) == Some(start)
    requires i < |Pages(header, size, continuation, list, start)|
    ensures var pages := Pages(header, size, continuation, list, start);
      Page(header, size, if i == 0 then continuation else pages[i - 1].continuation, list) == Answered(pages[i])
    decreases i
  {
    hide Offset, Token;
    var page := Page(header, size, continuation, list).result;
    if i == 0 {
    } else {
      TokenRoundTrip(header.queryHash, start + size);
      PagesAreAnswered(header, size, page.continuation, list, start + size, i - 1);
      var rest := Pages(header, size, page.continuation, list, start + size);
      assert Pages(header, size, continuation, list, start) == [page] + rest;
    }
  }

  /** These are the pages that `Execute` gives: for one graph, query and selection the pages of the tokens. */
  lemma PagesAreExecuted(g: Graph, query: QuerySpec, continuation: Option<string>, selection: seq<string>, engine: Engine, start: nat, i: nat)
    requires RequestError(g, query).None?
    requires start <= |Listing(g, query, selection, engine)| < U64_SIZE
    requires Offset(continuation, engine.hash(query)) == Some(start)
    requires i < |PagesOf(g, query, continuation, selection, engine, start)|
    ensures var pages := PagesOf(g, query, continuation, selection, engine, start);
      Executed(g, query, if i == 0 then continuation else pages[i - 1].continuation, selection, engine) == Answered(pages[i])
  {
    hide Listing, RequestError, Offset, Pages, Page;
    PagesAreAnswered(HeaderOf(g, query, engine), PageSize(query), continuation,
                     Reported(g, query, Listing(g, query, selection, engine)), start, i);
  }

  function Matches(pages: seq<QueryResult>): seq<QueryMatch> {
    if pages == [] then [] else pages[0].matches + Matches(pages[1..])
  }

  function RefsOf(matches: seq<QueryMatch>): (r: seq<string>)
    ensures |r| == |matches| && forall i :: 0 <= i < |matches| ==> r[i] == matches[i].ref
  {
    seq(|matches|, i requires 0 <= i < |matches| => matches[i].ref)
  }

  function Omitted(page: QueryResult): nat {
    if OMITTED in page.omittedCounts then page.omittedCounts[OMITTED] else 0
  }

  /** Pages needed for `n` results. */
  function PageCount(n: nat, size: nat): nat
    requires size >= 1
  {
    if n <= size then 1 else 1 + PageCount(n - size, size)
  }

  lemma QuotientUnique(x: nat, size: nat, q: nat, r: nat)
    requires size >= 1 && x == q * size + r && r < size
    ensures x / size == q
  {
    var p := x / size;
    assert p * size <= x < (p + 1) * size;
    if p < q { MultiplesGrow(p + 1, q, size); }
    if q < p { MultiplesGrow(q + 1, p, size); }
  }

  lemma MultiplesGrow(a: nat, b: nat, size: nat)
    requires a <= b
    ensures a * size <= b * size
  {
  }

  /** One page for an empty list, otherwise n divided by the page size, rounded up. */
  lemma {:induction false} PageCountIsQuotient(n: nat, size: nat)
    requires size >= 1
    ensures PageCount(n, size) == if n == 0 then 1 else (n + size - 1) / size
  {
    if 0 < n <= size {
      QuotientUnique(n + size - 1, size, 1, n - 1);
    } else if n > size {
      PageCountIsQuotient(n - size, size);
      var x := n - 1;
      QuotientUnique(x + size, size, x / size + 1, x % size);
    }
  }

  ghost predicate CountsAddUp(pages: seq<QueryResult>, start: nat, size: nat, total: nat) {
    forall i :: 0 <= i < |pages| ==>
      && start + i * size + |pages[i].matches| + Omitted(pages[i]) == total
      && (pages[i].complete <==> i == |pages| - 1)
  }

  lemma CountsShift(page: QueryResult, rest: seq<QueryResult>, start: nat, size: nat, total: nat)
    requires rest != [] && CountsAddUp(rest, start + size, size, total)
    requires start + |page.matches| + Omitted(page) == total && !page.complete
    ensures CountsAddUp([page] + rest, start, size, total)
  {
    var pages := [page] + rest;
    forall i | 0 <= i < |pages|
      ensures start + i * size + |pages[i].matches| + Omitted(pages[i]) == total && (pages[i].complete <==> i == |pages| - 1)
    {
      if i > 0 {
        assert pages[i] == rest[i - 1];
        assert start + size + (i - 1) * size == start + i * size;
      }
    }
  }

  /** Following the tokens visits the whole rest of the list: the matches of the pages concatenate to it,
      the number of pages is the rounded-up quotient, and on every page start, matches and omitted add up. */
  lemma {:induction false} PagingIsLossless(header: Header, size: nat, continuation: Option<string>, list: seq<QueryMatch>, start: nat)
    requires start <= |list| < U64_SIZE && size >= 1
    requires Offset(continuation, header.queryHash) == Some(start)
    ensures var pages := Pages(header, size, continuation, list, start);
      && Matches(pages) == list[start..]
      && |pages| == PageCount(|list| - start, size)
      && CountsAddUp(pages, start, size, |list|)
    decreases |list| - start
  {
    hide Offset, Token;
    var page := Page(header, size, continuation, list).result;
    if page.complete {
      assert Matches([page][1..]) == [];
    } else {
      TokenRoundTrip(header.queryHash, start + size);
      PagingIsLossless(header, size, page.continuation, list, start + size);
      var rest := Pages(header, size, page.continuation, list, start + size);
      CountsShift(page, rest, start, size, |list|);
      MatchesCons(page, rest, list, start, start + size);
    }
  }

  lemma MatchesCons(page: QueryResult, rest: seq<QueryResult>, list: seq<QueryMatch>, start: nat, middle: nat)
    requires start <= middle <= |list| && page.matches == list[start..middle] && Matches(rest) == list[middle..]
    ensures Matches([page] + rest) == list[start..]
  {
    assert ([page] + rest)[1..] == rest;
    assert list[start..] == list[start..middle] + list[middle..];
  }

  /** From a request without a token to the complete page: as many pages as the listing needs, and together
      they are the listing, which holds each matching reference in reach exactly once, in order. */
  lemma QueryIsLossless(g: Graph, query: QuerySpec, selection: seq<string>, engine: Engine)
    requires g.Keyed() && RequestError(g, query).None? && |Listing(g, query, selection, engine)| < U64_SIZE
    ensures var list, size := Listing(g, query, selection, engine), PageSize(query);
      var pages := PagesOf(g, query, None, selection, engine, 0);
      && Matches(pages) == Reported(g, query, list) && RefsOf(Matches(pages)) == list
      && |pages| == (if |list| == 0 then 1 else (|list| + size - 1) / size)
      && StrictlyAscending(g, list, query.orderBy, engine.floats)
      && forall ref :: ref in list <==> InReach(g, query, selection, ref) && KeepsRef(g, query.kind, query.predicateValue, ref)
  {
    hide Pages, Listing, PageCount, Matches, RequestError, InReach, StrictlyAscending, KeepsRef, EstimateCost, MatchOf;
    var list, size := Listing(g, query, selection, engine), PageSize(query);
    var reported := Reported(g, query, list);
    ListingIsExact(g, query, selection, engine);
    PagingIsLossless(HeaderOf(g, query, engine), size, None, reported, 0);
    PageCountIsQuotient(|list|, size);
    assert reported[0..] == reported;
    ReportedRefs(g, query, list);
  }

  lemma ReportedRefs(g: Graph, query: QuerySpec, refs: seq<string>)
    requires Entities(g, refs)
    ensures RefsOf(Reported(g, query, refs)) == refs
  {
  }

  /** A token that the engine issued aborts when it is used with another selection: here an empty one. */
  lemma IssuedTokenCanAbort(g: Graph, query: QuerySpec, selection: seq<string>, engine: Engine)
    requires RequestError(g, query).None? && query.from == Selection && query.traverse == []
    requires PageSize(query) < |Listing(g, query, selection, engine)| < U64_SIZE
    ensures var first := Executed(g, query, None, selection, engine);
      && first.Answered? && first.result.continuation.Some?
      && Executed(g, query, first.result.continuation, [], engine) == Refused(OutOfRange)
  {
    hide RequestError, PageSize, Listing, MatchOf, EstimateCost, Offset, Token;
    TokenRoundTrip(engine.hash(query), PageSize(query));
    EmptySelection(g, query, engine);
    assert Offset(None, engine.hash(query)) == Some(0) by { NoToken(engine.hash(query)); }
  }

  lemma EmptySelection(g: Graph, query: QuerySpec, engine: Engine)
    requires query.from == Selection && query.traverse == []
    ensures Listing(g, query, [], engine) == []
  {
  }

  lemma NoToken(hash: string)
    ensures Offset(None, hash) == Some(0)
  {
  }

  /** A query is answered, rather than aborting on its token's offset, exactly when the offset lies within
      the list that this graph and selection give. */
  lemma AnsweredExactlyInRange(g: Graph, query: QuerySpec, continuation: Option<string>, selection: seq<string>, engine: Engine)
    requires RequestError(g, query).None? && Offset(continuation, engine.hash(query)).Some?
    ensures Executed(g, query, continuation, selection, engine).Answered? <==>
            Offset(continuation, engine.hash(query)).value <= |Listing(g, query, selection, engine)|
  {
  }
}
