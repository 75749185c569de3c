/** Filtering and projecting entities in a query (`matches_predicate`, `project`, `evidence_path`). */
module Filters {
  import opened Text
  import opened Json
  import opened Ccir
  import opened QueryOrder

  // ----- The predicate test -----

  function AsReal(v: Value): Option<real> {
    if v.Num? then Some(v.n.AsReal()) else None
  }

  function ActualReal(v: Option<Value>): Option<real> {
    match v case None => None case Some(value) => AsReal(value)
  }

  /** A boolean, or true when the value is none. */
  predicate TrueUnlessFalse(v: Value) {
    v.Bool? ==> v.b
  }

  /** The entity has a link of the relation; only the value false asks for the kind of its target. */
  predicate RelationHolds(e: Entity, relation: string, value: Value, g: Graph) {
    exists i :: 0 <= i < |e.links| && LinkFits(e.links[i], relation, value, g)
  }

  predicate LinkFits(link: Link, relation: string, value: Value, g: Graph) {
    && link.relation == relation
    && (TrueUnlessFalse(value)
        || (link.target in g.entities && g.entities[link.target].kind == if value.Str? then value.s else ""))
  }

  /** One operator of a field condition. */
  predicate Condition(actual: Option<Value>, operator: string, wanted: Value) {
    match operator
    case "eq" => actual == Some(wanted)
    case "ne" => actual != Some(wanted)
    case "between_mm" =>
      && ActualReal(actual).Some? && wanted.Arr? && |wanted.items| == 2
      && AsReal(wanted.items[0]).Some? && ActualReal(actual).value >= AsReal(wanted.items[0]).value
      && AsReal(wanted.items[1]).Some? && ActualReal(actual).value <= AsReal(wanted.items[1]).value
    case "gte" => ActualReal(actual).Some? && AsReal(wanted).Some? && ActualReal(actual).value >= AsReal(wanted).value
    case "lte" => ActualReal(actual).Some? && AsReal(wanted).Some? && ActualReal(actual).value <= AsReal(wanted).value
    case "contains" => actual.Some? && actual.value.Str? && wanted.Str? && Contains(actual.value.s, wanted.s)
    case "present" => actual.Some? <==> wanted.Bool? && wanted.b
    case _ => false
  }

  /** `predicate_field`. */
  predicate FieldMatches(e: Entity, field: string, expected: Value, g: Graph) {
    if field == "topology" || field == "relation" then
      expected.Obj? && forall relation :: relation in expected.fields ==> RelationHolds(e, relation, expected.fields[relation], g)
    else if expected.Obj? then
      forall operator :: operator in expected.fields ==> Condition(FieldValue(e, field), operator, expected.fields[operator])
    else FieldValue(e, field) == Some(expected)
  }

  /** `matches_predicate`. */
  predicate MatchesPredicate(e: Entity, p: Value, g: Graph)
    decreases p
  {
    if !p.Obj? then true
    else if "all" in p.fields && p.fields["all"].Arr? then
      forall i :: 0 <= i < |p.fields["all"].items| ==> MatchesPredicate(e, p.fields["all"].items[i], g)
    else if "any" in p.fields && p.fields["any"].Arr? then
      exists i :: 0 <= i < |p.fields["any"].items| && MatchesPredicate(e, p.fields["any"].items[i], g)
    else if "not" in p.fields then !MatchesPredicate(e, p.fields["not"], g)
    else forall field :: field in p.fields ==> FieldMatches(e, field, p.fields[field], g)
  }

  function All(ps: seq<Value>): Value {
    Obj(map["all" := Arr(ps)])
  }

  function Any(ps: seq<Value>): Value {
    Obj(map["any" := Arr(ps)])
  }

  function Not(p: Value): Value {
    Obj(map["not" := p])
  }

  lemma NotMeaning(e: Entity, p: Value, g: Graph)
    ensures MatchesPredicate(e, Not(p), g) <==> !MatchesPredicate(e, p, g)
  {
    assert Not(p).fields["not"] == p;
  }

  lemma AllMeaning(e: Entity, ps: seq<Value>, g: Graph)
    ensures MatchesPredicate(e, All(ps), g) <==> forall i :: 0 <= i < |ps| ==> MatchesPredicate(e, ps[i], g)
  {
    hide FieldMatches;
    assert All(ps).fields["all"] == Arr(ps);
  }

  lemma AnyMeaning(e: Entity, ps: seq<Value>, g: Graph)
    ensures MatchesPredicate(e, Any(ps), g) <==> exists i :: 0 <= i < |ps| && MatchesPredicate(e, ps[i], g)
  {
    hide FieldMatches;
    assert Any(ps).fields["any"] == Arr(ps);
  }

  /** The items that a connective combines, when `p` is one: "all" and "any" need an array, and the members
      beside a connective are not looked at. */
  function Items(p: Value, key: string): Option<seq<Value>> {
    if p.Obj? && key in p.fields && p.fields[key].Arr? then Some(p.fields[key].items) else None
  }

  /** A predicate without connectives. */
  predicate Plain(p: Value) {
    Items(p, "all").None? && Items(p, "any").None? && (p.Obj? ==> "not" !in p.fields)
  }

  /** Only "all" and "any" nest, their objects hold nothing else, and "not" stands before plain predicates only. */
  predicate Normal(p: Value)
    decreases p
  {
    if Items(p, "all").Some? then |p.fields| == 1 && forall i :: 0 <= i < |p.fields["all"].items| ==> Normal(p.fields["all"].items[i])
    else if Items(p, "any").Some? then |p.fields| == 1 && forall i :: 0 <= i < |p.fields["any"].items| ==> Normal(p.fields["any"].items[i])
    else p.Obj? && "not" in p.fields ==> |p.fields| == 1 && Plain(p.fields["not"])
  }

  /** The predicate, or its negation, in normal form: negations move inwards and the members that
      are not looked at go away. */
  function Normalized(p: Value, positive: bool): Value
    decreases p
  {
    if Items(p, "all").Some? then
      var items := p.fields["all"].items;
      var parts := seq(|items|, i requires 0 <= i < |items| => Normalized(items[i], positive));
      if positive then All(parts) else Any(parts)
    else if Items(p, "any").Some? then
      var items := p.fields["any"].items;
      var parts := seq(|items|, i requires 0 <= i < |items| => Normalized(items[i], positive));
      if positive then Any(parts) else All(parts)
    else if p.Obj? && "not" in p.fields then Normalized(p.fields["not"], !positive)
    else if positive then p else Not(p)
  }

  /** Normalising keeps the meaning: the normal form of a predicate matches the same entities, that of its
      negation all the others (the laws of De Morgan and of double negation, at any depth). */
  lemma {:induction false} NormalizedMeans(e: Entity, p: Value, positive: bool, g: Graph)
    ensures MatchesPredicate(e, Normalized(p, positive), g) <==> (MatchesPredicate(e, p, g) <==> positive)
    decreases p
  {
    hide FieldMatches;
    if Items(p, "all").Some? || Items(p, "any").Some? {
      var items := p.fields[if Items(p, "all").Some? then "all" else "any"].items;
      var parts := seq(|items|, i requires 0 <= i < |items| => Normalized(items[i], positive));
      AllMeaning(e, parts, g);
      AnyMeaning(e, parts, g);
      forall i | 0 <= i < |items|
        ensures MatchesPredicate(e, parts[i], g) <==> (MatchesPredicate(e, items[i], g) <==> positive)
      {
        NormalizedMeans(e, items[i], positive, g);
      }
    } else if p.Obj? && "not" in p.fields {
      NormalizedMeans(e, p.fields["not"], !positive, g);
    } else {
      NotMeaning(e, p, g);
    }
  }

  lemma {:induction false} NormalizedIsNormal(p: Value, positive: bool)
    ensures Normal(Normalized(p, positive))
    decreases p
  {
    if Items(p, "all").Some? || Items(p, "any").Some? {
      var items := p.fields[if Items(p, "all").Some? then "all" else "any"].items;
      var parts := seq(|items|, i requires 0 <= i < |items| => Normalized(items[i], positive));
      forall i | 0 <= i < |items| ensures Normal(parts[i]) {
        NormalizedIsNormal(items[i], positive);
      }
      assert All(parts).fields["all"] == Arr(parts) && Any(parts).fields["any"] == Arr(parts);
    } else if p.Obj? && "not" in p.fields {
      NormalizedIsNormal(p.fields["not"], !positive);
    } else {
      assert Not(p).fields["not"] == p;
    }
  }

  /** A link of the relation, and for the value false one to an entity with the empty kind. */
  predicate FitsAnyKind(link: Link, relation: string, value: Value, g: Graph) {
    && link.relation == relation
    && (value == Bool(false) ==> link.target in g.entities && g.entities[link.target].kind == "")
  }

  /** A kind named under a relation is not checked: any value but false asks only for a link of the relation,
      and false asks for a target that exists and has the empty kind. */
  lemma RelationKindIsIgnored(e: Entity, relation: string, value: Value, g: Graph)
    ensures RelationHolds(e, relation, value, g) <==>
            exists i :: 0 <= i < |e.links| && FitsAnyKind(e.links[i], relation, value, g)
  {
    forall i | 0 <= i < |e.links|
      ensures LinkFits(e.links[i], relation, value, g) <==> FitsAnyKind(e.links[i], relation, value, g)
    {
    }
  }

  /** A two-sided range is both one-sided ones, when its ends are numbers. */
  lemma BetweenIsBothBounds(actual: Option<Value>, low: Value, high: Value)
    requires low.Num? && high.Num?
    ensures Condition(actual, "between_mm", Arr([low, high])) <==>
            Condition(actual, "gte", low) && Condition(actual, "lte", high)
  {
  }

  // ----- Projection -----

  function Texts(texts: seq<string>): Value {
    Arr(seq(|texts|, i requires 0 <= i < |texts| => Str(texts[i])))
  }

  function OrNull(v: Option<Value>): Value {
    match v case None => Null case Some(value) => value
  }

  function VectorValue(v: Vec3): Value {
    Obj(map["x" := Num(Float(v.x)), "y" := Num(Float(v.y)), "z" := Num(Float(v.z))])
  }

  function BoundsValue(b: Option<Bounds>): Value {
    match b
    case None => Null
    case Some(bounds) => Obj(map["min" := VectorValue(bounds.min), "max" := VectorValue(bounds.max), "frame" := Str(bounds.frame)])
  }

  function IdentityValue(identity: Identity): Value {
    Obj(map["state" := Str(StateName(identity.state)), "confidence" := Num(Float(identity.confidence)), "signals" := Texts(identity.signals)])
  }

  function LinkValue(link: Link): Value {
    Obj(map["relation" := Str(link.relation), "target" := Str(link.target)])
  }

  /** `Entity::summary`. */
  function Summary(e: Entity): Value {
    Obj(map[
      "ref" := Str(e.ref), "kind" := Str(e.kind), "revision" := Str(e.revision), "name" := OrNull(TextValue(e.name)),
      "label" := OrNull(TextValue(e.displayLabel)), "identity" := IdentityValue(e.identity), "bounds" := BoundsValue(e.bounds),
      "links" := Arr(seq(|e.links|, i requires 0 <= i < |e.links| => LinkValue(e.links[i]))),
      "properties" := e.properties, "omissions" := Arr(e.omissions)])
  }

  /** `project`: the selected fields that the entity has, or its summary when none is selected. */
  function Projection(e: Entity, fields: seq<string>): Value {
    if fields == [] then Summary(e)
    else Obj(map field | field in fields && FieldValue(e, field).Some? :: FieldValue(e, field).value)
  }

  /** A projected member is the field's value, and a selected field is missing only when the entity lacks it. */
  lemma ProjectionReadsBack(e: Entity, fields: seq<string>, field: string)
    requires fields != [] && field in fields
    ensures Get(Projection(e, fields), field) == FieldValue(e, field)
  {
    hide FieldValue;
  }
}
