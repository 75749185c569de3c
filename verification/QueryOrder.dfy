/** Ordering query results over mixed JSON values (`compare_values`, `compare_entities`). */
module QueryOrder {
  import opened Text
  import opened Ordered
  import opened Json
  import opened Ccir

  datatype Ordering = Lt | Eq | Gt {
    function Reverse(): Ordering {
      match this case Lt => Gt case Eq => Eq case Gt => Lt
    }
  }

  datatype Direction = Asc | Desc

  datatype OrderBy = OrderBy(field: string, direction: Direction)

  // ----- JSON text (`Value::to_string`) -----

  /** What a rendered number can start with. */
  predicate NumberText(text: string) {
    text != "" && (text[0] == '-' || IsDigit(text[0]))
  }

  /** How binary floats are printed is left open, except for the first character. */
  type FloatText = f: real -> string | forall r :: NumberText(f(r)) witness (r: real) => "0"

  function HexDigit(n: nat): char
    requires n < 16
  {
    if n < 10 then '0' + n as char else 'a' + (n - 10) as char
  }

  function EscapedChar(c: char): string {
    if c == '\"' then "\\\""
    else if c == '\\' then "\\\\"
    else if c == '\n' then "\\n"
    else if c == '\r' then "\\r"
    else if c == '\t' then "\\t"
    else if c as int == 8 then "\\b"
    else if c as int == 12 then "\\f"
    else if c as int < 32 then "\\u00" + [HexDigit(c as int / 16), HexDigit(c as int % 16)]
    else [c]
  }

  function Escaped(s: string): string {
    if s == "" then "" else EscapedChar(s[0]) + Escaped(s[1..])
  }

  function Quoted(s: string): (text: string)
    ensures text != "" && text[0] == '\"'
  {
    "\"" + Escaped(s) + "\""
  }

  function NumberToText(n: Number, floats: FloatText): (text: string)
    ensures NumberText(text)
  {
    match n
    case Int(i) =>
      if i >= 0 then assert IsDigit(Decimal(i)[0]); Decimal(i) else "-" + Decimal(-i)
    case Float(r) => floats(r)
  }

  function ToText(v: Value, floats: FloatText): string {
    match v
    case Null => "null"
    case Bool(b) => if b then "true" else "false"
    case Num(n) => NumberToText(n, floats)
    case Str(s) => Quoted(s)
    case Arr(items) => "[" + ItemsText(items, floats) + "]"
    case Obj(fields) => "{" + FieldsText(v, SortedKeys(fields.Keys), floats) + "}"
  }

  function ItemsText(items: seq<Value>, floats: FloatText): string {
    if items == [] then ""
    else ToText(items[0], floats) + (if |items| == 1 then "" else "," + ItemsText(items[1..], floats))
  }

  function FieldsText(v: Value, keys: seq<string>, floats: FloatText): string
    requires v.Obj? && forall k :: k in keys ==> k in v.fields
    decreases v, |keys|
  {
    if keys == [] then ""
    else Quoted(keys[0]) + ":" + ToText(v.fields[keys[0]], floats) + (if |keys| == 1 then "" else "," + FieldsText(v, keys[1..], floats))
  }

  // ----- Comparing values -----

  function CompareStrings(a: string, b: string): Ordering {
    if Less(a, b) then Lt else if a == b then Eq else Gt
  }

  function CompareReals(a: real, b: real): Ordering {
    if a < b then Lt else if a == b then Eq else Gt
  }

  function CompareValues(left: Option<Value>, right: Option<Value>, floats: FloatText): Ordering {
    match (left, right)
    case (None, None) => Eq
    case (None, Some(_)) => Lt
    case (Some(_), None) => Gt
    case (Some(a), Some(b)) =>
      if a.Str? && b.Str? then CompareStrings(a.s, b.s)
      else if a.Num? && b.Num? then CompareReals(a.n.AsReal(), b.n.AsReal())
      else CompareStrings(ToText(a, floats), ToText(b, floats))
  }

  /** Strings before numbers before everything else: what the first rendered character decides. */
  function Rank(v: Value): nat {
    match v case Str(_) => 0 case Num(_) => 1 case _ => 2
  }

  lemma FirstCharacter(v: Value, floats: FloatText)
    ensures ToText(v, floats) != ""
    ensures Rank(v) == 0 ==> ToText(v, floats)[0] == '\"'
    ensures Rank(v) == 1 ==> ToText(v, floats)[0] == '-' || IsDigit(ToText(v, floats)[0])
    ensures Rank(v) == 2 ==> ToText(v, floats)[0] >= '['
  {
    match v
    case Null => assert ToText(v, floats)[0] == 'n';
    case Bool(b) => assert ToText(v, floats)[0] == if b then 't' else 'f';
    case Num(n) => assert ToText(v, floats) == NumberToText(n, floats);
    case Str(s) => assert ToText(v, floats) == Quoted(s);
    case Arr(items) => assert ToText(v, floats)[0] == '[';
    case Obj(fields) => assert ToText(v, floats)[0] == '{';
  }

  /** Values of different rank compare by rank, so the textual fallback for mixed types is consistent
      with the typed comparisons. */
  lemma RankDecides(a: Value, b: Value, floats: FloatText)
    requires Rank(a) < Rank(b)
    ensures CompareValues(Some(a), Some(b), floats) == Lt && CompareValues(Some(b), Some(a), floats) == Gt
  {
    FirstCharacter(a, floats);
    FirstCharacter(b, floats);
    LessAsymmetric(ToText(a, floats), ToText(b, floats));
  }

  lemma StringsReverse(a: string, b: string)
    ensures CompareStrings(b, a) == CompareStrings(a, b).Reverse()
  {
    LessTotal(a, b);
    LessIrreflexive(a);
    if Less(a, b) { LessAsymmetric(a, b); }
    if Less(b, a) { LessAsymmetric(b, a); }
  }

  /** Not greater is transitive, and strict unless both steps are ties. */
  predicate Chained(ab: Ordering, bc: Ordering, ac: Ordering) {
    ab != Gt && bc != Gt ==> ac != Gt && (ac == Eq <==> ab == Eq && bc == Eq)
  }

  lemma StringsChain(a: string, b: string, c: string)
    ensures Chained(CompareStrings(a, b), CompareStrings(b, c), CompareStrings(a, c))
  {
    LessIrreflexive(a);
    if Less(a, b) && Less(b, c) { LessTransitive(a, b, c); LessAsymmetric(a, c); }
    if Less(a, b) { LessAsymmetric(a, b); }
    if Less(b, c) { LessAsymmetric(b, c); }
  }

  lemma ValuesReverse(a: Option<Value>, b: Option<Value>, floats: FloatText)
    ensures CompareValues(b, a, floats) == CompareValues(a, b, floats).Reverse()
  {
    if a.Some? && b.Some? {
      if a.value.Str? && b.value.Str? { StringsReverse(a.value.s, b.value.s); }
      else { StringsReverse(ToText(a.value, floats), ToText(b.value, floats)); }
    }
  }

  lemma ValuesChain(a: Option<Value>, b: Option<Value>, c: Option<Value>, floats: FloatText)
    ensures Chained(CompareValues(a, b, floats), CompareValues(b, c, floats), CompareValues(a, c, floats))
  {
    if a.Some? && b.Some? && c.Some? {
      var x, y, z := a.value, b.value, c.value;
      if Rank(x) == Rank(y) == Rank(z) {
        if x.Str? { StringsChain(x.s, y.s, z.s); }
        else if !x.Num? { StringsChain(ToText(x, floats), ToText(y, floats), ToText(z, floats)); }
      } else {
        MixedChain(x, y, z, floats);
      }
    }
  }

  lemma MixedChain(x: Value, y: Value, z: Value, floats: FloatText)
    requires !(Rank(x) == Rank(y) == Rank(z))
    ensures Chained(CompareValues(Some(x), Some(y), floats), CompareValues(Some(y), Some(z), floats), CompareValues(Some(x), Some(z), floats))
  {
    if Rank(x) < Rank(y) { RankDecides(x, y, floats); }
    if Rank(y) < Rank(x) { RankDecides(y, x, floats); }
    if Rank(y) < Rank(z) { RankDecides(y, z, floats); }
    if Rank(z) < Rank(y) { RankDecides(z, y, floats); }
    if Rank(x) < Rank(z) { RankDecides(x, z, floats); }
    if Rank(z) < Rank(x) { RankDecides(z, x, floats); }
  }

  // ----- Comparing entities -----

  function StateName(state: IdentityState): string {
    match state
    case Exact => "exact"
    case MappedExact => "mapped_exact"
    case MappedHeuristic => "mapped_heuristic"
    case Ambiguous => "ambiguous"
    case Deleted => "deleted"
    case Stale => "stale"
  }

  function Abs(x: real): real {
    if x < 0.0 then -x else x
  }

  function Volume(b: Bounds): real {
    Abs(b.max.x - b.min.x) * Abs(b.max.y - b.min.y) * Abs(b.max.z - b.min.z)
  }

  function TextValue(s: Option<string>): Option<Value> {
    match s case None => None case Some(t) => Some(Str(t))
  }

  /** `field_value`. */
  function FieldValue(e: Entity, field: string): Option<Value> {
    match field
    case "ref" => Some(Str(e.ref))
    case "kind" => Some(Str(e.kind))
    case "name" => TextValue(e.name)
    case "label" => TextValue(e.displayLabel)
    case "identity.state" => Some(Str(StateName(e.identity.state)))
    case "bounds.volume" => if e.bounds.Some? then Some(Num(Float(Volume(e.bounds.value)))) else None
    case _ => Lookup(e.properties, Split(field, '.'))
  }

  function FieldOf(e: Option<Entity>, field: string): Option<Value> {
    match e case None => None case Some(entity) => FieldValue(entity, field)
  }

  function CompareNames(a: Option<string>, b: Option<string>): Ordering {
    match (a, b)
    case (None, None) => Eq
    case (None, Some(_)) => Lt
    case (Some(_), None) => Gt
    case (Some(x), Some(y)) => CompareStrings(x, y)
  }

  function Then(first: Ordering, second: Ordering): Ordering {
    if first != Eq then first else second
  }

  /** The final (kind, name, ref) comparison. */
  function TieBreak(a: Option<Entity>, b: Option<Entity>): Ordering {
    match (a, b)
    case (None, None) => Eq
    case (None, Some(_)) => Lt
    case (Some(_), None) => Gt
    case (Some(x), Some(y)) =>
      Then(CompareStrings(x.kind, y.kind), Then(CompareNames(x.name, y.name), CompareStrings(x.ref, y.ref)))
  }

  function CompareBy(item: OrderBy, a: Option<Entity>, b: Option<Entity>, floats: FloatText): Ordering {
    var ordering := CompareValues(FieldOf(a, item.field), FieldOf(b, item.field), floats);
    if item.direction.Desc? then ordering.Reverse() else ordering
  }

  function CompareEntities(a: Option<Entity>, b: Option<Entity>, order: seq<OrderBy>, floats: FloatText): Ordering {
    if order == [] then TieBreak(a, b)
    else Then(CompareBy(order[0], a, b, floats), CompareEntities(a, b, order[1..], floats))
  }

  /** The first field on which two entities differ decides, in its direction; without one, (kind, name, ref) does. */
  lemma {:induction false} FirstDifferenceDecides(a: Option<Entity>, b: Option<Entity>, order: seq<OrderBy>, floats: FloatText, i: nat)
    requires i <= |order|
    requires forall j :: 0 <= j < i ==> CompareValues(FieldOf(a, order[j].field), FieldOf(b, order[j].field), floats) == Eq
    ensures i == |order| ==> CompareEntities(a, b, order, floats) == TieBreak(a, b)
    ensures i < |order| ==>
      var ordering := CompareValues(FieldOf(a, order[i].field), FieldOf(b, order[i].field), floats);
      ordering != Eq ==> CompareEntities(a, b, order, floats) == if order[i].direction == Desc then ordering.Reverse() else ordering
    decreases i
  {
    hide CompareValues, FieldOf, TieBreak;
    if i == 0 {
    } else {
      FirstDifferenceDecides(a, b, order[1..], floats, i - 1);
    }
  }

  lemma ThenChains(ab1: Ordering, bc1: Ordering, ac1: Ordering, ab2: Ordering, bc2: Ordering, ac2: Ordering)
    requires Chained(ab1, bc1, ac1) && Chained(ab2, bc2, ac2)
    ensures Chained(Then(ab1, ab2), Then(bc1, bc2), Then(ac1, ac2))
  {
  }

  lemma TieBreakLaws(a: Option<Entity>, b: Option<Entity>, c: Option<Entity>)
    ensures TieBreak(b, a) == TieBreak(a, b).Reverse()
    ensures Chained(TieBreak(a, b), TieBreak(b, c), TieBreak(a, c))
    ensures a.Some? && b.Some? && TieBreak(a, b) == Eq ==> a.value.ref == b.value.ref
  {
    if a.Some? && b.Some? {
      StringsReverse(a.value.kind, b.value.kind);
      StringsReverse(a.value.ref, b.value.ref);
      if a.value.name.Some? && b.value.name.Some? { StringsReverse(a.value.name.value, b.value.name.value); }
    }
    if a.Some? && b.Some? && c.Some? {
      var x, y, z := a.value, b.value, c.value;
      StringsChain(x.kind, y.kind, z.kind);
      StringsChain(x.ref, y.ref, z.ref);
      if x.name.Some? && y.name.Some? && z.name.Some? { StringsChain(x.name.value, y.name.value, z.name.value); }
      ThenChains(CompareNames(x.name, y.name), CompareNames(y.name, z.name), CompareNames(x.name, z.name),
                 CompareStrings(x.ref, y.ref), CompareStrings(y.ref, z.ref), CompareStrings(x.ref, z.ref));
    }
  }

  lemma CompareByLaws(item: OrderBy, a: Option<Entity>, b: Option<Entity>, c: Option<Entity>, floats: FloatText)
    ensures CompareBy(item, b, a, floats) == CompareBy(item, a, b, floats).Reverse()
    ensures Chained(CompareBy(item, a, b, floats), CompareBy(item, b, c, floats), CompareBy(item, a, c, floats))
  {
    var x, y, z := FieldOf(a, item.field), FieldOf(b, item.field), FieldOf(c, item.field);
    ValuesReverse(x, y, floats);
    ValuesReverse(y, z, floats);
    ValuesReverse(x, z, floats);
    ValuesChain(x, y, z, floats);
    ValuesChain(z, y, x, floats);
  }

  /** For every mix of JSON types and directions the comparison is a total preorder whose only ties are
      between entities with the same reference. */
  lemma {:induction false} CompareEntitiesIsTotalOrder(a: Option<Entity>, b: Option<Entity>, c: Option<Entity>,
        order: seq<OrderBy>, floats: FloatText)
    ensures CompareEntities(b, a, order, floats) == CompareEntities(a, b, order, floats).Reverse()
    ensures Chained(CompareEntities(a, b, order, floats), CompareEntities(b, c, order, floats), CompareEntities(a, c, order, floats))
    ensures a.Some? && b.Some? && CompareEntities(a, b, order, floats) == Eq ==> a.value.ref == b.value.ref
    decreases |order|
  {
    if order == [] {
      TieBreakLaws(a, b, c);
    } else {
      CompareByLaws(order[0], a, b, c, floats);
      CompareEntitiesIsTotalOrder(a, b, c, order[1..], floats);
      ThenChains(CompareBy(order[0], a, b, floats), CompareBy(order[0], b, c, floats), CompareBy(order[0], a, c, floats),
                 CompareEntities(a, b, order[1..], floats), CompareEntities(b, c, order[1..], floats), CompareEntities(a, c, order[1..], floats));
    }
  }
}
