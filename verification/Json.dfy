/** JSON values and dotted property paths, as `serde_json::Value` is used by the revision store. */
module Json {
  import opened Text

  /** A JSON number is an integer or a binary float; JSON has no NaN and no infinities. */
  datatype Number = Int(i: int) | Float(r: real) {
    function AsReal(): real {
      match this case Int(i) => i as real case Float(r) => r
    }
  }

  datatype Value =
    | Null
    | Bool(b: bool)
    | Num(n: Number)
    | Str(s: string)
    | Arr(items: seq<Value>)
    | Obj(fields: map<string, Value>)

  /** `Value::get` with a string key: only objects have members. */
  function Get(v: Value, key: string): Option<Value> {
    if v.Obj? && key in v.fields then Some(v.fields[key]) else None
  }

  /** Assignment through `IndexMut`: null becomes an object, any other non-object panics (None). */
  function Assign(v: Value, key: string, member: Value): Option<Value> {
    match v
    case Null => Some(Obj(map[key := member]))
    case Obj(fields) => Some(Obj(fields[key := member]))
    case _ => None
  }

  /** The member reached by following `path` through nested objects. */
  function Lookup(v: Value, path: seq<string>): Option<Value> {
    if path == [] then Some(v)
    else match Get(v, path[0])
      case None => None
      case Some(member) => Lookup(member, path[1..])
  }

  /** Write at `path`, replacing every non-object met on the way by an empty object. */
  function Store(v: Value, path: seq<string>, leaf: Value): Option<Value>
    requires path != []
    decreases |path|
  {
    if |path| == 1 then Assign(v, path[0], leaf)
    else
      var member := match Get(v, path[0])
        case Some(Obj(fields)) => Obj(fields)
        case _ => Obj(map[]);
      match Store(member, path[1..], leaf)
      case None => None
      case Some(updated) => Assign(v, path[0], updated)
  }

  /** `property_value`. */
  function PropertyValue(properties: Value, path: string): Option<Value> {
    Lookup(properties, Split(path, '.'))
  }

  /** `set_property`. */
  function SetProperty(properties: Value, path: string, leaf: Value): Option<Value> {
    Store(properties, Split(path, '.'), leaf)
  }

  /** A write succeeds on objects and null only, and is then read back at its own path. */
  lemma {:induction false} StoreThenLookup(v: Value, path: seq<string>, leaf: Value)
    requires path != []
    ensures Store(v, path, leaf).Some? <==> v.Obj? || v.Null?
    ensures v.Obj? || v.Null? ==> Store(v, path, leaf).value.Obj?
    ensures v.Obj? || v.Null? ==> Lookup(Store(v, path, leaf).value, path) == Some(leaf)
    decreases |path|
  {
    if |path| == 1 {
      assert path[1..] == [];
    } else {
      var member := match Get(v, path[0])
        case Some(Obj(fields)) => Obj(fields)
        case _ => Obj(map[]);
      StoreThenLookup(member, path[1..], leaf);
    }
  }

  /** Neither path is a prefix of the other. */
  predicate Apart(p: seq<string>, q: seq<string>) {
    p != [] && q != [] && (p[0] != q[0] || Apart(p[1..], q[1..]))
  }

  /** A write leaves every value at a path apart from its own as it was. */
  lemma {:induction false} StoreElsewhere(v: Value, path: seq<string>, leaf: Value, other: seq<string>)
    requires path != [] && Apart(path, other)
    requires Store(v, path, leaf).Some?
    requires Lookup(v, other).Some?
    ensures Lookup(Store(v, path, leaf).value, other) == Lookup(v, other)
    decreases |path|
  {
    if |path| > 1 && path[0] == other[0] && Get(v, path[0]).Some? {
      var member := Get(v, path[0]).value;
      if member.Obj? {
        StoreThenLookup(member, path[1..], leaf);
        StoreElsewhere(member, path[1..], leaf, other[1..]);
      }
    }
  }

  /** `set_property` and `property_value` obey the laws of a lens. */
  lemma SetPropertyLens(properties: Value, path: string, leaf: Value, other: string)
    ensures SetProperty(properties, path, leaf).Some? <==> properties.Obj? || properties.Null?
    ensures SetProperty(properties, path, leaf).Some? ==>
              PropertyValue(SetProperty(properties, path, leaf).value, path) == Some(leaf)
    ensures SetProperty(properties, path, leaf).Some? && Apart(Split(path, '.'), Split(other, '.'))
            && PropertyValue(properties, other).Some? ==>
              PropertyValue(SetProperty(properties, path, leaf).value, other) == PropertyValue(properties, other)
  {
    StoreThenLookup(properties, Split(path, '.'), leaf);
    if SetProperty(properties, path, leaf).Some? && Apart(Split(path, '.'), Split(other, '.'))
       && PropertyValue(properties, other).Some? {
      StoreElsewhere(properties, Split(path, '.'), leaf, Split(other, '.'));
    }
  }
}
