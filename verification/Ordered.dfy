/** The ascending iteration order of `BTreeMap` and `BTreeSet` keys. */
module Ordered {
  import opened Text
  import opened Lists

  predicate StrictlySorted(keys: seq<string>) {
    forall i, j :: 0 <= i < j < |keys| ==> Less(keys[i], keys[j])
  }

  lemma {:induction false} LeastExists(s: set<string>) returns (least: string)
    requires s != {}
    ensures least in s && forall k :: k in s ==> k == least || Less(least, k)
  {
    var x :| x in s;
    if s == {x} {
      least := x;
    } else {
      var m := LeastExists(s - {x});
      LessTotal(x, m);
      least := if Less(x, m) then x else m;
      forall k | k in s ensures k == least || Less(least, k) {
        if k != x && Less(x, m) && k != m { LessTransitive(x, m, k); }
      }
    }
  }

  predicate IsLeast(least: string, s: set<string>) {
    least in s && forall k :: k in s ==> k == least || Less(least, k)
  }

  function Least(s: set<string>): (least: string)
    requires s != {}
    ensures IsLeast(least, s)
  {
    assert exists m :: IsLeast(m, s) by { var m := LeastExists(s); assert IsLeast(m, s); }
    assert forall a, b :: IsLeast(a, s) && IsLeast(b, s) ==> a == b by {
      forall a, b | IsLeast(a, s) && IsLeast(b, s) ensures a == b {
        if a != b { LessAsymmetric(a, b); }
      }
    }
    var m :| m in s && IsLeast(m, s);
    m
  }

  function SortedKeys(s: set<string>): (keys: seq<string>)
    ensures forall k :: k in keys <==> k in s
    ensures |keys| == |s|
  {
    if s == {} then [] else [Least(s)] + SortedKeys(s - {Least(s)})
  }

  lemma {:induction false} SortedKeysSorted(s: set<string>)
    ensures StrictlySorted(SortedKeys(s))
  {
    if s == {} {
    } else {
      var least, rest := Least(s), SortedKeys(s - {Least(s)});
      SortedKeysSorted(s - {least});
      assert forall j :: 0 <= j < |rest| ==> rest[j] in s - {least};
    }
  }

  lemma SortedKeysDistinct(s: set<string>)
    ensures Distinct(SortedKeys(s))
  {
    SortedKeysSorted(s);
    forall i, j | 0 <= i < j < |SortedKeys(s)| ensures SortedKeys(s)[i] != SortedKeys(s)[j] {
      SortedDistinct(SortedKeys(s), i, j);
    }
  }

  lemma SortedDistinct(keys: seq<string>, i: int, j: int)
    requires StrictlySorted(keys)
    requires 0 <= i < |keys| && 0 <= j < |keys|
    ensures keys[i] == keys[j] <==> i == j
    ensures Less(keys[i], keys[j]) <==> i < j
  {
    if i < j { LessAsymmetric(keys[i], keys[j]); }
    if j < i { LessAsymmetric(keys[j], keys[i]); }
    LessIrreflexive(keys[i]);
  }

  /** A strictly sorted list is determined by its elements. */
  lemma {:induction false} SortedUnique(a: seq<string>, b: seq<string>)
    requires StrictlySorted(a) && StrictlySorted(b)
    requires forall k :: k in a <==> k in b
    ensures a == b
  {
    assert a != [] ==> a[0] in b;
    assert b != [] ==> b[0] in a;
    if a == [] || b == [] {
    } else {
      if a[0] != b[0] {
        assert a[0] in b && b[0] in a;
        LessAsymmetric(a[0], b[0]);
      }
      forall k ensures k in a[1..] <==> k in b[1..] {
        if k in a[1..] { TailElement(a, k); assert k in b && k != b[0]; }
        if k in b[1..] { TailElement(b, k); assert k in a && k != a[0]; }
      }
      SortedUnique(a[1..], b[1..]);
    }
  }

  lemma TailElement(a: seq<string>, k: string)
    requires StrictlySorted(a) && a != [] && k in a[1..]
    ensures k in a && k != a[0]
  {
    var i :| 0 <= i < |a[1..]| && a[1..][i] == k;
    assert a[i + 1] == k;
    LessAsymmetric(a[0], a[i + 1]);
  }

  // ----- Sorting and removing duplicates -----

  /** Insert after everything that is not greater. */
  function Placed(keys: seq<string>, key: string): (r: seq<string>)
    ensures forall k :: k in r <==> k in keys || k == key
  {
    if keys == [] then [key]
    else
      var front, last := keys[..|keys| - 1], keys[|keys| - 1];
      assert keys == front + [last];
      if !Less(key, last) then keys + [key] else Placed(front, key) + [last]
  }

  /** `sort`. */
  function Sorted(keys: seq<string>): (r: seq<string>)
    ensures forall k :: k in r <==> k in keys
  {
    if keys == [] then []
    else
      assert keys == keys[..|keys| - 1] + [keys[|keys| - 1]];
      Placed(Sorted(keys[..|keys| - 1]), keys[|keys| - 1])
  }

  /** `dedup`: drop every element that equals its predecessor. */
  function Deduped(refs: seq<string>): (r: seq<string>)
    ensures forall x :: x in r <==> x in refs
    ensures |r| <= |refs|
  {
    if |refs| <= 1 then refs
    else if refs[0] == refs[1] then Deduped(refs[1..])
    else [refs[0]] + Deduped(refs[1..])
  }

  predicate NeverDescends(keys: seq<string>) {
    forall i, j :: 0 <= i < j < |keys| ==> !Less(keys[j], keys[i])
  }

  lemma NotLessTransitive(a: string, b: string, c: string)
    requires !Less(b, a) && !Less(c, b)
    ensures !Less(c, a)
  {
    LessTotal(a, b);
    LessTotal(b, c);
    if Less(a, b) && Less(b, c) {
      LessTransitive(a, b, c);
      LessAsymmetric(a, c);
    }
  }

  lemma {:induction false} PlacedNeverDescends(keys: seq<string>, key: string)
    requires NeverDescends(keys)
    ensures NeverDescends(Placed(keys, key))
    decreases |keys|
  {
    if keys == [] {
    } else {
      var front, last := keys[..|keys| - 1], keys[|keys| - 1];
      if Less(key, last) {
        var placed := Placed(front, key);
        PlacedNeverDescends(front, key);
        LessAsymmetric(key, last);
        forall i | 0 <= i < |placed| ensures !Less(last, placed[i]) {
          assert placed[i] in placed;
          if placed[i] != key {
            var k :| 0 <= k < |front| && front[k] == placed[i];
            assert keys[k] == placed[i];
          }
        }
      } else {
        forall i | 0 <= i < |keys| ensures !Less(key, keys[i]) {
          if i < |keys| - 1 { NotLessTransitive(keys[i], last, key); }
        }
      }
    }
  }

  lemma {:induction false} SortedNeverDescends(keys: seq<string>)
    ensures NeverDescends(Sorted(keys))
    decreases |keys|
  {
    if keys == [] {
    } else {
      SortedNeverDescends(keys[..|keys| - 1]);
      PlacedNeverDescends(Sorted(keys[..|keys| - 1]), keys[|keys| - 1]);
    }
  }

  lemma {:induction false} DedupedStrictlySorted(keys: seq<string>)
    requires NeverDescends(keys)
    ensures StrictlySorted(Deduped(keys))
    decreases |keys|
  {
    if |keys| <= 1 {
    } else {
      var rest := keys[1..];
      assert NeverDescends(rest) by { assert forall i :: 0 <= i < |rest| ==> rest[i] == keys[i + 1]; }
      DedupedStrictlySorted(rest);
      if keys[0] != keys[1] {
        LessTotal(keys[0], keys[1]);
        forall j | 0 <= j < |Deduped(rest)| ensures Less(keys[0], Deduped(rest)[j]) {
          var x := Deduped(rest)[j];
          assert x in rest;
          var k :| 0 <= k < |rest| && rest[k] == x;
          assert keys[k + 1] == x;
          LessTotal(keys[1], x);
          if Less(keys[1], x) { LessTransitive(keys[0], keys[1], x); }
        }
      }
    }
  }

  /** Sorting and then dropping adjacent duplicates lists the elements as a `BTreeSet` does. */
  lemma SortThenDedup(keys: seq<string>)
    ensures Deduped(Sorted(keys)) == SortedKeys(ToSet(keys))
  {
    SortedNeverDescends(keys);
    DedupedStrictlySorted(Sorted(keys));
    SortedKeysSorted(ToSet(keys));
    SortedUnique(Deduped(Sorted(keys)), SortedKeys(ToSet(keys)));
  }
}
