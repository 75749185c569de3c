/** Strings as the program uses them: byte order, suffixes, splitting and decimal numbers. */
module Text {

  datatype Option<+T> = None | Some(value: T)

  // ----- String order (`str::cmp`; for UTF-8 byte order and scalar-value order agree) -----

  predicate Less(a: string, b: string) {
    b != [] && (a == [] || a[0] < b[0] || (a[0] == b[0] && Less(a[1..], b[1..])))
  }

  lemma {:induction false} LessIrreflexive(a: string)
    ensures !Less(a, a)
  {
    if a == [] {
    } else {
      LessIrreflexive(a[1..]);
    }
  }

  lemma {:induction false} LessTransitive(a: string, b: string, c: string)
    requires Less(a, b) && Less(b, c)
    ensures Less(a, c)
  {
    if a == [] || a[0] != b[0] || b[0] != c[0] {
    } else {
      LessTransitive(a[1..], b[1..], c[1..]);
    }
  }

  lemma {:induction false} LessTotal(a: string, b: string)
    ensures Less(a, b) || a == b || Less(b, a)
  {
    if a == [] || b == [] || a[0] != b[0] {
    } else {
      LessTotal(a[1..], b[1..]);
      if a[1..] == b[1..] { assert a == [a[0]] + a[1..] == b; }
    }
  }

  lemma LessAsymmetric(a: string, b: string)
    requires Less(a, b)
    ensures !Less(b, a) && a != b
  {
    LessIrreflexive(a);
    if Less(b, a) { LessTransitive(a, b, a); }
  }

  // ----- Substrings, suffixes and separators -----

  predicate Contains(text: string, part: string) {
    (|part| <= |text| && text[..|part|] == part) || (text != "" && Contains(text[1..], part))
  }

  /** `str::strip_suffix`. */
  function StripSuffix(text: string, suffix: string): (r: Option<string>)
    ensures r.Some? ==> text == r.value + suffix
  {
    if |suffix| <= |text| && text[|text| - |suffix|..] == suffix then
      assert text == text[..|text| - |suffix|] + suffix;
      Some(text[..|text| - |suffix|])
    else None
  }

  lemma StripAppended(prefix: string, suffix: string)
    ensures StripSuffix(prefix + suffix, suffix) == Some(prefix)
  {
    var text := prefix + suffix;
    assert text[|text| - |suffix|..] == suffix && text[..|text| - |suffix|] == prefix;
  }

  /** Two texts cut at the first occurrence of a separator have the same parts. */
  lemma CutAtFirst(p: string, q: string, x: string, y: string, c: char)
    requires c !in p && c !in q
    requires p + [c] + x == q + [c] + y
    ensures p == q && x == y
  {
    var t, u := p + [c] + x, q + [c] + y;
    assert t[|p|] == c && u[|q|] == c;
    assert forall i :: 0 <= i < |p| ==> t[i] == p[i];
    assert forall i :: 0 <= i < |q| ==> u[i] == q[i];
    assert p == t[..|p|] == u[..|q|] == q;
    assert x == t[|p| + 1..] == u[|q| + 1..] == y;
  }

  /** Two texts cut at the last occurrence of a separator have the same parts. */
  lemma CutAtLast(p: string, q: string, x: string, y: string, c: char)
    requires c !in x && c !in y
    requires p + [c] + x == q + [c] + y
    ensures p == q && x == y
  {
    var t, u := p + [c] + x, q + [c] + y;
    assert t[|p|] == c && u[|q|] == c;
    assert forall i :: |p| < i < |t| ==> t[i] == x[i - |p| - 1];
    assert forall i :: |q| < i < |u| ==> u[i] == y[i - |q| - 1];
    assert p == t[..|p|] == u[..|q|] == q;
    assert x == t[|p| + 1..] == u[|q| + 1..] == y;
  }

  /** `str::rsplit_once`: the parts before and after the last occurrence of `c`. */
  function RSplitOnce(text: string, c: char): (r: Option<(string, string)>)
    ensures r.None? <==> c !in text
    ensures r.Some? ==> text == r.value.0 + [c] + r.value.1 && c !in r.value.1
  {
    if text == [] then None
    else if text[|text| - 1] == c then
      assert text == text[..|text| - 1] + [c] + [];
      Some((text[..|text| - 1], []))
    else
      var head := text[..|text| - 1];
      assert text == head + [text[|text| - 1]];
      match RSplitOnce(head, c)
      case None => None
      case Some((before, after)) =>
        assert text == before + [c] + (after + [text[|text| - 1]]);
        Some((before, after + [text[|text| - 1]]))
  }

  /** `str::split` on a character: always at least one part. */
  function Split<T(==)>(text: seq<T>, c: T): (parts: seq<seq<T>>)
    ensures |parts| > 0
  {
    if text == [] then [[]]
    else
      var rest := Split(text[1..], c);
      if text[0] == c then [[]] + rest else [[text[0]] + rest[0]] + rest[1..]
  }

  // ----- Decimal numbers -----

  function Digit(d: nat): (c: char)
    requires d < 10
    ensures IsDigit(c)
  {
    '0' + d as char
  }

  predicate IsDigit(c: char) {
    '0' <= c <= '9'
  }

  predicate AllDigits(text: string) {
    forall c :: c in text ==> IsDigit(c)
  }

  /** `Display` of an unsigned integer. */
  function Decimal(n: nat): (text: string)
    ensures text != [] && AllDigits(text)
  {
    if n < 10 then [Digit(n)] else Decimal(n / 10) + [Digit(n % 10)]
  }

  function DigitsValue(text: string): (n: nat)
    requires AllDigits(text)
  {
    if text == [] then 0
    else
      assert text[|text| - 1] in text && forall c :: c in text[..|text| - 1] ==> c in text;
      DigitsValue(text[..|text| - 1]) * 10 + (text[|text| - 1] as int - '0' as int)
  }

  lemma {:induction false} DecimalValue(n: nat)
    ensures DigitsValue(Decimal(n)) == n
  {
    var text := Decimal(n);
    if n < 10 {
      assert text == [Digit(n)] && text[..0] == [];
      assert DigitsValue([]) == 0;
    } else {
      DecimalValue(n / 10);
      assert text[..|text| - 1] == Decimal(n / 10);
    }
  }

  lemma DecimalInjective(a: nat, b: nat)
    requires Decimal(a) == Decimal(b)
    ensures a == b
  {
    DecimalValue(a);
    DecimalValue(b);
  }

  const U64_SIZE: int := 0x1_0000_0000_0000_0000

  /** `str::parse::<usize>`: an optional plus sign, at least one digit, and no overflow. */
  function ParseUsize(text: string): (r: Option<nat>)
    ensures r.Some? ==> r.value < U64_SIZE
  {
    var digits := if text != [] && text[0] == '+' then text[1..] else text;
    if digits == [] || !AllDigits(digits) || DigitsValue(digits) >= U64_SIZE then None
    else Some(DigitsValue(digits))
  }

  lemma ParsePrinted(n: nat)
    requires n < U64_SIZE
    ensures ParseUsize(Decimal(n)) == Some(n)
  {
    DecimalValue(n);
    assert IsDigit(Decimal(n)[0]);
  }
}
