/** Printing and parsing entity references: percent coding, paths, sub-element names. */
module References {
  import opened Text

  newtype Byte = b: int | 0 <= b < 256

  type Bytes = seq<Byte>

  const SLASH: Byte := 47
  const AT: Byte := 64
  const PERCENT: Byte := 37
  const PLUS: Byte := 43

  // ----- Percent coding (sections 2.1 and 2.3 of RFC 3986) -----

  predicate IsUnreserved(b: Byte) {
    || 65 <= b <= 90 || 97 <= b <= 122 || 48 <= b <= 57   // A-Z a-z 0-9
    || b == 46 || b == 95 || b == 45 || b == 126          // . _ - ~
  }

  function HexDigit(n: int): Byte
    requires 0 <= n < 16
  {
    if n < 10 then (48 + n) as Byte else (55 + n) as Byte
  }

  function EncodeByte(b: Byte): Bytes {
    if IsUnreserved(b) then [b] else [PERCENT, HexDigit(b as int / 16), HexDigit(b as int % 16)]
  }

  function Encode(s: Bytes): Bytes {
    if s == [] then [] else EncodeByte(s[0]) + Encode(s[1..])
  }

  function HexValue(b: Byte): Option<int> {
    if 48 <= b <= 57 then Some(b as int - 48)
    else if 65 <= b <= 70 then Some(b as int - 55)
    else if 97 <= b <= 102 then Some(b as int - 87)
    else None
  }

  /** `u8::from_str_radix` on two characters: it also accepts a plus sign before a single digit. */
  function ParseHex(high: Byte, low: Byte): Option<Byte> {
    match HexValue(low)
    case None => None
    case Some(l) =>
      if high == PLUS then Some(l as Byte)
      else match HexValue(high)
        case None => None
        case Some(h) =>
          if 0 <= h < 16 && 0 <= l < 16 then Some((h * 16 + l) as Byte) else None
  }

  /** A byte that continues a UTF-8 character; slicing in front of it aborts. */
  predicate IsContinuation(b: Byte) {
    128 <= b < 192
  }

  predicate CutsCharacter(s: Bytes, i: nat) {
    i < |s| && IsContinuation(s[i])
  }

  /** `percent_decode` on the rest of a string; None when a slice would cut a character. */
  function Decode(s: Bytes): Option<Bytes>
    decreases |s|
  {
    if s == [] then Some([])
    else if s[0] == PERCENT && |s| > 2 then
      if CutsCharacter(s, 1) || CutsCharacter(s, 3) then None
      else match ParseHex(s[1], s[2])
        case Some(b) => Prepend(b, Decode(s[3..]))
        case None => Prepend(s[0], Decode(s[1..]))
    else Prepend(s[0], Decode(s[1..]))
  }

  function Prepend(b: Byte, rest: Option<Bytes>): Option<Bytes> {
    match rest case None => None case Some(r) => Some([b] + r)
  }

  function Append(front: Bytes, rest: Option<Bytes>): Option<Bytes> {
    match rest case None => None case Some(r) => Some(front + r)
  }

  // ----- Bytes read as UTF-8, with replacement (`String::from_utf8_lossy`) -----

  predicate Continues(s: Bytes, i: nat) {
    i < |s| && IsContinuation(s[i])
  }

  /** The second bytes that can follow the first byte of a three- or four-byte character. */
  predicate SecondFits(first: Byte, second: Byte) {
    if first == 224 then 160 <= second < 192
    else if first == 237 then 128 <= second < 160
    else if first == 240 then 144 <= second < 192
    else if first == 244 then 128 <= second < 144
    else IsContinuation(second)
  }

  /** Whether some bytes start with a character, and how many bytes it, or else its longest beginning, takes. */
  function Scan(s: Bytes): (r: (bool, nat))
    requires s != []
    ensures 1 <= r.1 <= |s|
  {
    if s[0] < 128 then (true, 1)
    else if 194 <= s[0] < 224 then if Continues(s, 1) then (true, 2) else (false, 1)
    else if 224 <= s[0] < 245 then
      if |s| < 2 || !SecondFits(s[0], s[1]) then (false, 1)
      else if !Continues(s, 2) then (false, 2)
      else if s[0] < 240 then (true, 3)
      else if !Continues(s, 3) then (false, 3)
      else (true, 4)
    else (false, 1)
  }

  /** The bytes of a string. */
  predicate IsUtf8(s: Bytes)
    decreases |s|
  {
    s == [] || (Scan(s).0 && IsUtf8(s[Scan(s).1..]))
  }

  const REPLACEMENT: Bytes := [239, 191, 189]

  function Lossy(s: Bytes): Bytes
    decreases |s|
  {
    if s == [] then []
    else (if Scan(s).0 then s[..Scan(s).1] else REPLACEMENT) + Lossy(s[Scan(s).1..])
  }

  /** A character is recognised by its own bytes, whatever follows. */
  lemma ScanLocal(s: Bytes, t: Bytes)
    requires s != [] && Scan(s).0
    ensures Scan(s[..Scan(s).1] + t) == Scan(s)
    ensures forall i :: 1 <= i < Scan(s).1 ==> s[i] >= 128
    ensures Scan(s).1 > 1 ==> s[0] >= 128
  {
  }

  lemma CharacterThenText(s: Bytes, t: Bytes)
    requires s != [] && Scan(s).0 && IsUtf8(t)
    ensures IsUtf8(s[..Scan(s).1] + t)
  {
    ScanLocal(s, t);
    assert (s[..Scan(s).1] + t)[Scan(s).1..] == t;
  }

  lemma {:induction false} LossyIsUtf8(s: Bytes)
    ensures IsUtf8(Lossy(s))
    decreases |s|
  {
    if s == [] {
    } else {
      LossyIsUtf8(s[Scan(s).1..]);
      if Scan(s).0 {
        CharacterThenText(s, Lossy(s[Scan(s).1..]));
      } else {
        assert REPLACEMENT[..3] == REPLACEMENT;
        CharacterThenText(REPLACEMENT, Lossy(s[Scan(s).1..]));
      }
    }
  }

  /** Reading with replacement leaves exactly the valid texts as they are. */
  lemma {:induction false} LossyKeepsUtf8(s: Bytes)
    ensures Lossy(s) == s <==> IsUtf8(s)
    decreases |s|
  {
    LossyIsUtf8(s);
    if IsUtf8(s) && s != [] {
      LossyKeepsUtf8(s[Scan(s).1..]);
      assert s == s[..Scan(s).1] + s[Scan(s).1..];
    }
  }

  /** `percent_decode`. */
  function DecodeText(s: Bytes): Option<Bytes> {
    match Decode(s) case None => None case Some(bytes) => Some(Lossy(bytes))
  }

  /** Decoded text is the encoded one exactly when that was text. */
  lemma DecodeTextUndoesEncode(s: Bytes)
    ensures DecodeText(Encode(s)) == Some(s) <==> IsUtf8(s)
  {
    DecodeUndoesEncode(s);
    LossyKeepsUtf8(s);
  }

  method PercentDecode(value: Bytes) returns (r: Option<Bytes>)
    ensures r == DecodeText(value)
  {
    var result: Bytes := [];
    var index := 0;
    assert value[0..] == value && Append([], Decode(value)) == Decode(value) by { AppendNothing(value); }
    while index < |value|
      invariant 0 <= index <= |value|
      invariant Decode(value) == Append(result, Decode(value[index..]))
    {
      var rest := value[index..];
      if value[index] == PERCENT && index + 2 < |value| {
        if CutsCharacter(value, index + 1) || CutsCharacter(value, index + 3) { return None; }
        var parsed := ParseHex(value[index + 1], value[index + 2]);
        if parsed.Some? {
          assert rest[3..] == value[index + 3..];
          AppendPrepend(result, parsed.value, Decode(value[index + 3..]));
          result := result + [parsed.value];
          index := index + 3;
          continue;
        }
      }
      assert rest[1..] == value[index + 1..];
      AppendPrepend(result, value[index], Decode(value[index + 1..]));
      result := result + [value[index]];
      index := index + 1;
    }
    assert value[index..] == [] && result + [] == result;
    r := Some(Lossy(result));
  }

  lemma AppendNothing(value: Bytes)
    ensures value[0..] == value && Append([], Decode(value)) == Decode(value)
  {
    if Decode(value).Some? { assert [] + Decode(value).value == Decode(value).value; }
  }

  lemma AppendPrepend(front: Bytes, b: Byte, rest: Option<Bytes>)
    ensures Append(front, Prepend(b, rest)) == Append(front + [b], rest)
  {
    if rest.Some? { assert front + ([b] + rest.value) == front + [b] + rest.value; }
  }

  lemma HexRoundTrip(b: Byte)
    ensures ParseHex(HexDigit(b as int / 16), HexDigit(b as int % 16)) == Some(b)
  {
  }

  predicate IsCoded(b: Byte) {
    IsUnreserved(b) || b == PERCENT
  }

  /** Encoded text consists of unreserved characters and percent signs, so it has no separator. */
  lemma {:induction false} EncodedIsPlain(s: Bytes)
    ensures forall b :: b in Encode(s) ==> IsCoded(b)
    ensures SLASH !in Encode(s) && AT !in Encode(s)
  {
    if s == [] {
    } else {
      EncodedIsPlain(s[1..]);
      assert forall b :: b in EncodeByte(s[0]) ==> IsCoded(b);
    }
  }

  /** Decoding undoes encoding, for every byte string. */
  lemma {:induction false} DecodeUndoesEncode(s: Bytes)
    ensures Decode(Encode(s)) == Some(s)
  {
    if s == [] {
    } else {
      var rest := Encode(s[1..]);
      DecodeUndoesEncode(s[1..]);
      EncodedIsPlain(s[1..]);
      assert s == [s[0]] + s[1..];
      if IsUnreserved(s[0]) {
        assert Encode(s)[0] == s[0] && Encode(s)[1..] == rest;
      } else {
        HexRoundTrip(s[0]);
        var e := Encode(s);
        assert e[0] == PERCENT && e[1] == HexDigit(s[0] as int / 16) && e[2] == HexDigit(s[0] as int % 16) && e[3..] == rest;
        assert rest != [] ==> IsCoded(rest[0]);
      }
    }
  }

  lemma EncodeInjective(s: Bytes, t: Bytes)
    ensures Encode(s) == Encode(t) <==> s == t
  {
    DecodeUndoesEncode(s);
    DecodeUndoesEncode(t);
  }

  // ----- Splitting and joining paths -----

  function Join(parts: seq<Bytes>, c: Byte): Bytes
    requires parts != []
  {
    if |parts| == 1 then parts[0] else parts[0] + [c] + Join(parts[1..], c)
  }

  predicate Free(parts: seq<Bytes>, c: Byte) {
    forall i :: 0 <= i < |parts| ==> c !in parts[i]
  }

  lemma {:induction false} SplitFirst(head: Bytes, rest: Bytes, c: Byte)
    requires c !in head
    ensures Split(head + [c] + rest, c) == [head] + Split(rest, c)
    ensures Split(head, c) == [head]
    decreases |head|
  {
    var text := head + [c] + rest;
    if head == [] {
      assert text[1..] == rest;
    } else {
      assert text[1..] == head[1..] + [c] + rest && text[0] == head[0];
      SplitFirst(head[1..], rest, c);
      assert [head[0]] + head[1..] == head;
    }
  }

  /** Splitting undoes joining, for parts without the separator. */
  lemma {:induction false} SplitUndoesJoin(parts: seq<Bytes>, c: Byte)
    requires parts != [] && Free(parts, c)
    ensures Split(Join(parts, c), c) == parts
    decreases |parts|
  {
    if |parts| == 1 {
      SplitFirst(parts[0], [], c);
    } else {
      assert Free(parts[1..], c);
      SplitUndoesJoin(parts[1..], c);
      SplitFirst(parts[0], Join(parts[1..], c), c);
    }
  }

  lemma {:induction false} JoinUndoesSplit(text: Bytes, c: Byte)
    ensures Join(Split(text, c), c) == text && Free(Split(text, c), c)
    ensures c in text <==> |Split(text, c)| > 1
    decreases |text|
  {
    if text == [] {
    } else {
      var rest := Split(text[1..], c);
      JoinUndoesSplit(text[1..], c);
      assert text == [text[0]] + text[1..];
      var parts := Split(text, c);
      if text[0] == c {
        assert parts[1..] == rest;
      } else {
        assert parts[1..] == rest[1..] && parts[0] == [text[0]] + rest[0];
        if |rest| > 1 { assert parts[0] + [c] + Join(rest[1..], c) == [text[0]] + (rest[0] + [c] + Join(rest[1..], c)); }
      }
    }
  }

  lemma {:induction false} JoinConcat(a: seq<Bytes>, b: seq<Bytes>, c: Byte)
    requires a != [] && b != []
    ensures Join(a + b, c) == Join(a, c) + [c] + Join(b, c)
    decreases |a|
  {
    if |a| == 1 {
      assert (a + b)[1..] == b;
    } else {
      assert (a + b)[1..] == a[1..] + b;
      JoinConcat(a[1..], b, c);
      assert Join(a + b, c) == a[0] + [c] + (Join(a[1..], c) + [c] + Join(b, c));
    }
  }

  // ----- Entity references -----

  const OBJECT: Bytes := [111, 98, 106, 101, 99, 116]                        // object
  const SESSION: Bytes := [115, 101, 115, 115, 105, 111, 110]                // session
  const DOCUMENT: Bytes := [100, 111, 99, 117, 109, 101, 110, 116]           // document
  const SCHEME: Bytes := [102, 99, 58]                                       // fc:

  function EncodeAll(parts: seq<Bytes>): (r: seq<Bytes>)
    ensures |r| == |parts| && forall i :: 0 <= i < |parts| ==> r[i] == Encode(parts[i])
  {
    seq(|parts|, i requires 0 <= i < |parts| => Encode(parts[i]))
  }

  /** `entity_ref`. */
  function EntityRef(session: Bytes, document: Bytes, path: Bytes, revision: Bytes): Bytes {
    SCHEME + [SLASH, SLASH] + SESSION + [SLASH] + Encode(session) + [SLASH] + DOCUMENT + [SLASH] + Encode(document) + [SLASH]
    + Join(EncodeAll(Split(path, SLASH)), SLASH) + [AT] + revision
  }

  /** What the parsing half of `resolve` finds: the object name and the decoded parts after it. */
  datatype Parsed = Object(name: Bytes, parts: seq<Bytes>) | NotAReference | NoObject | NoName | Aborted

  function IndexOf(parts: seq<Bytes>, part: Bytes): Option<nat> {
    if parts == [] then None
    else if parts[0] == part then Some(0)
    else match IndexOf(parts[1..], part) case None => None case Some(i) => Some(i + 1)
  }

  function DecodeAll(parts: seq<Bytes>): Option<seq<Bytes>> {
    if parts == [] then Some([])
    else match DecodeText(parts[0])
      case None => None
      case Some(part) => match DecodeAll(parts[1..]) case None => None case Some(rest) => Some([part] + rest)
  }

  /** The components of a reference after the first one that equals a word. */
  function ParseAfter(components: seq<Bytes>, word: Bytes): Parsed {
    match IndexOf(components, word)
    case None => NoObject
    case Some(index) =>
      if index + 1 >= |components| then NoName
      else match DecodeText(components[index + 1])
        case None => Aborted
        case Some(name) => match DecodeAll(components[index + 2..]) case None => Aborted case Some(parts) => Object(name, parts)
  }

  function Resolve(ref: Bytes): Parsed {
    if |ref| < 5 || ref[..5] != SCHEME + [SLASH, SLASH] then NotAReference
    else ParseAfter(Split(Split(ref, AT)[0], SLASH), OBJECT)
  }

  /** The components of a printed reference. */
  function Components(session: Bytes, document: Bytes, path: seq<Bytes>): (r: seq<Bytes>)
    ensures |r| == 6 + |path|
  {
    Header(session, document) + EncodeAll(path)
  }

  predicate AllUtf8(parts: seq<Bytes>) {
    forall i :: 0 <= i < |parts| ==> IsUtf8(parts[i])
  }

  lemma {:induction false} DecodeAllUndoesEncodeAll(parts: seq<Bytes>)
    requires AllUtf8(parts)
    ensures DecodeAll(EncodeAll(parts)) == Some(parts)
    decreases |parts|
  {
    hide DecodeText;
    if parts == [] {
    } else {
      DecodeTextUndoesEncode(parts[0]);
      DecodeAllUndoesEncodeAll(parts[1..]);
      assert EncodeAll(parts)[1..] == EncodeAll(parts[1..]);
      assert parts == [parts[0]] + parts[1..];
    }
  }

  lemma ComponentsAreFree(session: Bytes, document: Bytes, path: seq<Bytes>)
    ensures Free(Components(session, document, path), SLASH) && Free(Components(session, document, path), AT)
  {
    EncodedIsPlain(session);
    EncodedIsPlain(document);
    WordsAreFree();
    forall i | 0 <= i < |path| ensures SLASH !in Encode(path[i]) && AT !in Encode(path[i]) { EncodedIsPlain(path[i]); }
  }

  lemma {:induction false} JoinFree(parts: seq<Bytes>, c: Byte, d: Byte)
    requires parts != [] && Free(parts, d) && c != d
    ensures d !in Join(parts, c)
    decreases |parts|
  {
    if |parts| == 1 {
    } else {
      assert Free(parts[1..], d);
      JoinFree(parts[1..], c, d);
    }
  }

  function Header(session: Bytes, document: Bytes): seq<Bytes> {
    [SCHEME, [], SESSION, Encode(session), DOCUMENT, Encode(document)]
  }

  lemma JoinPair(first: Bytes, rest: seq<Bytes>, c: Byte)
    requires rest != []
    ensures Join([first] + rest, c) == first + [c] + Join(rest, c)
  {
    assert ([first] + rest)[1..] == rest;
  }

  lemma JoinSix(a: Bytes, b: Bytes, p: Bytes, d: Bytes, e: Bytes, f: Bytes, c: Byte)
    ensures Join([a, b, p, d, e, f], c) == a + [c] + b + [c] + p + [c] + d + [c] + e + [c] + f
  {
    assert [a, b, p, d, e, f] == [a] + ([b] + ([p] + ([d] + ([e] + [f]))));
    JoinPair(e, [f], c);
    JoinPair(d, [e] + [f], c);
    JoinPair(p, [d] + ([e] + [f]), c);
    JoinPair(b, [p] + ([d] + ([e] + [f])), c);
    JoinPair(a, [b] + ([p] + ([d] + ([e] + [f]))), c);
    assert Join([a, b, p, d, e, f], c) == a + [c] + (b + [c] + (p + [c] + (d + [c] + (e + [c] + f))));
  }

  lemma HeaderText(session: Bytes, document: Bytes)
    ensures Join(Header(session, document), SLASH)
         == SCHEME + [SLASH, SLASH] + SESSION + [SLASH] + Encode(session) + [SLASH] + DOCUMENT + [SLASH] + Encode(document)
  {
    JoinSix(SCHEME, [], SESSION, Encode(session), DOCUMENT, Encode(document), SLASH);
    assert [SLASH] + [] + [SLASH] == [SLASH, SLASH];
    assert SCHEME + [SLASH] + [] + [SLASH] == SCHEME + [SLASH, SLASH];
  }

  lemma ReferenceText(session: Bytes, document: Bytes, path: seq<Bytes>, revision: Bytes)
    requires path != [] && Free(path, SLASH)
    ensures EntityRef(session, document, Join(path, SLASH), revision)
         == Join(Components(session, document, path), SLASH) + [AT] + revision
  {
    SplitUndoesJoin(path, SLASH);
    JoinConcat(Header(session, document), EncodeAll(path), SLASH);
    HeaderText(session, document);
  }

  lemma SchemeFirst(session: Bytes, document: Bytes, path: seq<Bytes>, tail: Bytes)
    requires path != []
    ensures var ref := Join(Components(session, document, path), SLASH) + tail;
      |ref| >= 5 && ref[..5] == SCHEME + [SLASH, SLASH]
  {
    var rest := [SESSION, Encode(session), DOCUMENT, Encode(document)] + EncodeAll(path);
    assert Components(session, document, path) == [SCHEME] + ([[]] + rest);
    JoinPair([], rest, SLASH);
    JoinPair(SCHEME, [[]] + rest, SLASH);
    TwoSeparators(SCHEME, Join(rest, SLASH), tail, SLASH);
  }

  lemma TwoSeparators(a: Bytes, x: Bytes, tail: Bytes, c: Byte)
    ensures var text := a + [c] + ([] + [c] + x) + tail;
      |text| >= |a| + 2 && text[..|a| + 2] == a + [c, c]
  {
    assert a + [c] + ([] + [c] + x) + tail == a + [c, c] + (x + tail);
  }

  /** Printing a reference and splitting it again gives its components. */
  lemma ReferenceComponents(session: Bytes, document: Bytes, path: seq<Bytes>, revision: Bytes)
    requires path != [] && Free(path, SLASH)
    ensures var ref := EntityRef(session, document, Join(path, SLASH), revision);
      |ref| >= 5 && ref[..5] == SCHEME + [SLASH, SLASH] && Split(Split(ref, AT)[0], SLASH) == Components(session, document, path)
  {
    hide *;
    ReferenceText(session, document, path, revision);
    ComponentsAreFree(session, document, path);
    WordsAreFree();
    SplitHead(Components(session, document, path), revision, SLASH, AT);
    SchemeFirst(session, document, path, [AT] + revision);
    PlusThree(Join(Components(session, document, path), SLASH), [AT], revision);
  }

  lemma PlusThree(a: Bytes, b: Bytes, c: Bytes)
    ensures a + (b + c) == a + b + c
  {
  }

  /** The part before the first `d` of a joined list splits back into the list. */
  lemma SplitHead(parts: seq<Bytes>, tail: Bytes, c: Byte, d: Byte)
    requires parts != [] && Free(parts, c) && Free(parts, d) && c != d
    ensures Split(Split(Join(parts, c) + [d] + tail, d)[0], c) == parts
  {
    hide *;
    JoinFree(parts, c, d);
    SplitFirst(Join(parts, c), tail, d);
    SplitUndoesJoin(parts, c);
  }

  lemma WordsDiffer()
    ensures Encode(OBJECT) == OBJECT && Encode(DOCUMENT) == DOCUMENT
    ensures SCHEME != OBJECT && SESSION != OBJECT && DOCUMENT != OBJECT
  {
    PlainIsFixed(OBJECT);
    PlainIsFixed(DOCUMENT);
    assert |OBJECT| == 6 && |DOCUMENT| == 8 && |SESSION| == 7 && |SCHEME| == 3;
  }

  predicate IsAscii(s: Bytes) {
    forall i :: 0 <= i < |s| ==> s[i] < 128
  }

  /** Text after an ASCII beginning is text exactly when the whole is. */
  lemma {:induction false} AfterAscii(a: Bytes, b: Bytes)
    requires IsAscii(a)
    ensures IsUtf8(a + b) <==> IsUtf8(b)
    decreases |a|
  {
    if a == [] {
      assert a + b == b;
    } else {
      assert (a + b)[1..] == a[1..] + b;
      AfterAscii(a[1..], b);
      assert Scan(a + b) == (true, 1);
    }
  }

  lemma AsciiIsUtf8(s: Bytes)
    requires IsAscii(s)
    ensures IsUtf8(s)
  {
    AfterAscii(s, []);
    assert s + [] == s;
  }

  lemma WordsAreText()
    ensures IsUtf8(OBJECT) && IsUtf8(DOCUMENT)
  {
    hide IsUtf8;
    AsciiIsUtf8(OBJECT);
    AsciiIsUtf8(DOCUMENT);
  }

  lemma {:induction false} SplitPast(head: Bytes, rest: Bytes, c: Byte)
    requires c !in head
    ensures Split(head + rest, c) == [head + Split(rest, c)[0]] + Split(rest, c)[1..]
    decreases |head|
  {
    if head == [] {
      assert head + rest == rest && head + Split(rest, c)[0] == Split(rest, c)[0];
      assert Split(rest, c) == [Split(rest, c)[0]] + Split(rest, c)[1..];
    } else {
      assert (head + rest)[1..] == head[1..] + rest;
      SplitPast(head[1..], rest, c);
      assert [head[0]] + (head[1..] + Split(rest, c)[0]) == head + Split(rest, c)[0];
    }
  }

  /** Cutting text at an ASCII character gives text. */
  lemma {:induction false} SplitKeepsUtf8(s: Bytes, c: Byte)
    requires IsUtf8(s) && c < 128
    ensures AllUtf8(Split(s, c))
    decreases |s|
  {
    if s == [] {
    } else {
      var n := Scan(s).1;
      var rest := Split(s[n..], c);
      SplitKeepsUtf8(s[n..], c);
      assert s == s[..n] + s[n..];
      ScanLocal(s, []);
      if s[0] == c {
        assert s[n..] == s[1..];
      } else {
        SplitPast(s[..n], s[n..], c);
        CharacterThenText(s, rest[0]);
      }
    }
  }

  lemma WordsAreFree()
    ensures SLASH !in SCHEME && SLASH !in SESSION && SLASH !in DOCUMENT && SLASH !in OBJECT && SLASH != AT
    ensures AT !in SCHEME && AT !in SESSION && AT !in DOCUMENT
  {
  }

  lemma {:induction false} PlainIsFixed(s: Bytes)
    requires forall b :: b in s ==> IsUnreserved(b)
    ensures Encode(s) == s
  {
    if s == [] {
    } else {
      PlainIsFixed(s[1..]); assert s == [s[0]] + s[1..];
    }
  }

  lemma ParseAt(cs: seq<Bytes>, word: Bytes, i: nat, name: Bytes, parts: seq<Bytes>)
    requires i + 1 < |cs| && cs[i] == word && forall j :: 0 <= j < i ==> cs[j] != word
    requires cs[i + 1] == Encode(name) && cs[i + 2..] == EncodeAll(parts)
    requires IsUtf8(name) && AllUtf8(parts)
    ensures ParseAfter(cs, word) == Object(name, parts)
  {
    hide DecodeText, IsUtf8;
    IndexAt(cs, word, i);
    DecodeTextUndoesEncode(name);
    DecodeAllUndoesEncodeAll(parts);
  }

  lemma HeaderWords(session: Bytes, document: Bytes)
    ensures var h := Header(session, document);
      && |h| == 6 && h[0] != OBJECT && h[1] != OBJECT && h[2] != OBJECT
      && h[4] == Encode(DOCUMENT) != OBJECT && h[5] == Encode(document)
      && (h[3] == OBJECT <==> session == OBJECT) && (h[5] == OBJECT <==> document == OBJECT)
  {
    WordsDiffer();
    EncodeInjective(session, OBJECT);
    EncodeInjective(document, OBJECT);
  }

  lemma EncodedTail(parts: seq<Bytes>, k: nat)
    requires k <= |parts|
    ensures EncodeAll(parts)[k..] == EncodeAll(parts[k..])
  {
  }

  lemma TextPrepend(part: Bytes, parts: seq<Bytes>)
    requires IsUtf8(part) && AllUtf8(parts)
    ensures AllUtf8([part] + parts)
  {
    hide IsUtf8;
  }

  lemma EncodedPrepend(part: Bytes, parts: seq<Bytes>)
    ensures EncodeAll([part] + parts) == [Encode(part)] + EncodeAll(parts)
  {
  }

  lemma DropPast(front: seq<Bytes>, back: seq<Bytes>, k: nat)
    requires k <= |back|
    ensures (front + back)[|front| + k..] == back[k..]
  {
  }

  // The three places where a word can be found first, after six leading components.

  lemma FoundThird(header: seq<Bytes>, coded: seq<Bytes>, word: Bytes, fifth: Bytes, document: Bytes, path: seq<Bytes>)
    requires |header| == 6 && header[0] != word && header[1] != word && header[2] != word && header[3] == word
    requires header[4] == Encode(fifth) && header[5] == Encode(document) && coded == EncodeAll(path)
    requires IsUtf8(fifth) && IsUtf8(document) && AllUtf8(path)
    ensures ParseAfter(header + coded, word) == Object(fifth, [document] + path)
  {
    hide *;
    TextPrepend(document, path);
    EncodedPrepend(document, path);
    assert (header + coded)[5..] == [header[5]] + coded;
    ParseAt(header + coded, word, 3, fifth, [document] + path);
  }

  lemma FoundLater(header: seq<Bytes>, coded: seq<Bytes>, word: Bytes, i: nat, path: seq<Bytes>)
    requires |path| >= 2 && coded == EncodeAll(path) && coded[0] == word && AllUtf8(path)
    requires |header| == 6 && (i == 6 || (i == 5 && header[5] == word))
    requires forall j :: 0 <= j < i ==> header[j] != word
    ensures ParseAfter(header + coded, word) == Object(path[i - 5], path[i - 4..])
  {
    EncodedTail(path, i - 4);
    DropPast(header, coded, i - 4);
    ParseAt(header + coded, word, i, path[i - 5], path[i - 4..]);
  }

  lemma ParseHeader(header: seq<Bytes>, coded: seq<Bytes>, word: Bytes, fifth: Bytes, document: Bytes, path: seq<Bytes>)
    requires |path| >= 2 && coded == EncodeAll(path) && coded[0] == word
    requires IsUtf8(fifth) && IsUtf8(document) && AllUtf8(path)
    requires |header| == 6 && header[0] != word && header[1] != word && header[2] != word
    requires header[4] == Encode(fifth) != word && header[5] == Encode(document)
    ensures ParseAfter(header + coded, word) ==
      if header[3] == word then Object(fifth, [document] + path)
      else if header[5] == word then Object(path[0], path[1..])
      else Object(path[1], path[2..])
  {
    hide ParseAfter, Encode;
    if header[3] == word { FoundThird(header, coded, word, fifth, document, path); }
    else if header[5] == word { FoundLater(header, coded, word, 5, path); }
    else { FoundLater(header, coded, word, 6, path); }
  }

  /** Where parsing finds the word object: a session or document of that name is mistaken for it. */
  lemma ParsePath(session: Bytes, document: Bytes, path: seq<Bytes>)
    requires |path| >= 2 && path[0] == OBJECT && IsUtf8(document) && AllUtf8(path)
    ensures ParseAfter(Components(session, document, path), OBJECT) ==
      if session == OBJECT then Object(DOCUMENT, [document] + path)
      else if document == OBJECT then Object(OBJECT, path[1..])
      else Object(path[1], path[2..])
  {
    WordsAreText();
    assert Components(session, document, path) == Header(session, document) + EncodeAll(path);
    hide *;
    HeaderWords(session, document);
    WordsDiffer();
    ParseHeader(Header(session, document), EncodeAll(path), OBJECT, DOCUMENT, document, path);
  }

  lemma {:induction false} IndexAt(parts: seq<Bytes>, part: Bytes, i: nat)
    requires i < |parts| && parts[i] == part && forall j :: 0 <= j < i ==> parts[j] != part
    ensures IndexOf(parts, part) == Some(i)
    decreases i
  {
    if i == 0 {
    } else {
      IndexAt(parts[1..], part, i - 1);
    }
  }

  function ObjectPath(name: Bytes, parts: seq<Bytes>): Bytes {
    Join([OBJECT, name] + parts, SLASH)
  }

  /** The components that the path of an object reference is split into. */
  function PathPieces(name: Bytes, parts: seq<Bytes>): seq<Bytes> {
    [OBJECT] + Split(name, SLASH) + parts
  }

  lemma PathPiecesAreText(name: Bytes, parts: seq<Bytes>)
    requires Free(parts, SLASH) && IsUtf8(name) && AllUtf8(parts)
    ensures var path := PathPieces(name, parts);
      |path| >= 2 && path[0] == OBJECT && Free(path, SLASH) && AllUtf8(path)
  {
    hide *;
    var pieces := Split(name, SLASH);
    WordPiece();
    PathPiecesAre(name, parts);
    JoinUndoesSplit(name, SLASH);
    SplitKeepsUtf8(name, SLASH);
    FreeTextConcat([OBJECT], pieces, SLASH);
    FreeTextConcat([OBJECT] + pieces, parts, SLASH);
  }

  lemma PathPiecesAre(name: Bytes, parts: seq<Bytes>)
    ensures PathPieces(name, parts) == [OBJECT] + Split(name, SLASH) + parts
    ensures |PathPieces(name, parts)| >= 2 && PathPieces(name, parts)[0] == OBJECT
  {
  }

  lemma WordPiece()
    ensures SLASH < 128 && AllUtf8([OBJECT]) && Free([OBJECT], SLASH)
  {
    hide IsUtf8;
    WordsAreText();
    WordsAreFree();
  }

  lemma FreeTextConcat(a: seq<Bytes>, b: seq<Bytes>, c: Byte)
    requires Free(a, c) && Free(b, c) && AllUtf8(a) && AllUtf8(b)
    ensures Free(a + b, c) && AllUtf8(a + b)
  {
    hide IsUtf8;
  }

  /** A name without a slash is one component, any other is several. */
  lemma PathPiecesTell(name: Bytes, parts: seq<Bytes>)
    ensures var path := PathPieces(name, parts);
      |path| >= |parts| + 2 && (path[1] == name && path[2..] == parts <==> SLASH !in name)
  {
    var pieces := Split(name, SLASH);
    JoinUndoesSplit(name, SLASH);
    if SLASH !in name {
      SplitFirst(name, [], SLASH);
    } else {
      assert |PathPieces(name, parts)[2..]| == |pieces| - 1 + |parts|;
    }
  }

  /** Resolving a printed object reference recovers the object name and the sub-element parts exactly when
      the name has no slash and neither session nor document is literally "object". */
  lemma ResolveRecovers(session: Bytes, document: Bytes, name: Bytes, parts: seq<Bytes>, revision: Bytes)
    requires Free(parts, SLASH) && IsUtf8(document) && IsUtf8(name) && AllUtf8(parts)
    ensures Resolve(EntityRef(session, document, ObjectPath(name, parts), revision)) == Object(name, parts) <==>
            SLASH !in name && session != OBJECT && document != OBJECT
  {
    var path := PathPieces(name, parts);
    var ref := EntityRef(session, document, ObjectPath(name, parts), revision);
    SamePath(name, parts);
    assert ref == EntityRef(session, document, Join(path, SLASH), revision);
    PathPiecesAreText(name, parts);
    PathPiecesTell(name, parts);
    ReferenceComponents(session, document, path, revision);
    assert Resolve(ref) == ParseAfter(Components(session, document, path), OBJECT);
    hide *;
    ParsePath(session, document, path);
    assert |[document] + path| > |parts| && |path[1..]| > |parts|;
  }

  lemma SamePath(name: Bytes, parts: seq<Bytes>)
    ensures ObjectPath(name, parts) == Join([OBJECT] + Split(name, SLASH) + parts, SLASH)
  {
    var pieces, first := Split(name, SLASH), [OBJECT];
    JoinUndoesSplit(name, SLASH);
    JoinConcat(first, pieces, SLASH);
    assert first + [name] == [OBJECT, name];
    JoinConcat(first, [name], SLASH);
    if parts != [] {
      JoinConcat(first + pieces, parts, SLASH);
      JoinConcat(first + [name], parts, SLASH);
    } else {
      assert first + pieces + parts == first + pieces && [OBJECT, name] + parts == first + [name];
    }
  }

  // ----- Sub-element names -----

  const FACE: Bytes := [102, 97, 99, 101] // face
  const FACE_NAME: Bytes := [70, 97, 99, 101] // Face
  const EDGE: Bytes := [101, 100, 103, 101] // edge
  const EDGE_NAME: Bytes := [69, 100, 103, 101] // Edge
  const VERTEX: Bytes := [118, 101, 114, 116, 101, 120] // vertex
  const VERTEX_NAME: Bytes := [86, 101, 114, 116, 101, 120] // Vertex
  const CONSTRAINT: Bytes := [99, 111, 110, 115, 116, 114, 97, 105, 110, 116] // constraint
  const CONSTRAINT_NAME: Bytes := [67, 111, 110, 115, 116, 114, 97, 105, 110, 116] // Constraint

  function StripBytes(value: Bytes, prefix: Bytes): Option<Bytes> {
    if |prefix| <= |value| && value[..|prefix|] == prefix then Some(value[|prefix|..]) else None
  }

  /** `subelement_kind`: a selection name such as Face12 becomes its kind and number. */
  function SubelementKind(value: Bytes): Option<(Bytes, Bytes)> {
    match StripBytes(value, FACE_NAME)
    case Some(number) => Some((FACE, number))
    case None =>
      match StripBytes(value, EDGE_NAME)
      case Some(number) => Some((EDGE, number))
      case None =>
        match StripBytes(value, VERTEX_NAME)
        case Some(number) => Some((VERTEX, number))
        case None =>
          match StripBytes(value, CONSTRAINT_NAME)
          case Some(number) => Some((CONSTRAINT, number))
          case None => None
  }

  predicate IsKind(part: Bytes) {
    part == FACE || part == EDGE || part == VERTEX || part == CONSTRAINT
  }

  /** `capitalize`, for text that starts with an ASCII character. */
  function Capitalize(value: Bytes): Bytes {
    if value == [] then []
    else [if 97 <= value[0] <= 122 then value[0] - 32 else value[0]] + value[1..]
  }

  /** `subelement_name`. */
  function SubelementName(parts: seq<Bytes>): Option<Bytes> {
    if |parts| >= 2 && IsKind(parts[0]) then Some(Capitalize(parts[0]) + parts[1]) else None
  }

  lemma CapitalizedKinds()
    ensures Capitalize(FACE) == FACE_NAME && Capitalize(EDGE) == EDGE_NAME
    ensures Capitalize(VERTEX) == VERTEX_NAME && Capitalize(CONSTRAINT) == CONSTRAINT_NAME
  {
    assert Capitalize(FACE) == FACE_NAME;
    assert Capitalize(EDGE) == EDGE_NAME;
    assert Capitalize(VERTEX) == VERTEX_NAME;
    assert Capitalize(CONSTRAINT) == CONSTRAINT_NAME;
  }

  lemma NamesDiffer()
    ensures FACE_NAME != [] && EDGE_NAME != [] && VERTEX_NAME != [] && CONSTRAINT_NAME != []
    ensures FACE_NAME[0] == 70 && EDGE_NAME[0] == 69 && VERTEX_NAME[0] == 86 && CONSTRAINT_NAME[0] == 67
  {
  }

  lemma KindsDiffer()
    ensures FACE != EDGE && FACE != VERTEX && FACE != CONSTRAINT && EDGE != VERTEX && EDGE != CONSTRAINT && VERTEX != CONSTRAINT
  {
    assert FACE[0] == 102 && EDGE[0] == 101 && VERTEX[0] == 118 && CONSTRAINT[0] == 99;
  }

  /** Stripping a prefix succeeds exactly on texts that start with it, so at most for one of two differing beginnings. */
  lemma StripMeaning(value: Bytes, prefix: Bytes, number: Bytes, other: Bytes)
    ensures StripBytes(value, prefix) == Some(number) <==> value == prefix + number
    ensures value == other + number && other != [] && prefix != [] && other[0] != prefix[0] ==> StripBytes(value, prefix).None?
  {
    if value == prefix + number { assert value[..|prefix|] == prefix && value[|prefix|..] == number; }
    if |prefix| <= |value| { assert value == value[..|prefix|] + value[|prefix|..]; }
    if value == other + number && other != [] { assert value[0] == other[0]; }
  }

  lemma StripAll(value: Bytes, number: Bytes, name: Bytes)
    ensures StripBytes(value, name) == Some(number) <==> value == name + number
    ensures value == name + number && name != [] ==>
      && (name[0] != 70 ==> StripBytes(value, FACE_NAME).None?) && (name[0] != 69 ==> StripBytes(value, EDGE_NAME).None?)
      && (name[0] != 86 ==> StripBytes(value, VERTEX_NAME).None?)
  {
    NamesDiffer();
    hide StripBytes, FACE_NAME, EDGE_NAME, VERTEX_NAME, CONSTRAINT_NAME;
    StripMeaning(value, name, number, name);
    StripMeaning(value, FACE_NAME, number, name);
    StripMeaning(value, EDGE_NAME, number, name);
    StripMeaning(value, VERTEX_NAME, number, name);
  }

  /** `subelement_name` undoes `subelement_kind`, and the other way round. */
  lemma SubelementRoundTrip(value: Bytes, kind: Bytes, number: Bytes)
    ensures SubelementKind(value) == Some((kind, number)) <==> SubelementName([kind, number]) == Some(value)
  {
    hide StripBytes, Capitalize, FACE, EDGE, VERTEX, CONSTRAINT, FACE_NAME, EDGE_NAME, VERTEX_NAME, CONSTRAINT_NAME;
    CapitalizedKinds();
    NamesDiffer();
    KindsDiffer();
    StripAll(value, number, FACE_NAME);
    StripAll(value, number, EDGE_NAME);
    StripAll(value, number, VERTEX_NAME);
    StripAll(value, number, CONSTRAINT_NAME);
  }

  lemma KindsAreAscii(kind: Bytes)
    requires IsKind(kind)
    ensures IsAscii(kind) && IsAscii(Capitalize(kind)) && SLASH !in kind
  {
    hide Capitalize;
    LettersAreAscii(kind);
  }

  lemma LettersAreAscii(word: Bytes)
    requires forall i :: 0 <= i < |word| ==> 97 <= word[i] <= 122
    ensures IsAscii(word) && IsAscii(Capitalize(word)) && SLASH !in word
  {
  }

  lemma SelectionParts(value: Bytes, kind: Bytes, number: Bytes)
    requires SubelementName([kind, number]) == Some(value) && IsUtf8(value) && SLASH !in number
    ensures AllUtf8([kind, number]) && Free([kind, number], SLASH)
  {
    hide *;
    NameParts(kind, number, value);
    KindsAreAscii(kind);
    AsciiIsUtf8(kind);
    AfterAscii(Capitalize(kind), number);
    PairIsFreeText(kind, number, SLASH);
  }

  lemma NameParts(kind: Bytes, number: Bytes, value: Bytes)
    requires SubelementName([kind, number]) == Some(value)
    ensures IsKind(kind) && value == Capitalize(kind) + number
  {
    hide IsKind, Capitalize;
  }

  lemma PairIsFreeText(a: Bytes, b: Bytes, c: Byte)
    requires c !in a && c !in b && IsUtf8(a) && IsUtf8(b)
    ensures AllUtf8([a, b]) && Free([a, b], c)
  {
    hide IsUtf8;
  }

  /** A selected sub-element survives printing, parsing and renaming. */
  lemma SelectionRoundTrip(session: Bytes, document: Bytes, name: Bytes, value: Bytes, kind: Bytes, number: Bytes, revision: Bytes)
    requires SubelementKind(value) == Some((kind, number)) && SLASH !in number && SLASH !in name
    requires IsUtf8(document) && IsUtf8(name) && IsUtf8(value)
    requires session != OBJECT && document != OBJECT
    ensures var parsed := Resolve(EntityRef(session, document, ObjectPath(name, [kind, number]), revision));
      parsed == Object(name, [kind, number]) && SubelementName(parsed.parts) == Some(value)
  {
    hide *;
    SubelementRoundTrip(value, kind, number);
    SelectionParts(value, kind, number);
    ResolveRecovers(session, document, name, [kind, number], revision);
  }
}
