/** JSON texts: what the canonical text has to do with `JSON.stringify`, and how long a text is in UTF-8. */
module JsonText {
  import opened Base
  import opened CanonicalJson
  import opened Metadata

  // ---------------------------------------------------------------------------
  // The canonical text
  // ---------------------------------------------------------------------------

  /** Every object, at any depth, lists its keys in order. */
  predicate IsOrdered(v: Json) {
    match v
    case Arr(es) => forall e | e in es :: IsOrdered(e)
    case Obj(fs) => Ordered(fs) && forall f | f in fs :: IsOrdered(f.value)
    case _ => true
  }

  lemma {:induction false} OrderedIsSorted(fs: seq<Field>)
    requires Ordered(fs)
    ensures Sorted(fs) == fs
  {
    if fs != [] {
      OrderedIsSorted(fs[1..]);
      assert fs == [fs[0]] + fs[1..];
    }
  }

  /** Of a value with its keys in order, the canonical text is what `JSON.stringify` prints. */
  lemma {:induction false} CanonicalIsPlain(v: Json)
    requires IsOrdered(v)
    ensures Stringify(v) == PlainText(v)
  {
    match v {
      case Arr(es) => ElemsArePlain(es);
      case Obj(fs) =>
        OrderedIsSorted(fs);
        FieldsArePlain(fs);
      case _ =>
    }
  }

  lemma {:induction false} ElemsArePlain(es: seq<Json>)
    requires forall e | e in es :: IsOrdered(e)
    ensures JoinElems(es) == PlainElems(es)
  {
    if es != [] {
      CanonicalIsPlain(es[0]);
      ElemsArePlain(es[1..]);
    }
  }

  lemma {:induction false} FieldsArePlain(fs: seq<Field>)
    requires forall f | f in fs :: IsOrdered(f.value)
    ensures JoinFields(fs) == PlainFields(fs)
  {
    if fs != [] {
      CanonicalIsPlain(fs[0].value);
      FieldsArePlain(fs[1..]);
    }
  }

  /** So of any value it is what `JSON.stringify` prints for the same value with its keys in order. */
  lemma CanonicalText(v: Json, ordered: Json)
    requires DistinctKeys(v) && DistinctKeys(ordered) && IsOrdered(ordered) && Meaning(v) == Meaning(ordered)
    ensures Stringify(v) == PlainText(ordered)
  {
    StringifyInjective(v, ordered);
    CanonicalIsPlain(ordered);
  }

  // ---------------------------------------------------------------------------
  // Quoted strings, read by the grammar of section 7 of RFC 8259
  // ---------------------------------------------------------------------------

  function HexOf(u: Unit): Option<nat> {
    if 48 <= u <= 57 then Some(u - 48)
    else if 97 <= u <= 102 then Some(u - 87)
    else if 65 <= u <= 70 then Some(u - 55)
    else None
  }

  /** What a backslash and one character stand for. */
  function ShortEscape(u: Unit): Option<Unit> {
    if u == 34 || u == 92 || u == 47 then Some(u)
    else if u == 98 then Some(8)
    else if u == 102 then Some(12)
    else if u == 110 then Some(10)
    else if u == 114 then Some(13)
    else if u == 116 then Some(9)
    else None
  }

  function HexQuad(t: Text): Option<Unit>
    requires |t| >= 4
  {
    match (HexOf(t[0]), HexOf(t[1]), HexOf(t[2]), HexOf(t[3]))
    case (Some(a), Some(b), Some(c), Some(d)) =>
      var n := a * 4096 + b * 256 + c * 16 + d;
      if n < 0x1_0000 then Some(n) else None
    case _ => None
  }

  function Ahead(u: Unit, rest: Option<Text>): Option<Text> {
    if rest.Some? then Some([u] + rest.value) else None
  }

  /** The characters between two quotes, read back; control characters and quotes must not stand there unescaped. */
  function Unescaped(t: Text): Option<Text> {
    if t == [] then Some([])
    else if t[0] != BACKSLASH then (if t[0] < 32 || t[0] == QUOTE then None else Ahead(t[0], Unescaped(t[1..])))
    else if |t| >= 6 && t[1] == 117 then
      match HexQuad(t[2..])
      case Some(u) => Ahead(u, Unescaped(t[6..]))
      case None => None
    else if |t| >= 2 && ShortEscape(t[1]).Some? then Ahead(ShortEscape(t[1]).value, Unescaped(t[2..]))
    else None
  }

  lemma HexReads(d: nat)
    requires d < 16
    ensures HexOf(HexDigit(d)) == Some(d)
  {
  }

  lemma Nibbles(u: Unit)
    ensures u / 4096 * 4096 + u / 256 % 16 * 256 + u / 16 % 16 * 16 + u % 16 == u
  {
    var v := u / 16;
    var w := v / 16;
    assert u == 16 * v + u % 16 && v == 16 * w + v % 16 && w == 16 * (w / 16) + w % 16;
    assert w == u / 256 && w / 16 == u / 4096;
  }

  lemma QuadOf(t: Text, a: nat, b: nat, c: nat, d: nat)
    requires |t| >= 4 && a < 16 && b < 16 && c < 16 && d < 16
    requires t[0] == HexDigit(a) && t[1] == HexDigit(b) && t[2] == HexDigit(c) && t[3] == HexDigit(d)
    ensures HexQuad(t) == Some(a * 4096 + b * 256 + c * 16 + d)
  {
    HexReads(a);
    HexReads(b);
    HexReads(c);
    HexReads(d);
  }

  lemma HexQuadReads(u: Unit, rest: Text)
    ensures HexQuad((UnicodeEscape(u) + rest)[2..]) == Some(u)
  {
    Nibbles(u);
    QuadOf((UnicodeEscape(u) + rest)[2..], u / 4096, u / 256 % 16, u / 16 % 16, u % 16);
  }

  lemma UnitReads(u: Unit, rest: Text)
    ensures Unescaped(EscapeUnit(u) + rest) == Ahead(u, Unescaped(rest))
  {
    var t := EscapeUnit(u) + rest;
    if EscapeUnit(u) == [u] {
      assert t[1..] == rest;
    } else if EscapeUnit(u) == UnicodeEscape(u) {
      HexQuadReads(u, rest);
      assert t[6..] == rest;
    } else {
      assert |EscapeUnit(u)| == 2 && t[2..] == rest;
    }
  }

  /** A quoted string is read back as it was. */
  lemma {:induction false} EscapeReads(s: Text)
    ensures Unescaped(Escape(s)) == Some(s)
  {
    if s != [] {
      if StartsWithPair(s) {
        EscapeReads(s[2..]);
        var t := s[..2] + Escape(s[2..]);
        assert t[1..][1..] == Escape(s[2..]) && t[1..][0] == s[1];
        assert s == [s[0]] + ([s[1]] + s[2..]);
      } else {
        EscapeReads(s[1..]);
        UnitReads(s[0], Escape(s[1..]));
        assert s == [s[0]] + s[1..];
      }
    }
  }

  // ---------------------------------------------------------------------------
  // UTF-8
  // ---------------------------------------------------------------------------

  type Byte = n: nat | n < 256

  /** The encoding of one scalar value, by the table in section 3 of RFC 3629. */
  function Encoded(n: nat): seq<Byte>
    requires n < 0x11_0000
  {
    if n < 0x80 then [n]
    else if n < 0x800 then [0xC0 + n / 0x40, 0x80 + n % 0x40]
    else if n < 0x1_0000 then [0xE0 + n / 0x1000, 0x80 + n / 0x40 % 0x40, 0x80 + n % 0x40]
    else [0xF0 + n / 0x4_0000, 0x80 + n / 0x1000 % 0x40, 0x80 + n / 0x40 % 0x40, 0x80 + n % 0x40]
  }

  /** No surrogate stands alone. */
  predicate IsWellFormed(t: Text) {
    || t == []
    || (StartsWithPair(t) && IsWellFormed(t[2..]))
    || (!IsHigh(t[0]) && !IsLow(t[0]) && IsWellFormed(t[1..]))
  }

  function PairValue(high: Unit, low: Unit): nat
    requires IsHigh(high) && IsLow(low)
  {
    0x1_0000 + (high - 0xD800) * 0x400 + (low - 0xDC00)
  }

  function Utf8(t: Text): seq<Byte>
    requires IsWellFormed(t)
  {
    if t == [] then []
    else if StartsWithPair(t) then Encoded(PairValue(t[0], t[1])) + Utf8(t[2..])
    else Encoded(t[0]) + Utf8(t[1..])
  }

  /** Counting unit by unit gives the length of the UTF-8 encoding. */
  lemma {:induction false} ByteLengthIsUtf8(t: Text)
    requires IsWellFormed(t)
    ensures ByteLength(t) == |Utf8(t)|
  {
    if t != [] {
      if StartsWithPair(t) {
        ByteLengthIsUtf8(t[2..]);
        assert t[1..][1..] == t[2..];
      } else {
        ByteLengthIsUtf8(t[1..]);
      }
    }
  }

  lemma {:induction false} WellFormedAppend(a: Text, b: Text)
    requires IsWellFormed(a) && IsWellFormed(b)
    ensures IsWellFormed(a + b)
  {
    if a == [] {
      assert a + b == b;
    } else if StartsWithPair(a) {
      WellFormedAppend(a[2..], b);
      assert (a + b)[2..] == a[2..] + b;
    } else {
      WellFormedAppend(a[1..], b);
      assert (a + b)[1..] == a[1..] + b;
    }
  }

  predicate IsPlainUnit(u: Unit) {
    !IsHigh(u) && !IsLow(u)
  }

  lemma {:induction false} PlainUnits(t: Text)
    requires forall i | 0 <= i < |t| :: IsPlainUnit(t[i])
    ensures IsWellFormed(t)
  {
    if t != [] {
      assert IsPlainUnit(t[0]);
      PlainUnits(t[1..]);
    }
  }

  /** Quoting escapes every surrogate that stands alone. */
  lemma {:induction false} EscapeIsWellFormed(s: Text)
    ensures IsWellFormed(Escape(s))
  {
    if s != [] {
      if StartsWithPair(s) {
        EscapeIsWellFormed(s[2..]);
        assert (s[..2] + Escape(s[2..]))[2..] == Escape(s[2..]);
      } else {
        EscapeIsWellFormed(s[1..]);
        PlainUnits(EscapeUnit(s[0]));
        WellFormedAppend(EscapeUnit(s[0]), Escape(s[1..]));
      }
    }
  }

  lemma QuoteIsWellFormed(s: Text)
    ensures IsWellFormed(Quote(s))
  {
    EscapeIsWellFormed(s);
    PlainUnits([QUOTE]);
    WellFormedAppend([QUOTE], Escape(s));
    WellFormedAppend([QUOTE] + Escape(s), [QUOTE]);
  }

  lemma {:induction false} DecIsWellFormed(n: nat)
    ensures IsWellFormed(Dec(n))
  {
    DecReads(n);
    forall i | 0 <= i < |Dec(n)| ensures IsPlainUnit(Dec(n)[i]) {
      assert IsDigit(Dec(n)[i]);
    }
    PlainUnits(Dec(n));
  }

  lemma Wrapped(open: Unit, inner: Text, close: Unit)
    requires IsPlainUnit(open) && IsPlainUnit(close) && IsWellFormed(inner)
    ensures IsWellFormed([open] + inner + [close])
  {
    PlainUnits([open]);
    PlainUnits([close]);
    WellFormedAppend([open], inner);
    WellFormedAppend([open] + inner, [close]);
  }

  lemma Separated(a: Text, sep: Unit, b: Text)
    requires IsPlainUnit(sep) && IsWellFormed(a) && IsWellFormed(b)
    ensures IsWellFormed(a + [sep] + b)
  {
    PlainUnits([sep]);
    WellFormedAppend(a, [sep]);
    WellFormedAppend(a + [sep], b);
  }

  lemma {:induction false} PlainTextIsWellFormed(v: Json)
    ensures IsWellFormed(PlainText(v))
  {
    match v {
      case Str(s) => QuoteIsWellFormed(s);
      case Int(n) =>
        DecIsWellFormed(if n < 0 then -n else n);
        if n < 0 {
          PlainUnits([MINUS]);
          WellFormedAppend([MINUS], Dec(-n));
        }
      case Arr(es) =>
        ElemsAreWellFormed(es);
        Wrapped(OPEN_ARR, PlainElems(es), CLOSE_ARR);
      case Obj(fs) =>
        FieldsAreWellFormed(fs);
        Wrapped(OPEN_OBJ, PlainFields(fs), CLOSE_OBJ);
      case _ => PlainUnits(PlainText(v));
    }
  }

  lemma {:induction false} ElemsAreWellFormed(es: seq<Json>)
    ensures IsWellFormed(PlainElems(es))
  {
    if es != [] {
      PlainTextIsWellFormed(es[0]);
      ElemsAreWellFormed(es[1..]);
      Separated(PlainText(es[0]), COMMA, PlainElems(es[1..]));
    }
  }

  lemma {:induction false} FieldsAreWellFormed(fs: seq<Field>)
    ensures IsWellFormed(PlainFields(fs))
  {
    if fs != [] {
      QuoteIsWellFormed(fs[0].key);
      PlainTextIsWellFormed(fs[0].value);
      Separated(Quote(fs[0].key), COLON, PlainText(fs[0].value));
      FieldsAreWellFormed(fs[1..]);
      Separated(PlainField(fs[0]), COMMA, PlainFields(fs[1..]));
    }
  }

  /** The size that is checked against the cap is the length in UTF-8 of the serialised metadata. */
  lemma BytesAreUtf8(m: Meta)
    ensures IsWellFormed(PlainText(Obj(m))) && Bytes(m) == |Utf8(PlainText(Obj(m)))|
  {
    PlainTextIsWellFormed(Obj(m));
    ByteLengthIsUtf8(PlainText(Obj(m)));
  }

  /** The literals, and the two keys that the service gives a meaning. */
  lemma LiteralsAreSpelled()
    ensures Spelled("null") == NULL_TEXT && Spelled("true") == TRUE_TEXT && Spelled("false") == FALSE_TEXT
    ensures Spelled("dedup_history") == HISTORY_KEY && Spelled("immortal") == IMMORTAL_KEY
    ensures Spelled("[],{}:-") == [OPEN_ARR, CLOSE_ARR, COMMA, OPEN_OBJ, CLOSE_OBJ, COLON, MINUS]
    ensures Spelled("\"\\") == [QUOTE, BACKSLASH]
  {
  }

  function Spelled(s: string): Text
    requires forall i | 0 <= i < |s| :: s[i] < 128 as char
  {
    seq(|s|, i requires 0 <= i < |s| => s[i] as int)
  }
}
