/** Canonical JSON text (`stableStringify`) and the proof that it is uniquely readable. */
module CanonicalJson {
  import opened Base

  /** A value handed to `stableStringify`; an object lists its fields in insertion order. */
  datatype Json =
    | Undefined
    | Null
    | Bool(b: bool)
    | Int(n: int)
    | Str(s: Text)
    | Arr(elems: seq<Json>)
    | Obj(fields: seq<Field>)

  datatype Field = Field(key: Text, value: Json)

  /** What a JSON value denotes: an object is an unordered map, `undefined` counts as null. */
  datatype Value =
    | VNull
    | VBool(b: bool)
    | VInt(n: int)
    | VStr(s: Text)
    | VArr(elems: seq<Value>)
    | VObj(fields: map<Text, Value>)

  function Meaning(v: Json): Value {
    match v
    case Undefined => VNull
    case Null => VNull
    case Bool(b) => VBool(b)
    case Int(n) => VInt(n)
    case Str(s) => VStr(s)
    case Arr(es) => VArr(MeaningElems(es))
    case Obj(fs) => VObj(MeaningFields(fs))
  }

  function MeaningElems(es: seq<Json>): seq<Value> {
    if es == [] then [] else [Meaning(es[0])] + MeaningElems(es[1..])
  }

  function MeaningFields(fs: seq<Field>): map<Text, Value> {
    if fs == [] then map[] else MeaningFields(fs[1..])[fs[0].key := Meaning(fs[0].value)]
  }

  function Keys(fs: seq<Field>): set<Text> {
    set f | f in fs :: f.key
  }

  /** No object, at any depth, repeats a key: JavaScript objects cannot. */
  predicate DistinctKeys(v: Json) {
    match v
    case Arr(es) => forall e | e in es :: DistinctKeys(e)
    case Obj(fs) => DistinctFields(fs) && forall f | f in fs :: DistinctKeys(f.value)
    case _ => true
  }

  predicate DistinctFields(fs: seq<Field>) {
    forall i, j | 0 <= i < j < |fs| :: fs[i].key != fs[j].key
  }

  function Size(v: Json): nat {
    match v
    case Arr(es) => 1 + SizeElems(es)
    case Obj(fs) => 1 + SizeFields(fs)
    case _ => 1
  }

  function SizeElems(es: seq<Json>): nat {
    if es == [] then 0 else 1 + Size(es[0]) + SizeElems(es[1..])
  }

  function SizeFields(fs: seq<Field>): nat {
    if fs == [] then 0 else 1 + Size(fs[0].value) + SizeFields(fs[1..])
  }

  // ---------------------------------------------------------------------------
  // The printer
  // ---------------------------------------------------------------------------

  const QUOTE: Unit := 34
  const BACKSLASH: Unit := 92
  const COMMA: Unit := 44
  const COLON: Unit := 58
  const MINUS: Unit := 45
  const OPEN_ARR: Unit := 91
  const CLOSE_ARR: Unit := 93
  const OPEN_OBJ: Unit := 123
  const CLOSE_OBJ: Unit := 125
  const NULL_TEXT: Text := [110, 117, 108, 108]
  const TRUE_TEXT: Text := [116, 114, 117, 101]
  const FALSE_TEXT: Text := [102, 97, 108, 115, 101]

  function Dec(n: nat): Text {
    if n < 10 then [48 + n] else Dec(n / 10) + [48 + n % 10]
  }

  function HexDigit(d: nat): Unit
    requires d < 16
  {
    if d < 10 then 48 + d else 87 + d
  }

  /** `\uXXXX`, lower-case hexadecimal. */
  function UnicodeEscape(u: Unit): Text {
    [BACKSLASH, 117, HexDigit(u / 4096), HexDigit(u / 256 % 16), HexDigit(u / 16 % 16), HexDigit(u % 16)]
  }

  /** One code unit outside a surrogate pair, as JSON.stringify quotes it. */
  function EscapeUnit(u: Unit): Text {
    if u == QUOTE || u == BACKSLASH then [BACKSLASH, u]
    else if u == 8 then [BACKSLASH, 98]
    else if u == 9 then [BACKSLASH, 116]
    else if u == 10 then [BACKSLASH, 110]
    else if u == 12 then [BACKSLASH, 102]
    else if u == 13 then [BACKSLASH, 114]
    else if u < 32 || IsHigh(u) || IsLow(u) then UnicodeEscape(u)
    else [u]
  }

  function Escape(s: Text): Text {
    if s == [] then []
    else if StartsWithPair(s) then s[..2] + Escape(s[2..])
    else EscapeUnit(s[0]) + Escape(s[1..])
  }

  function Quote(s: Text): Text {
    [QUOTE] + Escape(s) + [QUOTE]
  }

  /** Order of `Array.prototype.sort` on strings: code unit by code unit. */
  predicate Before(a: Text, b: Text) {
    b != [] && (a == [] || a[0] < b[0] || (a[0] == b[0] && Before(a[1..], b[1..])))
  }

  function Insert(f: Field, fs: seq<Field>): seq<Field> {
    if fs == [] || Before(f.key, fs[0].key) then [f] + fs else [fs[0]] + Insert(f, fs[1..])
  }

  /** The fields in the order of the sorted keys. */
  function Sorted(fs: seq<Field>): seq<Field> {
    if fs == [] then [] else Insert(fs[0], Sorted(fs[1..]))
  }

  lemma {:induction false} InsertSize(f: Field, fs: seq<Field>)
    ensures SizeFields(Insert(f, fs)) == 1 + Size(f.value) + SizeFields(fs)
  {
    if fs == [] || Before(f.key, fs[0].key) {
    } else {
      InsertSize(f, fs[1..]);
    }
  }

  lemma {:induction false} SortedSize(fs: seq<Field>)
    ensures SizeFields(Sorted(fs)) == SizeFields(fs)
  {
    if fs != [] {
      SortedSize(fs[1..]);
      InsertSize(fs[0], Sorted(fs[1..]));
    }
  }

  function Stringify(v: Json): Text
    decreases Size(v), 0
  {
    match v
    case Undefined => NULL_TEXT
    case Null => NULL_TEXT
    case Bool(b) => if b then TRUE_TEXT else FALSE_TEXT
    case Int(n) => if n < 0 then [MINUS] + Dec(-n) else Dec(n)
    case Str(s) => Quote(s)
    case Arr(es) => [OPEN_ARR] + JoinElems(es) + [CLOSE_ARR]
    case Obj(fs) =>
      SortedSize(fs);
      [OPEN_OBJ] + JoinFields(Sorted(fs)) + [CLOSE_OBJ]
  }

  function JoinElems(es: seq<Json>): Text
    decreases SizeElems(es), 1
  {
    if es == [] then []
    else if |es| == 1 then Stringify(es[0])
    else Stringify(es[0]) + [COMMA] + JoinElems(es[1..])
  }

  function FieldText(f: Field): Text
    decreases Size(f.value), 1
  {
    Quote(f.key) + [COLON] + Stringify(f.value)
  }

  function JoinFields(fs: seq<Field>): Text
    decreases SizeFields(fs), 2
  {
    if fs == [] then []
    else if |fs| == 1 then FieldText(fs[0])
    else FieldText(fs[0]) + [COMMA] + JoinFields(fs[1..])
  }

  // ---------------------------------------------------------------------------
  // Reading decimal numbers and quoted strings back
  // ---------------------------------------------------------------------------

  predicate IsDigit(u: Unit) {
    48 <= u <= 57
  }

  function DecValue(t: Text): int {
    if t == [] then 0 else 10 * DecValue(t[..|t| - 1]) + t[|t| - 1] - 48
  }

  lemma {:induction false} DecReads(n: nat)
    ensures Dec(n) != [] && (forall i | 0 <= i < |Dec(n)| :: IsDigit(Dec(n)[i]))
    ensures DecValue(Dec(n)) == n
  {
    if n >= 10 {
      DecReads(n / 10);
      assert Dec(n)[..|Dec(n)| - 1] == Dec(n / 10);
    } else {
      assert Dec(n)[..0] == [];
    }
  }

  predicate NoDigitFirst(t: Text) {
    t == [] || !IsDigit(t[0])
  }

  predicate DigitsEndAt(t: Text, k: nat) {
    k <= |t| && (forall i | 0 <= i < k :: IsDigit(t[i])) && NoDigitFirst(t[k..])
  }

  /** Equal texts cut after parts of equal length. */
  lemma Cut(p: Text, q: Text, r: Text, s: Text)
    requires p + r == q + s && |p| == |q|
    ensures p == q && r == s
  {
    assert p == (p + r)[..|p|] && q == (q + s)[..|q|];
    assert r == (p + r)[|p|..] && s == (q + s)[|q|..];
  }

  /** Three concatenated parts with a separator, regrouped from the right. */
  lemma Glue(q: Text, c: Unit, t: Text, r: Text)
    ensures ((q + [c]) + t) + r == q + ([c] + (t + r))
  {
  }

  lemma Regroup(p: Text, q: Text, r: Text)
    ensures (p + q) + r == p + (q + r)
  {
  }

  lemma DecUnique(m: nat, n: nat, r: Text, s: Text)
    requires NoDigitFirst(r) && NoDigitFirst(s)
    requires Dec(m) + r == Dec(n) + s
    ensures m == n && r == s
  {
    DecReads(m);
    DecReads(n);
    assert DigitsEndAt(Dec(m) + r, |Dec(m)|);
    assert DigitsEndAt(Dec(n) + s, |Dec(n)|);
    Cut(Dec(m), Dec(n), r, s);
  }

  lemma HexDigitUnique(d: nat, e: nat)
    requires d < 16 && e < 16 && HexDigit(d) == HexDigit(e)
    ensures d == e
  {
  }

  /** Four base-16 digits determine the unit. */
  lemma HexDigitsUnique(u: Unit, v: Unit)
    requires u / 4096 == v / 4096 && u / 256 % 16 == v / 256 % 16 && u / 16 % 16 == v / 16 % 16 && u % 16 == v % 16
    ensures u == v
  {
    assert u / 256 == 16 * (u / 4096) + u / 256 % 16;
    assert v / 256 == 16 * (v / 4096) + v / 256 % 16;
    assert u / 16 == 16 * (u / 256) + u / 16 % 16;
    assert v / 16 == 16 * (v / 256) + v / 16 % 16;
  }

  lemma UnicodeEscapeUnique(u: Unit, v: Unit)
    requires UnicodeEscape(u) == UnicodeEscape(v)
    ensures u == v
  {
    var a, b := UnicodeEscape(u), UnicodeEscape(v);
    assert a[2] == b[2] && a[3] == b[3] && a[4] == b[4] && a[5] == b[5];
    HexDigitUnique(u / 4096, v / 4096);
    HexDigitUnique(u / 256 % 16, v / 256 % 16);
    HexDigitUnique(u / 16 % 16, v / 16 % 16);
    HexDigitUnique(u % 16, v % 16);
    HexDigitsUnique(u, v);
  }

  /** Escaped code units are prefix-free. */
  lemma EscapeUnitUnique(u: Unit, v: Unit, r: Text, s: Text)
    requires EscapeUnit(u) + r == EscapeUnit(v) + s
    ensures u == v && r == s
  {
    var eu, ev := EscapeUnit(u), EscapeUnit(v);
    assert eu[0] == (eu + r)[0] == (ev + s)[0] == ev[0];
    if eu[0] == BACKSLASH {
      assert eu[1] == (eu + r)[1] == (ev + s)[1] == ev[1];
    }
    Cut(eu, ev, r, s);
    if |eu| == 6 {
      UnicodeEscapeUnique(u, v);
    }
  }

  /** What printing a non-empty string leaves to be printed after its first unit or pair. */
  function AfterHead(s: Text): Text
    requires s != []
  {
    if StartsWithPair(s) then s[2..] else s[1..]
  }

  function HeadText(s: Text): Text
    requires s != []
  {
    if StartsWithPair(s) then s[..2] else EscapeUnit(s[0])
  }

  /** The first unit printed tells the closing quote, a surrogate pair and anything else apart. */
  lemma HeadTextTells(s: Text)
    requires s != []
    ensures HeadText(s) != [] && HeadText(s)[0] != QUOTE
    ensures IsHigh(HeadText(s)[0]) <==> StartsWithPair(s)
  {
  }

  lemma HeadTextUnique(a: Text, b: Text, r: Text, s: Text)
    requires a != [] && b != [] && HeadText(a) + r == HeadText(b) + s
    ensures StartsWithPair(a) == StartsWithPair(b) && r == s
    ensures a[..|a| - |AfterHead(a)|] == b[..|b| - |AfterHead(b)|]
  {
    HeadTextTells(a);
    HeadTextTells(b);
    assert HeadText(a)[0] == (HeadText(a) + r)[0] == (HeadText(b) + s)[0] == HeadText(b)[0];
    if StartsWithPair(a) {
      Cut(a[..2], b[..2], r, s);
    } else {
      EscapeUnitUnique(a[0], b[0], r, s);
    }
  }

  /** The closing quote is found at the same place whichever string was printed. */
  lemma {:induction false} EscapeUnique(a: Text, b: Text, r: Text, s: Text)
    requires Escape(a) + ([QUOTE] + r) == Escape(b) + ([QUOTE] + s)
    ensures a == b && r == s
  {
    if a == [] || b == [] {
      EscapeEmpty(a, [QUOTE] + r);
      EscapeEmpty(b, [QUOTE] + s);
      assert Escape([]) + ([QUOTE] + r) == [QUOTE] + r && Escape([]) + ([QUOTE] + s) == [QUOTE] + s;
      Cut([QUOTE], [QUOTE], r, s);
    } else {
      Regroup(HeadText(a), Escape(AfterHead(a)), [QUOTE] + r);
      Regroup(HeadText(b), Escape(AfterHead(b)), [QUOTE] + s);
      HeadTextUnique(a, b, Escape(AfterHead(a)) + ([QUOTE] + r), Escape(AfterHead(b)) + ([QUOTE] + s));
      EscapeUnique(AfterHead(a), AfterHead(b), r, s);
      assert a == a[..|a| - |AfterHead(a)|] + AfterHead(a);
      assert b == b[..|b| - |AfterHead(b)|] + AfterHead(b);
    }
  }

  lemma EscapeEmpty(a: Text, rest: Text)
    requires rest != [] && rest[0] == QUOTE
    ensures (Escape(a) + rest)[0] == QUOTE <==> a == []
  {
    if a != [] {
      HeadTextTells(a);
      assert Escape(a)[0] == HeadText(a)[0];
    }
  }

  lemma QuoteUnique(a: Text, b: Text, r: Text, s: Text)
    requires Quote(a) + r == Quote(b) + s
    ensures a == b && r == s
  {
    QuoteThen(a, r);
    QuoteThen(b, s);
    Cut([QUOTE], [QUOTE], Escape(a) + ([QUOTE] + r), Escape(b) + ([QUOTE] + s));
    EscapeUnique(a, b, r, s);
  }

  lemma QuoteThen(a: Text, r: Text)
    ensures Quote(a) + r == [QUOTE] + (Escape(a) + ([QUOTE] + r))
  {
  }

  // ---------------------------------------------------------------------------
  // Unique readability
  // ---------------------------------------------------------------------------

  /** What may follow a value in a larger text: anything, except that a number must not run on. */
  predicate MayFollow(v: Json, t: Text) {
    v.Int? ==> NoDigitFirst(t)
  }

  function Shape(v: Json): nat {
    match v
    case Undefined => 0
    case Null => 0
    case Bool(b) => if b then 1 else 2
    case Int(n) => if n < 0 then 3 else 4
    case Str(_) => 5
    case Arr(_) => 6
    case Obj(_) => 7
  }

  function ShapeOfHead(u: Unit): nat {
    if u == 110 then 0 else if u == 116 then 1 else if u == 102 then 2
    else if u == MINUS then 3 else if IsDigit(u) then 4
    else if u == QUOTE then 5 else if u == OPEN_ARR then 6 else if u == OPEN_OBJ then 7 else 8
  }

  lemma HeadTellsShape(v: Json, rest: Text)
    ensures Stringify(v) != [] && ShapeOfHead((Stringify(v) + rest)[0]) == Shape(v)
  {
    if v.Int? && v.n >= 0 {
      DecReads(v.n);
    }
    assert (Stringify(v) + rest)[0] == Stringify(v)[0];
  }

  /** Canonical texts can be cut off any text in one way only, unless a digit follows a number. */
  lemma {:induction false} Readable(a: Json, b: Json, r: Text, s: Text)
    requires MayFollow(a, r) && MayFollow(b, s)
    requires DistinctKeys(a) && DistinctKeys(b)
    requires Stringify(a) + r == Stringify(b) + s
    ensures Meaning(a) == Meaning(b) && r == s
    decreases Size(a), 0
  {
    HeadTellsShape(a, r);
    HeadTellsShape(b, s);
    match a {
      case Int(n) =>
        if n < 0 {
          Regroup([MINUS], Dec(-n), r);
          Regroup([MINUS], Dec(-b.n), s);
          Cut([MINUS], [MINUS], Dec(-n) + r, Dec(-b.n) + s);
          DecUnique(-n, -b.n, r, s);
        } else {
          DecUnique(n, b.n, r, s);
        }
      case Str(x) =>
        QuoteUnique(x, b.s, r, s);
      case Arr(es) =>
        Bracketed(OPEN_ARR, CLOSE_ARR, JoinElems(es), JoinElems(b.elems), r, s);
        ElemsReadable(es, b.elems, [CLOSE_ARR] + r, [CLOSE_ARR] + s);
        Cut([CLOSE_ARR], [CLOSE_ARR], r, s);
      case Obj(fs) =>
        ObjReadable(fs, b.fields, r, s);
      case _ =>
        Cut(Stringify(a), Stringify(b), r, s);
    }
  }

  /** A number that runs on does read differently: 1 followed by `2` is 12 followed by nothing. */
  lemma NumbersRunOn()
    ensures Stringify(Int(1)) + [50] == Stringify(Int(12)) + []
  {
    assert Dec(12) == Dec(1) + [50];
  }

  /** Drops the same opening bracket on both sides. */
  lemma Bracketed(open: Unit, close: Unit, x: Text, y: Text, r: Text, s: Text)
    requires ([open] + x + [close]) + r == ([open] + y + [close]) + s
    ensures x + ([close] + r) == y + ([close] + s)
  {
    assert ([open] + x + [close]) + r == [open] + (x + ([close] + r));
    assert ([open] + y + [close]) + s == [open] + (y + ([close] + s));
    Cut([open], [open], x + ([close] + r), y + ([close] + s));
  }

  lemma {:induction false} ObjReadable(a: seq<Field>, b: seq<Field>, r: Text, s: Text)
    requires DistinctKeys(Obj(a)) && DistinctKeys(Obj(b))
    requires Stringify(Obj(a)) + r == Stringify(Obj(b)) + s
    ensures MeaningFields(a) == MeaningFields(b) && r == s
    decreases SizeFields(a), 3
  {
    SortedSize(a);
    SortedKeeps(a);
    SortedKeeps(b);
    Bracketed(OPEN_OBJ, CLOSE_OBJ, JoinFields(Sorted(a)), JoinFields(Sorted(b)), r, s);
    FieldsReadable(Sorted(a), Sorted(b), [CLOSE_OBJ] + r, [CLOSE_OBJ] + s);
    Cut([CLOSE_OBJ], [CLOSE_OBJ], r, s);
  }

  /** What follows the first of the joined parts. */
  function Follow(more: bool, tail: Text, r: Text): Text {
    if more then [COMMA] + (tail + r) else r
  }

  lemma JoinElemsThen(a: seq<Json>, r: Text)
    requires a != []
    ensures JoinElems(a) + r == Stringify(a[0]) + Follow(|a| > 1, JoinElems(a[1..]), r)
  {
    if |a| > 1 {
      Glue(Stringify(a[0]), COMMA, JoinElems(a[1..]), r);
    }
  }

  lemma JoinFieldsThen(a: seq<Field>, r: Text)
    requires a != []
    ensures JoinFields(a) + r
         == Quote(a[0].key) + ([COLON] + (Stringify(a[0].value) + Follow(|a| > 1, JoinFields(a[1..]), r)))
  {
    FieldsThen(a, r);
    Glue(Quote(a[0].key), COLON, Stringify(a[0].value), Follow(|a| > 1, JoinFields(a[1..]), r));
  }

  lemma FieldsThen(a: seq<Field>, r: Text)
    requires a != []
    ensures JoinFields(a) + r == FieldText(a[0]) + Follow(|a| > 1, JoinFields(a[1..]), r)
  {
    if |a| > 1 {
      Glue(FieldText(a[0]), COMMA, JoinFields(a[1..]), r);
    }
  }

  lemma {:induction false} ElemsReadable(a: seq<Json>, b: seq<Json>, r: Text, s: Text)
    requires r != [] && r[0] == CLOSE_ARR && s != [] && s[0] == CLOSE_ARR
    requires forall e | e in a :: DistinctKeys(e)
    requires forall e | e in b :: DistinctKeys(e)
    requires JoinElems(a) + r == JoinElems(b) + s
    ensures MeaningElems(a) == MeaningElems(b) && r == s
    decreases SizeElems(a), 1
  {
    ElemsEmpty(a, r);
    ElemsEmpty(b, s);
    if a != [] {
      JoinElemsThen(a, r);
      JoinElemsThen(b, s);
      var ra, rb := Follow(|a| > 1, JoinElems(a[1..]), r), Follow(|b| > 1, JoinElems(b[1..]), s);
      Readable(a[0], b[0], ra, rb);
      if |a| > 1 {
        Cut([COMMA], [COMMA], JoinElems(a[1..]) + r, JoinElems(b[1..]) + s);
        ElemsReadable(a[1..], b[1..], r, s);
      }
    } else {
      assert JoinElems([]) + r == r && JoinElems([]) + s == s;
    }
  }

  lemma ElemsEmpty(a: seq<Json>, r: Text)
    requires r != [] && r[0] == CLOSE_ARR
    ensures (JoinElems(a) + r)[0] == CLOSE_ARR <==> a == []
  {
    if a != [] {
      JoinElemsThen(a, r);
      HeadTellsShape(a[0], Follow(|a| > 1, JoinElems(a[1..]), r));
    }
  }

  lemma FieldsEmpty(a: seq<Field>, r: Text)
    requires r != [] && r[0] == CLOSE_OBJ
    ensures (JoinFields(a) + r)[0] == CLOSE_OBJ <==> a == []
  {
    if a != [] {
      JoinFieldsThen(a, r);
    }
  }

  lemma {:induction false} FieldsReadable(a: seq<Field>, b: seq<Field>, r: Text, s: Text)
    requires r != [] && r[0] == CLOSE_OBJ && s != [] && s[0] == CLOSE_OBJ
    requires forall f | f in a :: DistinctKeys(f.value)
    requires forall f | f in b :: DistinctKeys(f.value)
    requires JoinFields(a) + r == JoinFields(b) + s
    ensures MeaningFields(a) == MeaningFields(b) && r == s
    decreases SizeFields(a), 2
  {
    FieldsEmpty(a, r);
    FieldsEmpty(b, s);
    if a != [] {
      JoinFieldsThen(a, r);
      JoinFieldsThen(b, s);
      var ra, rb := Follow(|a| > 1, JoinFields(a[1..]), r), Follow(|b| > 1, JoinFields(b[1..]), s);
      var va, vb := Stringify(a[0].value) + ra, Stringify(b[0].value) + rb;
      QuoteUnique(a[0].key, b[0].key, [COLON] + va, [COLON] + vb);
      Cut([COLON], [COLON], va, vb);
      Readable(a[0].value, b[0].value, ra, rb);
      if |a| > 1 {
        Cut([COMMA], [COMMA], JoinFields(a[1..]) + r, JoinFields(b[1..]) + s);
        FieldsReadable(a[1..], b[1..], r, s);
      }
    } else {
      assert JoinFields([]) + r == r && JoinFields([]) + s == s;
    }
  }

  // ---------------------------------------------------------------------------
  // Sorting keeps the meaning and fixes the order
  // ---------------------------------------------------------------------------

  lemma {:induction false} BeforeTotal(a: Text, b: Text)
    ensures !Before(a, b) && a != b ==> Before(b, a)
    ensures Before(a, b) ==> a != b && !Before(b, a)
  {
    if a != [] && b != [] && a[0] == b[0] {
      BeforeTotal(a[1..], b[1..]);
      assert a == [a[0]] + a[1..] && b == [b[0]] + b[1..];
    }
  }

  lemma {:induction false} BeforeTransitive(a: Text, b: Text, c: Text)
    requires Before(a, b) && Before(b, c)
    ensures Before(a, c)
  {
    if a != [] && a[0] == b[0] == c[0] {
      BeforeTransitive(a[1..], b[1..], c[1..]);
    }
  }

  /** Every key of the list comes after `k`. */
  predicate AllAfter(k: Text, fs: seq<Field>) {
    forall f | f in fs :: Before(k, f.key)
  }

  /** Strictly increasing keys. */
  predicate Ordered(fs: seq<Field>) {
    fs == [] || (AllAfter(fs[0].key, fs[1..]) && Ordered(fs[1..]))
  }

  lemma {:induction false} InsertMembers(f: Field, fs: seq<Field>)
    ensures forall g :: g in Insert(f, fs) <==> g == f || g in fs
  {
    if fs == [] || Before(f.key, fs[0].key) {
    } else {
      InsertMembers(f, fs[1..]);
      assert fs == [fs[0]] + fs[1..];
    }
  }

  lemma {:induction false} InsertOrdered(f: Field, fs: seq<Field>)
    requires Ordered(fs) && f.key !in Keys(fs)
    ensures Ordered(Insert(f, fs))
  {
    if fs == [] {
    } else if Before(f.key, fs[0].key) {
      forall g | g in fs ensures Before(f.key, g.key) {
        assert fs == [fs[0]] + fs[1..];
        if g != fs[0] {
          BeforeTransitive(f.key, fs[0].key, g.key);
        }
      }
      assert ([f] + fs)[1..] == fs;
    } else {
      assert fs[0].key in Keys(fs);
      BeforeTotal(f.key, fs[0].key);
      InsertOrdered(f, fs[1..]);
      InsertMembers(f, fs[1..]);
      assert Insert(f, fs)[1..] == Insert(f, fs[1..]);
    }
  }

  lemma {:induction false} InsertMeaning(f: Field, fs: seq<Field>)
    requires f.key !in Keys(fs)
    ensures MeaningFields(Insert(f, fs)) == MeaningFields(fs)[f.key := Meaning(f.value)]
  {
    var out := Insert(f, fs);
    if fs == [] || Before(f.key, fs[0].key) {
      assert out[1..] == fs;
    } else {
      assert fs[0].key in Keys(fs);
      InsertMeaning(f, fs[1..]);
      assert out[1..] == Insert(f, fs[1..]);
    }
  }

  lemma {:induction false} SortedKeeps(fs: seq<Field>)
    requires DistinctFields(fs)
    ensures Ordered(Sorted(fs))
    ensures forall f :: f in Sorted(fs) <==> f in fs
    ensures MeaningFields(Sorted(fs)) == MeaningFields(fs)
  {
    if fs != [] {
      SortedKeeps(fs[1..]);
      FirstKeyFresh(fs);
      InsertMembers(fs[0], Sorted(fs[1..]));
      InsertOrdered(fs[0], Sorted(fs[1..]));
      InsertMeaning(fs[0], Sorted(fs[1..]));
      assert fs == [fs[0]] + fs[1..];
    }
  }

  lemma FirstKeyFresh(fs: seq<Field>)
    requires fs != [] && DistinctFields(fs)
    requires forall f :: f in Sorted(fs[1..]) <==> f in fs[1..]
    ensures fs[0].key !in Keys(Sorted(fs[1..]))
  {
    forall f | f in Sorted(fs[1..]) ensures f.key != fs[0].key {
      var i :| 0 <= i < |fs[1..]| && fs[1..][i] == f;
      assert fs[i + 1] == f;
    }
  }

  lemma {:induction false} MeaningKeys(fs: seq<Field>)
    ensures MeaningFields(fs).Keys == Keys(fs)
  {
    if fs != [] {
      MeaningKeys(fs[1..]);
      assert fs == [fs[0]] + fs[1..];
    }
  }

  // ---------------------------------------------------------------------------
  // The same meaning is printed the same way
  // ---------------------------------------------------------------------------

  lemma {:induction false} SameText(a: Json, b: Json)
    requires DistinctKeys(a) && DistinctKeys(b)
    requires Meaning(a) == Meaning(b)
    ensures Stringify(a) == Stringify(b)
    decreases Size(a), 0
  {
    match a {
      case Arr(es) =>
        SameElemsText(es, b.elems);
      case Obj(fs) =>
        SortedSize(fs);
        SortedKeeps(fs);
        SortedKeeps(b.fields);
        SameFieldsText(Sorted(fs), Sorted(b.fields));
      case _ =>
    }
  }

  lemma {:induction false} SameElemsText(a: seq<Json>, b: seq<Json>)
    requires forall e | e in a :: DistinctKeys(e)
    requires forall e | e in b :: DistinctKeys(e)
    requires MeaningElems(a) == MeaningElems(b)
    ensures |a| == |b| && JoinElems(a) == JoinElems(b)
    decreases SizeElems(a), 1
  {
    if a != [] {
      assert b != [];
      assert MeaningElems(a)[0] == Meaning(a[0]) && MeaningElems(b)[0] == Meaning(b[0]);
      assert MeaningElems(a)[1..] == MeaningElems(a[1..]) && MeaningElems(b)[1..] == MeaningElems(b[1..]);
      SameText(a[0], b[0]);
      SameElemsText(a[1..], b[1..]);
    }
  }

  lemma {:induction false} SameFieldsText(a: seq<Field>, b: seq<Field>)
    requires Ordered(a) && Ordered(b)
    requires forall f | f in a :: DistinctKeys(f.value)
    requires forall f | f in b :: DistinctKeys(f.value)
    requires MeaningFields(a) == MeaningFields(b)
    ensures |a| == |b| && JoinFields(a) == JoinFields(b)
    decreases SizeFields(a), 1
  {
    MeaningKeys(a);
    MeaningKeys(b);
    assert a != [] ==> a[0].key in Keys(a);
    assert b != [] ==> b[0].key in Keys(b);
    if a != [] {
      LeastKeyFirst(a, b);
      HeadMeaning(a);
      HeadMeaning(b);
      SameText(a[0].value, b[0].value);
      SameFieldsText(a[1..], b[1..]);
    }
  }

  /** The first field and the rest have disjoint keys, so their meanings can be told apart. */
  lemma HeadMeaning(a: seq<Field>)
    requires a != [] && Ordered(a)
    ensures a[0].key in MeaningFields(a) && MeaningFields(a)[a[0].key] == Meaning(a[0].value)
    ensures MeaningFields(a[1..]) == MeaningFields(a) - {a[0].key}
  {
    MeaningKeys(a[1..]);
    BeforeTotal(a[0].key, a[0].key);
    PutAndDrop(MeaningFields(a[1..]), a[0].key, Meaning(a[0].value));
  }

  lemma PutAndDrop(m: map<Text, Value>, key: Text, value: Value)
    requires key !in m
    ensures m[key := value] - {key} == m
  {
  }

  lemma LeastKeyFirst(a: seq<Field>, b: seq<Field>)
    requires a != [] && b != [] && Ordered(a) && Ordered(b) && Keys(a) == Keys(b)
    ensures a[0].key == b[0].key
  {
    assert a[0].key in Keys(a) && b[0].key in Keys(b);
    var f :| f in b && f.key == a[0].key;
    var g :| g in a && g.key == b[0].key;
    assert f != b[0] ==> f in b[1..];
    assert g != a[0] ==> g in a[1..];
    BeforeTotal(a[0].key, b[0].key);
  }

  /**
   * Canonical JSON is injective up to key order: two values get the same text exactly when
   * they denote the same value.
   */
  lemma StringifyInjective(a: Json, b: Json)
    requires DistinctKeys(a) && DistinctKeys(b)
    ensures Stringify(a) == Stringify(b) <==> Meaning(a) == Meaning(b)
  {
    if Stringify(a) == Stringify(b) {
      Readable(a, b, [], []);
    }
    if Meaning(a) == Meaning(b) {
      SameText(a, b);
    }
  }
}
