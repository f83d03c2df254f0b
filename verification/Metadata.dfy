/** The byte size of stored metadata, and the history a merge keeps within the cap. */
module Metadata {
  import opened Base
  import opened CanonicalJson

  /** A metadata object: its fields in insertion order. */
  type Meta = seq<Field>

  const MAX_METADATA_BYTES := 65_536
  const DEDUP_HISTORY_CAP := 5

  /** The key `dedup_history`. */
  const HISTORY_KEY: Text := [100, 101, 100, 117, 112, 95, 104, 105, 115, 116, 111, 114, 121]
  /** The key `immortal`. */
  const IMMORTAL_KEY: Text := [105, 109, 109, 111, 114, 116, 97, 108]

  // ---------------------------------------------------------------------------
  // JSON.stringify and its length in UTF-8
  // ---------------------------------------------------------------------------

  /** `JSON.stringify` of a value without `undefined`: fields in insertion order. */
  function PlainText(v: Json): Text {
    match v
    case Arr(es) => [OPEN_ARR] + PlainElems(es) + [CLOSE_ARR]
    case Obj(fs) => [OPEN_OBJ] + PlainFields(fs) + [CLOSE_OBJ]
    case Undefined => NULL_TEXT
    case Null => NULL_TEXT
    case Bool(b) => if b then TRUE_TEXT else FALSE_TEXT
    case Int(n) => if n < 0 then [MINUS] + Dec(-n) else Dec(n)
    case Str(s) => Quote(s)
  }

  function PlainElems(es: seq<Json>): Text {
    if es == [] then []
    else if |es| == 1 then PlainText(es[0])
    else PlainText(es[0]) + [COMMA] + PlainElems(es[1..])
  }

  function PlainField(f: Field): Text {
    Quote(f.key) + [COLON] + PlainText(f.value)
  }

  function PlainFields(fs: seq<Field>): Text {
    if fs == [] then []
    else if |fs| == 1 then PlainField(fs[0])
    else PlainField(fs[0]) + [COMMA] + PlainFields(fs[1..])
  }

  /** Bytes of a code unit in UTF-8; a surrogate pair takes four, and JSON text has no lone surrogates. */
  function UnitBytes(u: Unit): nat {
    if u < 0x80 then 1 else if u < 0x800 || IsHigh(u) || IsLow(u) then 2 else 3
  }

  /** `Buffer.byteLength`. */
  function ByteLength(t: Text): nat {
    if t == [] then 0 else UnitBytes(t[0]) + ByteLength(t[1..])
  }

  function Bytes(m: Meta): nat {
    ByteLength(PlainText(Obj(m)))
  }

  lemma {:induction false} ByteLengthAppend(a: Text, b: Text)
    ensures ByteLength(a + b) == ByteLength(a) + ByteLength(b)
  {
    if a == [] {
      assert a + b == b;
    } else {
      assert (a + b)[1..] == a[1..] + b;
      ByteLengthAppend(a[1..], b);
    }
  }

  /** Each field counted with one separator. */
  function Weight(fs: seq<Field>): nat {
    if fs == [] then 0 else ByteLength(PlainField(fs[0])) + 1 + Weight(fs[1..])
  }

  lemma {:induction false} FieldsWeigh(fs: seq<Field>)
    ensures ByteLength(PlainFields(fs)) == if fs == [] then 0 else Weight(fs) - 1
  {
    if |fs| == 1 {
      assert fs[1..] == [];
    } else if fs != [] {
      FieldsWeigh(fs[1..]);
      ByteLengthAppend(PlainField(fs[0]) + [COMMA], PlainFields(fs[1..]));
      ByteLengthAppend(PlainField(fs[0]), [COMMA]);
      assert ByteLength([COMMA]) == 1;
    }
  }

  lemma BytesAreWeight(m: Meta)
    ensures Bytes(m) == 2 + if m == [] then 0 else Weight(m) - 1
  {
    FieldsWeigh(m);
    ByteLengthAppend([OPEN_OBJ] + PlainFields(m), [CLOSE_OBJ]);
    ByteLengthAppend([OPEN_OBJ], PlainFields(m));
    assert ByteLength([OPEN_OBJ]) == 1 && ByteLength([CLOSE_OBJ]) == 1;
  }

  // ---------------------------------------------------------------------------
  // Fields
  // ---------------------------------------------------------------------------

  function Lookup(m: Meta, key: Text): Option<Json> {
    if m == [] then None else if m[0].key == key then Some(m[0].value) else Lookup(m[1..], key)
  }

  function Without(m: Meta, key: Text): Meta {
    if m == [] then [] else if m[0].key == key then Without(m[1..], key) else [m[0]] + Without(m[1..], key)
  }

  lemma {:induction false} WithoutIsLighter(m: Meta, key: Text)
    ensures Weight(Without(m, key)) <= Weight(m)
    ensures m == [] ==> Without(m, key) == []
  {
    if m != [] {
      WithoutIsLighter(m[1..], key);
      if m[0].key != key {
        assert Without(m, key)[1..] == Without(m[1..], key);
      }
    }
  }

  lemma {:induction false} LookupWithout(m: Meta, gone: Text, key: Text)
    ensures Lookup(Without(m, gone), key) == if key == gone then None else Lookup(m, key)
  {
    if m != [] {
      LookupWithout(m[1..], gone, key);
      if m[0].key != gone {
        assert Without(m, gone)[1..] == Without(m[1..], gone);
      }
    }
  }

  lemma {:induction false} LookupAppend(m: Meta, f: Field, key: Text)
    requires Lookup(m, f.key).None?
    ensures Lookup(m + [f], key) == if key == f.key then Some(f.value) else Lookup(m, key)
  {
    if m != [] {
      assert (m + [f])[1..] == m[1..] + [f];
      LookupAppend(m[1..], f, key);
    }
  }

  /** Removing a key never makes the text longer. */
  lemma WithoutIsSmaller(m: Meta, key: Text)
    ensures Bytes(Without(m, key)) <= Bytes(m)
  {
    WithoutIsLighter(m, key);
    BytesAreWeight(m);
    BytesAreWeight(Without(m, key));
  }

  // ---------------------------------------------------------------------------
  // Merging
  // ---------------------------------------------------------------------------

  function WithHistory(rest: Meta, history: seq<Json>): Meta {
    if history == [] then rest else rest + [Field(HISTORY_KEY, Arr(history))]
  }

  /**
   * What a merge stores: the other keys, and the longest suffix of the history that fits the cap. When the
   * base fitted, so does the result; when nothing fits, the history is dropped and the other keys survive.
   */
  method CapMetadataForMerge(base: Meta, dedupHistory: seq<Json>) returns (m: Meta)
    ensures exists k :: 0 <= k <= |dedupHistory|
              && m == WithHistory(Without(base, HISTORY_KEY), dedupHistory[k..])
              && (k < |dedupHistory| ==> Bytes(m) <= MAX_METADATA_BYTES)
              && (forall j | 0 <= j < k :: Bytes(WithHistory(Without(base, HISTORY_KEY), dedupHistory[j..])) > MAX_METADATA_BYTES)
    ensures Bytes(base) <= MAX_METADATA_BYTES ==> Bytes(m) <= MAX_METADATA_BYTES
    ensures m == Capped(base, dedupHistory)
  {
    var rest := Without(base, HISTORY_KEY);
    WithoutIsSmaller(base, HISTORY_KEY);
    var history := dedupHistory;
    ghost var k := 0;
    while |history| > 0 && Bytes(rest + [Field(HISTORY_KEY, Arr(history))]) > MAX_METADATA_BYTES
      invariant 0 <= k <= |dedupHistory| && history == dedupHistory[k..]
      invariant forall j | 0 <= j < k :: Bytes(WithHistory(rest, dedupHistory[j..])) > MAX_METADATA_BYTES
      invariant Capped(base, dedupHistory) == Capped(base, history)
      decreases |history|
    {
      history := history[1..];
      k := k + 1;
    }
    m := if history == [] then rest else rest + [Field(HISTORY_KEY, Arr(history))];
    assert m == WithHistory(rest, dedupHistory[k..]);
  }

  function Capped(base: Meta, history: seq<Json>): Meta {
    var m := WithHistory(Without(base, HISTORY_KEY), history);
    if history == [] || Bytes(m) <= MAX_METADATA_BYTES then m else Capped(base, history[1..])
  }

  lemma {:induction false} CappedFits(base: Meta, history: seq<Json>)
    requires Bytes(base) <= MAX_METADATA_BYTES
    ensures Bytes(Capped(base, history)) <= MAX_METADATA_BYTES
  {
    WithoutIsSmaller(base, HISTORY_KEY);
    if history != [] && Bytes(WithHistory(Without(base, HISTORY_KEY), history)) > MAX_METADATA_BYTES {
      CappedFits(base, history[1..]);
    }
  }

  /** A merge touches no other key. */
  lemma {:induction false} CappedKeepsOthers(base: Meta, history: seq<Json>, key: Text)
    requires key != HISTORY_KEY
    ensures Lookup(Capped(base, history), key) == Lookup(base, key)
  {
    LookupWithout(base, HISTORY_KEY, key);
    LookupWithout(base, HISTORY_KEY, HISTORY_KEY);
    if history != [] {
      LookupAppend(Without(base, HISTORY_KEY), Field(HISTORY_KEY, Arr(history)), key);
      if Bytes(WithHistory(Without(base, HISTORY_KEY), history)) > MAX_METADATA_BYTES {
        CappedKeepsOthers(base, history[1..], key);
      }
    }
  }

  /** The last five entries of the history after one more content. */
  function NextHistory(base: Meta, content: Text): seq<Json> {
    var prior := Lookup(base, HISTORY_KEY);
    var history := (if prior.Some? && prior.value.Arr? then prior.value.elems else []) + [Str(content)];
    if |history| > DEDUP_HISTORY_CAP then history[|history| - DEDUP_HISTORY_CAP..] else history
  }

  // ---------------------------------------------------------------------------
  // A merge, read off the stored keys
  // ---------------------------------------------------------------------------

  /** The history so far, when the key holds an array, and the new content at its end. */
  function FullHistory(before: Meta, content: Text): seq<Json> {
    match Lookup(before, HISTORY_KEY)
    case Some(Arr(elems)) => elems + [Str(content)]
    case _ => [Str(content)]
  }

  predicate IsTooBig(before: Meta, history: seq<Json>) {
    Bytes(Without(before, HISTORY_KEY) + [Field(HISTORY_KEY, Arr(history))]) > MAX_METADATA_BYTES
  }

  /** The entries from `k` on are kept: at most five, within the cap, and no longer run of at most five would fit. */
  ghost predicate IsKeptFrom(before: Meta, full: seq<Json>, after: Meta, k: nat) {
    && k <= |full| && |full| - k <= DEDUP_HISTORY_CAP
    && Lookup(after, HISTORY_KEY) == (if k < |full| then Some(Arr(full[k..])) else None)
    && (k < |full| ==> Bytes(after) <= MAX_METADATA_BYTES)
    && forall j | 0 <= j < k && |full| - j <= DEDUP_HISTORY_CAP :: IsTooBig(before, full[j..])
  }

  /** What a merge leaves behind: every other key as before, and the longest fitting end of the history. */
  ghost predicate IsMerged(before: Meta, content: Text, after: Meta) {
    && (forall key | key != HISTORY_KEY :: Lookup(after, key) == Lookup(before, key))
    && (exists k :: IsKeptFrom(before, FullHistory(before, content), after, k))
  }

  lemma {:induction false} CappedIs(base: Meta, history: seq<Json>) returns (k: nat)
    ensures k <= |history| && Capped(base, history) == WithHistory(Without(base, HISTORY_KEY), history[k..])
    ensures k < |history| ==> Bytes(Capped(base, history)) <= MAX_METADATA_BYTES
    ensures forall j | 0 <= j < k :: IsTooBig(base, history[j..])
  {
    if history == [] || Bytes(WithHistory(Without(base, HISTORY_KEY), history)) <= MAX_METADATA_BYTES {
      k := 0;
      assert history[0..] == history;
    } else {
      k := CappedIs(base, history[1..]);
      assert history[1..][k..] == history[k + 1..];
      forall j | 0 <= j < k + 1 ensures IsTooBig(base, history[j..]) {
        assert j == 0 ==> history[j..] == history;
        assert j > 0 ==> IsTooBig(base, history[1..][j - 1..]) && history[1..][j - 1..] == history[j..];
      }
      k := k + 1;
    }
  }

  lemma HistoryKept(base: Meta, history: seq<Json>)
    ensures Lookup(WithHistory(Without(base, HISTORY_KEY), history), HISTORY_KEY)
         == if history == [] then None else Some(Arr(history))
  {
    LookupWithout(base, HISTORY_KEY, HISTORY_KEY);
    if history != [] {
      LookupAppend(Without(base, HISTORY_KEY), Field(HISTORY_KEY, Arr(history)), HISTORY_KEY);
    }
  }

  lemma MergeIs(base: Meta, content: Text)
    ensures IsMerged(base, content, Capped(base, NextHistory(base, content)))
  {
    var full, next := FullHistory(base, content), NextHistory(base, content);
    var d := if |full| > DEDUP_HISTORY_CAP then |full| - DEDUP_HISTORY_CAP else 0;
    assert next == full[d..];
    var k := CappedIs(base, next);
    var after := Capped(base, next);
    assert next[k..] == full[d + k..];
    HistoryKept(base, next[k..]);
    forall j | 0 <= j < d + k && |full| - j <= DEDUP_HISTORY_CAP ensures IsTooBig(base, full[j..]) {
      assert next[j - d..] == full[j..];
      assert IsTooBig(base, next[j - d..]);
    }
    assert IsKeptFrom(base, full, after, d + k);
    forall key | key != HISTORY_KEY ensures Lookup(after, key) == Lookup(base, key) {
      CappedKeepsOthers(base, next, key);
    }
  }

  /** A history that is kept at all ends in the new content. */
  lemma NewestIsKept(before: Meta, content: Text, after: Meta)
    requires IsMerged(before, content, after)
    ensures Lookup(after, HISTORY_KEY).Some? ==>
              exists kept :: Lookup(after, HISTORY_KEY) == Some(Arr(kept)) && 1 <= |kept| <= DEDUP_HISTORY_CAP
                             && kept[|kept| - 1] == Str(content)
  {
    var full := FullHistory(before, content);
    var k: nat :| IsKeptFrom(before, full, after, k);
    if k < |full| {
      assert Lookup(after, HISTORY_KEY) == Some(Arr(full[k..])) && full[k..][|full[k..]| - 1] == Str(content);
    }
  }

  predicate IsImmortal(m: Meta) {
    Lookup(m, IMMORTAL_KEY) == Some(Bool(true))
  }
}
