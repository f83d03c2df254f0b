/** Expansion of IPv6 literals to bytes, and the IPv6 ranges of the staleness auditor. */
module Ipv6 {
  import opened Base
  import opened Bits
  import opened Strings
  import opened Address

  // ---------------------------------------------------------------------------
  // The parser
  // ---------------------------------------------------------------------------

  predicate IsHexDigit(c: char) {
    '0' <= c <= '9' || 'a' <= c <= 'f' || 'A' <= c <= 'F'
  }

  function HexValue(c: char): nat
    requires IsHexDigit(c)
  {
    if '0' <= c <= '9' then c as int - '0' as int
    else if 'a' <= c <= 'f' then c as int - 'a' as int + 10
    else c as int - 'A' as int + 10
  }

  predicate AllHex(t: string) {
    t == [] || (IsHexDigit(t[|t| - 1]) && AllHex(t[..|t| - 1]))
  }

  function Hexadecimal(t: string): nat
    requires AllHex(t)
  {
    if t == [] then 0 else 16 * Hexadecimal(t[..|t| - 1]) + HexValue(t[|t| - 1])
  }

  /** Sixteen to the power of `k`, for up to four digits. */
  function Sixteens(k: nat): nat {
    if k == 0 then 1 else if k == 1 then 16 else if k == 2 then 256 else if k == 3 then 4096 else 0x1_0000
  }

  /** One to four hexadecimal digits. */
  function GroupOf(t: string): (g: Option<Group>) {
    if 1 <= |t| <= 4 && AllHex(t) then
      GroupFits(t);
      Some(Hexadecimal(t))
    else None
  }

  lemma {:induction false} HexBound(t: string)
    requires |t| <= 4 && AllHex(t)
    ensures Hexadecimal(t) < Sixteens(|t|)
  {
    if t != [] {
      HexBound(t[..|t| - 1]);
    }
  }

  lemma GroupFits(t: string)
    requires |t| <= 4 && AllHex(t)
    ensures Hexadecimal(t) < 0x1_0000
  {
    HexBound(t);
  }

  lemma {:induction false} AllHexAre(t: string)
    ensures AllHex(t) <==> forall i | 0 <= i < |t| :: IsHexDigit(t[i])
  {
    if t != [] {
      AllHexAre(t[..|t| - 1]);
    }
  }

  /** The sixteen digits, in either case. */
  lemma HexDigitsAre(v: nat)
    requires v < 16
    ensures IsHexDigit("0123456789abcdef"[v]) && HexValue("0123456789abcdef"[v]) == v
    ensures IsHexDigit("0123456789ABCDEF"[v]) && HexValue("0123456789ABCDEF"[v]) == v
  {
  }

  lemma OnlyHexDigits(c: char)
    requires IsHexDigit(c)
    ensures HexValue(c) < 16 && (c == "0123456789abcdef"[HexValue(c)] || c == "0123456789ABCDEF"[HexValue(c)])
  {
  }

  /** A group is one to four hexadecimal digits, each worth sixteen times the next. */
  lemma GroupExactly(t: string)
    ensures GroupOf(t).Some? <==> 1 <= |t| <= 4 && forall i | 0 <= i < |t| :: IsHexDigit(t[i])
    ensures |t| == 1 && GroupOf(t).Some? ==> GroupOf(t).value == HexValue(t[0])
    ensures |t| > 1 && GroupOf(t).Some? ==>
              && GroupOf(t[..|t| - 1]).Some?
              && GroupOf(t).value == 16 * GroupOf(t[..|t| - 1]).value + HexValue(t[|t| - 1])
  {
    AllHexAre(t);
    if 1 <= |t| <= 4 && AllHex(t) {
      assert Hexadecimal(t) == 16 * Hexadecimal(t[..|t| - 1]) + HexValue(t[|t| - 1]);
      assert Hexadecimal("") == 0 && t[..0] == "";
    }
  }

  function GroupsOf(parts: seq<string>): Option<seq<Group>> {
    if parts == [] then Some([])
    else
      match (GroupOf(parts[0]), GroupsOf(parts[1..]))
      case (Some(g), Some(gs)) => Some([g] + gs)
      case _ => None
  }

  /** The groups on one side of `::`. */
  function Side(side: string): Option<seq<Group>> {
    if side == "" then Some([]) else GroupsOf(Split(side, ':'))
  }

  /** Position of the first `::`, or the length when there is none. */
  function GapAt(s: string): (i: nat)
    ensures i <= |s|
  {
    if s == "" then 0
    else if |s| >= 2 && s[0] == ':' && s[1] == ':' then 0
    else 1 + GapAt(s[1..])
  }

  /** `s.split('::')`. */
  function SplitGap(s: string): (parts: seq<string>)
    ensures parts != []
    decreases |s|
  {
    var i := GapAt(s);
    if i + 2 > |s| then [s] else [s[..i]] + SplitGap(s[i + 2..])
  }

  function Zeros(n: nat): seq<Group> {
    seq(n, _ => 0)
  }

  /** What stands before a dotted tail, or the whole literal, together with the tail's two groups. */
  function Expand(s: string, tail: seq<Group>): Option<seq<Group>> {
    ExpandHalves(SplitGap(s), tail)
  }

  function ExpandHalves(halves: seq<string>, tail: seq<Group>): Option<seq<Group>>
    requires halves != []
  {
    if |halves| > 2 then None
    else if |halves| == 2 then
      match (Side(halves[0]), Side(halves[1]))
      case (Some(head), Some(back)) => FillGap(head, back, tail)
      case _ => None
    else
      match Side(halves[0])
      case Some(head) => Exactly8(head + tail)
      case None => None
  }

  function FillGap(head: seq<Group>, back: seq<Group>, tail: seq<Group>): Option<seq<Group>> {
    var fill := 8 - |head| - |back| - |tail|;
    if fill < 0 then None else Some(head + Zeros(fill) + back + tail)
  }

  function Exactly8(groups: seq<Group>): Option<seq<Group>> {
    if |groups| == 8 then Some(groups) else None
  }

  /** Index of the last colon, or -1. */
  function LastColon(s: string): (i: int)
    ensures -1 <= i < |s|
  {
    if s == "" then -1 else if s[|s| - 1] == ':' then |s| - 1 else LastColon(s[..|s| - 1])
  }

  /** `s.slice(0, i)`, where a negative index counts from the end. */
  function SliceTo(s: string, i: int): string
    requires -1 <= i <= |s|
  {
    if i >= 0 then s[..i] else if s == "" then "" else s[..|s| - 1]
  }

  function DropTrailingColon(s: string): string {
    if |s| >= 1 && s[|s| - 1] == ':' && !(|s| >= 2 && s[|s| - 2] == ':') then s[..|s| - 1] else s
  }

  function TailGroups(n: nat): seq<Group>
    requires n < TWO_TO_32
  {
    [n / 0x1_0000, n % 0x1_0000]
  }

  function ExpandIpv6(ip: string): Option<seq<Byte>> {
    match ExpandGroups(Split(ip, '%')[0])
    case None => None
    case Some(groups) => Some(BytesOf(groups))
  }

  function ExpandGroups(s: string): Option<seq<Group>> {
    if '.' !in s then Expand(s, [])
    else
      var idx := LastColon(s);
      ExpandMixed(SliceTo(s, idx), s[idx + 1..])
  }

  /** The literal in front of the last colon and the dotted tail after it. */
  function ExpandMixed(front: string, dotted: string): Option<seq<Group>> {
    match Ipv4ToInt(dotted)
    case None => None
    case Some(v4) =>
      Ipv4Bound(dotted);
      Expand(DropTrailingColon(front), TailGroups(v4))
  }

  function BytesOf(groups: seq<Group>): seq<Byte> {
    if groups == [] then [] else [groups[0] / 256, groups[0] % 256] + BytesOf(groups[1..])
  }

  /** The final loop of `expandIpv6`. */
  method GroupsToBytes(groups: seq<Group>) returns (bytes: seq<Byte>)
    ensures bytes == BytesOf(groups) && |bytes| == 2 * |groups|
  {
    bytes := [];
    for i := 0 to |groups|
      invariant |bytes| == 2 * i && bytes + BytesOf(groups[i..]) == BytesOf(groups)
    {
      bytes := bytes + [groups[i] / 256, groups[i] % 256];
    }
    assert groups[|groups|..] == [];
  }

  /** The loop of `parseSide`. */
  method ParseSide(side: string) returns (r: Option<seq<Group>>)
    ensures r == Side(side)
  {
    if side == "" {
      return Some([]);
    }
    var parts := Split(side, ':');
    var out: seq<Group> := [];
    PrependNothing(GroupsOf(parts));
    assert parts[0..] == parts;
    for i := 0 to |parts|
      invariant GroupsOf(parts) == Prepend(out, GroupsOf(parts[i..]))
    {
      var g := GroupOf(parts[i]);
      if g.None? {
        return None;
      }
      PrependAssoc(out, g.value, GroupsOf(parts[i + 1..]));
      out := out + [g.value];
    }
    assert parts[|parts|..] == [] && out + [] == out;
    return Some(out);
  }

  function Prepend(gs: seq<Group>, r: Option<seq<Group>>): Option<seq<Group>> {
    if r.None? then None else Some(gs + r.value)
  }

  lemma PrependNothing(r: Option<seq<Group>>)
    ensures Prepend([], r) == r
  {
    if r.Some? {
      assert [] + r.value == r.value;
    }
  }

  lemma PrependAssoc(out: seq<Group>, g: Group, rest: Option<seq<Group>>)
    ensures Prepend(out, Prepend([g], rest)) == Prepend(out + [g], rest)
  {
    if rest.Some? {
      assert out + ([g] + rest.value) == out + [g] + rest.value;
    }
  }

  // ---------------------------------------------------------------------------
  // Texts of section 2.2 of RFC 4291
  // ---------------------------------------------------------------------------

  /** Every part is a group of one to four hexadecimal digits. */
  predicate AreGroups(parts: seq<string>) {
    forall p | p in parts :: GroupOf(p).Some?
  }

  function Values(parts: seq<string>): seq<Group>
    requires AreGroups(parts)
  {
    if parts == [] then [] else [GroupOf(parts[0]).value] + Values(parts[1..])
  }

  lemma {:induction false} HexHas(t: string, x: char)
    requires AllHex(t) && !IsHexDigit(x)
    ensures x !in t
  {
    if t != [] {
      HexHas(t[..|t| - 1], x);
      assert t == t[..|t| - 1] + [t[|t| - 1]];
    }
  }

  lemma {:induction false} GroupsRead(parts: seq<string>)
    requires AreGroups(parts)
    ensures GroupsOf(parts) == Some(Values(parts)) && |Values(parts)| == |parts|
  {
    if parts != [] {
      GroupsRead(parts[1..]);
    }
  }

  lemma SideReads(parts: seq<string>)
    requires AreGroups(parts)
    ensures Side(Join(parts, ':')) == Some(Values(parts)) && |Values(parts)| == |parts|
  {
    GroupsRead(parts);
    if parts != [] {
      assert parts[0] != "";
      forall p | p in parts ensures ':' !in p {
        HexHas(p, ':');
      }
      SplitJoin(parts, ':');
    }
  }

  /** No colon at either end and no two colons in a row. */
  predicate NoGap(s: string) {
    && (s != "" ==> s[0] != ':' && s[|s| - 1] != ':')
    && forall i | 0 < i < |s| :: !(s[i - 1] == ':' && s[i] == ':')
  }

  lemma GroupHas(p: string)
    requires GroupOf(p).Some?
    ensures p != "" && ':' !in p && '.' !in p && '%' !in p
  {
    HexHas(p, ':');
    HexHas(p, '.');
    HexHas(p, '%');
  }

  lemma NoColonNoGap(p: string)
    requires ':' !in p
    ensures NoGap(p)
  {
  }

  lemma GlueNoGap(p: string, rest: string)
    requires p != "" && ':' !in p && rest != "" && NoGap(rest)
    ensures NoGap(p + [':'] + rest)
  {
    var s := p + [':'] + rest;
    forall i | 0 < i < |s| ensures !(s[i - 1] == ':' && s[i] == ':') {
      if i <= |p| {
        assert s[i - 1] == p[i - 1];
      } else if i > |p| + 1 {
        assert s[i - 1] == rest[i - |p| - 2] && s[i] == rest[i - |p| - 1];
      }
    }
  }

  lemma {:induction false} JoinedHasNoGap(parts: seq<string>)
    requires AreGroups(parts)
    ensures NoGap(Join(parts, ':'))
    ensures Join(parts, ':') == "" <==> parts == []
    ensures '.' !in Join(parts, ':') && '%' !in Join(parts, ':')
  {
    if parts != [] {
      assert parts[0] in parts;
      GroupHas(parts[0]);
      NoColonNoGap(parts[0]);
      if |parts| > 1 {
        JoinedHasNoGap(parts[1..]);
        GlueNoGap(parts[0], Join(parts[1..], ':'));
      }
    }
  }

  lemma {:induction false} NoGapAt(s: string)
    requires forall i | 0 < i < |s| :: !(s[i - 1] == ':' && s[i] == ':')
    ensures GapAt(s) == |s|
  {
    if s != "" {
      assert forall i | 0 < i < |s[1..]| :: s[1..][i - 1] == s[i] && s[1..][i] == s[i + 1];
      NoGapAt(s[1..]);
    }
  }

  lemma {:induction false} FirstGap(h: string, b: string)
    requires NoGap(h)
    ensures GapAt(h + "::" + b) == |h|
  {
    var s := h + "::" + b;
    if h != "" {
      assert s[1..] == h[1..] + "::" + b;
      if |h| > 1 {
        assert h[0] == s[0] && h[1] == s[1];
        FirstGapFrom(h[1..], b);
      } else {
        assert s[1..] == "" + "::" + b;
      }
    }
  }

  /** As `FirstGap`, when the text before the gap may start with a colon. */
  lemma {:induction false} FirstGapFrom(h: string, b: string)
    requires h != "" && h[|h| - 1] != ':'
    requires forall i | 0 < i < |h| :: !(h[i - 1] == ':' && h[i] == ':')
    ensures GapAt(h + "::" + b) == |h|
  {
    var s := h + "::" + b;
    assert s[1..] == h[1..] + "::" + b;
    if |h| > 1 {
      assert h[0] == s[0] && h[1] == s[1] && !(h[1 - 1] == ':' && h[1] == ':');
      assert forall i | 0 < i < |h[1..]| :: h[1..][i - 1] == h[i] && h[1..][i] == h[i + 1];
      FirstGapFrom(h[1..], b);
    } else {
      assert s[0] == h[0];
      assert s[1..] == "::" + b;
    }
  }

  lemma GapSplits(head: seq<string>, back: seq<string>)
    requires AreGroups(head) && AreGroups(back)
    ensures SplitGap(Join(head, ':') + "::" + Join(back, ':')) == [Join(head, ':'), Join(back, ':')]
  {
    var h, b := Join(head, ':'), Join(back, ':');
    var s := h + "::" + b;
    JoinedHasNoGap(head);
    JoinedHasNoGap(back);
    FirstGap(h, b);
    NoGapAt(b);
    assert s[..|h|] == h && s[|h| + 2..] == b;
  }

  /** Groups without `::` are read one by one. */
  lemma ExpandPlain(head: seq<string>, tail: seq<Group>)
    requires AreGroups(head)
    ensures Expand(Join(head, ':'), tail) == Exactly8(Values(head) + tail)
    ensures |Values(head)| == |head|
  {
    JoinedHasNoGap(head);
    NoGapAt(Join(head, ':'));
    SideReads(head);
  }

  /** `::` stands for as many zero groups as are missing, wherever it is placed. */
  lemma ExpandGap(head: seq<string>, back: seq<string>, tail: seq<Group>)
    requires AreGroups(head) && AreGroups(back)
    ensures Expand(Join(head, ':') + "::" + Join(back, ':'), tail) == FillGap(Values(head), Values(back), tail)
    ensures |Values(head)| == |head| && |Values(back)| == |back|
  {
    GapSplits(head, back);
    SideReads(head);
    SideReads(back);
  }

  lemma {:induction false} LastColonIs(x: string, y: string)
    requires ':' !in y
    ensures LastColon(x + ":" + y) == |x|
  {
    var s := x + ":" + y;
    if y != "" {
      assert s[..|s| - 1] == x + ":" + y[..|y| - 1];
      assert s[|s| - 1] == y[|y| - 1];
      LastColonIs(x, y[..|y| - 1]);
    }
  }

  /** A dotted tail becomes two groups; what is in front of its colon is expanded on its own. */
  lemma TailSplitsOff(front: string, a: Byte, b: Byte, c: Byte, d: Byte)
    ensures ExpandGroups(front + ":" + Dotted(a, b, c, d)) == Expand(DropTrailingColon(front), Tail(a, b, c, d))
  {
    var t := Dotted(a, b, c, d);
    DottedHas(a, b, c, d, ':');
    DottedHas(a, b, c, d, '.');
    ColonSplitsOff(front, t);
    MixedReads(front, a, b, c, d);
  }

  function Tail(a: Byte, b: Byte, c: Byte, d: Byte): seq<Group> {
    [a * 256 + b, c * 256 + d]
  }

  lemma ColonSplitsOff(front: string, t: string)
    requires ':' !in t && '.' in t
    ensures ExpandGroups(front + ":" + t) == ExpandMixed(front, t)
  {
    var s := front + ":" + t;
    LastColonIs(front, t);
    assert s[|front| + 1..] == t && s[..|front|] == front;
    assert '.' in s;
  }

  lemma MixedReads(front: string, a: Byte, b: Byte, c: Byte, d: Byte)
    ensures ExpandMixed(front, Dotted(a, b, c, d)) == Expand(DropTrailingColon(front), Tail(a, b, c, d))
  {
    Ipv4RoundTrip(a, b, c, d);
    QuadHalves(a, b, c, d);
  }

  lemma QuadHalves(a: Byte, b: Byte, c: Byte, d: Byte)
    ensures Quad(a, b, c, d) < TWO_TO_32 && TailGroups(Quad(a, b, c, d)) == Tail(a, b, c, d)
  {
    var high: nat, low: nat := a * 256 + b, c * 256 + d;
    assert Quad(a, b, c, d) == high * 0x1_0000 + low;
  }

  // The five text forms and what each expands to.

  lemma WithoutDots(s: string)
    requires '.' !in s
    ensures ExpandGroups(s) == Expand(s, [])
  {
  }

  lemma PlainText(head: seq<string>)
    requires AreGroups(head)
    ensures ExpandGroups(Join(head, ':')) == if |head| == 8 then Some(Values(head)) else None
  {
    JoinedHasNoGap(head);
    WithoutDots(Join(head, ':'));
    ExpandPlain(head, []);
    assert Values(head) + [] == Values(head);
  }

  lemma FillsAlone(head: seq<Group>, back: seq<Group>)
    ensures FillGap(head, back, [])
         == if |head| + |back| <= 8 then Some(head + Zeros(8 - |head| - |back|) + back) else None
  {
    if |head| + |back| <= 8 {
      var all := head + Zeros(8 - |head| - |back|) + back;
      assert all + [] == all;
    }
  }

  lemma NoDotsAround(h: string, b: string)
    requires '.' !in h && '.' !in b
    ensures '.' !in h + "::" + b
  {
  }

  lemma CompressedText(head: seq<string>, back: seq<string>)
    requires AreGroups(head) && AreGroups(back)
    ensures ExpandGroups(Join(head, ':') + "::" + Join(back, ':'))
         == if |head| + |back| <= 8 then Some(Values(head) + Zeros(8 - |head| - |back|) + Values(back)) else None
  {
    JoinedHasNoGap(head);
    JoinedHasNoGap(back);
    NoDotsAround(Join(head, ':'), Join(back, ':'));
    WithoutDots(Join(head, ':') + "::" + Join(back, ':'));
    ExpandGap(head, back, []);
    FillsAlone(Values(head), Values(back));
  }

  lemma MixedText(head: seq<string>, a: Byte, b: Byte, c: Byte, d: Byte)
    requires AreGroups(head) && head != []
    ensures ExpandGroups(Join(head, ':') + ":" + Dotted(a, b, c, d))
         == if |head| == 6 then Some(Values(head) + Tail(a, b, c, d)) else None
  {
    JoinedHasNoGap(head);
    TailSplitsOff(Join(head, ':'), a, b, c, d);
    ExpandPlain(head, Tail(a, b, c, d));
  }

  lemma CompressedMixedText(head: seq<string>, back: seq<string>, a: Byte, b: Byte, c: Byte, d: Byte)
    requires AreGroups(head) && AreGroups(back) && back != []
    ensures ExpandGroups(Join(head, ':') + "::" + Join(back, ':') + ":" + Dotted(a, b, c, d))
         == if |head| + |back| <= 6
            then Some(Values(head) + Zeros(6 - |head| - |back|) + Values(back) + Tail(a, b, c, d)) else None
  {
    JoinedHasNoGap(back);
    var front := Join(head, ':') + "::" + Join(back, ':');
    assert front[|front| - 1] == Join(back, ':')[|Join(back, ':')| - 1];
    TailSplitsOff(front, a, b, c, d);
    ExpandGap(head, back, Tail(a, b, c, d));
  }

  /**
   * `::` directly before a dotted tail loses a colon and with it the gap: the literal is refused, and so
   * blocked, unless six groups are written out in front, when no gap was needed.
   */
  lemma GapBeforeTail(head: seq<string>, a: Byte, b: Byte, c: Byte, d: Byte)
    requires AreGroups(head)
    ensures ExpandGroups(Join(head, ':') + "::" + Dotted(a, b, c, d))
         == if |head| == 6 then Some(Values(head) + Tail(a, b, c, d)) else None
  {
    JoinedHasNoGap(head);
    var h, t := Join(head, ':'), Dotted(a, b, c, d);
    TwoColons(h, t);
    TailSplitsOff(h + ":", a, b, c, d);
    OneColonDrops(h);
    ExpandPlain(head, Tail(a, b, c, d));
  }

  lemma TwoColons(h: string, t: string)
    ensures h + "::" + t == (h + ":") + ":" + t
  {
  }

  lemma OneColonDrops(h: string)
    requires NoGap(h)
    ensures DropTrailingColon(h + ":") == h
  {
    assert (h + ":")[..|h|] == h;
  }

  /** A zone id is ignored. */
  lemma ZoneIgnored(ip: string, zone: string)
    requires '%' !in ip
    ensures ExpandIpv6(ip + "%" + zone) == ExpandIpv6(ip)
  {
    SplitOnce(ip, zone, '%');
  }

  // ---------------------------------------------------------------------------
  // Blocked IPv6 ranges
  // ---------------------------------------------------------------------------

  predicate AllZero(bytes: seq<Byte>) {
    forall i | 0 <= i < |bytes| :: bytes[i] == 0
  }

  predicate IsBlockedIpv6FromBytes(bytes: seq<Byte>)
    requires |bytes| == 16
  {
    if AllZero(bytes) then true
    else if AllZero(bytes[..15]) && bytes[15] == 1 then true
    else if AllZero(bytes[..10]) && bytes[10] == 0xFF && bytes[11] == 0xFF then
      IsBlockedIpv4(Dotted(bytes[12], bytes[13], bytes[14], bytes[15]))
    else if AllZero(bytes[..12]) then IsBlockedIpv4(Dotted(bytes[12], bytes[13], bytes[14], bytes[15]))
    else if bytes[0] == 0xFE && And(bytes[1], 0xC0) == 0x80 then true
    else if And(bytes[0], 0xFE) == 0xFC then true
    else bytes[0] == 0xFF
  }

  lemma MaskC0(b: Byte)
    ensures And(b, 0xC0) == 0x80 <==> 0x80 <= b <= 0xBF
  {
    SmallPowers();
    AndByte(b, 6, 64);
  }

  lemma MaskFE(b: Byte)
    ensures And(b, 0xFE) == 0xFC <==> 0xFC <= b <= 0xFD
  {
    SmallPowers();
    AndByte(b, 1, 2);
  }

  function FirstGroup(bytes: seq<Byte>): Group
    requires |bytes| == 16
  {
    var high: nat := bytes[0];
    var low: nat := bytes[1];
    high * 256 + low
  }

  predicate Embedded(bytes: seq<Byte>)
    requires |bytes| == 16
  {
    AllZero(bytes[..10]) && (AllZero(bytes[10..12]) || (bytes[10] == 0xFF && bytes[11] == 0xFF))
  }

  /** An address that embeds an IPv4 address is classified like it; the others by the documented prefixes. */
  lemma BlockedIpv6Is(bytes: seq<Byte>)
    requires |bytes| == 16
    ensures Embedded(bytes) ==>
              (IsBlockedIpv6FromBytes(bytes) <==> IsBlockedIpv4(Dotted(bytes[12], bytes[13], bytes[14], bytes[15])))
    ensures !Embedded(bytes) ==>
              (IsBlockedIpv6FromBytes(bytes) <==>
                 || 0xFE80 <= FirstGroup(bytes) <= 0xFEBF
                 || 0xFC00 <= FirstGroup(bytes) <= 0xFDFF
                 || 0xFF00 <= FirstGroup(bytes))
  {
    MaskC0(bytes[1]);
    MaskFE(bytes[0]);
    var a, b, c, d := bytes[12], bytes[13], bytes[14], bytes[15];
    assert AllZero(bytes[..12]) <==> AllZero(bytes[..10]) && AllZero(bytes[10..12]) by {
      assert forall i | 0 <= i < 2 :: bytes[10..12][i] == bytes[i + 10];
    }
    assert AllZero(bytes[..15]) ==> a == 0 && b == 0 && c == 0 && AllZero(bytes[..12]) by {
      if AllZero(bytes[..15]) {
        assert bytes[..15][12] == 0 && bytes[..15][13] == 0 && bytes[..15][14] == 0;
        assert forall i | 0 <= i < 12 :: bytes[..12][i] == bytes[..15][i];
      }
    }
    assert AllZero(bytes) ==> AllZero(bytes[..15]);
    if a == 0 {
      Ipv4RoundTrip(a, b, c, d);
      BlockedIpv4Is(Dotted(a, b, c, d));
    }
  }

  /** The 16 bytes of a mapped IPv4 address. */
  function Mapped(a: Byte, b: Byte, c: Byte, d: Byte): seq<Byte> {
    [0, 0, 0, 0, 0, 0, 0, 0, 0, 0, 0xFF, 0xFF, a, b, c, d]
  }

  function MappedLiteral(a: Byte, b: Byte, c: Byte, d: Byte): string {
    "::ffff:" + Dotted(a, b, c, d)
  }

  /** The text `::ffff:a.b.c.d` is blocked exactly when `a.b.c.d` is. */
  lemma MappedLikeIpv4(a: Byte, b: Byte, c: Byte, d: Byte, bytes: seq<Byte>)
    requires bytes == Mapped(a, b, c, d)
    ensures ExpandIpv6(MappedLiteral(a, b, c, d)) == Some(bytes)
    ensures IsBlockedIpv6FromBytes(bytes) <==> IsBlockedIpv4(Dotted(a, b, c, d))
  {
    MappedExpands(a, b, c, d);
    MappedBytes(a, b, c, d);
    MappedShape(a, b, c, d, bytes);
    MappedIsBlocked(bytes);
  }

  lemma MappedShape(a: Byte, b: Byte, c: Byte, d: Byte, bytes: seq<Byte>)
    requires bytes == Mapped(a, b, c, d)
    ensures |bytes| == 16 && Embedded(bytes)
    ensures bytes[12] == a && bytes[13] == b && bytes[14] == c && bytes[15] == d
  {
  }

  lemma MappedIsBlocked(bytes: seq<Byte>)
    requires |bytes| == 16 && Embedded(bytes)
    ensures IsBlockedIpv6FromBytes(bytes) <==> IsBlockedIpv4(Dotted(bytes[12], bytes[13], bytes[14], bytes[15]))
  {
    BlockedIpv6Is(bytes);
  }

  lemma MappedGroups(head: seq<string>, back: seq<string>, a: Byte, b: Byte, c: Byte, d: Byte)
    requires AreGroups(head) && AreGroups(back) && |head| == 0 && |back| == 1
    requires Values(head) == [] && Values(back) == [0xFFFF]
    ensures ExpandGroups(Join(head, ':') + "::" + Join(back, ':') + ":" + Dotted(a, b, c, d))
         == Some(Zeros(5) + [0xFFFF] + Tail(a, b, c, d))
  {
    CompressedMixedText(head, back, a, b, c, d);
    assert [] + Zeros(5) == Zeros(5);
  }

  lemma MappedHasNoZone(a: Byte, b: Byte, c: Byte, d: Byte)
    ensures '%' !in MappedLiteral(a, b, c, d)
  {
    DottedHas(a, b, c, d, '%');
  }

  lemma MappedExpands(a: Byte, b: Byte, c: Byte, d: Byte)
    ensures ExpandIpv6(MappedLiteral(a, b, c, d)) == Some(BytesOf(Zeros(5) + [0xFFFF] + Tail(a, b, c, d)))
  {
    var text := MappedLiteral(a, b, c, d);
    MappedText(Dotted(a, b, c, d));
    FfffIsGroup();
    MappedGroups([], ["ffff"], a, b, c, d);
    MappedHasNoZone(a, b, c, d);
    ExpandedBytes(text, Zeros(5) + [0xFFFF] + Tail(a, b, c, d));
  }

  lemma ExpandedBytes(s: string, groups: seq<Group>)
    requires '%' !in s && ExpandGroups(s) == Some(groups)
    ensures ExpandIpv6(s) == Some(BytesOf(groups))
  {
    NoZone(s);
  }

  lemma MappedText(t: string)
    ensures Join([], ':') + "::" + Join(["ffff"], ':') + ":" + t == "::ffff:" + t
  {
  }

  lemma NoZone(s: string)
    requires '%' !in s
    ensures ExpandIpv6(s) == if ExpandGroups(s).Some? then Some(BytesOf(ExpandGroups(s).value)) else None
  {
  }

  lemma FfffIsGroup()
    ensures AreGroups(["ffff"]) && Values(["ffff"]) == [0xFFFF]
  {
    assert "ffff"[..3] == "fff" && "fff"[..2] == "ff" && "ff"[..1] == "f" && "f"[..0] == "";
    assert AllHex("f") && AllHex("ff") && AllHex("fff");
    assert Hexadecimal("ff") == 0xFF && Hexadecimal("fff") == 0xFFF;
    assert ["ffff"][1..] == [];
  }

  lemma MappedBytes(a: Byte, b: Byte, c: Byte, d: Byte)
    ensures BytesOf(Zeros(5) + [0xFFFF] + Tail(a, b, c, d)) == Mapped(a, b, c, d)
  {
    var g := [0xFFFF, a * 256 + b, c * 256 + d];
    assert Zeros(5) + [0xFFFF] + Tail(a, b, c, d) == Zeros(5) + g;
    LeadingZeros(5, g);
    assert g[1..] == [a * 256 + b, c * 256 + d] && g[1..][1..] == [c * 256 + d];
    assert BytesOf([c * 256 + d]) == [c, d];
    assert BytesOf([a * 256 + b, c * 256 + d]) == [a, b, c, d];
    assert BytesOf(g) == [0xFF, 0xFF, a, b, c, d];
  }

  lemma {:induction false} LeadingZeros(n: nat, g: seq<Group>)
    ensures BytesOf(Zeros(n) + g) == seq(2 * n, _ => 0) + BytesOf(g)
  {
    if n == 0 {
      assert Zeros(0) + g == g;
    } else {
      assert (Zeros(n) + g)[1..] == Zeros(n - 1) + g;
      LeadingZeros(n - 1, g);
    }
  }
}
