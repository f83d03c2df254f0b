/** Exactly which texts `expandIpv6` accepts, and what each of them means. */
module Ipv6Forms {
  import opened Base
  import opened Bits
  import opened Strings
  import opened Address
  import opened Ipv6

  // ---------------------------------------------------------------------------
  // The texts in front of a dotted tail, or without one
  // ---------------------------------------------------------------------------

  /** Groups joined by colons that together with the tail number eight. */
  ghost predicate IsPlain(s: string, tail: seq<Group>, gs: seq<Group>, head: seq<string>) {
    AreGroups(head) && s == Join(head, ':') && |head| + |tail| == 8 && gs == Values(head) + tail
  }

  /** Groups, one `::` for the zero groups missing to eight (possibly none), groups. */
  ghost predicate IsCompressed(s: string, tail: seq<Group>, gs: seq<Group>, head: seq<string>, back: seq<string>) {
    && AreGroups(head) && AreGroups(back)
    && s == Join(head, ':') + "::" + Join(back, ':')
    && |head| + |back| + |tail| <= 8
    && gs == Values(head) + Zeros(8 - |head| - |back| - |tail|) + Values(back) + tail
  }

  ghost predicate IsForm(s: string, tail: seq<Group>, gs: seq<Group>) {
    || (exists head :: IsPlain(s, tail, gs, head))
    || (exists head, back :: IsCompressed(s, tail, gs, head, back))
  }

  lemma {:induction false} GroupsOfAll(parts: seq<string>)
    requires GroupsOf(parts).Some?
    ensures AreGroups(parts)
  {
    if parts != [] {
      GroupsOfAll(parts[1..]);
      assert parts == [parts[0]] + parts[1..];
    }
  }

  /** What one side of `::` reads as tells how it was written. */
  lemma SideIsJoined(side: string) returns (parts: seq<string>)
    requires Side(side).Some?
    ensures AreGroups(parts) && side == Join(parts, ':') && Side(side).value == Values(parts) && |Values(parts)| == |parts|
  {
    if side == "" {
      parts := [];
    } else {
      parts := Split(side, ':');
      JoinSplit(side, ':');
      GroupsOfAll(parts);
      GroupsRead(parts);
    }
  }

  lemma {:induction false} GapIsThere(s: string)
    requires GapAt(s) + 2 <= |s|
    ensures s[GapAt(s)] == ':' && s[GapAt(s) + 1] == ':'
  {
    if !(s[0] == ':' && s[1] == ':') {
      GapIsThere(s[1..]);
    }
  }

  lemma CutAtGap(s: string, i: nat)
    requires i + 2 <= |s| && s[i] == ':' && s[i + 1] == ':'
    ensures s == s[..i] + "::" + s[i + 2..]
  {
  }

  lemma HalvesRebuild(s: string)
    ensures |SplitGap(s)| == 1 ==> s == SplitGap(s)[0]
    ensures |SplitGap(s)| == 2 ==> s == SplitGap(s)[0] + "::" + SplitGap(s)[1]
  {
    var i := GapAt(s);
    if i + 2 <= |s| {
      GapIsThere(s);
      CutAtGap(s, i);
      var rest := SplitGap(s[i + 2..]);
      if |rest| == 1 {
        assert rest == [s[i + 2..]];
      }
    }
  }

  lemma PlainExpands(s: string, tail: seq<Group>, gs: seq<Group>, head: seq<string>)
    requires IsPlain(s, tail, gs, head)
    ensures Expand(s, tail) == Some(gs)
  {
    ExpandPlain(head, tail);
  }

  lemma CompressedExpands(s: string, tail: seq<Group>, gs: seq<Group>, head: seq<string>, back: seq<string>)
    requires IsCompressed(s, tail, gs, head, back)
    ensures Expand(s, tail) == Some(gs)
  {
    ExpandGap(head, back, tail);
  }

  lemma TwoHalves(a: string, b: string, tail: seq<Group>, gs: seq<Group>)
    requires ExpandHalves([a, b], tail) == Some(gs)
    ensures IsForm(a + "::" + b, tail, gs)
  {
    var head := SideIsJoined(a);
    var back := SideIsJoined(b);
    assert IsCompressed(a + "::" + b, tail, gs, head, back);
  }

  lemma OneHalf(a: string, tail: seq<Group>, gs: seq<Group>)
    requires ExpandHalves([a], tail) == Some(gs)
    ensures IsForm(a, tail, gs)
  {
    var head := SideIsJoined(a);
    assert IsPlain(a, tail, gs, head);
  }

  lemma ExpandedIsForm(s: string, tail: seq<Group>, gs: seq<Group>)
    requires Expand(s, tail) == Some(gs)
    ensures IsForm(s, tail, gs)
  {
    HalvesRebuild(s);
    var halves := SplitGap(s);
    if |halves| == 2 {
      assert halves == [halves[0], halves[1]];
      TwoHalves(halves[0], halves[1], tail, gs);
    } else {
      assert halves == [halves[0]];
      OneHalf(halves[0], tail, gs);
    }
  }

  /** Both ways: a text expands exactly when it is of one of the two forms. */
  lemma ExpandsExactly(s: string, tail: seq<Group>, gs: seq<Group>)
    ensures Expand(s, tail) == Some(gs) <==> IsForm(s, tail, gs)
  {
    if Expand(s, tail) == Some(gs) {
      ExpandedIsForm(s, tail, gs);
    }
    if IsForm(s, tail, gs) {
      if head :| IsPlain(s, tail, gs, head) {
        PlainExpands(s, tail, gs, head);
      } else {
        var head, back :| IsCompressed(s, tail, gs, head, back);
        CompressedExpands(s, tail, gs, head, back);
      }
    }
  }

  // ---------------------------------------------------------------------------
  // With a dotted tail
  // ---------------------------------------------------------------------------

  predicate EndsInColon(s: string) {
    s != "" && s[|s| - 1] == ':'
  }

  predicate KeepsItsEnd(s: string) {
    '.' !in s && DropTrailingColon(s) == s && (!EndsInColon(s) ==> DropTrailingColon(s + ":") == s)
  }

  lemma PlainHas(head: seq<string>)
    requires AreGroups(head)
    ensures KeepsItsEnd(Join(head, ':'))
  {
    JoinedHasNoGap(head);
    OneColonDrops(Join(head, ':'));
  }

  lemma CompressedHas(h: string, b: string)
    requires NoGap(h) && NoGap(b) && '.' !in h && '.' !in b
    ensures KeepsItsEnd(h + "::" + b)
  {
    var s := h + "::" + b;
    assert s[|s| - 1] == if b == "" then ':' else b[|b| - 1];
    assert b == "" ==> s[|s| - 2] == ':';
    assert (s + ":")[..|s|] == s;
  }

  /** No form holds a dot, and none ends in a single colon. */
  lemma FormHas(s: string, tail: seq<Group>, gs: seq<Group>)
    requires IsForm(s, tail, gs)
    ensures KeepsItsEnd(s)
  {
    if head :| IsPlain(s, tail, gs, head) {
      PlainHas(head);
    } else {
      var head, back :| IsCompressed(s, tail, gs, head, back);
      JoinedHasNoGap(head);
      JoinedHasNoGap(back);
      CompressedHas(Join(head, ':'), Join(back, ':'));
    }
  }

  /** A form, a colon or two, a dotted tail; two only where the form does not end in `::` itself. */
  ghost predicate IsMixed(s: string, gs: seq<Group>, front: string, dotted: string) {
    && Ipv4ToInt(dotted).Some? && Ipv4ToInt(dotted).value < TWO_TO_32
    && IsForm(front, TailGroups(Ipv4ToInt(dotted).value), gs)
    && (s == front + ":" + dotted || (s == front + "::" + dotted && !EndsInColon(front)))
  }

  lemma {:induction false} NoColonAfter(s: string, k: nat)
    requires LastColon(s) < k < |s|
    ensures s[k] != ':'
  {
    if k < |s| - 1 {
      NoColonAfter(s[..|s| - 1], k);
    }
  }

  lemma {:induction false} LastColonHolds(s: string)
    requires LastColon(s) >= 0
    ensures s[LastColon(s)] == ':'
  {
    if s[|s| - 1] != ':' {
      LastColonHolds(s[..|s| - 1]);
    }
  }

  lemma LastColonCuts(s: string, i: int)
    requires i == LastColon(s)
    ensures ':' !in s[i + 1..] && (i >= 0 ==> s[i] == ':')
  {
    if i >= 0 {
      LastColonHolds(s);
    }
    forall k | i < k < |s| ensures s[k] != ':' {
      NoColonAfter(s, k);
    }
  }

  lemma {:induction false} DigitsHave(part: string, x: char)
    requires AllDigits(part) && !IsDigit(x)
    ensures x !in part
  {
    if part != "" {
      DigitsHave(part[..|part| - 1], x);
      assert part == part[..|part| - 1] + [part[|part| - 1]];
    }
  }

  lemma OctetHas(part: string)
    requires Octet(part).Some?
    ensures part != "" && ':' !in part
  {
    DigitsHave(part, ':');
  }

  /** A dotted quad has no colon, and a dot before its last character. */
  lemma QuadHas(t: string)
    requires Ipv4ToInt(t).Some?
    ensures ':' !in t && t != "" && '.' in t[..|t| - 1] && '.' in t
  {
    Ipv4OnlyQuads(t);
    var p, q, r, w :| t == Join([p, q, r, w], '.')
                      && Octet(p).Some? && Octet(q).Some? && Octet(r).Some? && Octet(w).Some?
                      && Ipv4ToInt(t).value == Quad(Octet(p).value, Octet(q).value, Octet(r).value, Octet(w).value);
    OctetHas(p);
    OctetHas(q);
    OctetHas(r);
    OctetHas(w);
    FourJoined(p, q, r, w);
    FourHas(p, q, r, w);
  }

  lemma FourHas(p: string, q: string, r: string, w: string)
    requires ':' !in p && ':' !in q && ':' !in r && ':' !in w && w != ""
    ensures var t := p + "." + q + "." + r + "." + w; ':' !in t && t != "" && '.' in t[..|t| - 1] && '.' in t
  {
    var t := p + "." + q + "." + r + "." + w;
    assert t[..|t| - 1][|p|] == '.';
    assert t[|p|] == '.';
  }

  lemma FourJoined(p: string, q: string, r: string, w: string)
    ensures Join([p, q, r, w], '.') == p + "." + q + "." + r + "." + w
  {
    assert [p, q, r, w][1..] == [q, r, w] && [q, r, w][1..] == [r, w] && [r, w][1..] == [w];
    assert Join([r, w], '.') == r + ['.'] + w;
    assert Join([q, r, w], '.') == q + ['.'] + (r + ['.'] + w);
  }

  lemma DotsNever(f: string, tail: seq<Group>)
    requires '.' in f
    ensures Expand(f, tail).None?
  {
    if Expand(f, tail).Some? {
      ExpandsExactly(f, tail, Expand(f, tail).value);
      FormHas(f, tail, Expand(f, tail).value);
    }
  }

  /** A dotted text without any colon is never expanded. */
  lemma ColonNeeded(s: string)
    requires '.' in s && LastColon(s) == -1
    ensures ExpandGroups(s).None?
  {
    assert s[0..] == s;
    if Ipv4ToInt(s).Some? {
      QuadHas(s);
      Ipv4Bound(s);
      DotsNever(s[..|s| - 1], TailGroups(Ipv4ToInt(s).value));
      assert ':' !in s[..|s| - 1];
    }
  }

  lemma DroppedFront(front: string, dotted: string)
    ensures var f := DropTrailingColon(front);
            front + ":" + dotted == f + ":" + dotted || (front + ":" + dotted == f + "::" + dotted && !EndsInColon(f))
  {
    var f := DropTrailingColon(front);
    if f != front {
      assert front == f + ":";
      assert f + ":" + ":" + dotted == f + "::" + dotted;
    }
  }

  lemma MixedFrom(front: string, dotted: string, gs: seq<Group>)
    requires ExpandMixed(front, dotted) == Some(gs)
    ensures IsMixed(front + ":" + dotted, gs, DropTrailingColon(front), dotted)
  {
    Ipv4Bound(dotted);
    ExpandsExactly(DropTrailingColon(front), TailGroups(Ipv4ToInt(dotted).value), gs);
    DroppedFront(front, dotted);
  }

  lemma CutAtColon(s: string, i: nat)
    requires i < |s| && s[i] == ':'
    ensures s == s[..i] + ":" + s[i + 1..]
  {
  }

  lemma MixedOnly(s: string, gs: seq<Group>)
    requires '.' in s && ExpandGroups(s) == Some(gs)
    ensures exists front, dotted :: IsMixed(s, gs, front, dotted)
  {
    var idx := LastColon(s);
    LastColonCuts(s, idx);
    if idx >= 0 {
      CutAtColon(s, idx);
      MixedFrom(s[..idx], s[idx + 1..], gs);
    } else {
      ColonNeeded(s);
    }
  }

  lemma MixedExpands(s: string, gs: seq<Group>, front: string, dotted: string)
    requires IsMixed(s, gs, front, dotted)
    ensures '.' in s && ExpandGroups(s) == Some(gs)
  {
    var tail := TailGroups(Ipv4ToInt(dotted).value);
    QuadHas(dotted);
    FormHas(front, tail, gs);
    ExpandsExactly(front, tail, gs);
    if s == front + ":" + dotted {
      ColonSplitsOff(front, dotted);
    } else {
      assert s == (front + ":") + ":" + dotted;
      ColonSplitsOff(front + ":", dotted);
    }
    assert s[|s| - |dotted|..] == dotted;
  }

  /**
   * Exactly these texts are accepted, with exactly these groups: a form of eight groups, or a form of six
   * and a dotted quad. The `::` directly before a dotted quad counts for one colon, so `x::d.d.d.d` is
   * refused (short of six groups) while a second `::` there is let through.
   */
  lemma Ipv6ReadsExactly(s: string, gs: seq<Group>)
    ensures ExpandGroups(s) == Some(gs)
       <==> IsForm(s, [], gs) || exists front, dotted :: IsMixed(s, gs, front, dotted)
  {
    ExpandsExactly(s, [], gs);
    if IsForm(s, [], gs) {
      FormHas(s, [], gs);
    }
    if '.' in s && ExpandGroups(s) == Some(gs) {
      MixedOnly(s, gs);
    }
    if front, dotted :| IsMixed(s, gs, front, dotted) {
      MixedExpands(s, gs, front, dotted);
    }
  }
}
