/** How the migration turns a file stem into a rule id. */
module RuleIds {
  import opened Base
  import opened Rules

  /** `s.replace(/p+/g, '-')`: every maximal run becomes one hyphen. */
  function HyphenateRuns(s: string, p: char -> bool): string
    decreases |s|
  {
    if s == "" then ""
    else if p(s[0]) then "-" + HyphenateRuns(SkipRun(s[1..], p), p)
    else [s[0]] + HyphenateRuns(s[1..], p)
  }

  function SkipRun(s: string, p: char -> bool): (r: string)
    ensures |r| <= |s|
    ensures r != "" ==> !p(r[0])
    ensures forall c | c in r :: c in s
  {
    if s != "" && p(s[0]) then SkipRun(s[1..], p) else s
  }

  predicate IsSeparator(c: char) {
    c == '_' || c == '.' || IsSpace(c)
  }

  predicate IsIdChar(c: char) {
    IsLowerOrDigit(c) || c == '-'
  }

  predicate IsHyphen(c: char) {
    c == '-'
  }

  function KeepIdChars(s: string): string {
    if s == "" then "" else (if IsIdChar(s[0]) then [s[0]] else "") + KeepIdChars(s[1..])
  }

  function TrimLeading(s: string): string {
    if s != "" && s[0] == '-' then TrimLeading(s[1..]) else s
  }

  function TrimTrailing(s: string): string {
    if s != "" && s[|s| - 1] == '-' then TrimTrailing(s[..|s| - 1]) else s
  }

  /** `stemToRuleId`; `lower` is `toLowerCase`. */
  function StemToRuleId(stem: string, lower: string -> string): Option<RuleId> {
    var hyphenated := HyphenateRuns(lower(stem), IsSeparator);
    var collapsed := HyphenateRuns(KeepIdChars(hyphenated), IsHyphen);
    var id := TrimTrailing(TrimLeading(collapsed));
    if IsRuleId(id) then Some(id) else None
  }

  /** No two hyphens in a row. */
  predicate NoDoubleHyphen(s: string) {
    forall i | 0 < i < |s| :: !(s[i - 1] == '-' && s[i] == '-')
  }

  lemma {:induction false} CollapseHasNoDouble(s: string)
    ensures NoDoubleHyphen(HyphenateRuns(s, IsHyphen))
    ensures s != "" && s[0] != '-' ==> HyphenateRuns(s, IsHyphen) != "" && HyphenateRuns(s, IsHyphen)[0] == s[0]
    ensures HyphenateRuns(s, IsHyphen) == "" ==> s == ""
    decreases |s|
  {
    if s != "" {
      var tail := if s[0] == '-' then SkipRun(s[1..], IsHyphen) else s[1..];
      CollapseHasNoDouble(tail);
      var rest := HyphenateRuns(tail, IsHyphen);
      assert HyphenateRuns(s, IsHyphen) == [s[0]] + rest;
      assert forall i | 1 < i < |rest| + 1 :: ([s[0]] + rest)[i] == rest[i - 1];
      if s[0] == '-' && tail != "" {
        assert rest[0] == tail[0] != '-';
      }
    }
  }

  lemma {:induction false} CollapseIsIdentity(s: string)
    requires NoDoubleHyphen(s)
    ensures HyphenateRuns(s, IsHyphen) == s
  {
    if s != "" {
      assert forall i | 0 < i < |s[1..]| :: s[1..][i - 1] == s[i] && s[1..][i] == s[i + 1];
      CollapseIsIdentity(s[1..]);
      if |s| > 1 {
        assert !(s[1 - 1] == '-' && s[1] == '-');
      }
      assert s == [s[0]] + s[1..];
    }
  }

  lemma {:induction false} PlainIsKept(s: string)
    requires forall c | c in s :: IsIdChar(c)
    ensures HyphenateRuns(s, IsSeparator) == s && KeepIdChars(s) == s
  {
    if s != "" {
      assert s[0] in s;
      IdCharsAreNoSeparators(s[0]);
      PlainIsKept(s[1..]);
      assert s == [s[0]] + s[1..];
    }
  }

  lemma IdCharsAreNoSeparators(c: char)
    requires IsIdChar(c)
    ensures !IsSeparator(c)
  {
  }

  lemma {:induction false} TrimKeepsNoDouble(s: string)
    requires NoDoubleHyphen(s)
    ensures NoDoubleHyphen(TrimTrailing(TrimLeading(s)))
  {
    TrimLeadingKeeps(s);
    TrimTrailingKeeps(TrimLeading(s));
  }

  lemma {:induction false} TrimLeadingKeeps(s: string)
    requires NoDoubleHyphen(s)
    ensures NoDoubleHyphen(TrimLeading(s))
  {
    if s != "" && s[0] == '-' {
      assert forall i | 0 < i < |s[1..]| :: s[1..][i - 1] == s[i] && s[1..][i] == s[i + 1];
      TrimLeadingKeeps(s[1..]);
    }
  }

  lemma {:induction false} TrimTrailingKeeps(s: string)
    requires NoDoubleHyphen(s)
    ensures NoDoubleHyphen(TrimTrailing(s))
  {
    if s != "" && s[|s| - 1] == '-' {
      TrimTrailingKeeps(s[..|s| - 1]);
    }
  }

  /** A derived id is a well-formed rule id without doubled hyphens. */
  lemma DerivedIdIsClean(stem: string, lower: string -> string)
    requires StemToRuleId(stem, lower).Some?
    ensures IsRuleId(StemToRuleId(stem, lower).value) && NoDoubleHyphen(StemToRuleId(stem, lower).value)
  {
    var kept := KeepIdChars(HyphenateRuns(lower(stem), IsSeparator));
    CollapseHasNoDouble(kept);
    TrimKeepsNoDouble(HyphenateRuns(kept, IsHyphen));
  }

  /** The stems that are their own id: the rule ids in lower case without doubled hyphens. */
  lemma OwnId(stem: string, lower: string -> string)
    requires IsRuleId(stem) ==> lower(stem) == stem
    ensures StemToRuleId(stem, lower) == Some(stem) <==> IsRuleId(stem) && NoDoubleHyphen(stem)
  {
    if StemToRuleId(stem, lower) == Some(stem) {
      DerivedIdIsClean(stem, lower);
    }
    if IsRuleId(stem) && NoDoubleHyphen(stem) {
      IdIsPlain(stem);
      PlainIsKept(stem);
      CollapseIsIdentity(stem);
    }
  }

  lemma IdIsPlain(id: string)
    requires IsRuleId(id)
    ensures forall c | c in id :: IsIdChar(c)
    ensures TrimLeading(id) == id && TrimTrailing(id) == id
  {
    forall c | c in id ensures IsIdChar(c) {
      var i :| 0 <= i < |id| && id[i] == c;
    }
  }

  /** Deriving an id from a derived id gives it back. */
  lemma DerivingAgain(stem: string, lower: string -> string)
    requires StemToRuleId(stem, lower).Some?
    requires forall id | IsRuleId(id) :: lower(id) == id
    ensures StemToRuleId(StemToRuleId(stem, lower).value, lower) == StemToRuleId(stem, lower)
  {
    DerivedIdIsClean(stem, lower);
    OwnId(StemToRuleId(stem, lower).value, lower);
  }

  // ---------------------------------------------------------------------------
  // The derived id in one pass
  // ---------------------------------------------------------------------------

  /**
   * The letters and digits of a text in their order, with one hyphen between two of them exactly when a separator or
   * a hyphen stands in between; `pending` says that one was passed, `started` that a character was given out.
   */
  function Words(s: string, pending: bool, started: bool): string {
    if s == "" then ""
    else if IsLowerOrDigit(s[0]) then (if pending && started then "-" else "") + [s[0]] + Words(s[1..], false, true)
    else Words(s[1..], pending || s[0] == '-' || IsSeparator(s[0]), started)
  }

  predicate AllIdChars(s: string) {
    forall i | 0 <= i < |s| :: IsIdChar(s[i])
  }

  predicate NoSeparator(s: string) {
    forall i | 0 <= i < |s| :: !IsSeparator(s[i])
  }

  /** A class of characters that only part words. */
  ghost predicate Parts(p: char -> bool) {
    forall c | p(c) :: (c == '-' || IsSeparator(c)) && !IsLowerOrDigit(c)
  }

  lemma {:induction false} SkippedRun(s: string, p: char -> bool, started: bool)
    requires Parts(p)
    ensures Words(SkipRun(s, p), true, started) == Words(s, true, started)
  {
    if s != "" && p(s[0]) {
      SkippedRun(s[1..], p, started);
    }
  }

  /** Turning runs of separators into hyphens leaves the words. */
  lemma {:induction false} RunsPart(s: string, p: char -> bool, pending: bool, started: bool)
    requires Parts(p)
    ensures Words(HyphenateRuns(s, p), pending, started) == Words(s, pending, started)
    decreases |s|
  {
    if s != "" {
      if p(s[0]) {
        var rest := HyphenateRuns(SkipRun(s[1..], p), p);
        RunsPart(SkipRun(s[1..], p), p, true, started);
        SkippedRun(s[1..], p, started);
        assert ("-" + rest)[1..] == rest;
      } else {
        var rest := HyphenateRuns(s[1..], p);
        assert ([s[0]] + rest)[1..] == rest;
        if IsLowerOrDigit(s[0]) {
          RunsPart(s[1..], p, false, true);
        } else {
          RunsPart(s[1..], p, pending || s[0] == '-' || IsSeparator(s[0]), started);
        }
      }
    }
  }

  lemma {:induction false} HyphenatedHas(s: string)
    ensures NoSeparator(HyphenateRuns(s, IsSeparator))
    decreases |s|
  {
    if s != "" {
      HyphenatedHas(if IsSeparator(s[0]) then SkipRun(s[1..], IsSeparator) else s[1..]);
    }
  }

  /** Dropping everything but letters, digits and hyphens leaves the words, once no separator is left. */
  lemma {:induction false} KeepingParts(s: string, pending: bool, started: bool)
    requires NoSeparator(s)
    ensures Words(KeepIdChars(s), pending, started) == Words(s, pending, started)
  {
    if s != "" {
      var rest := KeepIdChars(s[1..]);
      assert ([s[0]] + rest)[1..] == rest;
      assert !IsSeparator(s[0]);
      if IsLowerOrDigit(s[0]) {
        KeepingParts(s[1..], false, true);
      } else {
        KeepingParts(s[1..], pending || s[0] == '-', started);
        assert "" + rest == rest;
      }
    }
  }

  lemma {:induction false} KeptAreIdChars(s: string)
    ensures AllIdChars(KeepIdChars(s))
  {
    if s != "" {
      KeptAreIdChars(s[1..]);
    }
  }

  lemma {:induction false} CollapsedAreIdChars(s: string)
    requires AllIdChars(s)
    ensures AllIdChars(HyphenateRuns(s, IsHyphen))
    decreases |s|
  {
    if s != "" {
      var tail := if IsHyphen(s[0]) then SkipRun(s[1..], IsHyphen) else s[1..];
      SkippedAreIdChars(s[1..]);
      CollapsedAreIdChars(tail);
      assert IsIdChar(s[0]);
    }
  }

  lemma {:induction false} SkippedAreIdChars(s: string)
    requires AllIdChars(s)
    ensures AllIdChars(SkipRun(s, IsHyphen))
  {
    if s != "" && IsHyphen(s[0]) {
      SkippedAreIdChars(s[1..]);
    }
  }

  lemma {:induction false} TrimTrailingFront(x: string, t: string)
    requires x != "" && x[|x| - 1] != '-'
    ensures TrimTrailing(x + t) == x + TrimTrailing(t)
  {
    if t == "" {
      assert x + t == x;
    } else if t[|t| - 1] == '-' {
      assert (x + t)[..|x + t| - 1] == x + t[..|t| - 1];
      TrimTrailingFront(x, t[..|t| - 1]);
    }
  }

  lemma TailKeeps(s: string, k: nat)
    requires k <= |s| && NoDoubleHyphen(s) && AllIdChars(s)
    ensures NoDoubleHyphen(s[k..]) && AllIdChars(s[k..])
  {
    var t := s[k..];
    forall i | 0 < i < |t| ensures !(t[i - 1] == '-' && t[i] == '-') {
      assert !(s[k + i - 1] == '-' && s[k + i] == '-');
    }
  }

  /** Inside a word list, trimming at the end is all that is left to do. */
  lemma {:induction false} WordsAreTrimmed(s: string)
    requires NoDoubleHyphen(s) && AllIdChars(s)
    ensures Words(s, false, true) == TrimTrailing(s)
    decreases |s|
  {
    if s != "" {
      assert IsIdChar(s[0]);
      if s[0] != '-' {
        TailKeeps(s, 1);
        WordsAreTrimmed(s[1..]);
        TrimTrailingFront([s[0]], s[1..]);
        assert s == [s[0]] + s[1..];
      } else if |s| == 1 {
        assert s == "-" && s[1..] == "" && s[..0] == "";
      } else {
        assert !(s[1 - 1] == '-' && s[1] == '-') && IsIdChar(s[1]);
        TailKeeps(s, 2);
        WordsAreTrimmed(s[2..]);
        TrimTrailingFront([s[0], s[1]], s[2..]);
        assert s == [s[0], s[1]] + s[2..] && s[1..][1..] == s[2..];
        assert "-" + [s[1]] == [s[0], s[1]];
      }
    }
  }

  lemma {:induction false} LeadingIsNothing(s: string, pending: bool)
    requires NoDoubleHyphen(s) && AllIdChars(s)
    ensures Words(s, pending, false) == TrimTrailing(TrimLeading(s))
  {
    if s != "" {
      assert IsIdChar(s[0]);
      TailKeeps(s, 1);
      if s[0] == '-' {
        LeadingIsNothing(s[1..], true);
      } else {
        WordsAreTrimmed(s[1..]);
        TrimTrailingFront([s[0]], s[1..]);
        assert s == [s[0]] + s[1..];
        assert "" + [s[0]] == [s[0]];
      }
    }
  }

  /**
   * What the five replacements come to: the words of the lower-cased stem with one hyphen between two of them, if
   * that is a rule id.
   */
  lemma DerivedExactly(stem: string, lower: string -> string)
    ensures StemToRuleId(stem, lower)
         == if IsRuleId(Words(lower(stem), false, false)) then Some(Words(lower(stem), false, false)) else None
  {
    var hyphenated := HyphenateRuns(lower(stem), IsSeparator);
    var kept := KeepIdChars(hyphenated);
    var collapsed := HyphenateRuns(kept, IsHyphen);
    RunsPart(lower(stem), IsSeparator, false, false);
    HyphenatedHas(lower(stem));
    KeepingParts(hyphenated, false, false);
    RunsPart(kept, IsHyphen, false, false);
    KeptAreIdChars(hyphenated);
    CollapsedAreIdChars(kept);
    CollapseHasNoDouble(kept);
    LeadingIsNothing(collapsed, false);
  }
}
