/** Rule files: printing, parsing, upserting, and the migration that seeds them from notes. */
module Rules {
  import opened Base

  type RuleId = string

  datatype Severity = Hard | Soft

  datatype Frontmatter = Frontmatter(
    id: RuleId,
    title: string,
    tags: seq<string>,
    appliesTo: seq<string>,
    severity: Severity,
    createdAt: string,
    updatedAt: string,
    createdBy: string)

  datatype Rule = Rule(frontmatter: Frontmatter, body: string)

  /** The YAML library together with the schema check, left abstract. */
  datatype Yaml = Yaml(emit: Frontmatter -> string, parse: string -> Option<Frontmatter>, valid: Frontmatter -> bool)

  const DELIMITER := "---"

  /** Index of the first `\n---`. */
  function ClosingAt(s: string): (r: Option<nat>)
    ensures r.Some? ==> r.value + 4 <= |s| && s[r.value..r.value + 4] == "\n---"
  {
    if |s| < 4 then None
    else if s[..4] == "\n---" then Some(0)
    else
      match ClosingAt(s[1..])
      case None => None
      case Some(i) => Some(i + 1)
  }

  /** What is relied on of the YAML library: blocks end in a newline, hide no delimiter, and read back exactly. */
  ghost predicate IsSound(y: Yaml) {
    forall fm | y.valid(fm) ::
      var t := y.emit(fm);
      && t != "" && t[|t| - 1] == '\n'
      && ClosingAt(t[..|t| - 1]).None?
      && y.parse(t[..|t| - 1]) == Some(fm)
  }

  datatype ParseError = NoOpening | NoClosing | BadFrontmatter

  function DropNewline(s: string): string {
    if s != "" && s[0] == '\n' then s[1..] else s
  }

  function ParseRuleFile(raw: string, y: Yaml): Result<Rule, ParseError> {
    if !(DELIMITER + "\n" <= raw) then Err(NoOpening)
    else
      var rest := raw[4..];
      match ClosingAt(rest)
      case None => Err(NoClosing)
      case Some(i) =>
        match y.parse(rest[..i])
        case None => Err(BadFrontmatter)
        case Some(fm) => Ok(Rule(fm, DropNewline(rest[i + 4..])))
  }

  function WithNewline(body: string): string {
    if body != "" && body[|body| - 1] == '\n' then body else body + "\n"
  }

  function SerializeRuleFile(rule: Rule, y: Yaml): Option<string> {
    if !y.valid(rule.frontmatter) then None
    else Some(DELIMITER + "\n" + y.emit(rule.frontmatter) + DELIMITER + "\n" + WithNewline(rule.body))
  }

  /** The first delimiter of a block followed by a delimiter line is that line. */
  lemma {:induction false} ClosingFound(block: string, after: string)
    requires ClosingAt(block).None?
    ensures ClosingAt(block + "\n---" + after) == Some(|block|)
  {
    var s := block + "\n---" + after;
    if block == "" {
      assert s[..4] == "\n---";
    } else {
      assert s[1..] == block[1..] + "\n---" + after;
      assert s[..4] != "\n---" by {
        NotYet(block, after);
      }
      ClosingTail(block);
      ClosingFound(block[1..], after);
    }
  }

  lemma ClosingTail(block: string)
    requires block != "" && ClosingAt(block).None?
    ensures ClosingAt(block[1..]).None?
  {
  }

  /** No delimiter starts inside the block and ends beyond it. */
  lemma NotYet(block: string, after: string)
    requires block != "" && ClosingAt(block).None?
    ensures (block + "\n---" + after)[..4] != "\n---"
  {
    var s := block + "\n---" + after;
    if |block| >= 4 {
      assert s[..4] == block[..4];
    } else {
      assert s[|block|] == '\n' && s[..4][|block|] == '\n';
    }
  }

  /**
   * Printing and parsing a rule gives back the frontmatter and the body with at most one newline added,
   * whatever delimiter lines the body contains.
   */
  lemma RuleRoundTrip(rule: Rule, y: Yaml)
    requires IsSound(y)
    ensures SerializeRuleFile(rule, y).Some? <==> y.valid(rule.frontmatter)
    ensures y.valid(rule.frontmatter) ==>
              ParseRuleFile(SerializeRuleFile(rule, y).value, y) == Ok(Rule(rule.frontmatter, WithNewline(rule.body)))
  {
    if y.valid(rule.frontmatter) {
      var t := y.emit(rule.frontmatter);
      var block := t[..|t| - 1];
      var after := "\n" + WithNewline(rule.body);
      FileText(t, WithNewline(rule.body));
      ClosingFound(block, after);
      BlockCuts(block, after);
      assert DropNewline(after) == WithNewline(rule.body);
    }
  }

  lemma BlockCuts(block: string, after: string)
    ensures (block + "\n---" + after)[..|block|] == block && (block + "\n---" + after)[|block| + 4..] == after
  {
  }

  lemma FileText(t: string, body: string)
    requires t != "" && t[|t| - 1] == '\n'
    ensures DELIMITER + "\n" <= DELIMITER + "\n" + t + DELIMITER + "\n" + body
    ensures (DELIMITER + "\n" + t + DELIMITER + "\n" + body)[4..] == t[..|t| - 1] + "\n---" + ("\n" + body)
  {
  }

  // ---------------------------------------------------------------------------
  // The rule store
  // ---------------------------------------------------------------------------

  /** `/^[a-z][a-z0-9-]{1,62}[a-z0-9]$/`. */
  predicate IsRuleId(id: string) {
    && 3 <= |id| <= 64
    && 'a' <= id[0] <= 'z'
    && IsLowerOrDigit(id[|id| - 1])
    && forall i | 0 < i < |id| - 1 :: IsLowerOrDigit(id[i]) || id[i] == '-'
  }

  predicate IsLowerOrDigit(c: char) {
    'a' <= c <= 'z' || '0' <= c <= '9'
  }

  type RuleFiles = map<RuleId, string>

  datatype StoreError = InvalidId | Unreadable(error: ParseError) | InvalidRule

  datatype UpsertInput = UpsertInput(
    ruleId: RuleId,
    title: string,
    body: string,
    tags: Option<seq<string>>,
    appliesTo: Option<seq<string>>,
    severity: Option<Severity>,
    createdBy: string)

  function OrElse<T>(o: Option<T>, default: T): T {
    if o.Some? then o.value else default
  }

  function LoadRule(files: RuleFiles, id: RuleId, y: Yaml): Result<Option<Rule>, StoreError> {
    if !IsRuleId(id) then Err(InvalidId)
    else if id !in files then Ok(None)
    else
      match ParseRuleFile(files[id], y)
      case Ok(rule) => Ok(Some(rule))
      case Err(e) => Err(Unreadable(e))
  }

  /** The frontmatter an upsert writes: creation facts and unspecified fields are kept from the existing rule. */
  function Candidate(input: UpsertInput, existing: Option<Rule>, now: string): Frontmatter {
    match existing
    case None =>
      Frontmatter(input.ruleId, input.title, OrElse(input.tags, []), OrElse(input.appliesTo, []),
                  OrElse(input.severity, Hard), now, now, input.createdBy)
    case Some(rule) =>
      Frontmatter(input.ruleId, input.title, OrElse(input.tags, rule.frontmatter.tags),
                  OrElse(input.appliesTo, rule.frontmatter.appliesTo), OrElse(input.severity, rule.frontmatter.severity),
                  rule.frontmatter.createdAt, now, rule.frontmatter.createdBy)
  }

  function Upserted(files: RuleFiles, input: UpsertInput, now: string, y: Yaml): Result<RuleFiles, StoreError> {
    match LoadRule(files, input.ruleId, y)
    case Err(e) => Err(e)
    case Ok(existing) =>
      match SerializeRuleFile(Rule(Candidate(input, existing, now), input.body), y)
      case None => Err(InvalidRule)
      case Some(text) => Ok(files[input.ruleId := text])
  }

  /** The rule files of one namespace. */
  class RuleStore {
    var files: RuleFiles

    constructor (onDisk: RuleFiles)
      ensures files == onDisk
    {
      files := onDisk;
    }

    /** `upsertRule` under the namespace's lock: on any error nothing is written. */
    method UpsertRule(input: UpsertInput, now: string, y: Yaml) returns (r: Result<Rule, StoreError>)
      modifies this
      ensures r.Ok? <==> Upserted(old(files), input, now, y).Ok?
      ensures r.Ok? ==> Upserted(old(files), input, now, y) == Ok(files)
      ensures r.Ok? && IsSound(y) ==>
                LoadRule(files, input.ruleId, y) == Ok(Some(r.value.(body := WithNewline(r.value.body))))
                && r.value.body == input.body
      ensures r.Err? ==> files == old(files) && Upserted(files, input, now, y) == Err(r.error)
    {
      var loaded := LoadRule(files, input.ruleId, y);
      if loaded.Err? {
        return Err(loaded.error);
      }
      var rule := Rule(Candidate(input, loaded.value, now), input.body);
      var serialized := SerializeRuleFile(rule, y);
      if serialized.None? {
        return Err(InvalidRule);
      }
      if IsSound(y) {
        RuleRoundTrip(rule, y);
      }
      files := files[input.ruleId := serialized.value];
      return Ok(rule);
    }
  }

  /** What an upsert may not change: who created the rule and when, and the fields it does not mention. */
  predicate Carries(fm: Frontmatter, input: UpsertInput, existing: Option<Rule>, now: string) {
    && fm.id == input.ruleId && fm.title == input.title && fm.updatedAt == now
    && (input.tags.Some? ==> fm.tags == input.tags.value)
    && (input.appliesTo.Some? ==> fm.appliesTo == input.appliesTo.value)
    && (input.severity.Some? ==> fm.severity == input.severity.value)
    && (existing.None? ==>
          && fm.createdAt == now && fm.createdBy == input.createdBy
          && (input.tags.None? ==> fm.tags == []) && (input.appliesTo.None? ==> fm.appliesTo == [])
          && (input.severity.None? ==> fm.severity == Hard))
    && (existing.Some? ==>
          && fm.createdAt == existing.value.frontmatter.createdAt && fm.createdBy == existing.value.frontmatter.createdBy
          && (input.tags.None? ==> fm.tags == existing.value.frontmatter.tags)
          && (input.appliesTo.None? ==> fm.appliesTo == existing.value.frontmatter.appliesTo)
          && (input.severity.None? ==> fm.severity == existing.value.frontmatter.severity))
  }

  /** After an upsert the rule loads with what was asked for and what it carried before, and no other rule has changed. */
  lemma UpsertThenLoad(files: RuleFiles, input: UpsertInput, now: string, y: Yaml)
    requires IsSound(y) && Upserted(files, input, now, y).Ok?
    ensures var after := Upserted(files, input, now, y).value;
      && (exists fm :: LoadRule(after, input.ruleId, y) == Ok(Some(Rule(fm, WithNewline(input.body))))
                       && Carries(fm, input, LoadRule(files, input.ruleId, y).value, now))
      && after - {input.ruleId} == files - {input.ruleId}
  {
    var existing := LoadRule(files, input.ruleId, y).value;
    var fm := Candidate(input, existing, now);
    RuleRoundTrip(Rule(fm, input.body), y);
    assert LoadRule(Upserted(files, input, now, y).value, input.ruleId, y)
        == Ok(Some(Rule(fm, WithNewline(input.body))));
    assert Carries(fm, input, existing, now);
  }

  // ---------------------------------------------------------------------------
  // Reading the notes to migrate
  // ---------------------------------------------------------------------------

  /** The white space and line terminators of ECMAScript. */
  predicate IsSpace(c: char) {
    || c == '\t' || c == '\n' || c == '\U{0B}' || c == '\U{0C}' || c == '\r' || c == ' '
    || c == '\U{A0}' || c == '\U{1680}' || '\U{2000}' <= c <= '\U{200A}' || c == '\U{2028}' || c == '\U{2029}'
    || c == '\U{202F}' || c == '\U{205F}' || c == '\U{3000}' || c == '\U{FEFF}'
  }

  function TrimEnd(s: string): string {
    if s == "" || !IsSpace(s[|s| - 1]) then s else TrimEnd(s[..|s| - 1])
  }

  function TrimStart(s: string): string {
    if s == "" || !IsSpace(s[0]) then s else TrimStart(s[1..])
  }

  function Trim(s: string): string {
    TrimEnd(TrimStart(s))
  }

  /** The fields of a note's frontmatter that are of the type looked for. */
  datatype RawFrontmatter = RawFrontmatter(title: Option<string>, name: Option<string>, tags: Option<seq<string>>, isSoft: bool)

  const NO_FRONTMATTER := RawFrontmatter(None, None, None, false)

  /** The YAML library on notes (None: unparseable or not an object), and how a file stem becomes an id and a title. */
  datatype Notes = Notes(
    parse: string -> Option<RawFrontmatter>,
    ruleIdOf: string -> Option<RuleId>,
    titleOf: string -> string)

  function ParseSourceFile(raw: string, n: Notes): (RawFrontmatter, string) {
    if !(DELIMITER + "\n" <= raw) then (NO_FRONTMATTER, raw)
    else
      var rest := raw[4..];
      match ClosingAt(rest)
      case None => (NO_FRONTMATTER, raw)
      case Some(i) =>
        match n.parse(rest[..i])
        case None => (NO_FRONTMATTER, raw)
        case Some(fm) => (fm, DropNewline(rest[i + 4..]))
  }

  datatype Content = Content(title: string, body: string, tags: seq<string>, severity: Severity)

  function Incoming(stem: string, raw: string, n: Notes): Content {
    var (fm, body) := ParseSourceFile(raw, n);
    Content(if fm.title.Some? && Trim(fm.title.value) != "" then Trim(fm.title.value)
            else if fm.name.Some? && Trim(fm.name.value) != "" then Trim(fm.name.value)
            else n.titleOf(stem),
            body,
            OrElse(fm.tags, []),
            if fm.isSoft then Soft else Hard)
  }

  function ContentOf(rule: Rule): Content {
    Content(rule.frontmatter.title, rule.body, rule.frontmatter.tags, rule.frontmatter.severity)
  }

  predicate IsSameContent(a: Content, b: Content) {
    && a.title == b.title
    && TrimEnd(a.body) == TrimEnd(b.body)
    && a.severity == b.severity
    && |a.tags| == |b.tags|
    && forall i | 0 <= i < |a.tags| :: a.tags[i] == b.tags[i]
  }

  // ---------------------------------------------------------------------------
  // What a note says, and when two rules say the same
  // ---------------------------------------------------------------------------

  predicate AllSpace(s: string) {
    forall i | 0 <= i < |s| :: IsSpace(s[i])
  }

  /** Trimming at the end takes off the white space there, and nothing else. */
  lemma {:induction false} TrimEndIs(s: string) returns (k: nat)
    ensures k <= |s| && TrimEnd(s) == s[..k] && AllSpace(s[k..]) && (k == 0 || !IsSpace(s[k - 1]))
  {
    k := |s|;
    if s != "" && IsSpace(s[|s| - 1]) {
      k := TrimEndIs(s[..|s| - 1]);
      assert s[..|s| - 1][..k] == s[..k];
      assert s[k..] == s[..|s| - 1][k..] + [s[|s| - 1]];
    }
  }

  lemma {:induction false} TrimStartIs(s: string) returns (k: nat)
    ensures k <= |s| && TrimStart(s) == s[k..] && AllSpace(s[..k]) && (k == |s| || !IsSpace(s[k]))
  {
    k := 0;
    if s != "" && IsSpace(s[0]) {
      var rest := s[1..];
      k := TrimStartIs(rest);
      assert rest[k..] == s[k + 1..];
      assert s[..k + 1] == [s[0]] + rest[..k];
      k := k + 1;
    }
  }

  /** Trimming takes off the white space at both ends, and nothing else. */
  lemma TrimIs(s: string) returns (i: nat, j: nat)
    ensures i <= j <= |s| && Trim(s) == s[i..j] && AllSpace(s[..i]) && AllSpace(s[j..])
    ensures Trim(s) != "" ==> !IsSpace(s[i]) && !IsSpace(s[j - 1])
  {
    i := TrimStartIs(s);
    var k := TrimEndIs(s[i..]);
    j := i + k;
    assert s[i..][..k] == s[i..j] && s[i..][k..] == s[j..];
  }

  lemma {:induction false} TrimEndAfter(u: string, x: string)
    requires AllSpace(x)
    ensures TrimEnd(u + x) == TrimEnd(u)
  {
    if x == "" {
      assert u + x == u;
    } else {
      assert (u + x)[..|u + x| - 1] == u + x[..|x| - 1];
      TrimEndAfter(u, x[..|x| - 1]);
    }
  }

  /** Two bodies differ in white space at the end at most. */
  ghost predicate SameButForTheEnd(a: string, b: string) {
    exists u, x, y :: a == u + x && b == u + y && AllSpace(x) && AllSpace(y)
  }

  lemma SameTrimmed(a: string, b: string)
    ensures TrimEnd(a) == TrimEnd(b) <==> SameButForTheEnd(a, b)
  {
    if TrimEnd(a) == TrimEnd(b) {
      var i := TrimEndIs(a);
      var j := TrimEndIs(b);
      assert a == TrimEnd(a) + a[i..] && b == TrimEnd(a) + b[j..];
    }
    if u, x, y :| a == u + x && b == u + y && AllSpace(x) && AllSpace(y) {
      TrimEndAfter(u, x);
      TrimEndAfter(u, y);
    }
  }

  /** Two rules count as the same exactly when they agree in everything but white space at the end of the body. */
  lemma SameContentExactly(a: Content, b: Content)
    ensures IsSameContent(a, b)
       <==> a.title == b.title && a.tags == b.tags && a.severity == b.severity && SameButForTheEnd(a.body, b.body)
  {
    SameTrimmed(a.body, b.body);
  }

  predicate IsDelimiterAt(s: string, i: nat) {
    i + 4 <= |s| && s[i] == '\n' && s[i + 1] == '-' && s[i + 2] == '-' && s[i + 3] == '-'
  }

  /** The first delimiter is found wherever there is one. */
  lemma {:induction false} ClosingIs(s: string)
    ensures ClosingAt(s).None? <==> forall i: nat :: !IsDelimiterAt(s, i)
    ensures ClosingAt(s).Some? ==> IsDelimiterAt(s, ClosingAt(s).value) && forall i: nat | i < ClosingAt(s).value :: !IsDelimiterAt(s, i)
  {
    if |s| >= 4 {
      assert s[..4] == "\n---" <==> IsDelimiterAt(s, 0);
      ClosingIs(s[1..]);
      assert forall i: nat :: IsDelimiterAt(s[1..], i) <==> IsDelimiterAt(s, i + 1);
      assert forall i: nat | i > 0 :: IsDelimiterAt(s, i) ==> IsDelimiterAt(s[1..], i - 1);
    }
  }

  /** A note that does not open with a delimiter line, or never closes it, is all body. */
  lemma PlainNote(stem: string, raw: string, n: Notes)
    requires raw[..if |raw| < 4 then |raw| else 4] != "---\n" || forall i: nat | i >= 4 :: !IsDelimiterAt(raw, i)
    ensures Incoming(stem, raw, n) == Content(n.titleOf(stem), raw, [], Hard)
  {
    if "---\n" <= raw {
      ClosingIs(raw[4..]);
      assert forall i: nat :: IsDelimiterAt(raw[4..], i) ==> IsDelimiterAt(raw, i + 4);
    }
  }

  /** So is a note whose frontmatter cannot be read. */
  lemma UnreadableNote(stem: string, block: string, after: string, n: Notes)
    requires ClosingAt(block).None? && n.parse(block).None?
    ensures var raw := "---\n" + block + "\n---" + after; Incoming(stem, raw, n) == Content(n.titleOf(stem), raw, [], Hard)
  {
    NoteOpens(block, after);
    ClosingFound(block, after);
    BlockCuts(block, after);
  }

  lemma NoteOpens(block: string, after: string)
    ensures DELIMITER + "\n" <= "---\n" + block + "\n---" + after
    ensures ("---\n" + block + "\n---" + after)[4..] == block + "\n---" + after
  {
  }

  /** A note with frontmatter: its title or, failing that, its name, without the white space around it; the rest is body. */
  lemma NoteReads(stem: string, block: string, after: string, n: Notes, fm: RawFrontmatter)
    requires ClosingAt(block).None? && n.parse(block) == Some(fm)
    ensures var c := Incoming(stem, "---\n" + block + "\n---" + after, n);
      && (after == "" || after[0] != '\n' ==> c.body == after)
      && (after != "" && after[0] == '\n' ==> c.body == after[1..])
      && c.tags == (if fm.tags.Some? then fm.tags.value else []) && (c.severity == Soft <==> fm.isSoft)
      && (fm.title.Some? && Trim(fm.title.value) != "" ==> c.title == Trim(fm.title.value))
      && ((fm.title.None? || Trim(fm.title.value) == "") && fm.name.Some? && Trim(fm.name.value) != "" ==>
            c.title == Trim(fm.name.value))
      && ((fm.title.None? || Trim(fm.title.value) == "") && (fm.name.None? || Trim(fm.name.value) == "") ==>
            c.title == n.titleOf(stem))
  {
    NoteOpens(block, after);
    ClosingFound(block, after);
    BlockCuts(block, after);
  }

  /** `raw` is None when the file cannot be read. */
  datatype Note = Note(stem: string, raw: Option<string>)

  datatype Summary = Summary(created: nat, updated: nat, same: nat, skipped: nat, errors: nat)

  const NOTHING := Summary(0, 0, 0, 0, 0)

  const CREATED_BY := "migrate-claude-memory"

  /** What the loop body does with one note. */
  datatype Verdict = Skip | Fail | Same | Create | Update

  function Judge(files: RuleFiles, note: Note, now: string, dryRun: bool, n: Notes, y: Yaml): (RuleFiles, Verdict) {
    match n.ruleIdOf(note.stem)
    case None => (files, Skip)
    case Some(id) =>
      if note.raw.None? then (files, Fail)
      else
        var incoming := Incoming(note.stem, note.raw.value, n);
        match LoadRule(files, id, y)
        case Err(_) => (files, Fail)
        case Ok(existing) =>
          var verdict := if existing.Some? then Update else Create;
          if existing.Some? && IsSameContent(ContentOf(existing.value), incoming) then (files, Same)
          else if dryRun then (files, verdict)
          else
            match Upserted(files, InputOf(id, incoming), now, y)
            case Err(_) => (files, Fail)
            case Ok(files') => (files', verdict)
  }

  function InputOf(id: RuleId, c: Content): UpsertInput {
    UpsertInput(id, c.title, c.body, Some(c.tags), None, Some(c.severity), CREATED_BY)
  }

  function Counted(s: Summary, v: Verdict): Summary {
    match v
    case Skip => s.(skipped := s.skipped + 1)
    case Fail => s.(errors := s.errors + 1)
    case Same => s.(same := s.same + 1)
    case Create => s.(created := s.created + 1)
    case Update => s.(updated := s.updated + 1)
  }

  /** The files after the first `k` notes. */
  function FilesAfter(files: RuleFiles, notes: seq<Note>, k: nat, now: string, dryRun: bool, n: Notes, y: Yaml): RuleFiles
    requires k <= |notes|
  {
    if k == 0 then files
    else Judge(FilesAfter(files, notes, k - 1, now, dryRun, n, y), notes[k - 1], now, dryRun, n, y).0
  }

  /** The verdict on note `k`, in its turn. */
  function VerdictAt(files: RuleFiles, notes: seq<Note>, k: nat, now: string, dryRun: bool, n: Notes, y: Yaml): Verdict
    requires k < |notes|
  {
    Judge(FilesAfter(files, notes, k, now, dryRun, n, y), notes[k], now, dryRun, n, y).1
  }

  /** The verdicts on the first `k` notes, in turn. */
  function VerdictsOf(files: RuleFiles, notes: seq<Note>, k: nat, now: string, dryRun: bool, n: Notes, y: Yaml): seq<Verdict>
    requires k <= |notes|
  {
    if k == 0 then []
    else VerdictsOf(files, notes, k - 1, now, dryRun, n, y) + [VerdictAt(files, notes, k - 1, now, dryRun, n, y)]
  }

  function Tally(vs: seq<Verdict>): Summary {
    if vs == [] then NOTHING else Counted(Tally(vs[..|vs| - 1]), vs[|vs| - 1])
  }

  function HowMany(vs: seq<Verdict>, v: Verdict): nat {
    |set i | 0 <= i < |vs| && vs[i] == v|
  }

  lemma TallyNext(vs: seq<Verdict>, v: Verdict)
    ensures Tally(vs + [v]) == Counted(Tally(vs), v)
  {
    assert (vs + [v])[..|vs|] == vs;
  }

  lemma OneMore(vs: seq<Verdict>, last: Verdict, v: Verdict)
    ensures HowMany(vs + [last], v) == HowMany(vs, v) + if last == v then 1 else 0
  {
    var before, after := (set i | 0 <= i < |vs| && vs[i] == v), (set i | 0 <= i < |vs + [last]| && (vs + [last])[i] == v);
    forall i ensures i in after <==> i in before || (i == |vs| && last == v) {
    }
    assert after == if last == v then before + {|vs|} else before;
  }

  /** A summary counts each note once, under its verdict. */
  lemma {:induction false} TallyCounts(vs: seq<Verdict>)
    ensures Tally(vs) == Summary(HowMany(vs, Create), HowMany(vs, Update), HowMany(vs, Same), HowMany(vs, Skip), HowMany(vs, Fail))
    ensures Tally(vs).created + Tally(vs).updated + Tally(vs).same + Tally(vs).skipped + Tally(vs).errors == |vs|
  {
    if vs != [] {
      var front, last := vs[..|vs| - 1], vs[|vs| - 1];
      TallyCounts(front);
      assert vs == front + [last];
      OneMore(front, last, Create);
      OneMore(front, last, Update);
      OneMore(front, last, Same);
      OneMore(front, last, Skip);
      OneMore(front, last, Fail);
    }
  }

  /** The loop body of `migrate`. */
  method ProcessNote(store: RuleStore, note: Note, now: string, dryRun: bool, n: Notes, y: Yaml) returns (verdict: Verdict)
    modifies store
    ensures (store.files, verdict) == Judge(old(store.files), note, now, dryRun, n, y)
  {
    var ruleId := n.ruleIdOf(note.stem);
    if ruleId.None? {
      return Skip;
    }
    if note.raw.None? {
      return Fail;
    }
    var incoming := Incoming(note.stem, note.raw.value, n);
    var loaded := LoadRule(store.files, ruleId.value, y);
    if loaded.Err? {
      return Fail;
    }
    var existing := loaded.value;
    if existing.Some? && IsSameContent(ContentOf(existing.value), incoming) {
      return Same;
    }
    verdict := if existing.Some? then Update else Create;
    if dryRun {
      return verdict;
    }
    var written := store.UpsertRule(InputOf(ruleId.value, incoming), now, y);
    if written.Err? {
      return Fail;
    }
  }

  /** `migrate`, on the note files of the source directory. */
  method Migrate(store: RuleStore, notes: seq<Note>, now: string, dryRun: bool, n: Notes, y: Yaml) returns (summary: Summary)
    modifies store
    ensures store.files == FilesAfter(old(store.files), notes, |notes|, now, dryRun, n, y)
    ensures var vs := VerdictsOf(old(store.files), notes, |notes|, now, dryRun, n, y);
            summary == Summary(HowMany(vs, Create), HowMany(vs, Update), HowMany(vs, Same), HowMany(vs, Skip), HowMany(vs, Fail))
  {
    summary := NOTHING;
    ghost var vs := [];
    for k := 0 to |notes|
      invariant store.files == FilesAfter(old(store.files), notes, k, now, dryRun, n, y)
      invariant summary == Tally(vs) && vs == VerdictsOf(old(store.files), notes, k, now, dryRun, n, y)
    {
      var verdict := ProcessNote(store, notes[k], now, dryRun, n, y);
      summary := Counted(summary, verdict);
      TallyNext(vs, verdict);
      vs := vs + [verdict];
    }
    TallyCounts(vs);
  }

  /** A dry run writes nothing. */
  lemma {:induction false} DryRunWritesNothing(files: RuleFiles, notes: seq<Note>, k: nat, now: string, n: Notes, y: Yaml)
    requires k <= |notes|
    ensures FilesAfter(files, notes, k, now, true, n, y) == files
  {
    if k > 0 {
      DryRunWritesNothing(files, notes, k - 1, now, n, y);
    }
  }

  // ---------------------------------------------------------------------------
  // Running the migration twice
  // ---------------------------------------------------------------------------

  ghost predicate ErrorFree(files: RuleFiles, notes: seq<Note>, now: string, n: Notes, y: Yaml) {
    forall k | 0 <= k < |notes| :: VerdictAt(files, notes, k, now, false, n, y) != Fail
  }

  /** Every note with a rule id is reported unchanged. */
  ghost predicate AllUnchanged(files: RuleFiles, notes: seq<Note>, now: string, n: Notes, y: Yaml) {
    forall k | 0 <= k < |notes| :: VerdictAt(files, notes, k, now, false, n, y) in {Skip, Same}
  }

  /** The rule of this note is stored with the note's content. */
  ghost predicate Settled(files: RuleFiles, note: Note, n: Notes, y: Yaml) {
    n.ruleIdOf(note.stem).Some? ==>
      && note.raw.Some?
      && LoadRule(files, n.ruleIdOf(note.stem).value, y).Ok?
      && LoadRule(files, n.ruleIdOf(note.stem).value, y).value.Some?
      && IsSameContent(ContentOf(LoadRule(files, n.ruleIdOf(note.stem).value, y).value.value),
                       Incoming(note.stem, note.raw.value, n))
  }

  /** Two notes for one rule say the same; notes for different rules always agree. */
  ghost predicate AgreeOn(a: Note, b: Note, n: Notes) {
    n.ruleIdOf(a.stem).Some? && n.ruleIdOf(a.stem) == n.ruleIdOf(b.stem) && a.raw.Some? && b.raw.Some? ==>
      IsSameContent(Incoming(a.stem, a.raw.value, n), Incoming(b.stem, b.raw.value, n))
  }

  /** Notes that share a rule id agree on its content; pairwise distinct ids are the usual case. */
  ghost predicate Compatible(notes: seq<Note>, n: Notes) {
    forall i, j | 0 <= i < j < |notes| :: AgreeOn(notes[i], notes[j], n)
  }

  lemma SameOrWrites(files: RuleFiles, note: Note, now: string, n: Notes, y: Yaml)
    requires IsSound(y) && Judge(files, note, now, false, n, y).1 != Fail
    ensures Settled(Judge(files, note, now, false, n, y).0, note, n, y)
    ensures Judge(files, note, now, false, n, y).1 in {Skip, Same} <==> Settled(files, note, n, y)
  {
    var v := Judge(files, note, now, false, n, y).1;
    if v == Create || v == Update {
      var id := n.ruleIdOf(note.stem).value;
      var incoming := Incoming(note.stem, note.raw.value, n);
      UpsertThenLoad(files, InputOf(id, incoming), now, y);
    }
  }

  /** A note handled later disturbs a settled one only by giving their common rule other content. */
  lemma StaysSettled(files: RuleFiles, note: Note, other: Note, now: string, n: Notes, y: Yaml)
    requires IsSound(y) && Settled(files, note, n, y) && Judge(files, other, now, false, n, y).1 != Fail
    requires AgreeOn(note, other, n)
    ensures Settled(Judge(files, other, now, false, n, y).0, note, n, y)
  {
    SameOrWrites(files, other, now, n, y);
    var (files', v) := Judge(files, other, now, false, n, y);
    if v == Create || v == Update {
      var id := n.ruleIdOf(other.stem).value;
      UpsertThenLoad(files, InputOf(id, Incoming(other.stem, other.raw.value, n)), now, y);
      if n.ruleIdOf(note.stem).Some? && n.ruleIdOf(note.stem).value != id {
        OtherRule(files, files', id, n.ruleIdOf(note.stem).value, y);
      }
    }
  }

  lemma OtherRule(files: RuleFiles, files': RuleFiles, id: RuleId, other: RuleId, y: Yaml)
    requires files' - {id} == files - {id} && other != id
    ensures LoadRule(files', other, y) == LoadRule(files, other, y)
  {
    assert other in files' <==> other in files' - {id};
    assert other in files <==> other in files - {id};
    assert other in files ==> files'[other] == (files' - {id})[other] && files[other] == (files - {id})[other];
  }

  ghost predicate FirstSettled(files: RuleFiles, notes: seq<Note>, k: nat, n: Notes, y: Yaml)
    requires k <= |notes|
  {
    forall i {:trigger Settled(files, notes[i], n, y)} | 0 <= i < k :: Settled(files, notes[i], n, y)
  }

  /** One more note: it settles itself and leaves the earlier ones settled. */
  lemma SettleNext(files: RuleFiles, notes: seq<Note>, k: nat, now: string, n: Notes, y: Yaml)
    requires IsSound(y) && k < |notes| && Compatible(notes, n)
    requires Judge(files, notes[k], now, false, n, y).1 != Fail
    requires FirstSettled(files, notes, k, n, y)
    ensures FirstSettled(Judge(files, notes[k], now, false, n, y).0, notes, k + 1, n, y)
  {
    SameOrWrites(files, notes[k], now, n, y);
    forall i | 0 <= i < k ensures Settled(Judge(files, notes[k], now, false, n, y).0, notes[i], n, y) {
      assert Settled(files, notes[i], n, y) && AgreeOn(notes[i], notes[k], n);
      StaysSettled(files, notes[i], notes[k], now, n, y);
    }
  }

  /** One turn of an error-free run, from the files before it to the files after it. */
  lemma TurnOf(files: RuleFiles, notes: seq<Note>, k: nat, now: string, n: Notes, y: Yaml, before: RuleFiles, after: RuleFiles)
    requires k < |notes| && ErrorFree(files, notes, now, n, y)
    requires before == FilesAfter(files, notes, k, now, false, n, y) && after == FilesAfter(files, notes, k + 1, now, false, n, y)
    ensures Judge(before, notes[k], now, false, n, y).1 != Fail && after == Judge(before, notes[k], now, false, n, y).0
  {
    assert VerdictAt(files, notes, k, now, false, n, y) != Fail;
  }

  lemma {:induction false} AllSettled(files: RuleFiles, notes: seq<Note>, k: nat, now: string, n: Notes, y: Yaml)
    requires IsSound(y) && k <= |notes| && ErrorFree(files, notes, now, n, y) && Compatible(notes, n)
    ensures FirstSettled(FilesAfter(files, notes, k, now, false, n, y), notes, k, n, y)
  {
    if k > 0 {
      AllSettled(files, notes, k - 1, now, n, y);
      var before, after := FilesAfter(files, notes, k - 1, now, false, n, y), FilesAfter(files, notes, k, now, false, n, y);
      TurnOf(files, notes, k - 1, now, n, y, before, after);
      SettleNext(before, notes, k - 1, now, n, y);
    }
  }

  /** What a migration leaves behind: for every note that has an id, a rule that says what the note says. */
  lemma MigrateStores(files: RuleFiles, notes: seq<Note>, now: string, n: Notes, y: Yaml, i: nat, id: RuleId, raw: string)
    requires IsSound(y) && ErrorFree(files, notes, now, n, y) && Compatible(notes, n)
    requires i < |notes| && n.ruleIdOf(notes[i].stem) == Some(id) && notes[i].raw == Some(raw)
    ensures var (loaded, note) := (LoadRule(FilesAfter(files, notes, |notes|, now, false, n, y), id, y), Incoming(notes[i].stem, raw, n));
      && loaded.Ok? && loaded.value.Some?
      && var rule := loaded.value.value;
         && rule.frontmatter.title == note.title && rule.frontmatter.tags == note.tags
         && rule.frontmatter.severity == note.severity && SameButForTheEnd(rule.body, note.body)
  {
    AllSettled(files, notes, |notes|, now, n, y);
    var once := FilesAfter(files, notes, |notes|, now, false, n, y);
    assert Settled(once, notes[i], n, y);
    SameContentExactly(ContentOf(LoadRule(once, id, y).value.value), Incoming(notes[i].stem, raw, n));
  }

  /** A rule that the migration creates applies everywhere and names the migration as its creator. */
  lemma CreatedByMigration(files: RuleFiles, note: Note, now: string, n: Notes, y: Yaml, id: RuleId)
    requires IsSound(y) && n.ruleIdOf(note.stem) == Some(id) && Judge(files, note, now, false, n, y).1 == Create
    ensures var loaded := LoadRule(Judge(files, note, now, false, n, y).0, id, y);
      && loaded.Ok? && loaded.value.Some?
      && var fm := loaded.value.value.frontmatter;
         fm.createdBy == "migrate-claude-memory" && fm.createdAt == now && fm.appliesTo == []
  {
    UpsertThenLoad(files, InputOf(id, Incoming(note.stem, note.raw.value, n)), now, y);
  }

  /** While every verdict is `Skip` or `Same`, nothing is written. */
  lemma {:induction false} NothingWritten(files: RuleFiles, notes: seq<Note>, k: nat, now: string, n: Notes, y: Yaml)
    requires k <= |notes|
    requires forall i | 0 <= i < k :: VerdictAt(files, notes, i, now, false, n, y) in {Skip, Same}
    ensures FilesAfter(files, notes, k, now, false, n, y) == files
  {
    if k > 0 {
      NothingWritten(files, notes, k - 1, now, n, y);
      assert VerdictAt(files, notes, k - 1, now, false, n, y) in {Skip, Same};
    }
  }

  lemma SettledIsUnchanged(files: RuleFiles, note: Note, now: string, n: Notes, y: Yaml)
    requires Settled(files, note, n, y)
    ensures Judge(files, note, now, false, n, y).1 in {Skip, Same} && Judge(files, note, now, false, n, y).0 == files
  {
  }

  lemma UnchangedIsSettled(files: RuleFiles, note: Note, now: string, n: Notes, y: Yaml)
    requires Judge(files, note, now, false, n, y).1 in {Skip, Same}
    ensures Settled(files, note, n, y) && Judge(files, note, now, false, n, y).0 == files
  {
  }

  lemma {:induction false} SettledKeepsFiles(files: RuleFiles, notes: seq<Note>, k: nat, now: string, n: Notes, y: Yaml)
    requires k <= |notes| && forall i | 0 <= i < |notes| :: Settled(files, notes[i], n, y)
    ensures FilesAfter(files, notes, k, now, false, n, y) == files
  {
    if k > 0 {
      SettledKeepsFiles(files, notes, k - 1, now, n, y);
      SettledIsUnchanged(files, notes[k - 1], now, n, y);
    }
  }

  lemma SecondRunUnchanged(files: RuleFiles, notes: seq<Note>, now: string, n: Notes, y: Yaml)
    requires forall i | 0 <= i < |notes| :: Settled(files, notes[i], n, y)
    ensures AllUnchanged(files, notes, now, n, y)
  {
    forall k | 0 <= k < |notes| ensures VerdictAt(files, notes, k, now, false, n, y) in {Skip, Same} {
      SettledKeepsFiles(files, notes, k, now, n, y);
      SettledIsUnchanged(files, notes[k], now, n, y);
    }
  }

  /**
   * After an error-free migration, a second one over the same notes reports every rule unchanged and writes
   * nothing, exactly when notes that share a rule id agree on its content.
   */
  lemma MigrateTwice(files: RuleFiles, notes: seq<Note>, now: string, later: string, n: Notes, y: Yaml)
    requires IsSound(y) && ErrorFree(files, notes, now, n, y)
    ensures var once := FilesAfter(files, notes, |notes|, now, false, n, y);
      && (AllUnchanged(once, notes, later, n, y) <==> Compatible(notes, n))
      && (Compatible(notes, n) ==> FilesAfter(once, notes, |notes|, later, false, n, y) == once)
  {
    var once := FilesAfter(files, notes, |notes|, now, false, n, y);
    if Compatible(notes, n) {
      AllSettled(files, notes, |notes|, now, n, y);
      SettledKeepsFiles(once, notes, |notes|, later, n, y);
      SecondRunUnchanged(once, notes, later, n, y);
    }
    if AllUnchanged(once, notes, later, n, y) {
      forall i | 0 <= i < |notes| ensures Settled(once, notes[i], n, y) {
        NothingWritten(once, notes, i, later, n, y);
        assert VerdictAt(once, notes, i, later, false, n, y) in {Skip, Same};
        UnchangedIsSettled(once, notes[i], later, n, y);
      }
    }
  }
}
