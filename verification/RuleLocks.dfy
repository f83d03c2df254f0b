/** Rules upserted concurrently under the per-namespace lock of the rule store. */
module RuleLocks {
  import opened Base
  import opened KeyedLock
  import opened Rules

  datatype RuleOp = RuleOp(input: UpsertInput, now: string)

  /** A namespace without a rules directory has no rules. */
  function FilesOf(file: Option<RuleFiles>): RuleFiles {
    if file.Some? then file.value else map[]
  }

  /** The body of `upsertRule`: a failing upsert writes nothing. */
  function RuleBody(y: Yaml): Body<RuleOp, RuleFiles> {
    (op: RuleOp, file: Option<RuleFiles>) =>
      match Upserted(FilesOf(file), op.input, op.now, y)
      case Ok(files) => Some(files)
      case Err(_) => None
  }

  ghost predicate AllReadable(files: RuleFiles, y: Yaml) {
    forall id :: IsReadable(files, y, id)
  }

  predicate IsReadable(files: RuleFiles, y: Yaml, id: RuleId) {
    id in files && IsRuleId(id) ==> ParseRuleFile(files[id], y).Ok?
  }

  /** What one upsert means for one rule, whatever the others are. */
  function RuleAfter(op: RuleOp, id: RuleId, before: Option<Rule>, y: Yaml): Option<Rule> {
    if op.input.ruleId != id then before
    else
      var fm := Candidate(op.input, before, op.now);
      if y.valid(fm) then Some(Rule(fm, WithNewline(op.input.body))) else before
  }

  lemma OneWritten(files: RuleFiles, op: RuleOp, id: RuleId, y: Yaml)
    requires IsSound(y) && IsRuleId(id) && AllReadable(files, y)
    ensures LoadRule(files, id, y).Ok?
    ensures var after := FilesOf(After(RuleBody(y), op, Some(files)));
            LoadRule(after, id, y) == Ok(RuleAfter(op, id, LoadRule(files, id, y).value, y))
  {
    assert IsReadable(files, y, id);
    var before := LoadRule(files, id, y).value;
    if op.input.ruleId == id {
      RuleRoundTrip(Rule(Candidate(op.input, before, op.now), op.input.body), y);
    }
  }

  lemma StaysReadable(files: RuleFiles, op: RuleOp, y: Yaml)
    requires IsSound(y) && AllReadable(files, y)
    ensures AllReadable(FilesOf(After(RuleBody(y), op, Some(files))), y)
  {
    var after := FilesOf(After(RuleBody(y), op, Some(files)));
    forall id ensures IsReadable(after, y, id) {
      assert IsReadable(files, y, id);
      if id in after && IsRuleId(id) {
        OneWritten(files, op, id, y);
      }
    }
  }

  /** One body keeps every rule readable and does to each rule what the upsert means for it. */
  lemma BodyIsPerRule(op: RuleOp, file: Option<RuleFiles>, id: RuleId, y: Yaml)
    requires IsSound(y) && IsRuleId(id) && AllReadable(FilesOf(file), y)
    ensures LoadRule(FilesOf(file), id, y).Ok?
    ensures var after := FilesOf(After(RuleBody(y), op, file));
            && AllReadable(after, y)
            && LoadRule(after, id, y) == Ok(RuleAfter(op, id, LoadRule(FilesOf(file), id, y).value, y))
  {
    assert FilesOf(After(RuleBody(y), op, file)) == FilesOf(After(RuleBody(y), op, Some(FilesOf(file))));
    OneWritten(FilesOf(file), op, id, y);
    StaysReadable(FilesOf(file), op, y);
  }

  /** The fate of one rule under the upserts that took effect, in arrival order. */
  function RuleSequential(tasks: seq<Task<RuleOp, RuleFiles>>, n: nat, key: Key, id: RuleId, before: Option<Rule>, y: Yaml): Option<Rule>
    requires n <= |tasks|
  {
    if n == 0 then before
    else
      var r := RuleSequential(tasks, n - 1, key, id, before, y);
      if tasks[n - 1].key == key && tasks[n - 1].applied then RuleAfter(tasks[n - 1].op, id, r, y) else r
  }

  lemma {:induction false} SequentialPerRule(tasks: seq<Task<RuleOp, RuleFiles>>, n: nat, key: Key, file: Option<RuleFiles>, id: RuleId, y: Yaml)
    requires n <= |tasks| && IsSound(y) && IsRuleId(id) && AllReadable(FilesOf(file), y)
    ensures LoadRule(FilesOf(file), id, y).Ok?
    ensures var after := FilesOf(Sequential(tasks, n, key, file, RuleBody(y)));
            && AllReadable(after, y)
            && LoadRule(after, id, y) == Ok(RuleSequential(tasks, n, key, id, LoadRule(FilesOf(file), id, y).value, y))
  {
    assert IsReadable(FilesOf(file), y, id);
    if n > 0 {
      SequentialPerRule(tasks, n - 1, key, file, id, y);
      BodyIsPerRule(tasks[n - 1].op, Sequential(tasks, n - 1, key, file, RuleBody(y)), id, y);
    }
  }

  /**
   * Concurrent upserts, interleaved in any way and failing anywhere: at every moment every rule is readable
   * and stands as a one-by-one replay in arrival order leaves it, so no upsert is lost or half applied.
   */
  lemma ConcurrentUpserts(files: map<Key, RuleFiles>, steps: seq<Step<RuleOp>>, key: Key, id: RuleId, y: Yaml)
    requires IsSound(y) && IsRuleId(id) && AllReadable(if key in files then files[key] else map[], y)
    requires IsRun(Start<RuleOp, RuleFiles>(files), steps, RuleBody(y), true)
    ensures LoadRule(if key in files then files[key] else map[], id, y).Ok?
    ensures var s := Final(Start<RuleOp, RuleFiles>(files), steps, RuleBody(y), true);
      && AllReadable(FilesOf(FileOf(s, key)), y)
      && LoadRule(FilesOf(FileOf(s, key)), id, y)
         == Ok(RuleSequential(s.tasks, |s.tasks|, key, id, LoadRule(if key in files then files[key] else map[], id, y).value, y))
  {
    StartIsFine<RuleOp, RuleFiles>(files, RuleBody(y), true);
    EveryRun(Start<RuleOp, RuleFiles>(files), steps, files, RuleBody(y), true);
    var s := Final(Start<RuleOp, RuleFiles>(files), steps, RuleBody(y), true);
    var file := if key in files then Some(files[key]) else None;
    assert FileOf(s, key) == Sequential(s.tasks, |s.tasks|, key, file, RuleBody(y));
    SequentialPerRule(s.tasks, |s.tasks|, key, file, id, y);
  }
}
