/** The embedding request: retries with back-off, adaptive truncation on 413, one breaker outcome. */
module Embedding {
  import opened Base

  // ---------------------------------------------------------------------------
  // Truncation by code point
  // ---------------------------------------------------------------------------

  /** `Array.from(s)`: surrogate pairs stay together, every other unit stands alone. */
  function CodePoints(s: Text): seq<Text> {
    if s == [] then []
    else if StartsWithPair(s) then [s[..2]] + CodePoints(s[2..])
    else [s[..1]] + CodePoints(s[1..])
  }

  function Join(parts: seq<Text>): Text {
    if parts == [] then [] else parts[0] + Join(parts[1..])
  }

  function TruncateToChars(s: Text, max: int): Text {
    if max <= 0 || |s| <= max then s
    else
      var cps := CodePoints(s);
      if |cps| <= max then s else Join(cps[..max])
  }

  /** `p` is `s` cut between two code points. */
  ghost predicate IsCut(p: Text, s: Text) {
    exists k :: 0 <= k <= |CodePoints(s)| && p == FirstCodePoints(s, k)
  }

  function FirstCodePoints(s: Text, k: nat): Text
    requires k <= |CodePoints(s)|
  {
    Join(CodePoints(s)[..k])
  }

  lemma {:induction false} JoinCodePoints(s: Text)
    ensures Join(CodePoints(s)) == s && |CodePoints(s)| <= |s|
  {
    if s != [] {
      var n := if StartsWithPair(s) then 2 else 1;
      JoinCodePoints(s[n..]);
      assert CodePoints(s)[1..] == CodePoints(s[n..]);
      assert s == s[..n] + s[n..];
    }
  }

  /** Cutting between code points does not change the code points that are kept. */
  lemma {:induction false} CodePointsOfCut(s: Text, k: nat)
    requires k <= |CodePoints(s)|
    ensures CodePoints(FirstCodePoints(s, k)) == CodePoints(s)[..k]
  {
    if k > 0 {
      var n := if StartsWithPair(s) then 2 else 1;
      var rest := FirstCodePoints(s[n..], k - 1);
      assert CodePoints(s)[..k][1..] == CodePoints(s[n..])[..k - 1];
      assert FirstCodePoints(s, k) == s[..n] + rest;
      CodePointsOfCut(s[n..], k - 1);
      if n == 1 {
        CutStartsAlike(s[1..], k - 1);
      }
      assert (s[..n] + rest)[n..] == rest;
    }
  }

  /** A cut begins with the same unit as the whole, if it is not empty. */
  lemma CutStartsAlike(s: Text, k: nat)
    requires k <= |CodePoints(s)|
    ensures FirstCodePoints(s, k) == [] || (s != [] && FirstCodePoints(s, k)[0] == s[0])
  {
    if k > 0 {
      assert CodePoints(s)[..k][0] == CodePoints(s)[0];
    }
  }

  lemma CutOfCut(p: Text, q: Text, s: Text)
    requires IsCut(p, q) && IsCut(q, s)
    ensures IsCut(p, s)
  {
    var k :| 0 <= k <= |CodePoints(q)| && p == FirstCodePoints(q, k);
    var m :| 0 <= m <= |CodePoints(s)| && q == FirstCodePoints(s, m);
    CodePointsOfCut(s, m);
    assert CodePoints(s)[..m][..k] == CodePoints(s)[..k];
    assert p == FirstCodePoints(s, k);
  }

  lemma SelfCut(s: Text)
    ensures IsCut(s, s)
  {
    JoinCodePoints(s);
    assert CodePoints(s)[..|CodePoints(s)|] == CodePoints(s);
    assert s == FirstCodePoints(s, |CodePoints(s)|);
  }

  /** Truncation never splits a surrogate pair and keeps at most `max` code points. */
  lemma TruncateCuts(s: Text, max: int)
    ensures IsCut(TruncateToChars(s, max), s)
    ensures max > 0 ==> |CodePoints(TruncateToChars(s, max))| <= max
  {
    SelfCut(s);
    JoinCodePoints(s);
    if max > 0 && |CodePoints(s)| > max {
      CodePointsOfCut(s, max);
      assert TruncateToChars(s, max) == FirstCodePoints(s, max);
    }
  }

  /** `p` is `s` with everything after its first `max` code points taken off, and nothing less; no cap at or below 0. */
  ghost predicate IsTruncatedTo(p: Text, s: Text, max: int) {
    if max <= 0 || |CodePoints(s)| <= max then p == s else p == FirstCodePoints(s, max)
  }

  /** Truncation takes off no more than it must. */
  lemma TruncateExactly(s: Text, max: int)
    ensures IsTruncatedTo(TruncateToChars(s, max), s, max)
    ensures max > 0 ==> |CodePoints(TruncateToChars(s, max))| == if |CodePoints(s)| < max then |CodePoints(s)| else max
  {
    JoinCodePoints(s);
    if max > 0 && |CodePoints(s)| > max {
      CodePointsOfCut(s, max);
      assert TruncateToChars(s, max) == FirstCodePoints(s, max);
    }
  }

  /** A code point: a surrogate pair, or one unit. */
  predicate IsCodePoint(t: Text) {
    |t| == 1 || (|t| == 2 && StartsWithPair(t))
  }

  predicate TearsPair(a: Text, b: Text) {
    |a| == 1 && b != [] && IsHigh(a[0]) && IsLow(b[0])
  }

  /** The code points join to the text, and no surrogate pair is torn between two of them. */
  lemma {:induction false} CodePointsAre(s: Text)
    ensures Join(CodePoints(s)) == s
    ensures forall i | 0 <= i < |CodePoints(s)| :: IsCodePoint(CodePoints(s)[i])
    ensures forall i | 0 < i < |CodePoints(s)| :: !TearsPair(CodePoints(s)[i - 1], CodePoints(s)[i])
  {
    JoinCodePoints(s);
    if s != [] {
      var n := if StartsWithPair(s) then 2 else 1;
      CodePointsAre(s[n..]);
      assert CodePoints(s) == [s[..n]] + CodePoints(s[n..]);
      if |s| > n {
        assert CodePoints(s)[1][0] == s[n];
      }
    }
  }

  ghost predicate AreTruncatedTo(now: seq<Text>, before: seq<Text>, max: int) {
    |now| == |before| && forall j | 0 <= j < |now| :: IsTruncatedTo(now[j], before[j], max)
  }

  lemma TruncateAllExactly(inputs: seq<Text>, max: int)
    ensures AreTruncatedTo(TruncateAll(inputs, max), inputs, max)
  {
    forall j | 0 <= j < |inputs| ensures IsTruncatedTo(TruncateAll(inputs, max)[j], inputs[j], max) {
      TruncateExactly(inputs[j], max);
    }
  }

  /** Inputs that are cuts of the original inputs, one by one. */
  ghost predicate AreCuts(now: seq<Text>, original: seq<Text>) {
    |now| == |original| && forall j | 0 <= j < |now| :: IsCut(now[j], original[j])
  }

  function Longest(inputs: seq<Text>): nat {
    if inputs == [] then 0
    else
      var (first, rest) := (|CodePoints(inputs[0])|, Longest(inputs[1..]));
      if first > rest then first else rest
  }

  lemma {:induction false} LongestBelow(inputs: seq<Text>, bound: nat)
    requires forall s | s in inputs :: |CodePoints(s)| <= bound
    ensures Longest(inputs) <= bound
  {
    if inputs != [] {
      LongestBelow(inputs[1..], bound);
    }
  }

  /** The greatest number of code points among the inputs, 0 when there are none. */
  lemma {:induction false} LongestIs(inputs: seq<Text>)
    ensures forall s | s in inputs :: |CodePoints(s)| <= Longest(inputs)
    ensures if inputs == [] then Longest(inputs) == 0 else exists s :: s in inputs && |CodePoints(s)| == Longest(inputs)
  {
    if inputs != [] {
      LongestIs(inputs[1..]);
      assert inputs == [inputs[0]] + inputs[1..];
      assert inputs[0] in inputs;
      if |inputs| > 1 && Longest(inputs) != |CodePoints(inputs[0])| {
        var s :| s in inputs[1..] && |CodePoints(s)| == Longest(inputs[1..]);
        assert s in inputs;
      }
    }
  }

  function TruncateAll(inputs: seq<Text>, max: int): seq<Text> {
    seq(|inputs|, i requires 0 <= i < |inputs| => TruncateToChars(inputs[i], max))
  }

  lemma TruncateAllCuts(inputs: seq<Text>, max: int, original: seq<Text>)
    requires AreCuts(inputs, original)
    ensures AreCuts(TruncateAll(inputs, max), original)
    ensures max > 0 ==> Longest(TruncateAll(inputs, max)) <= max
  {
    var out := TruncateAll(inputs, max);
    forall j | 0 <= j < |inputs| ensures IsCut(out[j], original[j]) && (max > 0 ==> |CodePoints(out[j])| <= max) {
      TruncateCuts(inputs[j], max);
      CutOfCut(out[j], inputs[j], original[j]);
    }
    if max > 0 {
      LongestBelow(out, max);
    }
  }

  // ---------------------------------------------------------------------------
  // The request loop
  // ---------------------------------------------------------------------------

  /** What a fetch brings back: items of a body are vector lengths, or None when malformed. */
  datatype Reply =
    | NetworkError(retryable: bool)
    | HttpError(status: nat, readable: bool)
    | UnreadableBody
    | Body(items: seq<Option<nat>>)

  datatype Outcome =
    | Vectors(items: seq<Option<nat>>)
    | BreakerOpen
    | Exhausted
    | FetchFailed
    | HttpFailed(status: nat)
    | DimensionMismatch(actual: nat)
    | BodyRejected

  const MAX_RETRIES := 3
  const MAX_TRUNCATE_RETRIES := 8
  const TRUNCATE_FLOOR := 256
  const TOO_LARGE := 413
  const RETRYABLE_STATUSES: set<nat> := {429, 502, 503, 529}
  const NON_RETRYABLE_STATUSES: set<nat> := {400, 401, 402, 404}

  /** What the call did: requests sent, retries counted, inputs shrunk, breaker outcomes recorded. */
  datatype Trace = Trace(
    sent: seq<seq<Text>>,
    retries: nat,
    truncations: nat,
    breakerSuccesses: nat,
    breakerFailures: nat)

  predicate Transient(reply: Reply) {
    match reply
    case NetworkError(retryable) => retryable
    case HttpError(status, readable) => readable && status in RETRYABLE_STATUSES
    case _ => false
  }

  /** First item that is malformed or of the wrong dimension. */
  function FirstBad(items: seq<Option<nat>>, dimension: nat): Option<Option<nat>> {
    if items == [] then None
    else if items[0] != Some(dimension) then Some(items[0])
    else FirstBad(items[1..], dimension)
  }

  /** What the last reply makes of the call. */
  function Verdict(reply: Reply, dimension: nat): Outcome {
    match reply
    case NetworkError(retryable) => if retryable then Exhausted else FetchFailed
    case HttpError(status, readable) =>
      if !readable then BodyRejected else if status in RETRYABLE_STATUSES then Exhausted else HttpFailed(status)
    case UnreadableBody => BodyRejected
    case Body(items) =>
      match FirstBad(items, dimension)
      case None => Vectors(items)
      case Some(None) => BodyRejected
      case Some(Some(actual)) => DimensionMismatch(actual)
  }

  /** The guard of a truncation pass. */
  predicate MayShrink(inputs: seq<Text>, shrink: nat -> nat) {
    TRUNCATE_FLOOR < Longest(inputs) && TRUNCATE_FLOOR <= shrink(Longest(inputs)) < Longest(inputs)
  }

  /** The step from one request to the next: the same inputs after a transient fault, shorter ones after a 413. */
  ghost predicate Follows(before: seq<Text>, reply: Reply, after: seq<Text>, shrink: nat -> nat) {
    || (Transient(reply) && after == before)
    || (&& reply == HttpError(TOO_LARGE, true)
        && AreTruncatedTo(after, before, shrink(Longest(before)))
        && TRUNCATE_FLOOR < Longest(before) && Longest(after) < Longest(before))
  }

  /** How many of the first `n` replies are transient faults. */
  ghost function Faults(replies: nat -> Reply, n: nat): nat {
    if n == 0 then 0 else Faults(replies, n - 1) + if Transient(replies(n - 1)) then 1 else 0
  }

  /** Request `i` carries cuts of the original inputs and is the answer to the reply before it. */
  ghost predicate IsDue(sent: seq<seq<Text>>, replies: nat -> Reply, original: seq<Text>, shrink: nat -> nat, i: nat)
    requires i < |sent|
  {
    AreCuts(sent[i], original) && (i > 0 ==> Follows(sent[i - 1], replies(i - 1), sent[i], shrink))
  }

  ghost predicate IsHistory(sent: seq<seq<Text>>, replies: nat -> Reply, original: seq<Text>, shrink: nat -> nat) {
    forall i | 0 <= i < |sent| :: IsDue(sent, replies, original, shrink, i)
  }

  ghost predicate MayFollow(sent: seq<seq<Text>>, replies: nat -> Reply, next: seq<Text>, shrink: nat -> nat) {
    sent != [] ==> Follows(sent[|sent| - 1], replies(|sent| - 1), next, shrink)
  }

  lemma SendNext(sent: seq<seq<Text>>, replies: nat -> Reply, original: seq<Text>, next: seq<Text>, shrink: nat -> nat)
    requires IsHistory(sent, replies, original, shrink) && AreCuts(next, original) && MayFollow(sent, replies, next, shrink)
    ensures IsHistory(sent + [next], replies, original, shrink)
  {
    forall i | 0 <= i < |sent + [next]| ensures IsDue(sent + [next], replies, original, shrink, i) {
      assert i < |sent| ==> IsDue(sent, replies, original, shrink, i);
    }
  }

  lemma ShrinkNext(inputs: seq<Text>, original: seq<Text>, shrink: nat -> nat)
    requires AreCuts(inputs, original) && MayShrink(inputs, shrink)
    ensures AreCuts(TruncateAll(inputs, shrink(Longest(inputs))), original)
    ensures Follows(inputs, HttpError(TOO_LARGE, true), TruncateAll(inputs, shrink(Longest(inputs))), shrink)
  {
    TruncateAllCuts(inputs, shrink(Longest(inputs)), original);
    TruncateAllExactly(inputs, shrink(Longest(inputs)));
  }

  /** The inputs after the optional static cap. */
  lemma CapFirst(inputs: seq<Text>, max: int)
    ensures AreCuts(inputs, inputs) && AreCuts(TruncateAll(inputs, max), inputs)
  {
    forall j | 0 <= j < |inputs| ensures IsCut(inputs[j], inputs[j]) {
      SelfCut(inputs[j]);
    }
    TruncateAllCuts(inputs, max, inputs);
  }

  /** What the loop body makes of one reply; a final step says how many breaker outcomes it records. */
  datatype Step =
    | Retry
    | Truncate(inputs: seq<Text>)
    | Finish(outcome: Outcome, successes: nat, failures: nat)

  predicate RecordsOnce(outcome: Outcome, successes: nat, failures: nat) {
    && successes == (if outcome.Vectors? then 1 else 0)
    && failures == (if outcome.Vectors? || outcome.BodyRejected? || outcome.BreakerOpen? then 0 else 1)
  }

  method React(reply: Reply, attempt: nat, truncateRetries: nat, workingInputs: seq<Text>, ghost original: seq<Text>,
               dimension: nat, shrink: nat -> nat)
    returns (step: Step)
    requires attempt <= MAX_RETRIES && AreCuts(workingInputs, original)
    ensures step.Retry? <==> Transient(reply) && attempt < MAX_RETRIES
    ensures step.Truncate? <==>
              reply == HttpError(TOO_LARGE, true) && truncateRetries < MAX_TRUNCATE_RETRIES && MayShrink(workingInputs, shrink)
    ensures step.Truncate? ==>
              && AreCuts(step.inputs, original) && Follows(workingInputs, reply, step.inputs, shrink)
    ensures step.Finish? ==>
              && step.outcome == Verdict(reply, dimension) && step.outcome != BreakerOpen
              && RecordsOnce(step.outcome, step.successes, step.failures)
              && (step.outcome == Exhausted ==> attempt == MAX_RETRIES)
  {
    match reply {
      case NetworkError(retryable) =>
        if !retryable {
          return Finish(FetchFailed, 0, 1);
        }
        return if attempt < MAX_RETRIES then Retry else Finish(Exhausted, 0, 1);
      case HttpError(status, readable) =>
        if !readable {
          return Finish(BodyRejected, 0, 0);
        }
        if status == TOO_LARGE && truncateRetries < MAX_TRUNCATE_RETRIES {
          var longest := Longest(workingInputs);
          var nextBudget := shrink(longest);
          if longest > TRUNCATE_FLOOR && nextBudget >= TRUNCATE_FLOOR && nextBudget < longest {
            ShrinkNext(workingInputs, original, shrink);
            return Truncate(TruncateAll(workingInputs, nextBudget));
          }
        }
        if status in NON_RETRYABLE_STATUSES {
          return Finish(HttpFailed(status), 0, 1);
        }
        if status in RETRYABLE_STATUSES {
          return if attempt < MAX_RETRIES then Retry else Finish(Exhausted, 0, 1);
        }
        return Finish(HttpFailed(status), 0, 1);
      case UnreadableBody =>
        return Finish(BodyRejected, 0, 0);
      case Body(items) =>
        var bad := CheckDimensions(items, dimension);
        match bad {
          case Some(None) => return Finish(BodyRejected, 0, 0);
          case Some(Some(actual)) => return Finish(DimensionMismatch(actual), 0, 1);
          case None => return Finish(Vectors(items), 1, 0);
        }
    }
  }

  /** The first malformed or wrongly sized item is found, and only such an item. */
  lemma {:induction false} FirstBadIs(items: seq<Option<nat>>, dimension: nat)
    ensures FirstBad(items, dimension).None? <==> forall i | 0 <= i < |items| :: items[i] == Some(dimension)
    ensures FirstBad(items, dimension).Some? ==>
              exists i :: 0 <= i < |items| && items[i] == FirstBad(items, dimension).value != Some(dimension)
                          && forall j | 0 <= j < i :: items[j] == Some(dimension)
  {
    if items != [] {
      FirstBadIs(items[1..], dimension);
      assert forall i | 0 < i < |items| :: items[i] == items[1..][i - 1];
      if items[0] == Some(dimension) && FirstBad(items[1..], dimension).Some? {
        var i :| 0 <= i < |items[1..]| && items[1..][i] == FirstBad(items[1..], dimension).value != Some(dimension)
                 && forall j | 0 <= j < i :: items[1..][j] == Some(dimension);
        assert items[i + 1] == FirstBad(items, dimension).value;
        assert forall j | 0 < j < i + 1 :: items[j] == items[1..][j - 1];
      }
    }
  }

  /** Between two turns of the loop: what was sent, and what is sent next. */
  ghost predicate Running(t: Trace, next: seq<Text>, first: seq<Text>, original: seq<Text>, replies: nat -> Reply,
                          shrink: nat -> nat) {
    && t.breakerSuccesses == 0 && t.breakerFailures == 0
    && t.retries == Faults(replies, |t.sent|) && |t.sent| == t.retries + t.truncations
    && AreCuts(next, original) && IsHistory(t.sent, replies, original, shrink)
    && MayFollow(t.sent, replies, next, shrink)
    && first == if t.sent == [] then next else t.sent[0]
  }

  function Sending(t: Trace, next: seq<Text>): Trace {
    t.(sent := t.sent + [next])
  }

  function Retried(t: Trace, next: seq<Text>): Trace {
    Sending(t, next).(retries := t.retries + 1)
  }

  function Truncated(t: Trace, next: seq<Text>): Trace {
    Sending(t, next).(truncations := t.truncations + 1)
  }

  function Finished(t: Trace, next: seq<Text>, successes: nat, failures: nat): Trace {
    Sending(t, next).(breakerSuccesses := successes, breakerFailures := failures)
  }

  lemma KeepsRunning(t: Trace, next: seq<Text>, first: seq<Text>, original: seq<Text>, replies: nat -> Reply,
                     shrink: nat -> nat)
    requires Running(t, next, first, original, replies, shrink)
    ensures Transient(replies(|t.sent|)) ==>
              Running(Retried(t, next), next, first, original, replies, shrink)
    ensures forall shorter | !Transient(replies(|t.sent|)) && AreCuts(shorter, original)
                             && Follows(next, replies(|t.sent|), shorter, shrink) ::
              Running(Truncated(t, next), shorter, first, original, replies, shrink)
    ensures IsHistory(Sending(t, next).sent, replies, original, shrink) && Sending(t, next).sent[0] == first
  {
    SendNext(t.sent, replies, original, next, shrink);
  }

  /** What an admitted call has done by the time it answers. */
  ghost predicate IsComplete(r: Outcome, t: Trace, cap: int, original: seq<Text>, dimension: nat,
                             replies: nat -> Reply, shrink: nat -> nat) {
    && 1 <= |t.sent| <= 12 && t.retries <= MAX_RETRIES && t.truncations <= MAX_TRUNCATE_RETRIES
    && |t.sent| == 1 + t.retries + t.truncations
    && t.retries == Faults(replies, |t.sent| - 1)
    && r == Verdict(replies(|t.sent| - 1), dimension) && r != BreakerOpen
    && (r == Exhausted ==> t.retries == MAX_RETRIES)
    && (r == HttpFailed(TOO_LARGE) ==> t.truncations == MAX_TRUNCATE_RETRIES || !MayShrink(t.sent[|t.sent| - 1], shrink))
    && RecordsOnce(r, t.breakerSuccesses, t.breakerFailures)
    && AreTruncatedTo(t.sent[0], original, cap) && IsHistory(t.sent, replies, original, shrink)
  }

  lemma Completes(t: Trace, next: seq<Text>, first: seq<Text>, original: seq<Text>, dimension: nat, replies: nat -> Reply,
                  shrink: nat -> nat, r: Outcome, successes: nat, failures: nat, cap: int)
    requires Running(t, next, first, original, replies, shrink) && AreTruncatedTo(first, original, cap)
    requires t.retries <= MAX_RETRIES && t.truncations <= MAX_TRUNCATE_RETRIES
    requires r == Verdict(replies(|t.sent|), dimension) && r != BreakerOpen
    requires RecordsOnce(r, successes, failures) && (r == Exhausted ==> t.retries == MAX_RETRIES)
    requires r == HttpFailed(TOO_LARGE) ==> t.truncations == MAX_TRUNCATE_RETRIES || !MayShrink(next, shrink)
    ensures IsComplete(r, Finished(t, next, successes, failures), cap, original, dimension, replies, shrink)
  {
    KeepsRunning(t, next, first, original, replies, shrink);
  }

  /** The inputs of the first request: the optional static cap applied. */
  function Prepared(inputs: seq<Text>, maxInputChars: int): seq<Text> {
    if maxInputChars > 0 then TruncateAll(inputs, maxInputChars) else inputs
  }

  /** The state at the head of the loop. */
  ghost predicate InLoop(t: Trace, next: seq<Text>, attempt: int, truncateRetries: int, first: seq<Text>, original: seq<Text>,
                         replies: nat -> Reply, shrink: nat -> nat) {
    && t.retries == attempt && t.truncations == truncateRetries <= MAX_TRUNCATE_RETRIES
    && Running(t, next, first, original, replies, shrink)
  }

  /** One request and what the loop body makes of its reply. */
  method SendOnce(t: Trace, next: seq<Text>, attempt: nat, truncateRetries: nat, ghost first: seq<Text>,
                  ghost original: seq<Text>, ghost cap: int, dimension: nat, replies: nat -> Reply, shrink: nat -> nat)
    returns (step: Step)
    requires AreTruncatedTo(first, original, cap)
    requires attempt <= MAX_RETRIES && InLoop(t, next, attempt, truncateRetries, first, original, replies, shrink)
    ensures step.Retry? ==>
              attempt < MAX_RETRIES && InLoop(Retried(t, next), next, attempt + 1, truncateRetries, first, original, replies, shrink)
    ensures step.Truncate? ==>
              && truncateRetries < MAX_TRUNCATE_RETRIES
              && InLoop(Truncated(t, next), step.inputs, attempt, truncateRetries + 1, first, original, replies, shrink)
    ensures step.Finish? ==>
              IsComplete(step.outcome, Finished(t, next, step.successes, step.failures), cap, original, dimension, replies, shrink)
  {
    KeepsRunning(t, next, first, original, replies, shrink);
    step := React(replies(|t.sent|), attempt, truncateRetries, next, original, dimension, shrink);
    if step.Finish? {
      Completes(t, next, first, original, dimension, replies, shrink, step.outcome, step.successes, step.failures, cap);
    }
  }

  lemma StartsLoop(inputs: seq<Text>, maxInputChars: int, replies: nat -> Reply, shrink: nat -> nat)
    ensures AreTruncatedTo(Prepared(inputs, maxInputChars), inputs, maxInputChars)
    ensures InLoop(Trace([], 0, 0, 0, 0), Prepared(inputs, maxInputChars), 0, 0, Prepared(inputs, maxInputChars), inputs, replies, shrink)
  {
    CapFirst(inputs, maxInputChars);
    TruncateAllExactly(inputs, maxInputChars);
  }

  /**
   * `embedBatchInner`. `replies(i)` is what the i-th fetch brings back and `shrink` stands for
   * `Math.floor(longest * 0.7)`; the guard around it is all that termination needs.
   */
  method EmbedBatchInner(inputs: seq<Text>, maxInputChars: int, dimension: nat, admitted: bool,
                         replies: nat -> Reply, shrink: nat -> nat)
    returns (r: Outcome, t: Trace)
    ensures !admitted ==> r == BreakerOpen && t == Trace([], 0, 0, 0, 0)
    ensures admitted ==> IsComplete(r, t, maxInputChars, inputs, dimension, replies, shrink)
  {
    t := Trace([], 0, 0, 0, 0);
    if !admitted {
      return BreakerOpen, t;
    }
    StartsLoop(inputs, maxInputChars, replies, shrink);
    var workingInputs := Prepared(inputs, maxInputChars);
    ghost var first := workingInputs;
    var truncateRetries := 0;
    var attempt := 0;
    while attempt <= MAX_RETRIES
      invariant 0 <= attempt <= MAX_RETRIES && 0 <= truncateRetries <= MAX_TRUNCATE_RETRIES
      invariant InLoop(t, workingInputs, attempt, truncateRetries, first, inputs, replies, shrink)
      decreases MAX_TRUNCATE_RETRIES - truncateRetries + MAX_RETRIES - attempt
    {
      var step := SendOnce(t, workingInputs, attempt, truncateRetries, first, inputs, maxInputChars, dimension, replies, shrink);
      match step {
        case Retry =>
          t := Retried(t, workingInputs);
        case Truncate(shorter) =>
          t := Truncated(t, workingInputs);
          workingInputs := shorter;
          truncateRetries := truncateRetries + 1;
          attempt := attempt - 1;
        case Finish(outcome, successes, failures) =>
          return outcome, Finished(t, workingInputs, successes, failures);
      }
      attempt := attempt + 1;
    }
    // The source ends with one more failure report here; it is never reached.
    assert false;
  }

  method CheckDimensions(items: seq<Option<nat>>, dimension: nat) returns (bad: Option<Option<nat>>)
    ensures bad == FirstBad(items, dimension)
  {
    for i := 0 to |items|
      invariant FirstBad(items, dimension) == FirstBad(items[i..], dimension)
    {
      if items[i] != Some(dimension) {
        return Some(items[i]);
      }
    }
    return None;
  }
}
