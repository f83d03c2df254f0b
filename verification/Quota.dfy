/** Daily quota counters: reserve, release, and the refunds of the `memory_store` handler. */
module Quota {
  import opened Base
  import opened KeyedLock

  const MS_PER_DAY := 86_400_000

  /** The UTC day of an instant in milliseconds since the epoch. */
  function Day(ms: int): int {
    ms / MS_PER_DAY
  }

  datatype Kind = Write | Search

  datatype Usage = Usage(writes: int, searches: int, tokens: int)

  const NO_USAGE := Usage(0, 0, 0)

  /** What `_quota.json` holds; a missing file is a missing map entry. */
  datatype QuotaFile =
    | Corrupt
    | Counters(writes: Option<int>, searches: Option<int>, tokens: Option<int>, lastReset: int)

  datatype Caps = Caps(dailyWrites: int, dailySearches: int, dailyTokens: int, maxMemories: int)

  datatype CheckOpts = CheckOpts(caps: Caps, estimatedTokens: Option<nat>, currentCount: Option<int>)

  datatype LimitKind = DailyWrites | DailySearches | DailyEmbeddingTokens | MaxMemories

  datatype QuotaExceeded = QuotaExceeded(limit: LimitKind, used: int, cap: int)

  function OrZero(n: Option<int>): int {
    if n.Some? then n.value else 0
  }

  /** `load` and `resolveUsage`: unreadable counters and counters of another day read as zero. */
  function UsageAt(file: Option<QuotaFile>, now: int): (Usage, int) {
    if file.None? || file.value.Corrupt? || Day(file.value.lastReset) != Day(now) then (NO_USAGE, now)
    else (Usage(OrZero(file.value.writes), OrZero(file.value.searches), OrZero(file.value.tokens)), file.value.lastReset)
  }

  function Saved(u: Usage, lastReset: int): QuotaFile {
    Counters(Some(u.writes), Some(u.searches), Some(u.tokens), lastReset)
  }

  function AssertWithinQuota(kind: Kind, u: Usage, opts: CheckOpts): Option<QuotaExceeded> {
    if kind == Write && u.writes >= opts.caps.dailyWrites then
      Some(QuotaExceeded(DailyWrites, u.writes, opts.caps.dailyWrites))
    else if kind == Write && opts.currentCount.Some? && opts.currentCount.value >= opts.caps.maxMemories then
      Some(QuotaExceeded(MaxMemories, opts.currentCount.value, opts.caps.maxMemories))
    else if kind == Search && u.searches >= opts.caps.dailySearches then
      Some(QuotaExceeded(DailySearches, u.searches, opts.caps.dailySearches))
    else if opts.estimatedTokens.Some? && u.tokens + opts.estimatedTokens.value > opts.caps.dailyTokens then
      Some(QuotaExceeded(DailyEmbeddingTokens, u.tokens, opts.caps.dailyTokens))
    else None
  }

  function Tokens(estimated: Option<nat>): nat {
    if estimated.Some? then estimated.value else 0
  }

  function Incremented(u: Usage, kind: Kind, estimated: Option<nat>): Usage {
    Usage(if kind == Write then u.writes + 1 else u.writes,
          if kind == Search then u.searches + 1 else u.searches,
          u.tokens + Tokens(estimated))
  }

  function Max0(n: int): nat {
    if n < 0 then 0 else n
  }

  function Decremented(u: Usage, kind: Kind, estimated: Option<nat>): Usage {
    Usage(if kind == Write then Max0(u.writes - 1) else u.writes,
          if kind == Search then Max0(u.searches - 1) else u.searches,
          if Tokens(estimated) > 0 then Max0(u.tokens - Tokens(estimated)) else u.tokens)
  }

  datatype QuotaOp =
    | Check(kind: Kind, opts: CheckOpts, now: int)
    | Reserve(kind: Kind, opts: CheckOpts, now: int)
    | Record(kind: Kind, estimatedTokens: Option<nat>, now: int)
    | Release(kind: Kind, estimatedTokens: Option<nat>, now: int)

  /** The body each operation runs under the namespace's lock: what it saves, if anything. */
  function QuotaBody(op: QuotaOp, file: Option<QuotaFile>): Option<QuotaFile> {
    var (u, reset) := UsageAt(file, op.now);
    match op
    case Check(_, _, _) => None
    case Reserve(kind, opts, _) =>
      if AssertWithinQuota(kind, u, opts).Some? then None
      else Some(Saved(Incremented(u, kind, opts.estimatedTokens), reset))
    case Record(kind, estimated, _) => Some(Saved(Incremented(u, kind, estimated), reset))
    case Release(kind, estimated, _) => Some(Saved(Decremented(u, kind, estimated), reset))
  }

  // ---------------------------------------------------------------------------
  // The service, one operation at a time
  // ---------------------------------------------------------------------------

  class QuotaService {
    var files: map<Key, QuotaFile>

    constructor (onDisk: map<Key, QuotaFile>)
      ensures files == onDisk
    {
      files := onDisk;
    }

    function Of(ns: Key): Option<QuotaFile>
      reads this
    {
      if ns in files then Some(files[ns]) else None
    }

    method Load(ns: Key, now: int) returns (u: Usage, lastReset: int)
      ensures (u, lastReset) == UsageAt(Of(ns), now)
    {
      if ns !in files || files[ns].Corrupt? {
        return NO_USAGE, now;
      }
      var parsed := files[ns];
      if Day(parsed.lastReset) != Day(now) {
        return NO_USAGE, now;
      }
      return Usage(OrZero(parsed.writes), OrZero(parsed.searches), OrZero(parsed.tokens)), parsed.lastReset;
    }

    method CheckQuota(ns: Key, kind: Kind, opts: CheckOpts, now: int) returns (r: Option<QuotaExceeded>)
      ensures r == AssertWithinQuota(kind, UsageAt(Of(ns), now).0, opts)
    {
      var usage, _ := Load(ns, now);
      r := AssertWithinQuota(kind, usage, opts);
    }

    /** Check and consume in one go: either everything asked for is charged or nothing is. */
    method ReserveQuota(ns: Key, kind: Kind, opts: CheckOpts, now: int) returns (r: Option<QuotaExceeded>)
      modifies this
      ensures r == AssertWithinQuota(kind, UsageAt(old(Of(ns)), now).0, opts)
      ensures Of(ns) == After(QuotaBody, Reserve(kind, opts, now), old(Of(ns)))
      ensures files - {ns} == old(files) - {ns} && (r.Some? ==> files == old(files))
    {
      var usage, lastReset := Load(ns, now);
      r := AssertWithinQuota(kind, usage, opts);
      if r.Some? {
        return;
      }
      if kind == Write {
        usage := usage.(writes := usage.writes + 1);
      } else {
        usage := usage.(searches := usage.searches + 1);
      }
      if opts.estimatedTokens.Some? {
        usage := usage.(tokens := usage.tokens + opts.estimatedTokens.value);
      }
      files := files[ns := Saved(usage, lastReset)];
    }

    method ReleaseQuota(ns: Key, kind: Kind, estimated: Option<nat>, now: int)
      modifies this
      ensures Of(ns) == After(QuotaBody, Release(kind, estimated, now), old(Of(ns)))
      ensures files - {ns} == old(files) - {ns}
    {
      var usage, lastReset := Load(ns, now);
      if kind == Write {
        usage := usage.(writes := Max0(usage.writes - 1));
      } else {
        usage := usage.(searches := Max0(usage.searches - 1));
      }
      if Tokens(estimated) > 0 {
        usage := usage.(tokens := Max0(usage.tokens - Tokens(estimated)));
      }
      files := files[ns := Saved(usage, lastReset)];
    }
  }

  // ---------------------------------------------------------------------------
  // Counters stay within fixed caps, in every interleaving and across midnight
  // ---------------------------------------------------------------------------

  predicate Within(u: Usage, caps: Caps) {
    0 <= u.writes <= caps.dailyWrites && 0 <= u.searches <= caps.dailySearches && 0 <= u.tokens <= caps.dailyTokens
  }

  /** Whatever the day on which the file is read, the counters read lie between 0 and their caps. */
  ghost predicate FileWithin(file: Option<QuotaFile>, caps: Caps) {
    forall now :: Within(UsageAt(file, now).0, caps)
  }

  predicate Respects(op: QuotaOp, caps: Caps) {
    match op
    case Reserve(_, opts, _) => opts.caps == caps
    case Record(_, _, _) => false
    case _ => true
  }

  predicate AllRespect<F>(tasks: seq<Task<QuotaOp, F>>, key: Key, caps: Caps) {
    forall t | 0 <= t < |tasks| && tasks[t].key == key :: Respects(tasks[t].op, caps)
  }

  /** A request is granted exactly when, charged, it still fits the caps of everything it uses. */
  lemma GrantedExactly(kind: Kind, u: Usage, opts: CheckOpts)
    ensures AssertWithinQuota(kind, u, opts).None?
       <==> var after := Incremented(u, kind, opts.estimatedTokens);
            && (kind == Write ==> after.writes <= opts.caps.dailyWrites)
            && (kind == Write && opts.currentCount.Some? ==> opts.currentCount.value + 1 <= opts.caps.maxMemories)
            && (kind == Search ==> after.searches <= opts.caps.dailySearches)
            && (opts.estimatedTokens.Some? ==> after.tokens <= opts.caps.dailyTokens)
  {
  }

  /** A denial names a limit that one more charge would break, by the counter as it stands, and no earlier one. */
  lemma DenialNamesTheLimit(kind: Kind, u: Usage, opts: CheckOpts)
    requires AssertWithinQuota(kind, u, opts).Some?
    ensures var e, after := AssertWithinQuota(kind, u, opts).value, Incremented(u, kind, opts.estimatedTokens);
      match e.limit
      case DailyWrites => kind == Write && e.used == u.writes && e.cap == opts.caps.dailyWrites < after.writes
      case MaxMemories =>
        && kind == Write && opts.currentCount == Some(e.used) && e.cap == opts.caps.maxMemories < e.used + 1
        && after.writes <= opts.caps.dailyWrites
      case DailySearches => kind == Search && e.used == u.searches && e.cap == opts.caps.dailySearches < after.searches
      case DailyEmbeddingTokens =>
        && e.used == u.tokens && e.cap == opts.caps.dailyTokens < after.tokens
        && (kind == Write ==> after.writes <= opts.caps.dailyWrites)
        && (kind == Search ==> after.searches <= opts.caps.dailySearches)
  {
  }

  lemma BodyStaysWithin(op: QuotaOp, file: Option<QuotaFile>, caps: Caps)
    requires FileWithin(file, caps) && Respects(op, caps)
    ensures FileWithin(After(QuotaBody, op, file), caps)
  {
    var (u, reset) := UsageAt(file, op.now);
    assert Within(UsageAt(file, op.now).0, caps);
    assert Within(UsageAt(file, 0).0, caps) && Within(UsageAt(file, MS_PER_DAY).0, caps);
    assert Within(NO_USAGE, caps);
  }

  lemma {:induction false} SequentialStaysWithin(tasks: seq<Task<QuotaOp, QuotaFile>>, n: nat, key: Key, file: Option<QuotaFile>, caps: Caps)
    requires n <= |tasks| && FileWithin(file, caps)
    requires AllRespect(tasks, key, caps)
    ensures FileWithin(Sequential(tasks, n, key, file, QuotaBody), caps)
  {
    if n > 0 {
      SequentialStaysWithin(tasks, n - 1, key, file, caps);
      if tasks[n - 1].key == key {
        BodyStaysWithin(tasks[n - 1].op, Sequential(tasks, n - 1, key, file, QuotaBody), caps);
      }
    }
  }

  /** Concurrent reserves and releases never take a counter below 0 or above its cap. */
  lemma ConcurrentQuota(files: map<Key, QuotaFile>, steps: seq<Step<QuotaOp>>, key: Key, caps: Caps)
    requires IsRun(Start<QuotaOp, QuotaFile>(files), steps, QuotaBody, false)
    requires FileWithin(if key in files then Some(files[key]) else None, caps)
    requires AllRespect(Final(Start<QuotaOp, QuotaFile>(files), steps, QuotaBody, false).tasks, key, caps)
    ensures FileWithin(FileOf(Final(Start<QuotaOp, QuotaFile>(files), steps, QuotaBody, false), key), caps)
  {
    StartIsFine<QuotaOp, QuotaFile>(files, QuotaBody, false);
    EveryRun(Start<QuotaOp, QuotaFile>(files), steps, files, QuotaBody, false);
    var s := Final(Start<QuotaOp, QuotaFile>(files), steps, QuotaBody, false);
    var file := if key in files then Some(files[key]) else None;
    assert FileOf(s, key) == Sequential(s.tasks, |s.tasks|, key, file, QuotaBody);
    SequentialStaysWithin(s.tasks, |s.tasks|, key, file, caps);
  }

  // ---------------------------------------------------------------------------
  // The memory_store handler: one charge per call answered `inserted`
  // ---------------------------------------------------------------------------

  /** How `service.store` ended; it may throw after its new point has landed. */
  datatype StoreOutcome = Inserted | Reinforced | Merged | Threw(landed: bool)

  datatype Response = QuotaDenied(error: QuotaExceeded) | Answered(outcome: StoreOutcome) | Failed

  /** `Math.ceil((content.length + metadataBytes) / 4)`. */
  function EstimatedTokens(contentLength: nat, metadataBytes: nat): (n: nat)
    ensures 4 * (n - 1) < contentLength + metadataBytes <= 4 * n
  {
    (contentLength + metadataBytes + 3) / 4
  }

  /** What becomes of the quota file when a reserve or release that may itself reject is tried on it. */
  function Tried(op: QuotaOp, file: Option<QuotaFile>, rejects: bool): Option<QuotaFile> {
    if rejects then file else After(QuotaBody, op, file)
  }

  /**
   * The handler around one store, with nothing else touching the namespace meanwhile; the reserve and the
   * release may each reject without writing. Unless the release rejects, the file ends with the
   * reservation exactly when the answer is `inserted`. A store that threw is refunded even if its point
   * has landed, and a rejected release is not tried again.
   */
  method HandleStore(service: QuotaService, ns: Key, caps: Option<Caps>, contentLength: nat, metadataBytes: nat,
                     currentCount: Option<int>, outcome: StoreOutcome, reserveClock: int, refundClock: int,
                     reserveRejects: bool, releaseRejects: bool)
    returns (r: Response)
    modifies service
    ensures caps.None? ==> service.files == old(service.files) && r == if outcome.Threw? then Failed else Answered(outcome)
    ensures var tokens := Some(EstimatedTokens(contentLength, metadataBytes));
      caps.Some? ==>
        var reserve := Reserve(Write, CheckOpts(caps.value, tokens, currentCount), reserveClock);
        var denied := AssertWithinQuota(Write, UsageAt(old(service.Of(ns)), reserveClock).0, reserve.opts);
        var reserved := After(QuotaBody, reserve, old(service.Of(ns)));
        if reserveRejects then r == Failed && service.files == old(service.files)
        else if denied.Some? then r == QuotaDenied(denied.value) && service.files == old(service.files)
        else
          && service.Of(ns) == (if outcome == Inserted then reserved
                                else Tried(Release(Write, tokens, refundClock), reserved, releaseRejects))
          && r == if outcome.Threw? || (outcome != Inserted && releaseRejects) then Failed else Answered(outcome)
    ensures service.files - {ns} == old(service.files) - {ns}
  {
    var reservedTokens: Option<nat> := None;
    if caps.Some? {
      var estimated := EstimatedTokens(contentLength, metadataBytes);
      if reserveRejects {
        return Failed;
      }
      var error := service.ReserveQuota(ns, Write, CheckOpts(caps.value, Some(estimated), currentCount), reserveClock);
      if error.Some? {
        return QuotaDenied(error.value);
      }
      reservedTokens := Some(estimated);
    }
    var compensated := false;
    var threw := outcome.Threw?;
    if !threw {
      if outcome != Inserted {
        threw, compensated := ReleaseReservation(service, ns, reservedTokens, compensated, refundClock, releaseRejects);
      }
      if !threw {
        return Answered(outcome);
      }
    }
    // The `catch` block.
    threw, compensated := ReleaseReservation(service, ns, reservedTokens, compensated, refundClock, releaseRejects);
    return Failed;
  }

  /** `releaseReservation`: at most one release per request, tried or not. */
  method ReleaseReservation(service: QuotaService, ns: Key, reservedTokens: Option<nat>, compensated: bool, now: int, rejects: bool)
    returns (threw: bool, compensated': bool)
    modifies service
    ensures compensated' == (compensated || reservedTokens.Some?)
    ensures threw == (reservedTokens.Some? && !compensated && rejects)
    ensures reservedTokens.Some? && !compensated ==>
              service.Of(ns) == Tried(Release(Write, reservedTokens, now), old(service.Of(ns)), rejects)
    ensures reservedTokens.None? || compensated ==> service.files == old(service.files)
    ensures service.files - {ns} == old(service.files) - {ns}
  {
    if reservedTokens.None? || compensated {
      return false, compensated;
    }
    if rejects {
      return true, true;
    }
    service.ReleaseQuota(ns, Write, reservedTokens, now);
    return false, true;
  }

  // ---------------------------------------------------------------------------
  // Many requests, interleaved
  // ---------------------------------------------------------------------------

  datatype Meter = Writes | Searches | EmbeddingTokens

  function Read(u: Usage, m: Meter): int {
    match m
    case Writes => u.writes
    case Searches => u.searches
    case EmbeddingTokens => u.tokens
  }

  /** What one request costs on a meter. */
  function Cost(kind: Kind, estimated: Option<nat>, m: Meter): nat {
    match m
    case Writes => if kind == Write then 1 else 0
    case Searches => if kind == Search then 1 else 0
    case EmbeddingTokens => Tokens(estimated)
  }

  lemma IncrementedReads(u: Usage, kind: Kind, estimated: Option<nat>, m: Meter)
    ensures Read(Incremented(u, kind, estimated), m) == Read(u, m) + Cost(kind, estimated, m)
  {
  }

  lemma DecrementedReads(u: Usage, kind: Kind, estimated: Option<nat>, m: Meter)
    requires Read(u, m) >= 0
    ensures Read(Decremented(u, kind, estimated), m) == Max0(Read(u, m) - Cost(kind, estimated, m))
  {
  }

  /** The stages of a request: denied, at work, done with a new point, about to refund, refunded. */
  datatype Stage = Denied | Holding | Kept | Refunding | Refunded

  datatype Request = Request(kind: Kind, estimated: Option<nat>, day: int, stage: Stage)

  /** One namespace: its file, the requests so far and the current UTC day. */
  datatype System = System(file: Option<QuotaFile>, requests: seq<Request>, today: int)

  datatype Event =
    | Begin(kind: Kind, opts: CheckOpts, now: int)
    | StoreReturns(r: nat, inserted: bool)
    | Refund(r: nat, now: int)
    | NextDay(day: int)

  predicate Possible(s: System, e: Event) {
    match e
    case Begin(_, _, now) => Day(now) == s.today
    case StoreReturns(r, _) => r < |s.requests| && s.requests[r].stage == Holding
    case Refund(r, now) => r < |s.requests| && s.requests[r].stage == Refunding && Day(now) == s.today
    case NextDay(day) => day > s.today
  }

  function Moved(s: System, e: Event): System
    requires Possible(s, e)
  {
    match e
    case Begin(kind, opts, now) =>
      var denied := AssertWithinQuota(kind, UsageAt(s.file, now).0, opts).Some?;
      s.(file := After(QuotaBody, Reserve(kind, opts, now), s.file),
         requests := s.requests + [Request(kind, opts.estimatedTokens, s.today, if denied then Denied else Holding)])
    case StoreReturns(r, inserted) =>
      s.(requests := s.requests[r := s.requests[r].(stage := if inserted then Kept else Refunding)])
    case Refund(r, now) =>
      var request := s.requests[r];
      s.(file := After(QuotaBody, Release(request.kind, request.estimated, now), s.file),
         requests := s.requests[r := request.(stage := Refunded)])
    case NextDay(day) => s.(today := day)
  }

  /** What a request still costs the given day on a meter. */
  function Charge(r: Request, day: int, m: Meter): nat {
    if r.day == day && (r.stage == Holding || r.stage == Kept || r.stage == Refunding)
    then Cost(r.kind, r.estimated, m) else 0
  }

  /** Outstanding charges of the day on a meter. */
  function Total(rs: seq<Request>, day: int, m: Meter): nat {
    if rs == [] then 0 else Charge(rs[0], day, m) + Total(rs[1..], day, m)
  }

  lemma {:induction false} TotalUpdate(rs: seq<Request>, i: nat, r: Request, day: int, m: Meter)
    requires i < |rs|
    ensures Total(rs[i := r], day, m) + Charge(rs[i], day, m) == Total(rs, day, m) + Charge(r, day, m)
    ensures Total(rs, day, m) >= Charge(rs[i], day, m)
  {
    if i == 0 {
      assert rs[i := r][1..] == rs[1..];
    } else {
      TotalUpdate(rs[1..], i - 1, r, day, m);
      assert rs[i := r][1..] == rs[1..][i - 1 := r];
    }
  }

  lemma {:induction false} TotalAppend(rs: seq<Request>, r: Request, day: int, m: Meter)
    ensures Total(rs + [r], day, m) == Total(rs, day, m) + Charge(r, day, m)
  {
    if rs != [] {
      assert (rs + [r])[1..] == rs[1..] + [r];
      TotalAppend(rs[1..], r, day, m);
    }
  }

  lemma {:induction false} NothingYet(rs: seq<Request>, day: int, m: Meter)
    requires forall i | 0 <= i < |rs| :: rs[i].day < day
    ensures Total(rs, day, m) == 0
  {
    if rs != [] {
      NothingYet(rs[1..], day, m);
    }
  }

  /** The counter as anyone reads it during `day`. */
  function ReadOn(file: Option<QuotaFile>, day: int, m: Meter): int {
    Read(UsageAt(file, day * MS_PER_DAY).0, m)
  }

  lemma ReadAnyTime(file: Option<QuotaFile>, now: int, m: Meter)
    ensures Read(UsageAt(file, now).0, m) == ReadOn(file, Day(now), m)
  {
    assert Day(Day(now) * MS_PER_DAY) == Day(now);
  }

  /** What is saved reads back on its own UTC day, and as zero on every other day. */
  lemma SavedReads(u: Usage, reset: int, day: int, m: Meter)
    ensures ReadOn(Some(Saved(u, reset)), day, m) == if day == Day(reset) then Read(u, m) else 0
  {
    assert Day(day * MS_PER_DAY) == day;
  }

  /** What any file reads as: its counters on its own day, a missing one as zero; nothing on other days, or when unreadable. */
  lemma FileReads(file: Option<QuotaFile>, day: int, m: Meter)
    ensures match file
            case None => ReadOn(file, day, m) == 0
            case Some(Corrupt) => ReadOn(file, day, m) == 0
            case Some(Counters(writes, searches, tokens, lastReset)) =>
              var counter := match m case Writes => writes case Searches => searches case EmbeddingTokens => tokens;
              ReadOn(file, day, m) == if day == Day(lastReset) && counter.Some? then counter.value else 0
  {
    assert Day(day * MS_PER_DAY) == day;
  }

  /** A file counts for one day at most: at all other times every counter reads zero. */
  lemma OneDayAtMost(file: Option<QuotaFile>, now: int, later: int, m: Meter, n: Meter)
    requires Read(UsageAt(file, now).0, m) != 0 && Read(UsageAt(file, later).0, n) != 0
    ensures Day(now) == Day(later)
  {
  }

  /** The day a file counts for never lies ahead. */
  predicate NotAhead(s: System) {
    && (forall i | 0 <= i < |s.requests| :: s.requests[i].day <= s.today)
    && (s.file.Some? && s.file.value.Counters? ==> Day(s.file.value.lastReset) <= s.today)
  }

  function Counter(s: System, m: Meter): int {
    ReadOn(s.file, s.today, m)
  }

  function Outstanding(s: System, m: Meter): nat {
    Total(s.requests, s.today, m)
  }

  /** No counter exceeds what is outstanding. */
  predicate Balanced(s: System, m: Meter) {
    0 <= Counter(s, m) <= Outstanding(s, m)
  }

  predicate Exact(s: System, m: Meter) {
    Counter(s, m) == Outstanding(s, m)
  }

  /** A refund of an earlier day's reservation that takes something from today's counter. */
  predicate Undercharges(s: System, e: Event, m: Meter)
    requires Possible(s, e)
  {
    && e.Refund?
    && s.requests[e.r].day != s.today
    && Cost(s.requests[e.r].kind, s.requests[e.r].estimated, m) != 0
    && Counter(s, m) != 0
  }

  /**
   * How far the counter lags behind what is outstanding: a refund of an earlier day's reservation adds what it
   * takes from today's counter, a refund of today's takes off what the clamp at 0 spares, midnight clears it.
   */
  function DriftAfter(s: System, e: Event, m: Meter, drift: int): int
    requires Possible(s, e)
  {
    match e
    case NextDay(_) => 0
    case Refund(r, _) =>
      var cost, counter := Cost(s.requests[r].kind, s.requests[r].estimated, m), Counter(s, m);
      if s.requests[r].day != s.today then drift + (if cost < counter then cost else counter)
      else drift - Max0(cost - counter)
    case _ => drift
  }

  lemma ReserveReads(file: Option<QuotaFile>, kind: Kind, opts: CheckOpts, now: int, m: Meter)
    ensures ReadOn(After(QuotaBody, Reserve(kind, opts, now), file), Day(now), m)
         == ReadOn(file, Day(now), m)
            + if AssertWithinQuota(kind, UsageAt(file, now).0, opts).Some? then 0 else Cost(kind, opts.estimatedTokens, m)
  {
    var (u, reset) := UsageAt(file, now);
    if AssertWithinQuota(kind, u, opts).None? {
      ReadAnyTime(file, now, m);
      IncrementedReads(u, kind, opts.estimatedTokens, m);
      SavedToday(file, Incremented(u, kind, opts.estimatedTokens), now, m);
    }
  }

  lemma SavedToday(file: Option<QuotaFile>, u: Usage, now: int, m: Meter)
    ensures ReadOn(Some(Saved(u, UsageAt(file, now).1)), Day(now), m) == Read(u, m)
  {
    SavedReads(u, UsageAt(file, now).1, Day(now), m);
  }

  lemma ReleaseReads(file: Option<QuotaFile>, kind: Kind, estimated: Option<nat>, now: int, m: Meter)
    requires ReadOn(file, Day(now), m) >= 0
    ensures ReadOn(After(QuotaBody, Release(kind, estimated, now), file), Day(now), m)
         == Max0(ReadOn(file, Day(now), m) - Cost(kind, estimated, m))
  {
    var (u, reset) := UsageAt(file, now);
    ReadAnyTime(file, now, m);
    DecrementedReads(u, kind, estimated, m);
    SavedToday(file, Decremented(u, kind, estimated), now, m);
  }

  /** Reserving and refunding on one day leaves every counter as it was. */
  lemma RefundUndoesReserve(file: Option<QuotaFile>, kind: Kind, opts: CheckOpts, reserveClock: int, refundClock: int, m: Meter)
    requires Day(reserveClock) == Day(refundClock) && ReadOn(file, Day(reserveClock), m) >= 0
    requires AssertWithinQuota(kind, UsageAt(file, reserveClock).0, opts).None?
    ensures ReadOn(After(QuotaBody, Release(kind, opts.estimatedTokens, refundClock),
                         After(QuotaBody, Reserve(kind, opts, reserveClock), file)), Day(refundClock), m)
         == ReadOn(file, Day(reserveClock), m)
  {
    ReserveReads(file, kind, opts, reserveClock, m);
    ReleaseReads(After(QuotaBody, Reserve(kind, opts, reserveClock), file), kind, opts.estimatedTokens, refundClock, m);
  }

  /** While counters are exact, a refund on the day of its reservation never meets the clamp at 0. */
  lemma ClampNeverFires(s: System, r: nat, now: int, m: Meter)
    requires Exact(s, m) && Possible(s, Refund(r, now)) && s.requests[r].day == s.today
    ensures Counter(Moved(s, Refund(r, now)), m) == Counter(s, m) - Cost(s.requests[r].kind, s.requests[r].estimated, m)
  {
    TotalUpdate(s.requests, r, s.requests[r], s.today, m);
    ReleaseReads(s.file, s.requests[r].kind, s.requests[r].estimated, now, m);
  }

  /**
   * From exact counters, a refund leaves them exact exactly when the reservation is of today, or costs nothing on
   * this meter, or finds the counter at 0.
   */
  lemma RefundExactly(s: System, r: nat, now: int, m: Meter)
    requires Exact(s, m) && Possible(s, Refund(r, now))
    ensures Exact(Moved(s, Refund(r, now)), m)
       <==> || s.requests[r].day == s.today
            || Cost(s.requests[r].kind, s.requests[r].estimated, m) == 0
            || Counter(s, m) == 0
  {
    TotalUpdate(s.requests, r, s.requests[r].(stage := Refunded), s.today, m);
    ReleaseReads(s.file, s.requests[r].kind, s.requests[r].estimated, now, m);
  }

  lemma BeginDrifts(s: System, kind: Kind, opts: CheckOpts, now: int, m: Meter)
    requires Counter(s, m) >= 0 && Possible(s, Begin(kind, opts, now))
    ensures var s' := Moved(s, Begin(kind, opts, now));
            Counter(s', m) - Counter(s, m) == Outstanding(s', m) - Outstanding(s, m) >= 0
  {
    var denied := AssertWithinQuota(kind, UsageAt(s.file, now).0, opts).Some?;
    TotalAppend(s.requests, Request(kind, opts.estimatedTokens, s.today, if denied then Denied else Holding), s.today, m);
    ReserveReads(s.file, kind, opts, now, m);
  }

  lemma RefundDrifts(s: System, r: nat, now: int, m: Meter, drift: int)
    requires Counter(s, m) >= 0 && Counter(s, m) + drift == Outstanding(s, m) && Possible(s, Refund(r, now))
    ensures var s' := Moved(s, Refund(r, now));
            Counter(s', m) >= 0 && Counter(s', m) + DriftAfter(s, Refund(r, now), m, drift) == Outstanding(s', m)
  {
    TotalUpdate(s.requests, r, s.requests[r].(stage := Refunded), s.today, m);
    ReleaseReads(s.file, s.requests[r].kind, s.requests[r].estimated, now, m);
  }

  lemma NextDayDrifts(s: System, day: int, m: Meter)
    requires NotAhead(s) && day > s.today
    ensures Counter(Moved(s, NextDay(day)), m) == 0 == Outstanding(Moved(s, NextDay(day)), m)
  {
    NothingYet(s.requests, day, m);
    assert Day(day * MS_PER_DAY) == day;
  }

  /** The law of the books: after any event, counter and drift together are what is outstanding. */
  lemma EventDrifts(s: System, e: Event, m: Meter, drift: int)
    requires NotAhead(s) && Possible(s, e) && Counter(s, m) >= 0 && Counter(s, m) + drift == Outstanding(s, m)
    ensures NotAhead(Moved(s, e)) && Counter(Moved(s, e), m) >= 0
    ensures Counter(Moved(s, e), m) + DriftAfter(s, e, m, drift) == Outstanding(Moved(s, e), m)
  {
    match e {
      case Begin(kind, opts, now) => BeginDrifts(s, kind, opts, now, m);
      case Refund(r, now) => RefundDrifts(s, r, now, m, drift);
      case StoreReturns(r, inserted) => TotalUpdate(s.requests, r, Moved(s, e).requests[r], s.today, m);
      case NextDay(day) => NextDayDrifts(s, day, m);
    }
  }

  /** A counter never exceeds what is outstanding. */
  lemma EventBalanced(s: System, e: Event, m: Meter)
    requires NotAhead(s) && Balanced(s, m) && Possible(s, e)
    ensures NotAhead(Moved(s, e)) && Balanced(Moved(s, e), m)
  {
    EventDrifts(s, e, m, Outstanding(s, m) - Counter(s, m));
    if e.Refund? {
      TotalUpdate(s.requests, e.r, s.requests[e.r], s.today, m);
    }
  }

  /** From exact counters, an event leaves them exact exactly when it does not undercharge. */
  lemma EventExactly(s: System, e: Event, m: Meter)
    requires NotAhead(s) && Possible(s, e) && Exact(s, m)
    ensures Exact(Moved(s, e), m) <==> !Undercharges(s, e, m)
  {
    if e.Refund? {
      RefundExactly(s, e.r, e.now, m);
    } else {
      EventDrifts(s, e, m, 0);
    }
  }

  ghost predicate IsHistory(s: System, es: seq<Event>)
    decreases |es|
  {
    es == [] || (Possible(s, es[0]) && IsHistory(Moved(s, es[0]), es[1..]))
  }

  ghost function Outcome(s: System, es: seq<Event>): System
    requires IsHistory(s, es)
    decreases |es|
  {
    if es == [] then s else Outcome(Moved(s, es[0]), es[1..])
  }

  ghost function Drift(s: System, es: seq<Event>, m: Meter, drift: int): int
    requires IsHistory(s, es)
    decreases |es|
  {
    if es == [] then drift else Drift(Moved(s, es[0]), es[1..], m, DriftAfter(s, es[0], m, drift))
  }

  /** The law of the books over every interleaving of requests, refunds and midnights. */
  lemma {:induction false} HistoryDrifts(s: System, es: seq<Event>, m: Meter, drift: int)
    requires NotAhead(s) && IsHistory(s, es) && Counter(s, m) >= 0 && Counter(s, m) + drift == Outstanding(s, m)
    ensures NotAhead(Outcome(s, es)) && Counter(Outcome(s, es), m) >= 0
    ensures Counter(Outcome(s, es), m) + Drift(s, es, m, drift) == Outstanding(Outcome(s, es), m)
    decreases |es|
  {
    if es != [] {
      EventDrifts(s, es[0], m, drift);
      HistoryDrifts(Moved(s, es[0]), es[1..], m, DriftAfter(s, es[0], m, drift));
    }
  }

  /** In every history no counter exceeds what is outstanding. */
  lemma {:induction false} HistoryBalanced(s: System, es: seq<Event>, m: Meter)
    requires NotAhead(s) && Balanced(s, m) && IsHistory(s, es)
    ensures NotAhead(Outcome(s, es)) && Balanced(Outcome(s, es), m)
    decreases |es|
  {
    if es != [] {
      EventBalanced(s, es[0], m);
      HistoryBalanced(Moved(s, es[0]), es[1..], m);
    }
  }

  ghost predicate ExactThroughout(s: System, es: seq<Event>, m: Meter)
    requires IsHistory(s, es)
    decreases |es|
  {
    Exact(s, m) && (es == [] || ExactThroughout(Moved(s, es[0]), es[1..], m))
  }

  ghost predicate NeverUndercharges(s: System, es: seq<Event>, m: Meter)
    requires IsHistory(s, es)
    decreases |es|
  {
    es == [] || (!Undercharges(s, es[0], m) && NeverUndercharges(Moved(s, es[0]), es[1..], m))
  }

  /** Counters equal outstanding reservations throughout a history exactly when no refund in it undercharges. */
  lemma {:induction false} HistoryExactly(s: System, es: seq<Event>, m: Meter)
    requires NotAhead(s) && IsHistory(s, es) && Exact(s, m)
    ensures ExactThroughout(s, es, m) <==> NeverUndercharges(s, es, m)
    ensures NeverUndercharges(s, es, m) ==> Exact(Outcome(s, es), m)
    decreases |es|
  {
    if es != [] {
      EventExactly(s, es[0], m);
      EventDrifts(s, es[0], m, 0);
      if Exact(Moved(s, es[0]), m) {
        HistoryExactly(Moved(s, es[0]), es[1..], m);
      }
    }
  }

  predicate AtRest(s: System) {
    forall i | 0 <= i < |s.requests| :: s.requests[i].stage != Holding && s.requests[i].stage != Refunding
  }

  /** Requests of the day that ended with `inserted`. */
  function KeptCount(rs: seq<Request>, kind: Kind, day: int): nat {
    if rs == [] then 0
    else (if rs[0].stage == Kept && rs[0].kind == kind && rs[0].day == day then 1 else 0) + KeptCount(rs[1..], kind, day)
  }

  lemma {:induction false} TotalIsKept(rs: seq<Request>, day: int)
    requires forall i | 0 <= i < |rs| :: rs[i].stage != Holding && rs[i].stage != Refunding
    ensures Total(rs, day, Writes) == KeptCount(rs, Write, day)
  {
    if rs != [] {
      TotalIsKept(rs[1..], day);
    }
  }

  function Opening(today: int): System {
    System(None, [], today)
  }

  /**
   * Whatever the interleaving: once every request has finished, today's write counter and its drift add up to the
   * calls granted today that returned `inserted`; without an undercharging refund the counter is that number.
   */
  lemma WritesAreInsertions(today: int, es: seq<Event>, s: System)
    requires IsHistory(Opening(today), es) && s == Outcome(Opening(today), es) && AtRest(s)
    ensures Counter(s, Writes) + Drift(Opening(today), es, Writes, 0) == KeptCount(s.requests, Write, s.today)
    ensures NeverUndercharges(Opening(today), es, Writes) ==> Counter(s, Writes) == KeptCount(s.requests, Write, s.today)
  {
    HistoryDrifts(Opening(today), es, Writes, 0);
    HistoryExactly(Opening(today), es, Writes);
    TotalIsKept(s.requests, s.today);
  }

  /**
   * A refund that crosses midnight takes back a charge of the new day instead of its own: from exact counters,
   * with one insertion today, the write counter falls to 0.
   */
  lemma MidnightRefundUndercounts(file: Option<QuotaFile>, today: int, now: int)
    requires Day(now) == today && ReadOn(file, today, Writes) == 1
    ensures var s := System(file, [Request(Write, None, today - 1, Refunding), Request(Write, None, today, Kept)], today);
      && Exact(s, Writes) && Possible(s, Refund(0, now)) && Undercharges(s, Refund(0, now), Writes)
      && Counter(Moved(s, Refund(0, now)), Writes) == 0
      && KeptCount(Moved(s, Refund(0, now)).requests, Write, today) == 1
  {
    var late, done := Request(Write, None, today - 1, Refunding), Request(Write, None, today, Kept);
    var s := System(file, [late, done], today);
    ReleaseReads(file, Write, None, now, Writes);
    assert [late, done][1..] == [done] && [done][1..] == [];
    assert Moved(s, Refund(0, now)).requests == [late.(stage := Refunded), done];
    assert [late.(stage := Refunded), done][1..] == [done];
    assert Total([done], today, Writes) == 1 && KeptCount([done], Write, today) == 1;
  }
}
