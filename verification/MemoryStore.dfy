/** The point store of the memory service: store, merge, delete, restore, and the decay sweep. */
module MemoryStore {
  import opened Base
  import opened CanonicalJson
  import opened Metadata

  type Id = string

  datatype Memory = Memory(
    namespace: string,
    agentId: string,
    content: Text,
    summary: Option<string>,
    metadata: Meta,
    tags: seq<string>,
    source: Option<string>,
    createdAt: int,
    updatedAt: int,
    retrievalCount: int,
    lastRetrievedAt: Option<int>,
    decayScore: real,
    supersededBy: Option<Id>,
    deletedAt: Option<int>,
    deletedBy: Option<string>)

  type Points = map<Id, Memory>

  const MS_PER_DAY := 86_400_000.0
  const DECAY_DEFAULT_SCORE := 1.0
  const DECAY_RETRIEVED_FLOOR := 0.5
  const DEDUP_REINFORCE_THRESHOLD := 0.99
  const DEDUP_DISABLED_THRESHOLD := 1.0
  const MAX_CONTENT_LENGTH := 32_000
  const MAX_TAGS := 20
  const MAX_TAG_LENGTH := 128
  const MAX_SUMMARY_LENGTH := 4_000
  const MAX_SOURCE_LENGTH := 2_000
  const SCROLL_PAGE_SIZE := 256

  function Days(since: int, now: int): real {
    (now - since) as real / MS_PER_DAY
  }

  // ---------------------------------------------------------------------------
  // What any step may do to the life of a point
  // ---------------------------------------------------------------------------

  /** Retention of a namespace: no half-life means keep-forever. */
  datatype Policy = Policy(halfLifeDays: Option<real>, softDeleteAfterDays: Option<real>, hardDeleteGraceDays: real)

  datatype Cause = Service | DecaySweep(ns: string, policy: Policy)

  predicate MayRemove(m: Memory, cause: Cause, now: int) {
    && cause.DecaySweep?
    && m.namespace == cause.ns
    && cause.policy.halfLifeDays.Some?
    && !IsImmortal(m.metadata)
    && m.deletedAt.Some?
    && Days(m.deletedAt.value, now) > cause.policy.hardDeleteGraceDays
  }

  /** A tombstone is left alone, lifted, or set to the present instant. */
  predicate TombstoneStep(before: Option<int>, after: Option<int>, now: int) {
    after == before || after == None || (before == None && after == Some(now))
  }

  /** A point stays in its namespace, and its tombstone changes lawfully. */
  predicate PointStep(before: Memory, after: Memory, now: int) {
    after.namespace == before.namespace && TombstoneStep(before.deletedAt, after.deletedAt, now)
  }

  ghost predicate LifeStep(before: Points, after: Points, now: int, cause: Cause) {
    && (forall id | id in before ::
          if id in after then PointStep(before[id], after[id], now) else MayRemove(before[id], cause, now))
    && (forall id | id in after && id !in before :: after[id].deletedAt == None)
  }

  /** One moment of a run: the points after a step, with the instant and the cause of that step. */
  datatype Moment = Moment(points: Points, now: int, cause: Cause)

  ghost predicate IsRun(run: seq<Moment>) {
    && run != [] && run[0].points == map[]
    && forall i | 0 < i < |run| :: LifeStep(run[i - 1].points, run[i].points, run[i].now, run[i].cause)
  }

  predicate TombstonedAt(run: seq<Moment>, k: nat, id: Id)
    requires k < |run|
  {
    id in run[k].points && run[k].points[id].deletedAt.Some?
  }

  /** From moment `j`, at whose instant it was tombstoned, the point has stayed tombstoned up to moment `n`. */
  ghost predicate TombstonedThroughout(run: seq<Moment>, j: nat, n: nat, id: Id)
    requires n < |run|
  {
    && 0 < j <= n
    && id in run[j - 1].points && run[j - 1].points[id].deletedAt == None
    && forall k | j <= k <= n :: TombstonedAt(run, k, id) && run[k].points[id].deletedAt == Some(run[j].now)
  }

  lemma {:induction false} TombstoneHistory(run: seq<Moment>, n: nat, id: Id) returns (j: nat)
    requires IsRun(run) && n < |run| && TombstonedAt(run, n, id)
    ensures TombstonedThroughout(run, j, n, id)
  {
    assert LifeStep(run[n - 1].points, run[n].points, run[n].now, run[n].cause);
    if TombstonedAt(run, n - 1, id) {
      j := TombstoneHistory(run, n - 1, id);
    } else {
      j := n;
    }
  }

  /**
   * In any run without operator purge, a point vanishes only in a sweep of its namespace, under a decaying
   * policy, not being immortal, and after lying tombstoned without interruption for longer than the grace period.
   */
  lemma RemovedOnlyAfterGrace(run: seq<Moment>, n: nat, id: Id) returns (j: nat)
    requires IsRun(run) && 0 < n < |run|
    requires id in run[n - 1].points && id !in run[n].points
    ensures run[n].cause.DecaySweep? && run[n].cause.policy.halfLifeDays.Some?
    ensures run[n - 1].points[id].namespace == run[n].cause.ns && !IsImmortal(run[n - 1].points[id].metadata)
    ensures TombstonedThroughout(run, j, n - 1, id)
    ensures Days(run[j].now, run[n].now) > run[n].cause.policy.hardDeleteGraceDays
  {
    assert LifeStep(run[n - 1].points, run[n].points, run[n].now, run[n].cause);
    j := TombstoneHistory(run, n - 1, id);
  }

  // ---------------------------------------------------------------------------
  // Storing
  // ---------------------------------------------------------------------------

  datatype StoreInput = StoreInput(
    namespace: string,
    agentId: string,
    content: Text,
    summary: Option<string>,
    metadata: Option<Meta>,
    tags: Option<seq<string>>,
    source: Option<string>,
    id: Option<Id>,
    supersedes: seq<Id>)

  datatype ServiceError = Invalid(field: string) | NotFound(id: Id) | RetrieveFailed

  datatype Outcome = Inserted | Reinforced | Merged

  datatype StoreResult = StoreResult(id: Id, outcome: Outcome, superseded: seq<Id>)

  /** One of the nearest points the collection returns, best first. */
  datatype Hit = Hit(id: Id, score: real)

  function OrElse<T>(o: Option<T>, default: T): T {
    if o.Some? then o.value else default
  }

  predicate TagsFit(tags: Option<seq<string>>) {
    tags.Some? ==> |tags.value| <= MAX_TAGS && forall t | t in tags.value :: |t| <= MAX_TAG_LENGTH
  }

  predicate FieldsFit(tags: Option<seq<string>>, summary: Option<string>, source: Option<string>, metadata: Option<Meta>) {
    && TagsFit(tags)
    && (summary.Some? ==> |summary.value| <= MAX_SUMMARY_LENGTH)
    && (source.Some? ==> |source.value| <= MAX_SOURCE_LENGTH)
    && (metadata.Some? ==> Bytes(metadata.value) <= MAX_METADATA_BYTES)
  }

  predicate IsValidInput(input: StoreInput) {
    && 0 < |input.content| <= MAX_CONTENT_LENGTH
    && FieldsFit(input.tags, input.summary, input.source, input.metadata)
  }

  /** An empty identifier counts as none. */
  predicate HasId(input: StoreInput) {
    input.id.Some? && input.id.value != ""
  }

  /** A new point, with the lifecycle defaults; absent metadata is stored as `{}`. */
  function Fresh(input: StoreInput, now: int): Memory {
    Memory(input.namespace, input.agentId, input.content, input.summary, OrElse(input.metadata, []),
           OrElse(input.tags, []), input.source, now, now, 0, None, DECAY_DEFAULT_SCORE, None, None, None)
  }

  predicate AreDistinct(ts: seq<string>) {
    forall i, j | 0 <= i < j < |ts| :: ts[i] != ts[j]
  }

  /** First occurrences, in order. */
  function Unique(ts: seq<string>): (r: seq<string>)
    ensures forall t :: t in r <==> t in ts
    ensures AreDistinct(r)
  {
    if ts == [] then []
    else
      var r := Unique(ts[..|ts| - 1]);
      if ts[|ts| - 1] in r then r else r + [ts[|ts| - 1]]
  }

  /** `Array.from(new Set([...a, ...b]))`. */
  function UnionTags(a: seq<string>, b: seq<string>): (r: seq<string>)
    ensures forall t :: t in r <==> t in a || t in b
    ensures AreDistinct(r)
  {
    Unique(a + b)
  }

  /** Tags that were distinct stay in front, in their order. */
  lemma {:induction false} UniqueKeepsFront(a: seq<string>, b: seq<string>)
    requires AreDistinct(a)
    ensures a <= Unique(a + b)
  {
    if b != [] {
      UniqueKeepsFront(a, b[..|b| - 1]);
      assert (a + b)[..|a + b| - 1] == a + b[..|b| - 1];
    } else {
      assert a + b == a;
      DistinctIsUnique(a);
    }
  }

  lemma {:induction false} DistinctIsUnique(a: seq<string>)
    requires AreDistinct(a)
    ensures Unique(a) == a
  {
    if a != [] {
      DistinctIsUnique(a[..|a| - 1]);
      assert a == a[..|a| - 1] + [a[|a| - 1]];
    }
  }

  function ReinforcedPoint(m: Memory, now: int): Memory {
    m.(retrievalCount := m.retrievalCount + 1, lastRetrievedAt := Some(now))
  }

  /** The content of a merged point never changes; the new content goes to the history. */
  function MergedPoint(m: Memory, input: StoreInput, now: int): Memory {
    m.(tags := UnionTags(m.tags, OrElse(input.tags, [])),
       metadata := Capped(m.metadata, NextHistory(m.metadata, input.content)),
       retrievalCount := m.retrievalCount + 1,
       updatedAt := now)
  }

  /** A merged point, field by field: tags united, history extended, one more retrieval, and nothing else but the date. */
  ghost predicate IsMergedPoint(before: Memory, input: StoreInput, now: int, after: Memory) {
    && IsMerged(before.metadata, input.content, after.metadata)
    && (forall t :: t in after.tags <==> t in before.tags || (input.tags.Some? && t in input.tags.value))
    && AreDistinct(after.tags) && (AreDistinct(before.tags) ==> before.tags <= after.tags)
    && after.retrievalCount == before.retrievalCount + 1 && after.updatedAt == now
    && after.(tags := before.tags, metadata := before.metadata, retrievalCount := before.retrievalCount,
              updatedAt := before.updatedAt) == before
  }

  lemma MergedIs(m: Memory, input: StoreInput, now: int)
    ensures IsMergedPoint(m, input, now, MergedPoint(m, input, now))
  {
    MergeIs(m.metadata, input.content);
    if AreDistinct(m.tags) {
      UniqueKeepsFront(m.tags, OrElse(input.tags, []));
    }
  }

  predicate IsReinforcedPoint(before: Memory, now: int, after: Memory) {
    && after.retrievalCount == before.retrievalCount + 1 && after.lastRetrievedAt == Some(now)
    && after.(retrievalCount := before.retrievalCount, lastRetrievedAt := before.lastRetrievedAt) == before
  }

  /** A new point, field by field: what was given, the two dates, and the lifecycle defaults. */
  predicate IsFreshPoint(input: StoreInput, now: int, after: Memory) {
    && after.namespace == input.namespace && after.agentId == input.agentId && after.content == input.content
    && after.summary == input.summary && after.source == input.source
    && after.metadata == (if input.metadata.Some? then input.metadata.value else [])
    && after.tags == (if input.tags.Some? then input.tags.value else [])
    && after.createdAt == now && after.updatedAt == now
    && after.retrievalCount == 0 && after.lastRetrievedAt == None && after.decayScore == 1.0
    && after.supersededBy == None && after.deletedAt == None && after.deletedBy == None
  }

  /** Each field of an update: the new value where one is given, the old one elsewhere. */
  predicate IsUpdatedPoint(before: Memory, summary: Option<string>, metadata: Option<Meta>, tags: Option<seq<string>>,
                           source: Option<string>, now: int, after: Memory) {
    && (summary.Some? ==> after.summary == summary) && (summary.None? ==> after.summary == before.summary)
    && (metadata.Some? ==> after.metadata == metadata.value) && (metadata.None? ==> after.metadata == before.metadata)
    && (tags.Some? ==> after.tags == tags.value) && (tags.None? ==> after.tags == before.tags)
    && (source.Some? ==> after.source == source) && (source.None? ==> after.source == before.source)
    && after.updatedAt == now
    && after.(summary := before.summary, metadata := before.metadata, tags := before.tags, source := before.source,
              updatedAt := before.updatedAt) == before
  }

  /** Fields that are given replace the old ones; nothing else but the time of the update changes. */
  function Updated(m: Memory, summary: Option<string>, metadata: Option<Meta>, tags: Option<seq<string>>,
                   source: Option<string>, now: int): Memory {
    m.(summary := if summary.Some? then summary else m.summary,
       metadata := OrElse(metadata, m.metadata),
       tags := OrElse(tags, m.tags),
       source := if source.Some? then source else m.source,
       updatedAt := now)
  }

  predicate IsLive(m: Memory) {
    m.deletedAt.None? && m.supersededBy.None?
  }

  /** The best hit that is neither tombstoned nor superseded. */
  function BestLive(points: Points, hits: seq<Hit>): Option<Hit> {
    if hits == [] then None
    else if hits[0].id in points && IsLive(points[hits[0].id]) then Some(hits[0])
    else BestLive(points, hits[1..])
  }

  /** A hit on a stored point that is neither tombstoned nor superseded. */
  predicate IsLiveHit(points: Points, h: Hit) {
    h.id in points && points[h.id].deletedAt == None && points[h.id].supersededBy == None
  }

  /** The first such hit is found, and none only when there is none. */
  lemma {:induction false} BestLiveIs(points: Points, hits: seq<Hit>)
    ensures BestLive(points, hits).None? <==> forall h | h in hits :: !IsLiveHit(points, h)
    ensures BestLive(points, hits).Some? ==>
              exists i :: 0 <= i < |hits| && hits[i] == BestLive(points, hits).value && IsLiveHit(points, hits[i])
                          && forall j | 0 <= j < i :: !IsLiveHit(points, hits[j])
  {
    if hits != [] {
      BestLiveIs(points, hits[1..]);
      assert hits == [hits[0]] + hits[1..];
      if IsLiveHit(points, hits[0]) {
        assert hits[0] in hits;
      } else if BestLive(points, hits[1..]).Some? {
        var i :| 0 <= i < |hits[1..]| && hits[1..][i] == BestLive(points, hits[1..]).value && IsLiveHit(points, hits[1..][i])
                 && forall j | 0 <= j < i :: !IsLiveHit(points, hits[1..][j]);
        assert hits[i + 1] == hits[1..][i];
        assert forall j | 0 < j < i + 1 :: hits[j] == hits[1..][j - 1];
      }
    }
  }

  /** Whether the collection answers the retrieve of the superseded points, and which of the marks it accepts. */
  datatype MarkReply = MarkReply(retrieves: bool, accepts: Id -> bool)

  /** A point named as superseded, other than the new one: only these are retrieved. */
  predicate HasTargets(input: StoreInput, newId: Id) {
    exists x :: x in input.supersedes && x != newId
  }

  /** The existing points of the namespace that a new point supersedes and whose mark is accepted. */
  predicate IsSuperseded(points: Points, input: StoreInput, newId: Id, reply: MarkReply, x: Id) {
    && x in input.supersedes && x != newId && x in points && points[x].namespace == input.namespace
    && reply.retrieves && reply.accepts(x)
  }

  function Marked(points: Points, input: StoreInput, newId: Id, reply: MarkReply): Points {
    map x | x in points ::
      if IsSuperseded(points, input, newId, reply, x) then points[x].(supersededBy := Some(newId)) else points[x]
  }

  predicate MayMark(points: Points, ns: string, accepts: Id -> bool, x: Id) {
    x in points && points[x].namespace == ns && accepts(x)
  }

  function WithMarks(points: Points, marked: seq<Id>, newId: Id): Points {
    map x | x in points :: if x in marked then points[x].(supersededBy := Some(newId)) else points[x]
  }

  lemma OneMoreMark(points: Points, marked: seq<Id>, newId: Id, id: Id)
    requires id in points
    ensures WithMarks(points, marked + [id], newId)
         == WithMarks(points, marked, newId)[id := WithMarks(points, marked, newId)[id].(supersededBy := Some(newId))]
  {
  }

  ghost predicate MetadataBounded(points: Points) {
    forall id | id in points :: Bytes(points[id].metadata) <= MAX_METADATA_BYTES
  }

  /** Replacing one point by another that keeps or sets its tombstone lawfully is a lawful step. */
  lemma OnePointStep(points: Points, id: Id, m: Memory, now: int)
    requires if id in points then PointStep(points[id], m, now) else m.deletedAt == None
    ensures LifeStep(points, points[id := m], now, Service)
  {
  }

  lemma MarkedStep(before: Points, points: Points, input: StoreInput, newId: Id, reply: MarkReply, now: int)
    requires LifeStep(before, points, now, Service) && MetadataBounded(points)
    ensures LifeStep(before, Marked(points, input, newId, reply), now, Service)
    ensures MetadataBounded(Marked(points, input, newId, reply))
  {
  }

  lemma MergeFits(m: Memory, input: StoreInput, now: int)
    requires Bytes(m.metadata) <= MAX_METADATA_BYTES
    ensures Bytes(MergedPoint(m, input, now).metadata) <= MAX_METADATA_BYTES
    ensures IsImmortal(MergedPoint(m, input, now).metadata) <==> IsImmortal(m.metadata)
  {
    CappedFits(m.metadata, NextHistory(m.metadata, input.content));
    CappedKeepsOthers(m.metadata, NextHistory(m.metadata, input.content), IMMORTAL_KEY);
  }

  lemma EmptyMetadataFits()
    ensures Bytes([]) <= MAX_METADATA_BYTES
  {
    BytesAreWeight([]);
  }

  function StoreId(input: StoreInput, newId: Id): Id {
    if input.id.Some? && input.id.value != "" then input.id.value else newId
  }

  predicate IsRejected(points: Points, input: StoreInput) {
    || !IsValidInput(input)
    || (&& input.id.Some? && input.id.value != ""
        && input.id.value in points && points[input.id.value].namespace != input.namespace)
  }

  function DedupOutcome(points: Points, input: StoreInput, hits: seq<Hit>, threshold: real): Outcome {
    var top := BestLive(points, hits);
    if (input.id.Some? && input.id.value != "") || threshold >= DEDUP_DISABLED_THRESHOLD || top.None? || top.value.score <= threshold then Inserted
    else if top.value.score > DEDUP_REINFORCE_THRESHOLD then Reinforced
    else Merged
  }

  /** All that a store does: the answer and the new points, for every outcome and every failure. */
  ghost predicate IsStored(before: Points, after: Points, input: StoreInput, newId: Id, hits: seq<Hit>, threshold: real,
                           reply: MarkReply, now: int, r: Result<StoreResult, ServiceError>) {
    var (id, outcome) := (StoreId(input, newId), DedupOutcome(before, input, hits, threshold));
    if IsRejected(before, input) then r.Err? && r.error.Invalid? && after == before
    else if outcome == Inserted then IsInserted(before, after, input, id, reply, now, r)
    else
      var target := BestLive(before, hits);
      && target.Some? && target.value.id in before && r == Ok(StoreResult(target.value.id, outcome, []))
      && target.value.id in after
      && (outcome == Reinforced ==> IsReinforcedPoint(before[target.value.id], now, after[target.value.id]))
      && (outcome == Merged ==> IsMergedPoint(before[target.value.id], input, now, after[target.value.id]))
      && after == before[target.value.id :=
           if outcome == Reinforced then ReinforcedPoint(before[target.value.id], now)
           else MergedPoint(before[target.value.id], input, now)]
  }

  ghost predicate IsInserted(before: Points, after: Points, input: StoreInput, id: Id, reply: MarkReply, now: int,
                             r: Result<StoreResult, ServiceError>) {
    var landed := before[id := Fresh(input, now)];
    && IsFreshPoint(input, now, landed[id])
    && (HasTargets(input, id) && !reply.retrieves ==> r == Err(RetrieveFailed) && after == landed)
    && (!HasTargets(input, id) || reply.retrieves ==>
          && r.Ok? && r.value.id == id && r.value.outcome == Inserted && after == Marked(landed, input, id, reply)
          && forall x :: x in r.value.superseded <==> IsSuperseded(landed, input, id, reply, x))
  }

  class MemoryService {
    var points: Points

    ghost predicate Valid()
      reads this
    {
      MetadataBounded(points)
    }

    constructor ()
      ensures Valid() && points == map[]
    {
      points := map[];
    }

    /**
     * `store`. The embedding search is represented by its answer `hits`, `newId` is a fresh identifier. When the
     * superseded points cannot be retrieved the call fails although the new point has landed.
     */
    method Store(input: StoreInput, newId: Id, hits: seq<Hit>, dedupThreshold: real, reply: MarkReply, now: int)
      returns (r: Result<StoreResult, ServiceError>)
      requires Valid() && newId !in points
      requires forall h | h in hits :: h.id in points ==> points[h.id].namespace == input.namespace
      modifies this
      ensures Valid() && LifeStep(old(points), points, now, Service)
      ensures IsStored(old(points), points, input, newId, hits, dedupThreshold, reply, now, r)
    {
      var invalid := Validate(input);
      if invalid.Some? {
        return Err(Invalid(invalid.value));
      }
      EmptyMetadataFits();
      if HasId(input) {
        if input.id.value in points && points[input.id.value].namespace != input.namespace {
          return Err(Invalid("id"));
        }
        r := Insert(input, input.id.value, reply, now);
        return;
      }
      if dedupThreshold < DEDUP_DISABLED_THRESHOLD {
        var top := SearchTopOne(hits);
        BestLiveIs(points, hits);
        if top.Some? && top.value.score > dedupThreshold {
          var existing := points[top.value.id];
          if top.value.score > DEDUP_REINFORCE_THRESHOLD {
            Replace(top.value.id, ReinforcedPoint(existing, now), now);
            return Ok(StoreResult(top.value.id, Reinforced, []));
          }
          MergeFits(existing, input, now);
          Merge(top.value.id, input, now);
          return Ok(StoreResult(top.value.id, Merged, []));
        }
      }
      r := Insert(input, newId, reply, now);
    }

    method Validate(input: StoreInput) returns (field: Option<string>)
      ensures field.None? <==> IsValidInput(input)
    {
      if |input.content| == 0 || |input.content| > MAX_CONTENT_LENGTH {
        return Some("content");
      }
      field := ValidateFields(input.tags, input.summary, input.source, input.metadata);
    }

    method ValidateFields(tags: Option<seq<string>>, summary: Option<string>, source: Option<string>, metadata: Option<Meta>)
      returns (field: Option<string>)
      ensures field.None? <==> FieldsFit(tags, summary, source, metadata)
    {
      if tags.Some? {
        if |tags.value| > MAX_TAGS {
          return Some("tags");
        }
        for i := 0 to |tags.value|
          invariant forall j | 0 <= j < i :: |tags.value[j]| <= MAX_TAG_LENGTH
        {
          if |tags.value[i]| > MAX_TAG_LENGTH {
            return Some("tags");
          }
        }
      }
      if summary.Some? && |summary.value| > MAX_SUMMARY_LENGTH {
        return Some("summary");
      }
      if source.Some? && |source.value| > MAX_SOURCE_LENGTH {
        return Some("source");
      }
      if metadata.Some? && Bytes(metadata.value) > MAX_METADATA_BYTES {
        return Some("metadata");
      }
      return None;
    }

    /** Skips tombstoned and superseded hits. */
    method SearchTopOne(hits: seq<Hit>) returns (top: Option<Hit>)
      ensures top == BestLive(points, hits)
      ensures top.Some? ==> top.value in hits && IsLiveHit(points, top.value)
      ensures top.None? ==> forall h | h in hits :: !IsLiveHit(points, h)
    {
      BestLiveIs(points, hits);
      for i := 0 to |hits|
        invariant BestLive(points, hits) == BestLive(points, hits[i..])
      {
        if hits[i].id in points && IsLive(points[hits[i].id]) {
          return Some(hits[i]);
        }
      }
      return None;
    }

    method Replace(id: Id, m: Memory, now: int)
      requires Valid() && id in points && Bytes(m.metadata) <= MAX_METADATA_BYTES
      requires m.namespace == points[id].namespace && m.deletedAt == points[id].deletedAt
      modifies this
      ensures Valid() && points == old(points)[id := m] && LifeStep(old(points), points, now, Service)
    {
      OnePointStep(points, id, m, now);
      points := points[id := m];
    }

    /** `mergeIntoExisting`: the body of the point is not touched. */
    method Merge(id: Id, input: StoreInput, now: int)
      requires Valid() && id in points
      modifies this
      ensures Valid() && LifeStep(old(points), points, now, Service)
      ensures points == old(points)[id := MergedPoint(old(points)[id], input, now)]
      ensures IsMergedPoint(old(points)[id], input, now, points[id])
    {
      var existing := points[id];
      var metadata := CapMetadataForMerge(existing.metadata, NextHistory(existing.metadata, input.content));
      var merged := existing.(tags := UnionTags(existing.tags, OrElse(input.tags, [])),
                              metadata := metadata,
                              retrievalCount := existing.retrievalCount + 1,
                              updatedAt := now);
      assert merged == MergedPoint(existing, input, now);
      MergedIs(existing, input, now);
      MergeFits(existing, input, now);
      Replace(id, merged, now);
    }

    method Insert(input: StoreInput, id: Id, reply: MarkReply, now: int) returns (r: Result<StoreResult, ServiceError>)
      requires Valid() && IsValidInput(input) && Bytes([]) <= MAX_METADATA_BYTES
      requires id in points ==> points[id].namespace == input.namespace
      modifies this
      ensures Valid() && LifeStep(old(points), points, now, Service)
      ensures IsInserted(old(points), points, input, id, reply, now, r)
    {
      OnePointStep(points, id, Fresh(input, now), now);
      points := points[id := Fresh(input, now)];
      MarkedStep(old(points), points, input, id, reply, now);
      var marked := MarkSuperseded(input, id, reply);
      r := if marked.Ok? then Ok(StoreResult(id, Inserted, marked.value)) else Err(marked.error);
    }

    /** Marks each existing point of the namespace that the new one supersedes; a rejected mark is skipped. */
    method MarkSuperseded(input: StoreInput, newId: Id, reply: MarkReply) returns (r: Result<seq<Id>, ServiceError>)
      modifies this
      ensures r.Err? <==> HasTargets(input, newId) && !reply.retrieves
      ensures r.Err? ==> r.error == RetrieveFailed && points == old(points)
      ensures r.Ok? ==>
                && points == Marked(old(points), input, newId, reply)
                && (forall x :: x in r.value <==> IsSuperseded(old(points), input, newId, reply, x))
    {
      var targets := Targets(input.supersedes, newId);
      if |targets| == 0 {
        assert !HasTargets(input, newId);
        return Ok([]);
      }
      assert targets[0] in targets;
      if !reply.retrieves {
        return Err(RetrieveFailed);
      }
      var marked := MarkAll(input.namespace, targets, newId, reply.accepts);
      return Ok(marked);
    }

    /** The loop over the retrieved points. */
    method MarkAll(ns: string, targets: seq<Id>, newId: Id, accepts: Id -> bool) returns (marked: seq<Id>)
      modifies this
      ensures points == WithMarks(old(points), marked, newId)
      ensures forall x :: x in marked <==> x in targets && MayMark(old(points), ns, accepts, x)
    {
      marked := [];
      assert points == WithMarks(points, [], newId);
      for i := 0 to |targets|
        invariant points == WithMarks(old(points), marked, newId)
        invariant forall x :: x in marked <==> x in targets[..i] && MayMark(old(points), ns, accepts, x)
      {
        var id := targets[i];
        if id in points && points[id].namespace == ns && accepts(id) {
          OneMoreMark(old(points), marked, newId, id);
          points := points[id := points[id].(supersededBy := Some(newId))];
          marked := marked + [id];
        }
      }
      assert targets[..|targets|] == targets;
    }

    static function Targets(ids: seq<Id>, newId: Id): (r: seq<Id>)
      ensures forall x :: x in r <==> x in ids && x != newId
    {
      if ids == [] then []
      else if ids[0] == newId then Targets(ids[1..], newId)
      else [ids[0]] + Targets(ids[1..], newId)
    }

    /** `fetchOwned`: another namespace's point and, by default, a tombstone are not found. */
    function Owned(ns: string, id: Id, includeDeleted: bool): Option<Memory>
      reads this
    {
      if id in points && points[id].namespace == ns && (includeDeleted || points[id].deletedAt.None?)
      then Some(points[id]) else None
    }

    method UpdateMetadata(ns: string, id: Id, summary: Option<string>, metadata: Option<Meta>,
                          tags: Option<seq<string>>, source: Option<string>, now: int)
      returns (r: Result<Memory, ServiceError>)
      requires Valid()
      modifies this
      ensures Valid() && LifeStep(old(points), points, now, Service)
      ensures r.Ok? <==> FieldsFit(tags, summary, source, metadata)
                         && id in old(points) && old(points)[id].namespace == ns && old(points)[id].deletedAt == None
      ensures r.Err? ==> points == old(points)
      ensures r.Ok? ==> points == old(points)[id := r.value]
                        && IsUpdatedPoint(old(points)[id], summary, metadata, tags, source, now, r.value)
    {
      var invalid := ValidateFields(tags, summary, source, metadata);
      if invalid.Some? {
        return Err(Invalid(invalid.value));
      }
      var existing := Owned(ns, id, false);
      if existing.None? {
        return Err(NotFound(id));
      }
      var updated := Updated(existing.value, summary, metadata, tags, source, now);
      Replace(id, updated, now);
      return Ok(updated);
    }

    /** `delete` without `includeDeleted`: a tombstone, never a removal. */
    method SoftDelete(ns: string, id: Id, deletedBy: Option<string>, now: int) returns (r: Result<(), ServiceError>)
      requires Valid()
      modifies this
      ensures Valid() && LifeStep(old(points), points, now, Service)
      ensures r.Ok? <==> id in old(points) && old(points)[id].namespace == ns && old(points)[id].deletedAt == None
      ensures points == if r.Ok? then old(points)[id := old(points)[id].(deletedAt := Some(now), deletedBy := deletedBy)]
                        else old(points)
    {
      if Owned(ns, id, false).None? {
        return Err(NotFound(id));
      }
      OnePointStep(points, id, points[id].(deletedAt := Some(now), deletedBy := deletedBy), now);
      points := points[id := points[id].(deletedAt := Some(now), deletedBy := deletedBy)];
      return Ok(());
    }

    /** `restore`: lifts the tombstone, and does nothing to a live point. */
    method Restore(ns: string, id: Id, now: int) returns (r: Result<Memory, ServiceError>)
      requires Valid()
      modifies this
      ensures Valid() && LifeStep(old(points), points, now, Service)
      ensures r.Ok? <==> id in old(points) && old(points)[id].namespace == ns
      ensures r.Ok? && old(points)[id].deletedAt.Some? ==>
                points == old(points)[id := old(points)[id].(deletedAt := None, deletedBy := None)] && r.value == points[id]
      ensures r.Ok? && old(points)[id].deletedAt.None? ==> points == old(points) && r.value == points[id]
      ensures r.Err? ==> points == old(points)
    {
      var existing := Owned(ns, id, true);
      if existing.None? {
        return Err(NotFound(id));
      }
      if existing.value.deletedAt.None? {
        return Ok(existing.value);
      }
      var m := existing.value.(deletedAt := None, deletedBy := None);
      OnePointStep(points, id, m, now);
      points := points[id := m];
      return Ok(m);
    }
  }
}
