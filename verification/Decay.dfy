/** The decay sweep: a paged scan that plans its writes, then applies them; equal to a pointwise sweep. */
module Decay {
  import opened Base
  import opened CanonicalJson
  import opened Metadata
  import opened MemoryStore

  /**
   * One sweep: namespace, policy, instant, the half-life curve `0.5 ** x` (left abstract), and which
   * best-effort writes the collection accepts.
   */
  datatype Sweep = Sweep(
    ns: string,
    policy: Policy,
    now: int,
    halve: real -> real,
    writable: Id -> bool,
    deletable: bool)

  function Clamp(x: real): real {
    if x < 0.0 then 0.0 else if x > 1.0 then 1.0 else x
  }

  /** Days since the last retrieval, or since creation. */
  function Age(m: Memory, now: int): real {
    Days(if m.lastRetrievedAt.Some? then m.lastRetrievedAt.value else m.createdAt, now)
  }

  function DecayOf(m: Memory, s: Sweep): real
    requires s.policy.halfLifeDays.Some? && s.policy.halfLifeDays.value > 0.0
  {
    var decay := Clamp(s.halve(Age(m, s.now) / s.policy.halfLifeDays.value));
    if m.retrievalCount > 0 && decay < DECAY_RETRIEVED_FLOOR then DECAY_RETRIEVED_FLOOR else decay
  }

  predicate IsScored(m: Memory) {
    !IsImmortal(m.metadata) && m.deletedAt.None?
  }

  predicate IsSoftDeleted(m: Memory, s: Sweep) {
    && IsScored(m)
    && s.policy.softDeleteAfterDays.Some?
    && m.retrievalCount == 0
    && Age(m, s.now) > s.policy.softDeleteAfterDays.value
  }

  predicate IsPastGrace(m: Memory, s: Sweep) {
    && !IsImmortal(m.metadata)
    && m.deletedAt.Some?
    && Days(m.deletedAt.value, s.now) > s.policy.hardDeleteGraceDays
  }

  predicate Decays(s: Sweep) {
    s.policy.halfLifeDays.Some? && s.policy.halfLifeDays.value > 0.0
  }

  function Rescored(m: Memory, s: Sweep): Memory
    requires Decays(s)
  {
    m.(decayScore := DecayOf(m, s), deletedAt := if IsSoftDeleted(m, s) then Some(s.now) else m.deletedAt)
  }

  /** What a sweep does to one point: None when it is physically removed. */
  function SweptPoint(id: Id, m: Memory, s: Sweep): Option<Memory>
    requires Decays(s)
  {
    if m.namespace != s.ns then Some(m)
    else if IsPastGrace(m, s) then (if s.deletable then None else Some(m))
    else if IsScored(m) && s.writable(id) then Some(Rescored(m, s))
    else Some(m)
  }

  function Swept(points: Points, s: Sweep): Points
    requires Decays(s)
  {
    map id | id in points && SweptPoint(id, points[id], s).Some? :: SweptPoint(id, points[id], s).value
  }

  /** The one way in which repeating a sweep at the same instant matters: it removes what it has just tombstoned. */
  predicate RemovedNext(id: Id, m: Memory, s: Sweep) {
    && m.namespace == s.ns && IsSoftDeleted(m, s) && s.writable(id) && s.deletable
    && s.policy.hardDeleteGraceDays < 0.0
  }

  lemma SweepAgain(id: Id, m: Memory, s: Sweep)
    requires Decays(s) && SweptPoint(id, m, s).Some?
    ensures SweptPoint(id, SweptPoint(id, m, s).value, s) == SweptPoint(id, m, s) <==> !RemovedNext(id, m, s)
  {
    assert Days(s.now, s.now) == 0.0;
  }

  /** Repeating a sweep at the same instant, with the same writes failing, changes nothing exactly when it removes nothing. */
  lemma SweepTwice(points: Points, s: Sweep)
    requires Decays(s)
    ensures Swept(Swept(points, s), s) == Swept(points, s) <==> forall id | id in points :: !RemovedNext(id, points[id], s)
  {
    var once := Swept(points, s);
    forall id | id in once ensures SweptPoint(id, once[id], s) == Some(once[id]) <==> !RemovedNext(id, points[id], s) {
      SweepAgain(id, points[id], s);
    }
    if id :| id in points && RemovedNext(id, points[id], s) {
      assert id in once;
      assert id in Swept(once, s) ==> Swept(once, s)[id] == SweptPoint(id, once[id], s).value;
    }
  }

  lemma SweepIsIdempotent(points: Points, s: Sweep)
    requires Decays(s) && s.policy.hardDeleteGraceDays >= 0.0
    ensures Swept(Swept(points, s), s) == Swept(points, s)
  {
    SweepTwice(points, s);
  }

  /** A sweep is a lawful step in the life of every point, and bounds metadata as before. */
  lemma SweptStep(points: Points, s: Sweep)
    requires Decays(s)
    ensures LifeStep(points, Swept(points, s), s.now, DecaySweep(s.ns, s.policy))
    ensures MetadataBounded(points) ==> MetadataBounded(Swept(points, s))
  {
  }

  /** Decay scores stay in [0, 1], and a retrieved memory never falls below the floor. */
  lemma ScoresStayInRange(points: Points, s: Sweep, id: Id)
    requires Decays(s) && id in Swept(points, s) && 0.0 <= points[id].decayScore <= 1.0
    ensures 0.0 <= Swept(points, s)[id].decayScore <= 1.0
    ensures points[id].namespace == s.ns && IsScored(points[id]) && s.writable(id) && points[id].retrievalCount > 0 ==>
              Swept(points, s)[id].decayScore >= DECAY_RETRIEVED_FLOOR
  {
  }

  /** With a falling half-life curve, the memory idle for longer never scores higher. */
  lemma OlderScoresLower(younger: Memory, older: Memory, s: Sweep)
    requires Decays(s) && forall x, y | x <= y :: s.halve(x) >= s.halve(y)
    requires Age(younger, s.now) <= Age(older, s.now)
    requires older.retrievalCount > 0 ==> younger.retrievalCount > 0
    ensures DecayOf(younger, s) >= DecayOf(older, s)
  {
    var h, a, b := s.policy.halfLifeDays.value, Age(younger, s.now), Age(older, s.now);
    Divide(a, b, h);
    assert s.halve(a / h) >= s.halve(b / h);
  }

  lemma Divide(a: real, b: real, h: real)
    requires a <= b && h > 0.0
    ensures a / h <= b / h
  {
    assert b / h - a / h == (b - a) / h;
  }

  // ---------------------------------------------------------------------------
  // A sweep, read off the records
  // ---------------------------------------------------------------------------

  /** In the namespace, and without the operator's mark. */
  predicate IsSweepable(m: Memory, s: Sweep) {
    m.namespace == s.ns && Lookup(m.metadata, IMMORTAL_KEY) != Some(Bool(true))
  }

  /** Days since the last retrieval or, before any, since creation. */
  function IdleDays(m: Memory, s: Sweep): real {
    match m.lastRetrievedAt
    case Some(at) => (s.now - at) as real / MS_PER_DAY
    case None => (s.now - m.createdAt) as real / MS_PER_DAY
  }

  /** The score for a point of the half-life curve: kept in [0, 1], and at the floor of 0.5 once retrieved. */
  predicate IsScoreFor(score: real, curve: real, retrieved: bool) {
    && (curve >= 1.0 ==> score == 1.0)
    && (0.5 <= curve <= 1.0 ==> score == curve)
    && (curve <= 0.5 && retrieved ==> score == 0.5)
    && (0.0 <= curve <= 0.5 && !retrieved ==> score == curve)
    && (curve <= 0.0 && !retrieved ==> score == 0.0)
  }

  /** What becomes of one point: who is removed, who is tombstoned, what score is given, and that no more changes. */
  predicate IsSweptPoint(id: Id, before: Memory, after: Option<Memory>, s: Sweep)
    requires Decays(s)
  {
    && (after.None? <==>
          && IsSweepable(before, s) && s.deletable && before.deletedAt.Some?
          && (s.now - before.deletedAt.value) as real / MS_PER_DAY > s.policy.hardDeleteGraceDays)
    && (after.Some? && before.deletedAt.None? ==>
          && (after.value.deletedAt.Some? <==>
                && IsSweepable(before, s) && s.writable(id)
                && before.retrievalCount == 0
                && s.policy.softDeleteAfterDays.Some? && IdleDays(before, s) > s.policy.softDeleteAfterDays.value)
          && (after.value.deletedAt.Some? ==> after.value.deletedAt == Some(s.now)))
    && (after.Some? && before.deletedAt.Some? ==> after.value == before)
    && (after.Some? ==> after.value.(decayScore := before.decayScore, deletedAt := before.deletedAt) == before)
    && (after.Some? && before.deletedAt.None? ==>
          if IsSweepable(before, s) && s.writable(id)
          then IsScoreFor(after.value.decayScore, s.halve(IdleDays(before, s) / s.policy.halfLifeDays.value), before.retrievalCount > 0)
          else after.value.decayScore == before.decayScore)
  }

  function At(points: Points, id: Id): Option<Memory> {
    if id in points then Some(points[id]) else None
  }

  lemma SweptIs(points: Points, s: Sweep, id: Id)
    requires Decays(s) && id in points
    ensures IsSweptPoint(id, points[id], At(Swept(points, s), id), s)
  {
  }

  lemma SweptPoints(points: Points, s: Sweep)
    requires Decays(s)
    ensures forall id | id in points :: IsSweptPoint(id, points[id], At(Swept(points, s), id), s)
    ensures Swept(points, s).Keys <= points.Keys
  {
    forall id | id in points ensures IsSweptPoint(id, points[id], At(Swept(points, s), id), s) {
      SweptIs(points, s, id);
    }
  }

  // ---------------------------------------------------------------------------
  // The paged sweep
  // ---------------------------------------------------------------------------

  /** A planned payload write. */
  datatype PayloadWrite = PayloadWrite(id: Id, decayScore: real, softDelete: bool)

  datatype Stats = Stats(pointsScored: nat, softDeleted: nat, hardDeleted: nat)

  /** The scan order: every point of the namespace once. */
  ghost predicate IsScrollOrder(order: seq<Id>, points: Points, ns: string) {
    && (forall i, j | 0 <= i < j < |order| :: order[i] != order[j])
    && (forall id :: id in order <==> id in points && points[id].namespace == ns)
  }

  predicate Known(points: Points, ids: seq<Id>) {
    forall id | id in ids :: id in points
  }

  /** The write that a point calls for, if any, and its removal. */
  function WriteFor(points: Points, id: Id, s: Sweep): seq<PayloadWrite>
    requires Decays(s) && id in points
  {
    if IsScored(points[id]) then [PayloadWrite(id, DecayOf(points[id], s), IsSoftDeleted(points[id], s))] else []
  }

  function RemovalFor(points: Points, id: Id, s: Sweep): seq<Id>
    requires id in points
  {
    if IsPastGrace(points[id], s) then [id] else []
  }

  function PlannedWrites(points: Points, ids: seq<Id>, s: Sweep): seq<PayloadWrite>
    requires Decays(s) && Known(points, ids)
  {
    if ids == [] then [] else PlannedWrites(points, ids[..|ids| - 1], s) + WriteFor(points, ids[|ids| - 1], s)
  }

  function PlannedRemovals(points: Points, ids: seq<Id>, s: Sweep): (r: seq<Id>)
    requires Known(points, ids)
    ensures forall id :: id in r <==> id in ids && IsPastGrace(points[id], s)
  {
    if ids == [] then [] else PlannedRemovals(points, ids[..|ids| - 1], s) + RemovalFor(points, ids[|ids| - 1], s)
  }

  /** The plan after the first `i` points of the scan. */
  predicate IsPlan(points: Points, order: seq<Id>, i: nat, s: Sweep, writes: seq<PayloadWrite>, removals: seq<Id>)
    requires Decays(s) && i <= |order| && Known(points, order)
  {
    writes == PlannedWrites(points, order[..i], s) && removals == PlannedRemovals(points, order[..i], s)
  }

  /** How the plan grows with the next point of the scan. */
  lemma PlanNext(points: Points, order: seq<Id>, i: nat, s: Sweep, writes: seq<PayloadWrite>, removals: seq<Id>)
    requires Decays(s) && i < |order| && Known(points, order) && IsPlan(points, order, i, s, writes, removals)
    ensures IsPlan(points, order, i + 1, s, writes + WriteFor(points, order[i], s), removals + RemovalFor(points, order[i], s))
    ensures writes + [] == writes && removals + [] == removals
  {
    assert order[..i + 1][..i] == order[..i];
  }

  function Write(points: Points, w: PayloadWrite, s: Sweep): Points {
    if w.id !in points || !s.writable(w.id) then points
    else points[w.id := points[w.id].(decayScore := w.decayScore,
                                      deletedAt := if w.softDelete then Some(s.now) else points[w.id].deletedAt)]
  }

  function WriteAll(points: Points, ws: seq<PayloadWrite>, s: Sweep): Points {
    if ws == [] then points else Write(WriteAll(points, ws[..|ws| - 1], s), ws[|ws| - 1], s)
  }

  function SoftDeletes(ws: seq<PayloadWrite>, s: Sweep): nat {
    if ws == [] then 0
    else SoftDeletes(ws[..|ws| - 1], s) + if ws[|ws| - 1].softDelete && s.writable(ws[|ws| - 1].id) then 1 else 0
  }

  /** What the planned writes make of one point. */
  function Written(id: Id, m: Memory, listed: bool, s: Sweep): Memory
    requires Decays(s)
  {
    if listed && IsScored(m) && s.writable(id) then Rescored(m, s) else m
  }

  /** The points when the writes planned for `ids` have been applied. */
  function Rewritten(points: Points, ids: seq<Id>, s: Sweep): Points
    requires Decays(s)
  {
    map id | id in points :: Written(id, points[id], id in ids, s)
  }

  lemma WriteLast(points: Points, front: seq<Id>, last: Id, s: Sweep)
    requires Decays(s) && last in points && last !in front
    ensures Rewritten(points, front + [last], s)
         == if IsScored(points[last])
            then Write(Rewritten(points, front, s), PayloadWrite(last, DecayOf(points[last], s), IsSoftDeleted(points[last], s)), s)
            else Rewritten(points, front, s)
  {
  }

  /** Applied one after another, the planned writes rescore exactly the listed live points. */
  lemma {:induction false} PlanWrites(points: Points, ids: seq<Id>, s: Sweep)
    requires Decays(s) && Known(points, ids)
    requires forall i, j | 0 <= i < j < |ids| :: ids[i] != ids[j]
    ensures WriteAll(points, PlannedWrites(points, ids, s), s) == Rewritten(points, ids, s)
  {
    if ids != [] {
      var front, last := ids[..|ids| - 1], ids[|ids| - 1];
      PlanWrites(points, front, s);
      WriteLast(points, front, last, s);
      assert ids == front + [last];
      AppendWrite(points, PlannedWrites(points, front, s), WriteFor(points, last, s), s);
    }
  }

  lemma AppendWrite(points: Points, ws: seq<PayloadWrite>, more: seq<PayloadWrite>, s: Sweep)
    requires |more| <= 1
    ensures WriteAll(points, ws + more, s)
         == if more == [] then WriteAll(points, ws, s) else Write(WriteAll(points, ws, s), more[0], s)
  {
    if more == [] {
      assert ws + more == ws;
    } else {
      assert (ws + more)[..|ws|] == ws;
    }
  }

  lemma PointwiseAt(points: Points, order: seq<Id>, s: Sweep, id: Id)
    requires Decays(s) && IsScrollOrder(order, points, s.ns) && id in points
    ensures SweptPoint(id, points[id], s).Some? <==> !(s.deletable && id in PlannedRemovals(points, order, s))
    ensures SweptPoint(id, points[id], s).Some? ==> SweptPoint(id, points[id], s).value == Written(id, points[id], id in order, s)
  {
    assert id in order <==> points[id].namespace == s.ns;
  }

  lemma PlanIsPointwise(points: Points, order: seq<Id>, s: Sweep)
    requires Decays(s) && IsScrollOrder(order, points, s.ns)
    ensures var written := WriteAll(points, PlannedWrites(points, order, s), s);
            var gone := if s.deletable then (set id | id in PlannedRemovals(points, order, s)) else {};
            written - gone == Swept(points, s)
  {
    PlanWrites(points, order, s);
    var gone := if s.deletable then (set id | id in PlannedRemovals(points, order, s)) else {};
    forall id | id in points
      ensures id in Rewritten(points, order, s) - gone <==> id in Swept(points, s)
      ensures id in Swept(points, s) ==> Rewritten(points, order, s)[id] == Swept(points, s)[id]
    {
      PointwiseAt(points, order, s, id);
    }
  }

  // ---------------------------------------------------------------------------
  // What a sweep reports
  // ---------------------------------------------------------------------------

  function CountIf(ids: seq<Id>, p: Id -> bool): nat {
    if ids == [] then 0 else CountIf(ids[..|ids| - 1], p) + if p(ids[|ids| - 1]) then 1 else 0
  }

  lemma {:induction false} CountIfIs(ids: seq<Id>, p: Id -> bool)
    requires forall i, j | 0 <= i < j < |ids| :: ids[i] != ids[j]
    ensures CountIf(ids, p) == |set id | id in ids && p(id)|
  {
    if ids != [] {
      var front, last := ids[..|ids| - 1], ids[|ids| - 1];
      CountIfIs(front, p);
      assert ids == front + [last];
      var before := set id | id in front && p(id);
      assert (set id | id in ids && p(id)) == if p(last) then before + {last} else before;
    }
  }

  lemma {:induction false} PlanCounts(points: Points, ids: seq<Id>, s: Sweep)
    requires Decays(s) && Known(points, ids)
    ensures |PlannedWrites(points, ids, s)| == CountIf(ids, id => id in points && IsScored(points[id]))
    ensures |PlannedRemovals(points, ids, s)| == CountIf(ids, id => id in points && IsPastGrace(points[id], s))
    ensures SoftDeletes(PlannedWrites(points, ids, s), s)
         == CountIf(ids, id => id in points && IsSoftDeleted(points[id], s) && s.writable(id))
  {
    if ids != [] {
      PlanCounts(points, ids[..|ids| - 1], s);
      OneMoreWrite(PlannedWrites(points, ids[..|ids| - 1], s), WriteFor(points, ids[|ids| - 1], s), s);
    }
  }

  lemma OneMoreWrite(ws: seq<PayloadWrite>, more: seq<PayloadWrite>, s: Sweep)
    requires |more| <= 1
    ensures SoftDeletes(ws + more, s)
         == SoftDeletes(ws, s) + if more != [] && more[0].softDelete && s.writable(more[0].id) then 1 else 0
  {
    if more == [] {
      assert ws + more == ws;
    } else {
      assert (ws + more)[..|ws|] == ws;
    }
  }

  /** The report of a sweep counts the points scored, newly tombstoned and removed. */
  predicate IsReport(before: Points, after: Points, s: Sweep, stats: Stats) {
    && stats.pointsScored == |set id | id in before && IsSweepable(before[id], s) && before[id].deletedAt.None?|
    && stats.softDeleted == |set id | id in before && IsNewTombstone(before, after, id)|
    && stats.hardDeleted == |before.Keys - after.Keys|
  }

  lemma ScoredCount(points: Points, order: seq<Id>, s: Sweep)
    requires Decays(s) && IsScrollOrder(order, points, s.ns)
    ensures |PlannedWrites(points, order, s)|
         == |set id | id in points && IsSweepable(points[id], s) && points[id].deletedAt.None?|
  {
    var p: Id -> bool := id => id in points && IsScored(points[id]);
    PlanCounts(points, order, s);
    CountIfIs(order, p);
    var listed := set id | id in order && p(id);
    var found := set id | id in points && IsSweepable(points[id], s) && points[id].deletedAt.None?;
    forall id ensures id in listed <==> id in found {
    }
    assert listed == found;
  }

  predicate IsNewTombstone(before: Points, after: Points, id: Id) {
    id in before && before[id].deletedAt.None? && id in after && after[id].deletedAt.Some?
  }

  lemma NewTombstone(points: Points, order: seq<Id>, s: Sweep, id: Id)
    requires Decays(s) && IsScrollOrder(order, points, s.ns)
    ensures IsNewTombstone(points, Swept(points, s), id)
       <==> id in order && id in points && IsSoftDeleted(points[id], s) && s.writable(id)
  {
  }

  lemma SoftDeletedCount(points: Points, order: seq<Id>, s: Sweep, after: Points)
    requires Decays(s) && IsScrollOrder(order, points, s.ns) && after == Swept(points, s)
    ensures SoftDeletes(PlannedWrites(points, order, s), s) == |set id | id in points && IsNewTombstone(points, after, id)|
  {
    var p: Id -> bool := id => id in points && IsSoftDeleted(points[id], s) && s.writable(id);
    PlanCounts(points, order, s);
    CountIfIs(order, p);
    var listed, found := (set id | id in order && p(id)), (set id | id in points && IsNewTombstone(points, after, id));
    forall id ensures id in listed <==> id in found {
      NewTombstone(points, order, s, id);
    }
    assert listed == found;
  }

  lemma RemovedCount(points: Points, order: seq<Id>, s: Sweep)
    requires Decays(s) && IsScrollOrder(order, points, s.ns)
    ensures (if s.deletable then |PlannedRemovals(points, order, s)| else 0) == |points.Keys - Swept(points, s).Keys|
  {
    var p: Id -> bool := id => id in points && IsPastGrace(points[id], s);
    PlanCounts(points, order, s);
    CountIfIs(order, p);
    assert points.Keys - Swept(points, s).Keys == if s.deletable then (set id | id in order && p(id)) else {};
  }

  lemma ReportIs(points: Points, order: seq<Id>, s: Sweep)
    requires Decays(s) && IsScrollOrder(order, points, s.ns)
    ensures IsReport(points, Swept(points, s), s,
                     Stats(|PlannedWrites(points, order, s)|, SoftDeletes(PlannedWrites(points, order, s), s),
                           if s.deletable then |PlannedRemovals(points, order, s)| else 0))
  {
    ScoredCount(points, order, s);
    SoftDeletedCount(points, order, s, Swept(points, s));
    RemovedCount(points, order, s);
  }

  class DecaySweeper {
    const service: MemoryService

    constructor (m: MemoryService)
      ensures service == m
    {
      service := m;
    }

    /**
     * `sweepNamespace`: scrolls page by page, plans, then writes and removes. The result is the pointwise
     * sweep, whatever the scan order and the page boundaries.
     */
    method SweepNamespace(s: Sweep, order: seq<Id>) returns (r: Option<Stats>)
      requires service.Valid() && IsScrollOrder(order, service.points, s.ns)
      requires s.policy.halfLifeDays.Some? ==> s.policy.halfLifeDays.value > 0.0
      modifies service
      ensures service.Valid()
      ensures LifeStep(old(service.points), service.points, s.now, DecaySweep(s.ns, s.policy))
      ensures r.None? <==> s.policy.halfLifeDays.None?
      ensures r.None? ==> service.points == old(service.points)
      ensures r.Some? ==> forall id | id in old(service.points) ::
                IsSweptPoint(id, old(service.points)[id], At(service.points, id), s)
      ensures r.Some? ==> service.points.Keys <= old(service.points).Keys && IsReport(old(service.points), service.points, s, r.value)
      ensures r.Some? ==>
                && service.points == Swept(old(service.points), s)
                && Known(old(service.points), order)
                && var writes := PlannedWrites(old(service.points), order, s);
                   r.value == Stats(|writes|, SoftDeletes(writes, s),
                                    if s.deletable then |PlannedRemovals(old(service.points), order, s)| else 0)
    {
      if s.policy.halfLifeDays.None? {
        return None;
      }
      var payloadWrites, hardDeleteIds := Plan(s, order);
      PlanIsPointwise(service.points, order, s);
      SweptStep(service.points, s);
      SweptPoints(service.points, s);
      ReportIs(service.points, order, s);
      var softDeleted := ApplyWrites(s, payloadWrites);
      var hardDeleted := Remove(s, hardDeleteIds);
      return Some(Stats(|payloadWrites|, softDeleted, hardDeleted));
    }

    /** One delete call for all ids past their grace period. */
    method Remove(s: Sweep, ids: seq<Id>) returns (hardDeleted: nat)
      modifies service
      ensures service.points == old(service.points) - if s.deletable then (set id | id in ids) else {}
      ensures hardDeleted == if s.deletable then |ids| else 0
    {
      hardDeleted := 0;
      if |ids| > 0 && s.deletable {
        service.points := service.points - (set id | id in ids);
        hardDeleted := |ids|;
      }
    }

    /** The paging loop. */
    method Plan(s: Sweep, order: seq<Id>) returns (payloadWrites: seq<PayloadWrite>, hardDeleteIds: seq<Id>)
      requires Decays(s) && Known(service.points, order)
      ensures payloadWrites == PlannedWrites(service.points, order, s)
      ensures hardDeleteIds == PlannedRemovals(service.points, order, s)
    {
      payloadWrites, hardDeleteIds := [], [];
      var offset := 0;
      while true
        invariant 0 <= offset <= |order|
        invariant IsPlan(service.points, order, offset, s, payloadWrites, hardDeleteIds)
        decreases |order| - offset
      {
        var end := if offset + SCROLL_PAGE_SIZE < |order| then offset + SCROLL_PAGE_SIZE else |order|;
        payloadWrites, hardDeleteIds := PlanPage(s, order, offset, end, payloadWrites, hardDeleteIds);
        offset := end;
        if offset == |order| {
          break;
        }
      }
      assert order[..|order|] == order;
    }

    method PlanPage(s: Sweep, order: seq<Id>, offset: nat, end: nat, writes: seq<PayloadWrite>, removals: seq<Id>)
      returns (payloadWrites: seq<PayloadWrite>, hardDeleteIds: seq<Id>)
      requires Decays(s) && offset <= end <= |order| && Known(service.points, order)
      requires IsPlan(service.points, order, offset, s, writes, removals)
      ensures IsPlan(service.points, order, end, s, payloadWrites, hardDeleteIds)
    {
      payloadWrites, hardDeleteIds := writes, removals;
      for i := offset to end
        invariant IsPlan(service.points, order, i, s, payloadWrites, hardDeleteIds)
      {
        payloadWrites, hardDeleteIds := PlanPoint(s, order, i, payloadWrites, hardDeleteIds);
      }
    }

    /** What the scan makes of one point. */
    method PlanPoint(s: Sweep, order: seq<Id>, i: nat, writes: seq<PayloadWrite>, removals: seq<Id>)
      returns (payloadWrites: seq<PayloadWrite>, hardDeleteIds: seq<Id>)
      requires Decays(s) && i < |order| && Known(service.points, order)
      requires IsPlan(service.points, order, i, s, writes, removals)
      ensures IsPlan(service.points, order, i + 1, s, payloadWrites, hardDeleteIds)
    {
      PlanNext(service.points, order, i, s, writes, removals);
      payloadWrites, hardDeleteIds := writes, removals;
      var record := service.points[order[i]];
      if IsImmortal(record.metadata) {
        return;
      }
      if record.deletedAt.Some? {
        if Days(record.deletedAt.value, s.now) > s.policy.hardDeleteGraceDays {
          hardDeleteIds := hardDeleteIds + [order[i]];
        }
        return;
      }
      payloadWrites := payloadWrites + [PayloadWrite(order[i], DecayOf(record, s), IsSoftDeleted(record, s))];
    }

    method ApplyWrites(s: Sweep, writes: seq<PayloadWrite>) returns (softDeleted: nat)
      modifies service
      ensures service.points == WriteAll(old(service.points), writes, s)
      ensures softDeleted == SoftDeletes(writes, s)
    {
      softDeleted := 0;
      for i := 0 to |writes|
        invariant service.points == WriteAll(old(service.points), writes[..i], s)
        invariant softDeleted == SoftDeletes(writes[..i], s)
      {
        assert writes[..i + 1][..i] == writes[..i];
        service.points := Write(service.points, writes[i], s);
        if s.writable(writes[i].id) && writes[i].softDelete {
          softDeleted := softDeleted + 1;
        }
      }
      assert writes[..|writes|] == writes;
    }
  }

  // ---------------------------------------------------------------------------
  // A sweep that is not one atomic step
  // ---------------------------------------------------------------------------

  /** One step between the scan and the removal: a service operation, or one of the sweep's own writes. */
  ghost predicate BetweenStep(before: Points, after: Points, now: int, gone: set<Id>, s: Sweep) {
    || LifeStep(before, after, now, Service)
    || exists w: PayloadWrite :: w.id !in gone && after == Write(before, w, s)
  }

  /** The points from the scan to the removal, and the instant of each step; no instant lies before the sweep's. */
  ghost predicate IsInterlude(run: seq<Points>, at: seq<int>, gone: set<Id>, s: Sweep) {
    && run != [] && |at| == |run|
    && forall i | 0 < i < |run| :: s.now <= at[i] && BetweenStep(run[i - 1], run[i], at[i], gone, s)
  }

  /** A tombstone since the scan: untouched, lifted, or set at the sweep's instant or later. */
  predicate SinceScan(before: Memory, after: Memory, s: Sweep) {
    && after.namespace == before.namespace
    && (after.deletedAt == before.deletedAt || after.deletedAt == None || after.deletedAt.value >= s.now)
  }

  lemma OneBetween(before: Points, after: Points, now: int, gone: set<Id>, s: Sweep, id: Id)
    requires BetweenStep(before, after, now, gone, s) && s.now <= now
    requires id in gone && id in before
    ensures id in after && PointStep(before[id], after[id], now)
  {
  }

  /** Service operations and the sweep's own writes remove nothing and date no tombstone back. */
  lemma {:induction false} InterludeKeeps(run: seq<Points>, at: seq<int>, gone: set<Id>, s: Sweep, n: nat, id: Id)
    requires IsInterlude(run, at, gone, s) && n < |run| && id in gone && id in run[0]
    ensures id in run[n] && SinceScan(run[0][id], run[n][id], s)
  {
    if n > 0 {
      InterludeKeeps(run, at, gone, s, n - 1, id);
      OneBetween(run[n - 1], run[n], at[n], gone, s, id);
    }
  }

  /** After a tombstone was lifted or set anew, the point is not past its grace period at the sweep's instant. */
  lemma LateRemovalOf(before: Memory, after: Memory, s: Sweep)
    requires Decays(s) && s.policy.hardDeleteGraceDays >= 0.0
    requires before.namespace == s.ns && IsPastGrace(before, s) && SinceScan(before, after, s)
    ensures MayRemove(after, DecaySweep(s.ns, s.policy), s.now)
       <==> after.deletedAt == before.deletedAt && !IsImmortal(after.metadata)
  {
    if after.deletedAt.Some? && after.deletedAt.value >= s.now {
      assert Days(after.deletedAt.value, s.now) <= 0.0;
    }
  }

  /**
   * Exactly when the gap between scan and removal does no harm, whatever service operations and writes of the sweep
   * come in between: every planned point still bears the tombstone the scan saw, and has not become immortal.
   */
  lemma LateRemoval(run: seq<Points>, at: seq<int>, gone: set<Id>, s: Sweep)
    requires Decays(s) && s.policy.hardDeleteGraceDays >= 0.0 && IsInterlude(run, at, gone, s)
    requires forall id | id in gone :: id in run[0] && run[0][id].namespace == s.ns && IsPastGrace(run[0][id], s)
    ensures forall id | id in gone :: id in run[|run| - 1]
    ensures var points := run[|run| - 1];
      LifeStep(points, points - gone, s.now, DecaySweep(s.ns, s.policy))
      <==> forall id | id in gone :: points[id].deletedAt == run[0][id].deletedAt && !IsImmortal(points[id].metadata)
  {
    var points := run[|run| - 1];
    forall id | id in gone
      ensures id in points
      ensures MayRemove(points[id], DecaySweep(s.ns, s.policy), s.now)
         <==> points[id].deletedAt == run[0][id].deletedAt && !IsImmortal(points[id].metadata)
    {
      InterludeKeeps(run, at, gone, s, |run| - 1, id);
      LateRemovalOf(run[0][id], points[id], s);
    }
    RemovalStep(points, gone, s);
  }

  /** A removal is a lawful step when each removed point may be removed, and only then. */
  lemma RemovalStep(points: Points, gone: set<Id>, s: Sweep)
    requires forall id | id in gone :: id in points
    ensures LifeStep(points, points - gone, s.now, DecaySweep(s.ns, s.policy))
       <==> forall id | id in gone :: MayRemove(points[id], DecaySweep(s.ns, s.policy), s.now)
  {
    var after := points - gone;
    forall id | id in points ensures id in after <==> id !in gone {
    }
    forall id | id in after ensures after[id] == points[id] {
    }
  }

  /**
   * The source scans, then writes and removes, with suspensions in between. A point past its grace period
   * that is restored after the scan is removed all the same, although it is live by then.
   */
  method RestoredMidSweep(sweeper: DecaySweeper, s: Sweep, order: seq<Id>, id: Id, now: int)
    returns (restored: Result<Memory, ServiceError>)
    requires sweeper.service.Valid() && Decays(s) && s.deletable && IsScrollOrder(order, sweeper.service.points, s.ns)
    requires id in order && IsPastGrace(sweeper.service.points[id], s)
    modifies sweeper.service
    ensures restored.Ok? && restored.value.deletedAt == None
    ensures id !in sweeper.service.points
  {
    var payloadWrites, hardDeleteIds := sweeper.Plan(s, order);
    restored := sweeper.service.Restore(s.ns, id, now);
    var softDeleted := sweeper.ApplyWrites(s, payloadWrites);
    var hardDeleted := sweeper.Remove(s, hardDeleteIds);
  }
}
