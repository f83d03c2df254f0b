/** The coalescing retrieval counter: hits recorded at any moment of a flush are conserved. */
module Reinforcement {
  import opened Base

  type Id = string

  datatype PendingHit = PendingHit(delta: nat, lastRetrievedAt: int)

  /** The counters of a stored point. */
  datatype Counter = Counter(count: int, lastRetrievedAt: Option<int>)

  /** Where a flush stands: the batch taken out of the buffer, then the points read and still to be written. */
  datatype Flush =
    | Resting
    | Retrieving(batch: map<Id, PendingHit>)
    | Writing(batch: map<Id, PendingHit>, todo: seq<Read>)

  /** One retrieved point with the count read for it. */
  datatype Read = Read(id: Id, count: int)

  function HitOf(m: map<Id, PendingHit>, id: Id): Option<PendingHit> {
    if id in m then Some(m[id]) else None
  }

  function Delta(h: Option<PendingHit>): nat {
    if h.Some? then h.value.delta else 0
  }

  function IdsOf(todo: seq<Read>): set<Id> {
    set r | r in todo :: r.id
  }

  predicate DistinctIds(todo: seq<Read>) {
    forall i, j | 0 <= i < j < |todo| :: todo[i].id != todo[j].id
  }

  /** Hits of `id` that have left the buffer and not yet reached the store. */
  function InFlight(f: Flush, id: Id): Option<PendingHit> {
    match f
    case Resting => None
    case Retrieving(batch) => HitOf(batch, id)
    case Writing(batch, todo) => if id in IdsOf(todo) then HitOf(batch, id) else None
  }

  /** The history of one stored point: its first count, hits recorded, hits dropped by store errors, last hit. */
  datatype History = History(initial: int, recorded: nat, lost: nat, lastHit: Option<int>)

  /** Conservation for one point; and the time of the last hit is wherever the last hit is. */
  predicate Balanced(c: Counter, flying: Option<PendingHit>, waiting: Option<PendingHit>, h: History) {
    && c.count + Delta(flying) + Delta(waiting) + h.lost == h.initial + h.recorded
    && (h.recorded > 0 <==> h.lastHit.Some?)
    && (h.recorded > 0 && waiting.Some? ==> h.lastHit == Some(waiting.value.lastRetrievedAt))
    && (h.recorded > 0 && waiting.None? && flying.Some? ==> h.lastHit == Some(flying.value.lastRetrievedAt))
    && (h.recorded > 0 && waiting.None? && flying.None? && h.lost == 0 ==> h.lastHit == c.lastRetrievedAt)
    && (waiting.Some? || flying.Some? ==> h.recorded > 0)
    && (flying.Some? ==> flying.value.delta > 0)
  }

  function Hit(h: History, now: int): History {
    h.(recorded := h.recorded + 1, lastHit := Some(now))
  }

  function Drop(h: History, hit: Option<PendingHit>): History {
    h.(lost := h.lost + Delta(hit))
  }

  /** The collection after one point of the batch has been written back. */
  function Written(stored: map<Id, Counter>, p: Read, batch: map<Id, PendingHit>): map<Id, Counter>
    requires p.id in batch
  {
    stored[p.id := Counter(p.count + batch[p.id].delta, Some(batch[p.id].lastRetrievedAt))]
  }

  function Dropped(history: map<Id, History>, p: Read, batch: map<Id, PendingHit>): map<Id, History>
    requires p.id in batch && p.id in history
  {
    history[p.id := Drop(history[p.id], Some(batch[p.id]))]
  }

  predicate IsCurrent(p: Read, batch: map<Id, PendingHit>, stored: map<Id, Counter>) {
    p.id in batch && p.id in stored && p.count == stored[p.id].count
  }

  predicate IsAccounted(pending: map<Id, PendingHit>, flush: Flush, stored: map<Id, Counter>, history: map<Id, History>, id: Id) {
    id in stored && id in history ==> Balanced(stored[id], InFlight(flush, id), HitOf(pending, id), history[id])
  }

  ghost predicate IsConsistent(pending: map<Id, PendingHit>, flush: Flush, stored: map<Id, Counter>, history: map<Id, History>) {
    && history.Keys == stored.Keys
    && (forall id | id in pending :: pending[id].delta > 0)
    && (forall id :: IsAccounted(pending, flush, stored, history, id))
    && (flush.Writing? ==>
          && DistinctIds(flush.todo)
          && forall i | 0 <= i < |flush.todo| :: IsCurrent(flush.todo[i], flush.batch, stored))
  }

  function Recorded(history: map<Id, History>, id: Id, now: int): map<Id, History> {
    if id in history then history[id := Hit(history[id], now)] else history
  }

  function Buffered(pending: map<Id, PendingHit>, id: Id, now: int): map<Id, PendingHit> {
    pending[id := PendingHit(Delta(HitOf(pending, id)) + 1, now)]
  }

  lemma RecordKeeps(pending: map<Id, PendingHit>, flush: Flush, stored: map<Id, Counter>, history: map<Id, History>, id: Id, now: int)
    requires IsConsistent(pending, flush, stored, history)
    ensures IsConsistent(Buffered(pending, id, now), flush, stored, Recorded(history, id, now))
  {
    var pending', history' := Buffered(pending, id, now), Recorded(history, id, now);
    forall x ensures IsAccounted(pending', flush, stored, history', x) {
      assert IsAccounted(pending, flush, stored, history, x);
    }
  }

  /** A point written back, or given up, leaves the others as they were. */
  lemma WriteKeeps(pending: map<Id, PendingHit>, batch: map<Id, PendingHit>, todo: seq<Read>, stored: map<Id, Counter>,
                   history: map<Id, History>)
    requires IsConsistent(pending, Writing(batch, todo), stored, history) && todo != []
    ensures IsCurrent(todo[0], batch, stored)
    ensures IsConsistent(pending, Writing(batch, todo[1..]), Written(stored, todo[0], batch), history)
    ensures IsConsistent(pending, Writing(batch, todo[1..]), stored, Dropped(history, todo[0], batch))
  {
    assert IsCurrent(todo[0], batch, stored);
    var stored', history' := Written(stored, todo[0], batch), Dropped(history, todo[0], batch);
    NextLeaves(todo);
    forall x
      ensures IsAccounted(pending, Writing(batch, todo[1..]), stored', history, x)
      ensures IsAccounted(pending, Writing(batch, todo[1..]), stored, history', x)
    {
      assert IsAccounted(pending, Writing(batch, todo), stored, history, x);
      if x == todo[0].id {
        assert InFlight(Writing(batch, todo), x) == Some(batch[x]);
      }
    }
    forall i | 0 <= i < |todo[1..]|
      ensures IsCurrent(todo[1..][i], batch, stored') && IsCurrent(todo[1..][i], batch, stored)
    {
      assert IsCurrent(todo[i + 1], batch, stored);
      assert todo[i + 1].id != todo[0].id;
    }
  }

  class ReinforcementBuffer {
    var pending: map<Id, PendingHit>
    var flush: Flush
    /** The counters in the collection; no one else writes them. */
    var stored: map<Id, Counter>
    ghost var history: map<Id, History>

    ghost predicate Valid()
      reads this
    {
      IsConsistent(pending, flush, stored, history)
    }

    constructor (collection: map<Id, Counter>)
      ensures Valid() && stored == collection && pending == map[] && flush == Resting
      ensures history == map id | id in collection :: History(collection[id].count, 0, 0, None)
    {
      pending, flush, stored := map[], Resting, collection;
      history := map id | id in collection :: History(collection[id].count, 0, 0, None);
    }

    /** `record`: may run between any two steps of a flush. */
    method Record(id: Id, now: int)
      requires Valid()
      modifies this
      ensures Valid() && flush == old(flush) && stored == old(stored)
      ensures history == Recorded(old(history), id, now) && pending == Buffered(old(pending), id, now)
    {
      RecordKeeps(pending, flush, stored, history, id, now);
      if id in pending {
        pending := pending[id := PendingHit(pending[id].delta + 1, now)];
      } else {
        pending := pending[id := PendingHit(1, now)];
      }
      history := Recorded(history, id, now);
    }

    /** `flush` up to the retrieve call: the buffer is copied and cleared in one turn. */
    method BeginFlush()
      requires Valid() && flush.Resting?
      modifies this
      ensures Valid() && stored == old(stored) && history == old(history)
      ensures flush == (if old(pending) == map[] then Resting else Retrieving(old(pending))) && pending == map[]
    {
      if pending == map[] {
        return;
      }
      forall id ensures IsAccounted(map[], Retrieving(pending), stored, history, id) {
        assert IsAccounted(pending, flush, stored, history, id);
      }
      flush := Retrieving(pending);
      pending := map[];
    }

    /** The retrieve answers with every point of the batch that exists, in some order. */
    method Retrieved(points: seq<Read>)
      requires Valid() && flush.Retrieving?
      requires DistinctIds(points) && IdsOf(points) == flush.batch.Keys * stored.Keys
      requires forall i | 0 <= i < |points| :: IsCurrent(points[i], flush.batch, stored)
      modifies this
      ensures Valid() && stored == old(stored) && history == old(history)
      ensures pending == old(pending) && flush == Writing(old(flush.batch), points)
    {
      forall id ensures IsAccounted(pending, Writing(flush.batch, points), stored, history, id) {
        assert IsAccounted(pending, flush, stored, history, id);
        assert id in stored ==> (id in IdsOf(points) <==> id in flush.batch);
      }
      flush := Writing(flush.batch, points);
    }

    /** The retrieve fails: the window is dropped. */
    method RetrieveFails()
      requires Valid() && flush.Retrieving?
      modifies this
      ensures Valid() && stored == old(stored) && pending == old(pending) && flush == Resting
      ensures history == map id | id in stored :: Drop(old(history)[id], HitOf(old(flush.batch), id))
    {
      ghost var lossy := map id | id in stored :: Drop(history[id], HitOf(flush.batch, id));
      forall id ensures IsAccounted(pending, Resting, stored, lossy, id) {
        assert IsAccounted(pending, flush, stored, history, id);
      }
      history := lossy;
      flush := Resting;
    }

    /** Writes the next point back. */
    method WriteNext()
      requires Valid() && flush.Writing? && flush.todo != []
      modifies `stored, `flush
      ensures Valid() && flush == Writing(old(flush.batch), old(flush.todo)[1..])
      ensures IsCurrent(old(flush.todo)[0], flush.batch, old(stored))
      ensures stored == Written(old(stored), old(flush.todo)[0], flush.batch)
    {
      WriteKeeps(pending, flush.batch, flush.todo, stored, history);
      var point := flush.todo[0];
      var entry := flush.batch[point.id];
      stored := stored[point.id := Counter(point.count + entry.delta, Some(entry.lastRetrievedAt))];
      flush := Writing(flush.batch, flush.todo[1..]);
    }

    /** The write of the next point is rejected: its hits are lost. */
    method WriteFails()
      requires Valid() && flush.Writing? && flush.todo != []
      modifies `history, `flush
      ensures Valid() && flush == Writing(old(flush.batch), old(flush.todo)[1..])
      ensures IsCurrent(old(flush.todo)[0], flush.batch, stored)
      ensures history == Dropped(old(history), old(flush.todo)[0], flush.batch)
    {
      WriteKeeps(pending, flush.batch, flush.todo, stored, history);
      history := Dropped(history, flush.todo[0], flush.batch);
      flush := Writing(flush.batch, flush.todo[1..]);
    }

    method EndFlush()
      requires Valid() && flush.Writing? && flush.todo == []
      modifies this
      ensures Valid() && flush == Resting
      ensures stored == old(stored) && history == old(history) && pending == old(pending)
    {
      forall id ensures IsAccounted(pending, Resting, stored, history, id) {
        assert IsAccounted(pending, flush, stored, history, id);
      }
      flush := Resting;
    }
  }

  lemma NextLeaves(todo: seq<Read>)
    requires todo != [] && DistinctIds(todo)
    ensures DistinctIds(todo[1..]) && IdsOf(todo[1..]) == IdsOf(todo) - {todo[0].id}
  {
    assert todo == [todo[0]] + todo[1..];
    forall r | r in todo[1..] ensures r.id != todo[0].id {
      var i :| 0 <= i < |todo[1..]| && todo[1..][i] == r;
      assert todo[i + 1] == r;
    }
  }

  /** With nothing buffered, nothing in flight and no store error, every hit recorded has been counted. */
  lemma AllCounted(b: ReinforcementBuffer, id: Id)
    requires b.Valid() && id in b.stored
    requires b.flush.Resting? && id !in b.pending && b.history[id].lost == 0
    ensures b.stored[id].count == b.history[id].initial + b.history[id].recorded
    ensures b.history[id].recorded > 0 ==> b.stored[id].lastRetrievedAt == b.history[id].lastHit
  {
    assert IsAccounted(b.pending, b.flush, b.stored, b.history, id);
  }
}
