/** Search: over-fetch by cosine, re-rank by the decay blend, cut to the limit; and when that is exact. */
module Search {
  import opened Base
  import opened MemoryStore

  datatype Query = Query(namespace: string, limit: nat, tags: seq<string>, includeSuperseded: bool)

  /** The similarity of each point to the query vector, as the collection computes it. */
  type Cosine = Id -> real

  /** The filter pushed into the collection. */
  predicate IsMatch(m: Memory, q: Query) {
    && m.namespace == q.namespace
    && m.deletedAt.None?
    && (q.includeSuperseded || m.supersededBy.None?)
    && forall t | t in q.tags :: t in m.tags
  }

  function Matches(points: Points, q: Query): set<Id> {
    set id | id in points && IsMatch(points[id], q)
  }

  function FetchLimit(limit: nat): (n: nat)
    ensures n >= 3 * limit && n >= 30 && (n == 3 * limit || n == 30)
  {
    if limit * 3 > 30 then limit * 3 else 30
  }

  /** An exact nearest-neighbour answer: as many matches as asked for, best cosine first, ties in any order. */
  ghost predicate IsFetch(points: Points, q: Query, cosine: Cosine, fetched: seq<Id>) {
    && (forall i, j | 0 <= i < j < |fetched| :: fetched[i] != fetched[j] && cosine(fetched[i]) >= cosine(fetched[j]))
    && (forall id | id in fetched :: id in Matches(points, q))
    && |fetched| == (if |Matches(points, q)| < FetchLimit(q.limit) then |Matches(points, q)| else FetchLimit(q.limit))
    && (forall id, f | id in Matches(points, q) && id !in fetched && f in fetched :: cosine(id) <= cosine(f))
  }

  /** The blended score. */
  function Blend(cosine: real, decay: real, weight: real): real {
    cosine * (1.0 - weight) + cosine * decay * weight
  }

  function ScoreOf(points: Points, cosine: Cosine, weight: real, id: Id): real {
    if id in points then Blend(cosine(id), points[id].decayScore, weight) else 0.0
  }

  type Score = Id -> real

  /** Inserts after every element that scores at least as much: the sort is stable. */
  function InsertByScore(ids: seq<Id>, id: Id, score: Score): seq<Id> {
    if ids == [] then [id]
    else if score(ids[|ids| - 1]) >= score(id) then ids + [id]
    else InsertByScore(ids[..|ids| - 1], id, score) + [ids[|ids| - 1]]
  }

  function SortByScore(ids: seq<Id>, score: Score): seq<Id> {
    if ids == [] then [] else InsertByScore(SortByScore(ids[..|ids| - 1], score), ids[|ids| - 1], score)
  }

  function KeepVisible(points: Points, q: Query, ids: seq<Id>): seq<Id> {
    if ids == [] then []
    else
      var rest := KeepVisible(points, q, ids[1..]);
      if ids[0] in points && points[ids[0]].deletedAt.None? && (q.includeSuperseded || points[ids[0]].supersededBy.None?)
      then [ids[0]] + rest else rest
  }

  /** What `search` returns for a fetched page. */
  function Ranked(points: Points, q: Query, cosine: Cosine, weight: real, fetched: seq<Id>): seq<Id> {
    var sorted := SortByScore(KeepVisible(points, q, fetched), id => ScoreOf(points, cosine, weight, id));
    if |sorted| > q.limit then sorted[..q.limit] else sorted
  }

  // ---------------------------------------------------------------------------
  // Sorting
  // ---------------------------------------------------------------------------

  ghost predicate Descending(ids: seq<Id>, score: Score) {
    forall i, j | 0 <= i < j < |ids| :: score(ids[i]) >= score(ids[j])
  }

  predicate Distinct(ids: seq<Id>) {
    forall i, j | 0 <= i < j < |ids| :: ids[i] != ids[j]
  }

  lemma {:induction false} InsertMembers(ids: seq<Id>, id: Id, score: Score)
    ensures |InsertByScore(ids, id, score)| == |ids| + 1
    ensures forall x :: x in InsertByScore(ids, id, score) <==> x == id || x in ids
  {
    if ids != [] && score(ids[|ids| - 1]) < score(id) {
      InsertMembers(ids[..|ids| - 1], id, score);
      assert ids == ids[..|ids| - 1] + [ids[|ids| - 1]];
    }
  }

  lemma AppendLeast(ids: seq<Id>, last: Id, score: Score)
    requires Descending(ids, score) && Distinct(ids) && last !in ids
    requires forall x | x in ids :: score(x) >= score(last)
    ensures Descending(ids + [last], score) && Distinct(ids + [last])
  {
    assert forall i | 0 <= i < |ids| :: ids[i] in ids;
  }

  lemma LastIsLeast(ids: seq<Id>, score: Score)
    requires ids != [] && Descending(ids, score) && Distinct(ids)
    ensures forall x | x in ids :: score(x) >= score(ids[|ids| - 1])
    ensures var front := ids[..|ids| - 1];
            Descending(front, score) && Distinct(front) && ids[|ids| - 1] !in front && forall x | x in front :: x in ids
  {
    forall x | x in ids ensures score(x) >= score(ids[|ids| - 1]) {
      var i :| 0 <= i < |ids| && ids[i] == x;
    }
  }

  lemma {:induction false} InsertSorts(ids: seq<Id>, id: Id, score: Score)
    requires Descending(ids, score) && Distinct(ids) && id !in ids
    ensures Descending(InsertByScore(ids, id, score), score) && Distinct(InsertByScore(ids, id, score))
  {
    if ids != [] {
      LastIsLeast(ids, score);
      if score(ids[|ids| - 1]) >= score(id) {
        AppendLeast(ids, id, score);
      } else {
        InsertSorts(ids[..|ids| - 1], id, score);
        InsertMembers(ids[..|ids| - 1], id, score);
        AppendLeast(InsertByScore(ids[..|ids| - 1], id, score), ids[|ids| - 1], score);
      }
    }
  }

  lemma {:induction false} SortSorts(ids: seq<Id>, score: Score)
    requires Distinct(ids)
    ensures Descending(SortByScore(ids, score), score) && Distinct(SortByScore(ids, score))
    ensures |SortByScore(ids, score)| == |ids|
    ensures forall x :: x in SortByScore(ids, score) <==> x in ids
  {
    if ids != [] {
      var front, last := ids[..|ids| - 1], ids[|ids| - 1];
      SortSorts(front, score);
      assert ids == front + [last];
      InsertSorts(SortByScore(front, score), last, score);
      InsertMembers(SortByScore(front, score), last, score);
    }
  }

  /** The in-code filter removes nothing that the collection's filter let through. */
  lemma {:induction false} FilterIsRedundant(points: Points, q: Query, ids: seq<Id>)
    requires forall id | id in ids :: id in Matches(points, q)
    ensures KeepVisible(points, q, ids) == ids
  {
    if ids != [] {
      assert ids[0] in Matches(points, q);
      FilterIsRedundant(points, q, ids[1..]);
    }
  }

  /** In its own right, the in-code filter keeps exactly the live points, and superseded ones only when asked to. */
  lemma {:induction false} KeptAre(points: Points, q: Query, ids: seq<Id>, id: Id)
    ensures id in KeepVisible(points, q, ids)
       <==> && id in ids && id in points && points[id].deletedAt == None
            && (q.includeSuperseded || points[id].supersededBy == None)
  {
    if ids != [] {
      KeptAre(points, q, ids[1..], id);
      assert ids == [ids[0]] + ids[1..];
    }
  }

  // ---------------------------------------------------------------------------
  // When the answer is exact
  // ---------------------------------------------------------------------------

  /** The `limit` best of all matches, best first, up to ties. */
  ghost predicate IsTop(points: Points, q: Query, score: Score, ranked: seq<Id>) {
    && Distinct(ranked) && Descending(ranked, score)
    && (forall id | id in ranked :: id in Matches(points, q))
    && |ranked| == (if |Matches(points, q)| < q.limit then |Matches(points, q)| else q.limit)
    && (forall id, r | id in Matches(points, q) && id !in ranked && r in ranked :: score(id) <= score(r))
  }

  ghost predicate ScoresInRange(points: Points, q: Query, cosine: Cosine) {
    forall id | id in Matches(points, q) :: cosine(id) >= 0.0 && 0.0 <= points[id].decayScore <= 1.0
  }

  /** Blending can only lower a cosine. */
  lemma BlendIsBelow(cosine: real, decay: real, weight: real)
    requires cosine >= 0.0 && 0.0 <= decay <= 1.0 && 0.0 <= weight <= 1.0
    ensures Blend(cosine, decay, weight) <= cosine
  {
    var loss := weight * (1.0 - decay);
    assert loss >= 0.0;
    assert cosine * loss >= 0.0;
    assert Blend(cosine, decay, weight) == cosine - cosine * loss;
  }

  /** The first `n` of a descending list are its best. */
  lemma TakeIsBest(sorted: seq<Id>, n: nat, score: Score)
    requires Descending(sorted, score) && Distinct(sorted) && n <= |sorted|
    ensures Descending(sorted[..n], score) && Distinct(sorted[..n])
    ensures forall id | id in sorted[..n] :: id in sorted
    ensures forall id, r | id in sorted && id !in sorted[..n] && r in sorted[..n] :: score(id) <= score(r)
  {
    forall id, r | id in sorted && id !in sorted[..n] && r in sorted[..n] ensures score(id) <= score(r) {
      var i :| 0 <= i < |sorted| && sorted[i] == id;
      var j :| 0 <= j < n && sorted[j] == r;
      assert forall k | 0 <= k < n :: sorted[k] in sorted[..n];
    }
  }

  /** The page after ranking: the best of what was fetched. */
  lemma RankedIsBestOfFetched(points: Points, q: Query, cosine: Cosine, weight: real, fetched: seq<Id>)
    requires IsFetch(points, q, cosine, fetched)
    ensures var score: Score := id => ScoreOf(points, cosine, weight, id);
            var ranked := Ranked(points, q, cosine, weight, fetched);
            && Distinct(ranked) && Descending(ranked, score)
            && (forall id | id in ranked :: id in fetched)
            && |ranked| == (if |Matches(points, q)| < q.limit then |Matches(points, q)| else q.limit)
            && (forall id, r | id in fetched && id !in ranked && r in ranked :: score(id) <= score(r))
  {
    var score: Score := id => ScoreOf(points, cosine, weight, id);
    FilterIsRedundant(points, q, fetched);
    SortSorts(fetched, score);
    var sorted := SortByScore(fetched, score);
    var n := if |sorted| > q.limit then q.limit else |sorted|;
    TakeIsBest(sorted, n, score);
    assert Ranked(points, q, cosine, weight, fetched) == sorted[..n];
  }

  /**
   * The answer is the true top `limit` whenever the over-fetch suffices: every match was fetched, or the
   * worst cosine fetched is at most the last score returned, or decay has no weight.
   */
  lemma SearchIsExact(points: Points, q: Query, cosine: Cosine, weight: real, fetched: seq<Id>)
    requires IsFetch(points, q, cosine, fetched) && ScoresInRange(points, q, cosine) && 0.0 <= weight <= 1.0
    requires var ranked := Ranked(points, q, cosine, weight, fetched);
      || |Matches(points, q)| <= FetchLimit(q.limit)
      || weight == 0.0
      || (ranked != [] && fetched != []
          && cosine(fetched[|fetched| - 1]) <= ScoreOf(points, cosine, weight, ranked[|ranked| - 1]))
    ensures IsTop(points, q, id => ScoreOf(points, cosine, weight, id), Ranked(points, q, cosine, weight, fetched))
  {
    var score: Score := id => ScoreOf(points, cosine, weight, id);
    var ranked := Ranked(points, q, cosine, weight, fetched);
    RankedIsBestOfFetched(points, q, cosine, weight, fetched);
    forall id, r | id in Matches(points, q) && id !in ranked && r in ranked ensures score(id) <= score(r) {
      if id !in fetched {
        NotFetched(points, q, cosine, weight, fetched, id);
        Unfetched(points, q, cosine, weight, fetched, ranked, score, id, r);
      }
    }
  }

  /** A match left out of the fetch scores at most what any ranked point does, when decay cannot reorder them. */
  lemma Unfetched(points: Points, q: Query, cosine: Cosine, weight: real, fetched: seq<Id>, ranked: seq<Id>, score: Score,
                  id: Id, r: Id)
    requires IsFetch(points, q, cosine, fetched) && ScoresInRange(points, q, cosine) && 0.0 <= weight <= 1.0
    requires forall x :: score(x) == ScoreOf(points, cosine, weight, x)
    requires Descending(ranked, score) && r in ranked && r in fetched
    requires id in Matches(points, q) && id !in fetched
    requires weight == 0.0
             || (fetched != [] && cosine(fetched[|fetched| - 1]) <= score(ranked[|ranked| - 1]))
    ensures score(id) <= score(r)
  {
    BlendIsBelow(cosine(id), points[id].decayScore, weight);
    if weight == 0.0 {
      assert score(r) == cosine(r) && score(id) == cosine(id);
    } else {
      assert fetched[|fetched| - 1] in fetched;
      var j :| 0 <= j < |ranked| && ranked[j] == r;
      assert score(ranked[|ranked| - 1]) <= score(r);
    }
  }

  /** A match left out of the fetch shows that the page was full. */
  lemma NotFetched(points: Points, q: Query, cosine: Cosine, weight: real, fetched: seq<Id>, id: Id)
    requires IsFetch(points, q, cosine, fetched) && id in Matches(points, q) && id !in fetched
    ensures |Matches(points, q)| > FetchLimit(q.limit)
  {
    var got := set x | x in fetched;
    DistinctCount(fetched);
    SmallerSubset(got, Matches(points, q), id);
  }

  lemma {:induction false} DistinctCount(ids: seq<Id>)
    requires forall i, j | 0 <= i < j < |ids| :: ids[i] != ids[j]
    ensures |set x | x in ids| == |ids|
  {
    if ids != [] {
      var front, last := ids[..|ids| - 1], ids[|ids| - 1];
      DistinctCount(front);
      assert ids == front + [last];
      assert (set x | x in ids) == (set x | x in front) + {last};
    }
  }

  lemma SmallerSubset(a: set<Id>, b: set<Id>, extra: Id)
    requires a <= b && extra in b && extra !in a
    ensures |a| < |b|
  {
    assert a <= b - {extra};
    SubsetCount(a, b - {extra});
  }

  lemma {:induction false} SubsetCount(a: set<Id>, b: set<Id>)
    requires a <= b
    ensures |a| <= |b|
  {
    if a != {} {
      var x :| x in a;
      SubsetCount(a - {x}, b - {x});
    }
  }

  // ---------------------------------------------------------------------------
  // What is returned, read off the records
  // ---------------------------------------------------------------------------

  /** Every point returned is of the namespace asked for, live, not superseded unless asked for, and has all the tags. */
  lemma ReturnedPoints(points: Points, q: Query, cosine: Cosine, weight: real, fetched: seq<Id>, id: Id)
    requires IsFetch(points, q, cosine, fetched) && id in Ranked(points, q, cosine, weight, fetched)
    ensures id in points && points[id].namespace == q.namespace && points[id].deletedAt == None
    ensures q.includeSuperseded || points[id].supersededBy == None
    ensures forall t | t in q.tags :: t in points[id].tags
  {
    RankedIsBestOfFetched(points, q, cosine, weight, fetched);
    assert id in Matches(points, q);
  }

  /** When no more than `limit` such points exist, each of them is returned. */
  lemma AllReturned(points: Points, q: Query, cosine: Cosine, weight: real, fetched: seq<Id>, id: Id)
    requires IsFetch(points, q, cosine, fetched) && id in points
    requires points[id].namespace == q.namespace && points[id].deletedAt == None
    requires q.includeSuperseded || points[id].supersededBy == None
    requires forall t | t in q.tags :: t in points[id].tags
    requires |set x | x in points && points[x].namespace == q.namespace && points[x].deletedAt == None
                      && (q.includeSuperseded || points[x].supersededBy == None)
                      && (forall t | t in q.tags :: t in points[x].tags)| <= q.limit
    ensures id in Ranked(points, q, cosine, weight, fetched)
  {
    var ranked := Ranked(points, q, cosine, weight, fetched);
    RankedIsBestOfFetched(points, q, cosine, weight, fetched);
    assert Matches(points, q) == set x | x in points && points[x].namespace == q.namespace && points[x].deletedAt == None
                                         && (q.includeSuperseded || points[x].supersededBy == None)
                                         && (forall t | t in q.tags :: t in points[x].tags);
    var got := set x | x in ranked;
    DistinctCount(ranked);
    if id !in ranked {
      SmallerSubset(got, Matches(points, q), id);
    }
  }

  /** The score is the cosine at weight 0, cosine times decay at weight 1, and moves linearly in between. */
  lemma BlendIs(cosine: real, decay: real, weight: real)
    ensures Blend(cosine, decay, 0.0) == cosine && Blend(cosine, decay, 1.0) == cosine * decay
    ensures Blend(cosine, decay, weight) == cosine + weight * (cosine * decay - cosine)
  {
  }

  /** The score of a stored point is its blend with its own decay score. */
  lemma ScoreIs(points: Points, cosine: Cosine, weight: real, id: Id)
    requires id in points
    ensures ScoreOf(points, cosine, weight, id) == cosine(id) + weight * (cosine(id) * points[id].decayScore - cosine(id))
  {
    BlendIs(cosine(id), points[id].decayScore, weight);
  }

  // ---------------------------------------------------------------------------
  // What a page guarantees
  // ---------------------------------------------------------------------------

  /** Another collection that answers the query with the same page: same points, same cosines. */
  ghost predicate SamePage(points: Points, cosine: Cosine, other: Points, otherCosine: Cosine, q: Query, fetched: seq<Id>) {
    && IsFetch(other, q, otherCosine, fetched) && ScoresInRange(other, q, otherCosine)
    && forall id | id in fetched :: id in points && id in other && other[id] == points[id] && otherCosine(id) == cosine(id)
  }

  ghost predicate IsTopOf(points: Points, q: Query, cosine: Cosine, weight: real, fetched: seq<Id>) {
    IsTop(points, q, id => ScoreOf(points, cosine, weight, id), Ranked(points, q, cosine, weight, fetched))
  }

  /** Whatever collection the page came from, ranking it gives the true top. */
  ghost predicate Guarantees(points: Points, q: Query, cosine: Cosine, weight: real, fetched: seq<Id>) {
    forall other: Points, otherCosine: Cosine | SamePage(points, cosine, other, otherCosine, q, fetched) ::
      IsTopOf(other, q, otherCosine, weight, fetched)
  }

  /** What a caller can see: the page is not full, or its last cosine is at most the last score returned. */
  predicate Suffices(points: Points, q: Query, cosine: Cosine, weight: real, fetched: seq<Id>) {
    || |fetched| < FetchLimit(q.limit)
    || (var ranked := Ranked(points, q, cosine, weight, fetched);
        ranked == [] || cosine(fetched[|fetched| - 1]) <= ScoreOf(points, cosine, weight, ranked[|ranked| - 1]))
  }

  lemma {:induction false} InsertAlike(ids: seq<Id>, id: Id, a: Score, b: Score)
    requires a(id) == b(id) && forall x | x in ids :: a(x) == b(x)
    ensures InsertByScore(ids, id, a) == InsertByScore(ids, id, b)
  {
    if ids != [] {
      assert ids[|ids| - 1] in ids;
      InsertAlike(ids[..|ids| - 1], id, a, b);
    }
  }

  /** Sorting looks at the scores of the sorted points only. */
  lemma {:induction false} SortAlike(ids: seq<Id>, a: Score, b: Score)
    requires forall x | x in ids :: a(x) == b(x)
    ensures SortByScore(ids, a) == SortByScore(ids, b)
    ensures forall x | x in SortByScore(ids, a) :: x in ids
  {
    if ids != [] {
      var front, last := ids[..|ids| - 1], ids[|ids| - 1];
      assert ids == front + [last];
      SortAlike(front, a, b);
      InsertAlike(SortByScore(front, a), last, a, b);
      InsertMembers(SortByScore(front, a), last, a);
    }
  }

  /** The ranked page depends on the page alone. */
  lemma RankedAlike(points: Points, cosine: Cosine, other: Points, otherCosine: Cosine, q: Query, weight: real, fetched: seq<Id>)
    requires IsFetch(points, q, cosine, fetched) && SamePage(points, cosine, other, otherCosine, q, fetched)
    ensures Ranked(points, q, cosine, weight, fetched) == Ranked(other, q, otherCosine, weight, fetched)
  {
    FilterIsRedundant(points, q, fetched);
    FilterIsRedundant(other, q, fetched);
    SortAlike(fetched, id => ScoreOf(points, cosine, weight, id), id => ScoreOf(other, otherCosine, weight, id));
  }

  /** With limit 0 nothing is asked for; otherwise an empty answer means an empty collection. */
  lemma EmptyIsTop(points: Points, q: Query, cosine: Cosine, weight: real, fetched: seq<Id>)
    requires IsFetch(points, q, cosine, fetched) && Ranked(points, q, cosine, weight, fetched) == []
    ensures IsTopOf(points, q, cosine, weight, fetched)
  {
    RankedIsBestOfFetched(points, q, cosine, weight, fetched);
  }

  lemma SufficientIsTop(points: Points, cosine: Cosine, other: Points, otherCosine: Cosine, q: Query, weight: real, fetched: seq<Id>)
    requires IsFetch(points, q, cosine, fetched) && SamePage(points, cosine, other, otherCosine, q, fetched)
    requires 0.0 <= weight <= 1.0 && Suffices(points, q, cosine, weight, fetched)
    ensures IsTopOf(other, q, otherCosine, weight, fetched)
  {
    RankedAlike(points, cosine, other, otherCosine, q, weight, fetched);
    var ranked := Ranked(points, q, cosine, weight, fetched);
    if ranked == [] {
      EmptyIsTop(other, q, otherCosine, weight, fetched);
    } else {
      RankedIsBestOfFetched(other, q, otherCosine, weight, fetched);
      assert ranked[|ranked| - 1] in fetched && fetched[|fetched| - 1] in fetched;
      SearchIsExact(other, q, otherCosine, weight, fetched);
    }
  }

  /** A live match of the query that has not decayed. */
  function Unseen(q: Query): Memory {
    Memory(q.namespace, "", [], None, [], q.tags, None, 0, 0, 0, None, 1.0, None, None, None)
  }

  function CosineWith(cosine: Cosine, id: Id, c: real): Cosine {
    x => if x == id then c else cosine(x)
  }

  lemma LastIsFarthest(points: Points, q: Query, cosine: Cosine, fetched: seq<Id>, f: Id)
    requires IsFetch(points, q, cosine, fetched) && f in fetched
    ensures cosine(fetched[|fetched| - 1]) <= cosine(f)
  {
    var i :| 0 <= i < |fetched| && fetched[i] == f;
  }

  lemma OneMoreMatch(points: Points, q: Query, x: Id)
    requires x !in points
    ensures Matches(points[x := Unseen(q)], q) == Matches(points, q) + {x}
    ensures |Matches(points[x := Unseen(q)], q)| == |Matches(points, q)| + 1
  {
    assert Matches(points[x := Unseen(q)], q) == Matches(points, q) + {x};
  }

  /** Adding one match that is no closer than the last one fetched leaves a full page as it was. */
  lemma StillFetched(points: Points, q: Query, cosine: Cosine, fetched: seq<Id>, x: Id, other: Points, otherCosine: Cosine)
    requires IsFetch(points, q, cosine, fetched) && ScoresInRange(points, q, cosine)
    requires x !in points && fetched != [] && |fetched| == FetchLimit(q.limit)
    requires other == points[x := Unseen(q)] && otherCosine == CosineWith(cosine, x, cosine(fetched[|fetched| - 1]))
    ensures SamePage(points, cosine, other, otherCosine, q, fetched) && x in Matches(other, q)
  {
    OneMoreMatch(points, q, x);
    assert fetched[|fetched| - 1] in fetched && x !in fetched;
    assert forall id | id in fetched :: otherCosine(id) == cosine(id) && other[id] == points[id];
    forall f | f in fetched ensures cosine(fetched[|fetched| - 1]) <= cosine(f) {
      LastIsFarthest(points, q, cosine, fetched, f);
    }
    assert IsFetch(other, q, otherCosine, fetched);
  }

  /** The added match outscores the last point of an insufficient page. */
  lemma Overtakes(points: Points, q: Query, cosine: Cosine, weight: real, fetched: seq<Id>, x: Id, other: Points, otherCosine: Cosine)
    requires IsFetch(points, q, cosine, fetched) && x !in points && !Suffices(points, q, cosine, weight, fetched)
    requires other == points[x := Unseen(q)] && otherCosine == CosineWith(cosine, x, cosine(fetched[|fetched| - 1]))
    ensures var ranked := Ranked(points, q, cosine, weight, fetched);
      && ranked != [] && x !in ranked
      && ScoreOf(other, otherCosine, weight, x) > ScoreOf(other, otherCosine, weight, ranked[|ranked| - 1])
  {
    var ranked := Ranked(points, q, cosine, weight, fetched);
    RankedIsBestOfFetched(points, q, cosine, weight, fetched);
    var r := ranked[|ranked| - 1];
    assert r in ranked && r in fetched && r != x;
    BlendIs(cosine(fetched[|fetched| - 1]), 1.0, weight);
  }

  lemma InsufficientMisses(points: Points, q: Query, cosine: Cosine, weight: real, fetched: seq<Id>, x: Id)
    requires IsFetch(points, q, cosine, fetched) && ScoresInRange(points, q, cosine)
    requires x !in points && !Suffices(points, q, cosine, weight, fetched)
    ensures !Guarantees(points, q, cosine, weight, fetched)
  {
    var ranked := Ranked(points, q, cosine, weight, fetched);
    var other: Points, otherCosine: Cosine := points[x := Unseen(q)], CosineWith(cosine, x, cosine(fetched[|fetched| - 1]));
    StillFetched(points, q, cosine, fetched, x, other, otherCosine);
    RankedAlike(points, cosine, other, otherCosine, q, weight, fetched);
    Overtakes(points, q, cosine, weight, fetched, x, other, otherCosine);
    Missed(other, q, otherCosine, weight, fetched, ranked, x);
    NoGuarantee(points, q, cosine, weight, fetched, other, otherCosine);
  }

  lemma NoGuarantee(points: Points, q: Query, cosine: Cosine, weight: real, fetched: seq<Id>, other: Points, otherCosine: Cosine)
    requires SamePage(points, cosine, other, otherCosine, q, fetched) && !IsTopOf(other, q, otherCosine, weight, fetched)
    ensures !Guarantees(points, q, cosine, weight, fetched)
  {
  }

  lemma Missed(points: Points, q: Query, cosine: Cosine, weight: real, fetched: seq<Id>, ranked: seq<Id>, x: Id)
    requires ranked == Ranked(points, q, cosine, weight, fetched) && ranked != []
    requires x in Matches(points, q) && x !in ranked
    requires ScoreOf(points, cosine, weight, x) > ScoreOf(points, cosine, weight, ranked[|ranked| - 1])
    ensures !IsTopOf(points, q, cosine, weight, fetched)
  {
    Refutes(points, q, id => ScoreOf(points, cosine, weight, id), ranked, x, ranked[|ranked| - 1]);
  }

  /** An id longer than every one in use. */
  lemma {:induction false} UnusedId(used: set<Id>) returns (x: Id)
    ensures x !in used && forall id | id in used :: |id| < |x|
  {
    if used == {} {
      x := "x";
    } else {
      var id :| id in used;
      var y := UnusedId(used - {id});
      x := y + id + "x";
    }
  }

  /**
   * Exactly when a page can be relied on: it guarantees the true top `limit`, whatever else the collection
   * holds, if and only if it is not full, or its last cosine is at most the last score returned.
   */
  lemma PageGuarantees(points: Points, q: Query, cosine: Cosine, weight: real, fetched: seq<Id>)
    requires IsFetch(points, q, cosine, fetched) && ScoresInRange(points, q, cosine) && 0.0 <= weight <= 1.0
    ensures Guarantees(points, q, cosine, weight, fetched) <==> Suffices(points, q, cosine, weight, fetched)
  {
    if Suffices(points, q, cosine, weight, fetched) {
      forall other: Points, otherCosine: Cosine | SamePage(points, cosine, other, otherCosine, q, fetched)
        ensures IsTopOf(other, q, otherCosine, weight, fetched)
      {
        SufficientIsTop(points, cosine, other, otherCosine, q, weight, fetched);
      }
    } else {
      var x := UnusedId(points.Keys);
      InsufficientMisses(points, q, cosine, weight, fetched, x);
    }
  }

  // ---------------------------------------------------------------------------
  // A page that misses
  // ---------------------------------------------------------------------------

  function Name(i: nat): Id {
    seq(i, _ => 'x')
  }

  lemma NamesDiffer(i: nat, j: nat)
    requires i != j
    ensures Name(i) != Name(j)
  {
    assert |Name(i)| == i && |Name(j)| == j;
  }

  function Sample(decay: real): Memory {
    Memory("ns", "agent", [], None, [], [], None, 0, 0, 0, None, decay, None, None, None)
  }

  /** Thirty-one live points: thirty fully decayed ones with cosine 1, and a fresh one with cosine 0.9. */
  function SamplePoints(): Points {
    map id | id in Names(31) :: Sample(if |id| == 30 then 1.0 else 0.0)
  }

  function Names(n: nat): seq<Id> {
    seq(n, i requires 0 <= i < n => Name(i))
  }

  const SAMPLE_QUERY := Query("ns", 1, [], false)

  function SampleCosine(id: Id): real {
    if |id| == 30 then 0.9 else 1.0
  }

  /**
   * Over-fetching does not always suffice: with full decay weight and limit 1, the thirty fetched points
   * score 0 and a point with score 0.9 is missed.
   */
  lemma SearchCanMiss()
    ensures IsFetch(SamplePoints(), SAMPLE_QUERY, SampleCosine, Names(30))
    ensures ScoresInRange(SamplePoints(), SAMPLE_QUERY, SampleCosine)
    ensures !IsTop(SamplePoints(), SAMPLE_QUERY, id => ScoreOf(SamplePoints(), SampleCosine, 1.0, id),
                   Ranked(SamplePoints(), SAMPLE_QUERY, SampleCosine, 1.0, Names(30)))
  {
    SampleIsFetch();
    SampleMatches();
    RankedIsBestOfFetched(SamplePoints(), SAMPLE_QUERY, SampleCosine, 1.0, Names(30));
    SampleMisses(Ranked(SamplePoints(), SAMPLE_QUERY, SampleCosine, 1.0, Names(30)));
  }

  lemma SampleMisses(ranked: seq<Id>)
    requires |ranked| == 1 && ranked[0] in Names(30)
    ensures !IsTop(SamplePoints(), SAMPLE_QUERY, id => ScoreOf(SamplePoints(), SampleCosine, 1.0, id), ranked)
  {
    var i := NameIndex(30, ranked[0]);
    SampleScores(i);
    SampleScores(30);
    SampleMatches();
    assert Names(31)[30] == Name(30) && |Name(30)| == 30;
    Refutes(SamplePoints(), SAMPLE_QUERY, id => ScoreOf(SamplePoints(), SampleCosine, 1.0, id), ranked, Name(30), ranked[0]);
  }

  lemma Refutes(points: Points, q: Query, score: Score, ranked: seq<Id>, missed: Id, r: Id)
    requires missed in Matches(points, q) && missed !in ranked && r in ranked && score(missed) > score(r)
    ensures !IsTop(points, q, score, ranked)
  {
  }

  lemma NameIndex(n: nat, id: Id) returns (i: nat)
    requires id in Names(n)
    ensures i < n && id == Name(i) && |id| == i
  {
    i :| 0 <= i < n && Names(n)[i] == id;
  }

  lemma SampleScores(i: nat)
    requires i < 31
    ensures ScoreOf(SamplePoints(), SampleCosine, 1.0, Name(i)) == if i == 30 then 0.9 else 0.0
  {
    assert Names(31)[i] == Name(i) && |Name(i)| == i;
  }

  lemma NamesDistinct(n: nat)
    ensures forall i, j | 0 <= i < j < n :: Names(n)[i] != Names(n)[j]
  {
    forall i, j | 0 <= i < j < n ensures Names(n)[i] != Names(n)[j] {
      NamesDiffer(i, j);
    }
  }

  lemma SampleMatches()
    ensures Matches(SamplePoints(), SAMPLE_QUERY) == (set id | id in Names(31))
    ensures |Matches(SamplePoints(), SAMPLE_QUERY)| == 31
  {
    NamesDistinct(31);
    DistinctCount(Names(31));
  }

  lemma SampleIsFetch()
    ensures IsFetch(SamplePoints(), SAMPLE_QUERY, SampleCosine, Names(30))
    ensures ScoresInRange(SamplePoints(), SAMPLE_QUERY, SampleCosine)
  {
    SampleMatches();
    NamesDistinct(30);
    forall id | id in Names(30) ensures id in Matches(SamplePoints(), SAMPLE_QUERY) && SampleCosine(id) == 1.0 {
      var i := NameIndex(30, id);
      assert Names(31)[i] == id;
    }
    forall i | 0 <= i < 30 ensures SampleCosine(Names(30)[i]) == 1.0 {
      assert |Name(i)| == i;
    }
  }
}
