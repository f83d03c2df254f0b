/** The PAT store: an append-only log, two in-memory indexes and a lookup cache. */
module PatStore {
  import opened Base
  import opened TokenCodec

  type Id = string

  /** The fields of a PAT that no operation of the store looks at. */
  datatype Holder = Holder(
    displayName: string,
    agentIdentity: string,
    allowedNamespaces: seq<string>,
    scopes: seq<string>,
    createdBy: string)

  datatype Pat = Pat(
    id: Id,
    tokenPrefix: string,
    tokenHash: string,
    holder: Holder,
    createdAt: int,
    expiresAt: Option<int>,
    isRevoked: bool,
    revokedAt: Option<int>,
    revokedReason: string)

  /** One line of the log. */
  datatype Record = Live(pat: Pat) | Tombstone(gone: Id)

  /** The keyed hash of a secret and the comparison of two hashes, both left abstract. */
  datatype Crypto = Crypto(hash: string -> string, same: (string, string) -> bool)

  datatype LookupResult =
    | Found(pat: Pat)
    | Malformed
    | Unknown(prefix: string)
    | Revoked(prefix: string)
    | Expired(prefix: string)

  datatype StoreError = NotFound(id: Id) | RotationState(id: Id) | DeleteState(id: Id)

  // ---------------------------------------------------------------------------
  // The indexes as a value, and what replaying a log builds
  // ---------------------------------------------------------------------------

  /** `byPrefix` lists the ids of a prefix in insertion order, as a JavaScript Set does. */
  datatype Index = Index(byId: map<Id, Pat>, byPrefix: map<string, seq<Id>>)

  const EMPTY_INDEX := Index(map[], map[])

  function Bucket(byPrefix: map<string, seq<Id>>, prefix: string): seq<Id> {
    if prefix in byPrefix then byPrefix[prefix] else []
  }

  function AddId(ids: seq<Id>, id: Id): seq<Id> {
    if id in ids then ids else ids + [id]
  }

  function RemoveId(ids: seq<Id>, id: Id): (r: seq<Id>)
    ensures forall x :: x in r <==> x in ids && x != id
  {
    if ids == [] then []
    else if ids[0] == id then RemoveId(ids[1..], id)
    else [ids[0]] + RemoveId(ids[1..], id)
  }

  /** The prefix index after an id leaves a bucket; an emptied bucket is dropped. */
  function Leave(byPrefix: map<string, seq<Id>>, prefix: string, id: Id): map<string, seq<Id>> {
    if prefix !in byPrefix then byPrefix
    else if RemoveId(byPrefix[prefix], id) == [] then byPrefix - {prefix}
    else byPrefix[prefix := RemoveId(byPrefix[prefix], id)]
  }

  function Indexed(ix: Index, pat: Pat): Index {
    var moved := pat.id in ix.byId && ix.byId[pat.id].tokenPrefix != pat.tokenPrefix;
    var byPrefix := if moved then Leave(ix.byPrefix, ix.byId[pat.id].tokenPrefix, pat.id) else ix.byPrefix;
    Index(ix.byId[pat.id := pat], byPrefix[pat.tokenPrefix := AddId(Bucket(byPrefix, pat.tokenPrefix), pat.id)])
  }

  function Unindexed(ix: Index, id: Id): Index {
    if id !in ix.byId then ix
    else Index(ix.byId - {id}, Leave(ix.byPrefix, ix.byId[id].tokenPrefix, id))
  }

  function Applied(ix: Index, rec: Record): Index {
    match rec
    case Live(pat) => Indexed(ix, pat)
    case Tombstone(id) => Unindexed(ix, id)
  }

  /** What a store opened on this log holds in memory. */
  function Replay(log: seq<Record>): Index {
    if log == [] then EMPTY_INDEX else Applied(Replay(log[..|log| - 1]), log[|log| - 1])
  }

  lemma ReplayOne(log: seq<Record>, rec: Record)
    ensures Replay(log + [rec]) == Applied(Replay(log), rec)
  {
    assert (log + [rec])[..|log|] == log;
  }

  lemma ReplayNext(log: seq<Record>, i: nat)
    requires i < |log|
    ensures Replay(log[..i + 1]) == Applied(Replay(log[..i]), log[i])
  {
    ReplayOne(log[..i], log[i]);
    assert log[..i + 1] == log[..i] + [log[i]];
  }

  function FirstMatch(ids: seq<Id>, byId: map<Id, Pat>, c: Crypto, hash: string): Option<Pat> {
    if ids == [] then None
    else if ids[0] in byId && c.same(byId[ids[0]].tokenHash, hash) then Some(byId[ids[0]])
    else FirstMatch(ids[1..], byId, c, hash)
  }

  function Winner(ix: Index, c: Crypto, key: Parsed): Option<Pat> {
    FirstMatch(Bucket(ix.byPrefix, key.prefix), ix.byId, c, c.hash(key.secret))
  }

  function Evaluated(pat: Pat, prefix: string, now: int): LookupResult {
    if pat.isRevoked then Revoked(prefix)
    else if pat.expiresAt.Some? && pat.expiresAt.value <= now then Expired(prefix)
    else Found(pat)
  }

  /** A lookup without any cache, on the given indexes. */
  function FreshLookup(ix: Index, c: Crypto, raw: string, now: int): LookupResult {
    match TokenParts(raw)
    case None => Malformed
    case Some(key) => FreshLookupOf(ix, c, key, now)
  }

  function FreshLookupOf(ix: Index, c: Crypto, key: Parsed, now: int): LookupResult {
    match Winner(ix, c, key)
    case None => Unknown(key.prefix)
    case Some(pat) => Evaluated(pat, key.prefix, now)
  }

  // ---------------------------------------------------------------------------
  // What a log says, read without any index
  // ---------------------------------------------------------------------------

  function Subject(rec: Record): Id {
    match rec
    case Live(pat) => pat.id
    case Tombstone(id) => id
  }

  /** The last word of the log about an id. */
  function Latest(log: seq<Record>, id: Id): Option<Pat> {
    if log == [] then None
    else if Subject(log[|log| - 1]) != id then Latest(log[..|log| - 1], id)
    else if log[|log| - 1].Live? then Some(log[|log| - 1].pat)
    else None
  }

  /** Position of the record with which an id took up its present prefix. */
  function Since(log: seq<Record>, id: Id): nat {
    if log == [] then 0
    else
      var before, last := log[..|log| - 1], log[|log| - 1];
      if Subject(last) != id then Since(before, id)
      else if last.Live? && Latest(before, id).Some? && Latest(before, id).value.tokenPrefix == last.pat.tokenPrefix
      then Since(before, id)
      else |log| - 1
  }

  ghost predicate Matches(log: seq<Record>, c: Crypto, key: Parsed, id: Id) {
    && Latest(log, id).Some?
    && Latest(log, id).value.tokenPrefix == key.prefix
    && c.same(Latest(log, id).value.tokenHash, c.hash(key.secret))
  }

  /** The answer the log itself gives: the live record that matches and took up the prefix first. */
  ghost predicate Answers(log: seq<Record>, c: Crypto, raw: string, now: int, r: LookupResult) {
    match TokenParts(raw)
    case None => r == Malformed
    case Some(key) => AnswersFor(log, c, key, now, r)
  }

  /** What a matching PAT comes to: a revocation tells before an expiry, and an expiry includes its own instant. */
  predicate IsVerdict(p: Pat, prefix: string, now: int, r: LookupResult) {
    && (r == Revoked(prefix) <==> p.isRevoked)
    && (r == Expired(prefix) <==> !p.isRevoked && p.expiresAt.Some? && p.expiresAt.value <= now)
    && (r == Found(p) <==> !p.isRevoked && (p.expiresAt.None? || now < p.expiresAt.value))
  }

  ghost predicate AnswersFor(log: seq<Record>, c: Crypto, key: Parsed, now: int, r: LookupResult) {
    || (r == Unknown(key.prefix) && forall id :: !Matches(log, c, key, id))
    || (exists id :: IsFirst(log, c, key, id) && IsVerdict(Latest(log, id).value, key.prefix, now, r))
  }

  /** `id` matches, and took up the prefix before any other id that matches. */
  ghost predicate IsFirst(log: seq<Record>, c: Crypto, key: Parsed, id: Id) {
    && Matches(log, c, key, id)
    && (forall other :: Matches(log, c, key, other) && other != id ==> Since(log, id) < Since(log, other))
  }

  ghost predicate InOrder(log: seq<Record>, ids: seq<Id>) {
    forall i, j | 0 <= i < j < |ids| :: Since(log, ids[i]) < Since(log, ids[j])
  }

  ghost predicate Holds(log: seq<Record>, id: Id, prefix: string) {
    Latest(log, id).Some? && Latest(log, id).value.tokenPrefix == prefix
  }

  /** The three representations agree: log, index by id, index by prefix. */
  ghost predicate Agrees(ix: Index, log: seq<Record>) {
    && (forall id :: id in ix.byId <==> Latest(log, id).Some?)
    && (forall id | id in ix.byId :: ix.byId[id] == Latest(log, id).value && ix.byId[id].id == id)
    && (forall p, id :: id in Bucket(ix.byPrefix, p) <==> Holds(log, id, p))
    && (forall p | p in ix.byPrefix :: ix.byPrefix[p] != [] && InOrder(log, ix.byPrefix[p]))
  }

  lemma {:induction false} ReplayAgrees(log: seq<Record>)
    ensures Agrees(Replay(log), log)
  {
    if log != [] {
      var before, last := log[..|log| - 1], log[|log| - 1];
      ReplayAgrees(before);
      assert log == before + [last];
      match last {
        case Live(pat) => IndexedAgrees(Replay(before), before, pat);
        case Tombstone(id) => UnindexedAgrees(Replay(before), before, id);
      }
    }
  }

  lemma {:induction false} SinceBound(log: seq<Record>, id: Id)
    requires Latest(log, id).Some?
    ensures Since(log, id) < |log|
  {
    if Subject(log[|log| - 1]) != id || Latest(log[..|log| - 1], id).Some? {
      if Latest(log[..|log| - 1], id).Some? {
        SinceBound(log[..|log| - 1], id);
      }
    }
  }

  lemma LatestAfter(log: seq<Record>, rec: Record)
    ensures forall id | id != Subject(rec) ::
              Latest(log + [rec], id) == Latest(log, id) && Since(log + [rec], id) == Since(log, id)
    ensures Latest(log + [rec], Subject(rec)) == if rec.Live? then Some(rec.pat) else None
    ensures rec.Live? && Holds(log, rec.pat.id, rec.pat.tokenPrefix) ==> Since(log + [rec], rec.pat.id) == Since(log, rec.pat.id)
    ensures rec.Live? && !Holds(log, rec.pat.id, rec.pat.tokenPrefix) ==> Since(log + [rec], rec.pat.id) == |log|
  {
    assert (log + [rec])[..|log|] == log;
  }

  lemma {:induction false} RemoveKeepsOrder(log: seq<Record>, log': seq<Record>, ids: seq<Id>, id: Id)
    requires InOrder(log, ids)
    requires forall x | x != id :: Since(log', x) == Since(log, x)
    ensures InOrder(log', RemoveId(ids, id))
  {
    if ids != [] {
      var rest := RemoveId(ids[1..], id);
      assert forall i, j | 0 <= i < j < |ids[1..]| :: ids[1..][i] == ids[i + 1] && ids[1..][j] == ids[j + 1];
      RemoveKeepsOrder(log, log', ids[1..], id);
      if ids[0] != id {
        forall j | 0 <= j < |rest| ensures Since(log', ids[0]) < Since(log', rest[j]) {
          assert rest[j] in rest;
          var k :| 0 <= k < |ids[1..]| && ids[1..][k] == rest[j];
          assert ids[k + 1] == rest[j];
        }
      }
    }
  }

  lemma SameOrder(log: seq<Record>, log': seq<Record>, ids: seq<Id>)
    requires InOrder(log, ids)
    requires forall x | x in ids :: Since(log', x) == Since(log, x)
    ensures InOrder(log', ids)
  {
    assert forall i | 0 <= i < |ids| :: ids[i] in ids;
  }

  /** A prefix index that lists, bucket by bucket, the ids of `log` but `gone`, in the order of `log'`. */
  ghost predicate Lists(b: map<string, seq<Id>>, log: seq<Record>, log': seq<Record>, gone: set<Id>) {
    && (forall q, x :: x in Bucket(b, q) <==> Holds(log, x, q) && x !in gone)
    && (forall q | q in b :: b[q] != [] && InOrder(log', b[q]))
  }

  lemma LeaveLists(ix: Index, log: seq<Record>, log': seq<Record>, p: string, id: Id)
    requires Agrees(ix, log) && Holds(log, id, p)
    requires forall x | x != id :: Since(log', x) == Since(log, x)
    ensures Lists(Leave(ix.byPrefix, p, id), log, log', {id})
  {
    var b := Leave(ix.byPrefix, p, id);
    assert id in Bucket(ix.byPrefix, p);
    RemoveKeepsOrder(log, log', ix.byPrefix[p], id);
    forall q, x ensures x in Bucket(b, q) <==> Holds(log, x, q) && x !in {id} {
      assert x in Bucket(ix.byPrefix, q) <==> Holds(log, x, q);
    }
    forall q | q in b ensures b[q] != [] && InOrder(log', b[q]) {
      if q != p {
        assert forall x | x in ix.byPrefix[q] :: x in Bucket(ix.byPrefix, q);
        SameOrder(log, log', ix.byPrefix[q]);
      }
    }
  }

  lemma StayLists(ix: Index, log: seq<Record>, log': seq<Record>)
    requires Agrees(ix, log)
    requires forall x | Latest(log, x).Some? :: Since(log', x) == Since(log, x)
    ensures Lists(ix.byPrefix, log, log', {})
  {
    forall q | q in ix.byPrefix ensures InOrder(log', ix.byPrefix[q]) {
      assert forall x | x in ix.byPrefix[q] :: x in Bucket(ix.byPrefix, q);
      SameOrder(log, log', ix.byPrefix[q]);
    }
  }

  lemma UnindexedAgrees(ix: Index, log: seq<Record>, id: Id)
    requires Agrees(ix, log)
    ensures Agrees(Unindexed(ix, id), log + [Tombstone(id)])
  {
    var log' := log + [Tombstone(id)];
    LatestAfter(log, Tombstone(id));
    if id in ix.byId {
      LeaveLists(ix, log, log', ix.byId[id].tokenPrefix, id);
    } else {
      StayLists(ix, log, log');
    }
    var b := Unindexed(ix, id).byPrefix;
    forall q, x ensures x in Bucket(b, q) <==> Holds(log', x, q) {
      assert x in Bucket(b, q) <==> Holds(log, x, q) && x != id;
    }
  }

  lemma IndexedAgrees(ix: Index, log: seq<Record>, pat: Pat)
    requires Agrees(ix, log)
    ensures Agrees(Indexed(ix, pat), log + [Live(pat)])
  {
    var log' := log + [Live(pat)];
    LatestAfter(log, Live(pat));
    var (b, gone) := AfterMove(ix, log, pat);
    EnterBucket(log, log', pat, b, gone);
    IndexedBuckets(ix, log, pat, b, gone);
  }

  /** The prefix index after the indexed id has left its former bucket, if it changes bucket. */
  ghost function AfterMove(ix: Index, log: seq<Record>, pat: Pat): (r: (map<string, seq<Id>>, set<Id>))
    requires Agrees(ix, log)
    ensures Lists(r.0, log, log + [Live(pat)], r.1)
    ensures r.1 <= {pat.id} && (pat.id in r.1 ==> !Holds(log, pat.id, pat.tokenPrefix))
    ensures pat.id !in r.1 ==> forall q | q != pat.tokenPrefix :: !Holds(log, pat.id, q)
    ensures Indexed(ix, pat).byPrefix == r.0[pat.tokenPrefix := AddId(Bucket(r.0, pat.tokenPrefix), pat.id)]
  {
    LatestAfter(log, Live(pat));
    if pat.id in ix.byId && ix.byId[pat.id].tokenPrefix != pat.tokenPrefix then
      LeaveLists(ix, log, log + [Live(pat)], ix.byId[pat.id].tokenPrefix, pat.id);
      (Leave(ix.byPrefix, ix.byId[pat.id].tokenPrefix, pat.id), {pat.id})
    else
      StayLists(ix, log, log + [Live(pat)]);
      (ix.byPrefix, {})
  }

  lemma IndexedBuckets(ix: Index, log: seq<Record>, pat: Pat, b: map<string, seq<Id>>, gone: set<Id>)
    requires Lists(b, log, log + [Live(pat)], gone) && gone <= {pat.id}
    requires pat.id !in gone ==> forall q | q != pat.tokenPrefix :: !Holds(log, pat.id, q)
    requires Indexed(ix, pat).byPrefix == b[pat.tokenPrefix := AddId(Bucket(b, pat.tokenPrefix), pat.id)]
    ensures forall q, x :: x in Bucket(Indexed(ix, pat).byPrefix, q) <==> Holds(log + [Live(pat)], x, q)
  {
    LatestAfter(log, Live(pat));
    var b' := Indexed(ix, pat).byPrefix;
    forall q, x ensures x in Bucket(b', q) <==> Holds(log + [Live(pat)], x, q) {
      assert x in Bucket(b, q) <==> Holds(log, x, q) && x !in gone;
    }
  }

  /** An id that enters a bucket enters last, which is also its place in the log. */
  lemma EnterBucket(log: seq<Record>, log': seq<Record>, pat: Pat, b: map<string, seq<Id>>, gone: set<Id>)
    requires log' == log + [Live(pat)] && Lists(b, log, log', gone)
    requires pat.id in gone ==> !Holds(log, pat.id, pat.tokenPrefix)
    ensures InOrder(log', AddId(Bucket(b, pat.tokenPrefix), pat.id))
  {
    LatestAfter(log, Live(pat));
    var p := pat.tokenPrefix;
    var ids := Bucket(b, p);
    assert pat.id in Bucket(b, p) <==> Holds(log, pat.id, p) && pat.id !in gone;
    if pat.id !in ids {
      forall x | x in ids ensures Since(log', x) < |log| {
        assert x in Bucket(b, p) <==> Holds(log, x, p) && x !in gone;
        SinceBound(log, x);
      }
      assert forall i | 0 <= i < |ids| :: ids[i] in ids;
    }
  }

  // ---------------------------------------------------------------------------
  // The first matching candidate is the record the log itself singles out
  // ---------------------------------------------------------------------------

  predicate IsMatch(id: Id, byId: map<Id, Pat>, c: Crypto, hash: string) {
    id in byId && c.same(byId[id].tokenHash, hash)
  }

  lemma {:induction false} FirstMatchIs(ids: seq<Id>, byId: map<Id, Pat>, c: Crypto, hash: string) returns (k: nat)
    ensures k <= |ids|
    ensures forall j | 0 <= j < k :: !IsMatch(ids[j], byId, c, hash)
    ensures k < |ids| ==> IsMatch(ids[k], byId, c, hash)
    ensures FirstMatch(ids, byId, c, hash) == if k < |ids| then Some(byId[ids[k]]) else None
  {
    if ids == [] || IsMatch(ids[0], byId, c, hash) {
      k := 0;
    } else {
      var k' := FirstMatchIs(ids[1..], byId, c, hash);
      k := k' + 1;
      assert forall j | 0 < j < |ids| :: ids[j] == ids[1..][j - 1];
    }
  }

  lemma FreshLookupAnswers(ix: Index, log: seq<Record>, c: Crypto, key: Parsed, now: int)
    requires Agrees(ix, log)
    ensures AnswersFor(log, c, key, now, FreshLookupOf(ix, c, key, now))
  {
    var ids := Bucket(ix.byPrefix, key.prefix);
    var k := FirstMatchIs(ids, ix.byId, c, c.hash(key.secret));
    forall id | Matches(log, c, key, id)
      ensures k < |ids| && (id != ids[k] ==> Since(log, ids[k]) < Since(log, id))
    {
      assert Holds(log, id, key.prefix);
      assert id in Bucket(ix.byPrefix, key.prefix);
      var j :| 0 <= j < |ids| && ids[j] == id;
      assert IsMatch(ids[j], ix.byId, c, c.hash(key.secret));
      assert k <= j;
    }
    if k < |ids| {
      assert ids[k] in Bucket(ix.byPrefix, key.prefix);
      assert Holds(log, ids[k], key.prefix);
      assert IsFirst(log, c, key, ids[k]);
    }
  }

  // ---------------------------------------------------------------------------
  // Why the cache cannot be noticed
  // ---------------------------------------------------------------------------

  datatype CacheEntry = CacheEntry(pat: Pat, expiresAt: int)

  type Cache = map<string, CacheEntry>

  /** Every cached PAT is still what the indexes would find for its secret. */
  ghost predicate CacheAgrees(cache: Cache, ix: Index, c: Crypto) {
    forall s :: IsRight(cache, ix, c, s)
  }

  ghost predicate IsRight(cache: Cache, ix: Index, c: Crypto, s: string) {
    s in cache ==> |s| == SECRET_LENGTH && Winner(ix, c, Parsed(s, s[..PREFIX_LENGTH])) == Some(cache[s].pat)
  }

  function Without(cache: Cache, id: Id): Cache {
    map s | s in cache && cache[s].pat.id != id :: cache[s]
  }

  /** `ids'` is `ids` with `x` possibly dropped, or possibly added at the end. */
  ghost predicate BarelyChanged(ids: seq<Id>, ids': seq<Id>, x: Id) {
    ids' == ids || ids' == RemoveId(ids, x) || ids' == ids + [x]
  }

  /**
   * A change to the entry of one id `x` leaves every winner but `x` in place, provided `x` is new,
   * gone, or keeps its hash.
   */
  lemma {:induction false} WinnerStays(ids: seq<Id>, ids': seq<Id>, byId: map<Id, Pat>, byId': map<Id, Pat>, x: Id, c: Crypto, hash: string)
    requires BarelyChanged(ids, ids', x)
    requires forall id | id != x :: (id in byId <==> id in byId') && (id in byId ==> byId[id] == byId'[id])
    requires FirstMatch(ids, byId, c, hash).Some? && FirstMatch(ids, byId, c, hash).value.id != x
    requires x in byId ==> byId[x].id == x
    requires x in ids ==> !IsMatch(x, byId, c, hash) ==> !IsMatch(x, byId', c, hash)
    ensures FirstMatch(ids', byId', c, hash) == FirstMatch(ids, byId, c, hash)
  {
    if ids[0] == x {
      assert !IsMatch(x, byId, c, hash);
      if ids' == ids + [x] {
        assert ids'[1..] == ids[1..] + [x];
        WinnerStays(ids[1..], ids'[1..], byId, byId', x, c, hash);
      } else if ids' == ids {
        WinnerStays(ids[1..], ids[1..], byId, byId', x, c, hash);
      } else {
        WinnerStays(ids[1..], ids', byId, byId', x, c, hash);
      }
    } else if !IsMatch(ids[0], byId, c, hash) {
      if ids' == ids + [x] {
        assert ids'[1..] == ids[1..] + [x];
      }
      WinnerStays(ids[1..], ids'[1..], byId, byId', x, c, hash);
    }
  }

  /** Dropping the entry of a secret, and putting its winner in, keep the cache right. */
  lemma CacheEdit(cache: Cache, ix: Index, c: Crypto, key: Parsed, expiresAt: int)
    requires CacheAgrees(cache, ix, c) && |key.secret| == SECRET_LENGTH && key.prefix == key.secret[..PREFIX_LENGTH]
    ensures CacheAgrees(cache - {key.secret}, ix, c)
    ensures Winner(ix, c, key).Some? ==>
              && CacheAgrees(cache[key.secret := CacheEntry(Winner(ix, c, key).value, expiresAt)], ix, c)
              && CacheAgrees((cache - {key.secret})[key.secret := CacheEntry(Winner(ix, c, key).value, expiresAt)], ix, c)
  {
    var without := cache - {key.secret};
    forall s ensures IsRight(without, ix, c, s) {
      assert IsRight(cache, ix, c, s);
    }
    if Winner(ix, c, key).Some? {
      var entry := CacheEntry(Winner(ix, c, key).value, expiresAt);
      var put := cache[key.secret := entry];
      forall s ensures IsRight(put, ix, c, s) {
        assert IsRight(cache, ix, c, s);
      }
      assert without[key.secret := entry] == put;
    }
  }

  /** How one record may relate to the indexes it is applied to, in a mutation of this store. */
  predicate Gentle(ix: Index, rec: Record) {
    match rec
    case Tombstone(id) => id in ix.byId
    case Live(pat) =>
      pat.id in ix.byId ==>
        ix.byId[pat.id].tokenPrefix == pat.tokenPrefix && ix.byId[pat.id].tokenHash == pat.tokenHash
  }

  lemma BucketChange(ix: Index, log: seq<Record>, rec: Record, p: string)
    requires Agrees(ix, log) && Gentle(ix, rec)
    ensures BarelyChanged(Bucket(ix.byPrefix, p), Bucket(Applied(ix, rec).byPrefix, p), Subject(rec))
  {
  }

  /** Applying a record and dropping the cache entries of its subject keeps the cache right. */
  lemma CacheAfter(cache: Cache, ix: Index, log: seq<Record>, c: Crypto, rec: Record)
    requires Agrees(ix, log) && CacheAgrees(cache, ix, c) && Gentle(ix, rec)
    ensures CacheAgrees(Without(cache, Subject(rec)), Applied(ix, rec), c)
  {
    var x, ix' := Subject(rec), Applied(ix, rec);
    forall s | s in Without(cache, x)
      ensures |s| == SECRET_LENGTH && Winner(ix', c, Parsed(s, s[..PREFIX_LENGTH])) == Some(cache[s].pat)
    {
      assert IsRight(cache, ix, c, s);
      var p := s[..PREFIX_LENGTH];
      BucketChange(ix, log, rec, p);
      assert x in Bucket(ix.byPrefix, p) <==> Holds(log, x, p);
      WinnerStays(Bucket(ix.byPrefix, p), Bucket(ix'.byPrefix, p), ix.byId, ix'.byId, x, c, c.hash(s));
    }
  }

  /** A cached PAT is indexed, so a fresh id is in no cache entry. */
  lemma FreshNotCached(cache: Cache, ix: Index, log: seq<Record>, c: Crypto, id: Id)
    requires Agrees(ix, log) && CacheAgrees(cache, ix, c) && id !in ix.byId
    ensures Without(cache, id) == cache
  {
    forall s | s in cache ensures cache[s].pat.id != id {
      assert IsRight(cache, ix, c, s);
      var p := s[..PREFIX_LENGTH];
      var k := FirstMatchIs(Bucket(ix.byPrefix, p), ix.byId, c, c.hash(s));
      assert Winner(ix, c, Parsed(s, p)) == Some(cache[s].pat);
    }
  }

  // ---------------------------------------------------------------------------
  // Mutations
  // ---------------------------------------------------------------------------

  /** An id that occurs in the log; freshly generated ids do not. */
  ghost predicate Used(log: seq<Record>, id: Id) {
    log != [] && (Subject(log[|log| - 1]) == id || Used(log[..|log| - 1], id))
  }

  function RevokedCopy(pat: Pat, now: int, reason: string): (r: Pat)
    ensures r.isRevoked && r.revokedAt == Some(now) && r.revokedReason == reason
    ensures r.(isRevoked := pat.isRevoked, revokedAt := pat.revokedAt, revokedReason := pat.revokedReason) == pat
  {
    pat.(isRevoked := true, revokedAt := Some(now), revokedReason := reason)
  }

  function RotatedTo(id: Id): string {
    "rotated; replaced by " + id
  }

  ghost predicate IsNew(log: seq<Record>, rec: Record) {
    rec.Live? && !Used(log, rec.pat.id) && !rec.pat.isRevoked
  }

  ghost predicate IsRevocation(log: seq<Record>, rec: Record) {
    && rec.Live?
    && Latest(log, rec.pat.id).Some?
    && var p := Latest(log, rec.pat.id).value;
       && !p.isRevoked
       && rec.pat == p.(isRevoked := true, revokedAt := rec.pat.revokedAt, revokedReason := rec.pat.revokedReason)
  }

  ghost predicate IsPurge(log: seq<Record>, rec: Record) {
    rec.Tombstone? && Latest(log, rec.gone).Some? && Latest(log, rec.gone).value.isRevoked
  }

  /** The records one mint, rotate, revoke or delete appends to a log. */
  ghost predicate IsMutation(log: seq<Record>, recs: seq<Record>) {
    || (|recs| == 1 && (IsNew(log, recs[0]) || IsRevocation(log, recs[0]) || IsPurge(log, recs[0])))
    || (|recs| == 2 && IsNew(log, recs[0]) && IsRevocation(log, recs[1]) && Subject(recs[0]) != Subject(recs[1]))
  }

  lemma {:induction false} LatestUsed(log: seq<Record>, id: Id)
    requires Latest(log, id).Some?
    ensures Used(log, id) && Latest(log, id).value.id == id
  {
    if Subject(log[|log| - 1]) != id {
      LatestUsed(log[..|log| - 1], id);
    }
  }

  lemma SecondRecord(log: seq<Record>, first: Record, second: Record)
    requires IsMutation(log, [first, second])
    ensures IsRevocation(log + [first], second)
  {
    LatestAfter(log, first);
  }

  lemma MutationIsGentle(log: seq<Record>, rec: Record)
    requires IsNew(log, rec) || IsRevocation(log, rec) || IsPurge(log, rec)
    ensures Gentle(Replay(log), rec)
    ensures IsNew(log, rec) ==> Subject(rec) !in Replay(log).byId
    ensures !IsNew(log, rec) ==> Subject(rec) in Replay(log).byId
  {
    ReplayAgrees(log);
    if Latest(log, Subject(rec)).Some? {
      LatestUsed(log, Subject(rec));
    }
  }

  /** An id that was issued and is now revoked or deleted. */
  ghost predicate Dead(log: seq<Record>, id: Id) {
    Used(log, id) && (Latest(log, id).None? || Latest(log, id).value.isRevoked)
  }

  lemma DeadAfterRecord(log: seq<Record>, rec: Record, id: Id)
    requires IsNew(log, rec) || IsRevocation(log, rec) || IsPurge(log, rec)
    requires Dead(log, id)
    ensures Dead(log + [rec], id)
  {
    LatestAfter(log, rec);
    assert (log + [rec])[..|log|] == log;
  }

  /** The log after a run of mutations. */
  function LogAfter(log: seq<Record>, run: seq<seq<Record>>): seq<Record>
    decreases |run|
  {
    if run == [] then log else LogAfter(log + run[0], run[1..])
  }

  ghost predicate IsRun(log: seq<Record>, run: seq<seq<Record>>)
    decreases |run|
  {
    run == [] || (IsMutation(log, run[0]) && IsRun(log + run[0], run[1..]))
  }

  lemma DeadAfterMutation(log: seq<Record>, recs: seq<Record>, id: Id)
    requires IsMutation(log, recs) && Dead(log, id)
    ensures Dead(log + recs, id)
  {
    DeadAfterRecord(log, recs[0], id);
    if |recs| == 2 {
      assert recs == [recs[0], recs[1]];
      SecondRecord(log, recs[0], recs[1]);
      DeadAfterRecord(log + [recs[0]], recs[1], id);
      assert log + recs == log + [recs[0]] + [recs[1]];
    } else {
      assert recs == [recs[0]];
    }
  }

  lemma OnlyOneFirst(log: seq<Record>, c: Crypto, key: Parsed, a: Id, b: Id)
    requires IsFirst(log, c, key, a) && IsFirst(log, c, key, b)
    ensures a == b
  {
  }

  /**
   * The answer to a token, read off the log: that of the live matching record which took up the prefix first,
   * by its revocation and its expiry; unknown exactly when no record matches.
   */
  lemma AnswerIs(log: seq<Record>, c: Crypto, key: Parsed, id: Id, now: int, r: LookupResult)
    requires AnswersFor(log, c, key, now, r)
    ensures IsFirst(log, c, key, id) ==>
              var p := Latest(log, id).value;
              && (r == Revoked(key.prefix) <==> p.isRevoked)
              && (r == Expired(key.prefix) <==> !p.isRevoked && p.expiresAt.Some? && p.expiresAt.value <= now)
              && (r == Found(p) <==> !p.isRevoked && !(p.expiresAt.Some? && p.expiresAt.value <= now))
              && (r.Revoked? || r.Expired? || r.Found?)
    ensures r == Unknown(key.prefix) <==> forall x :: !Matches(log, c, key, x)
  {
    if w :| IsFirst(log, c, key, w) && IsVerdict(Latest(log, w).value, key.prefix, now, r) {
      if IsFirst(log, c, key, id) {
        OnlyOneFirst(log, c, key, w, id);
      }
    }
  }

  lemma FoundIsLive(log: seq<Record>, c: Crypto, key: Parsed, now: int, r: LookupResult)
    requires AnswersFor(log, c, key, now, r) && r.Found?
    ensures Latest(log, r.pat.id) == Some(r.pat) && !r.pat.isRevoked
    ensures r.pat.expiresAt.None? || now < r.pat.expiresAt.value
  {
    var w :| IsFirst(log, c, key, w) && IsVerdict(Latest(log, w).value, key.prefix, now, r);
    LatestUsed(log, w);
  }

  lemma FoundIsGood(log: seq<Record>, c: Crypto, raw: string, now: int, r: LookupResult)
    requires Answers(log, c, raw, now, r) && r.Found?
    ensures Latest(log, r.pat.id) == Some(r.pat) && !r.pat.isRevoked
    ensures r.pat.expiresAt.None? || now < r.pat.expiresAt.value
  {
    FoundIsLive(log, c, TokenParts(raw).value, now, r);
  }

  /**
   * Revocation and deletion are final: whatever mutations follow, no lookup at any later time finds
   * a PAT that was once revoked or deleted.
   */
  lemma {:induction false} DeadForever(log: seq<Record>, run: seq<seq<Record>>, id: Id, c: Crypto, raw: string, now: int, r: LookupResult)
    requires Dead(log, id) && IsRun(log, run)
    requires Answers(LogAfter(log, run), c, raw, now, r)
    ensures !(r.Found? && r.pat.id == id)
    decreases |run|
  {
    if run != [] {
      DeadAfterMutation(log, run[0], id);
      DeadForever(log + run[0], run[1..], id, c, raw, now, r);
    } else if r.Found? {
      FoundIsLive(log, c, TokenParts(raw).value, now, r);
    }
  }

  /** The id whose cache entries a mutation invalidates: the subject of its last record, unless just minted. */
  ghost function Evicted(before: seq<Record>, recs: seq<Record>): Option<Id>
    requires IsMutation(before, recs)
  {
    if IsNew(before, recs[|recs| - 1]) then None else Some(Subject(recs[|recs| - 1]))
  }

  function Evict(cache: Cache, evict: Option<Id>): Cache {
    if evict.Some? then Without(cache, evict.value) else cache
  }

  /** Indexing the records of a mutation and evicting its subject leaves a right cache. */
  lemma CacheAfterMutation(cache: Cache, before: seq<Record>, recs: seq<Record>, c: Crypto)
    requires IsMutation(before, recs) && CacheAgrees(cache, Replay(before), c)
    ensures CacheAgrees(Evict(cache, Evicted(before, recs)), Replay(before + recs), c)
  {
    var first := recs[0];
    ReplayAgrees(before);
    MutationIsGentle(before, first);
    ReplayOne(before, first);
    CacheAfter(cache, Replay(before), before, c, first);
    if IsNew(before, first) {
      FreshNotCached(cache, Replay(before), before, c, Subject(first));
    }
    if |recs| == 2 {
      var second := recs[1];
      assert recs == [first, second] && before + recs == before + [first] + [second];
      SecondRecord(before, first, second);
      MutationIsGentle(before + [first], second);
      ReplayAgrees(before + [first]);
      ReplayOne(before + [first], second);
      CacheAfter(cache, Replay(before + [first]), before + [first], c, second);
    } else {
      assert recs == [first];
    }
  }

  lemma ReplayTwo(log: seq<Record>, first: Record, second: Record)
    ensures Replay(log + [first, second]) == Applied(Applied(Replay(log), first), second)
  {
    ReplayOne(log, first);
    ReplayOne(log + [first], second);
    assert log + [first, second] == log + [first] + [second];
  }

  lemma MutationReplays(before: seq<Record>, recs: seq<Record>)
    requires 1 <= |recs| <= 2
    ensures |recs| == 1 ==> Replay(before + recs) == Applied(Replay(before), recs[0])
    ensures |recs| == 2 ==> Replay(before + recs) == Applied(Applied(Replay(before), recs[0]), recs[1])
  {
    if |recs| == 2 {
      assert recs == [recs[0], recs[1]];
      ReplayTwo(before, recs[0], recs[1]);
    } else {
      assert recs == [recs[0]];
      ReplayOne(before, recs[0]);
    }
  }

  lemma PartsShape(raw: string)
    requires TokenParts(raw).Some?
    ensures var key := TokenParts(raw).value; |key.secret| == SECRET_LENGTH && key.prefix == key.secret[..PREFIX_LENGTH]
  {
  }

  /** What `rotateLocked` writes is a mutation that evicts the old PAT. */
  lemma RotationIsMutation(log: seq<Record>, oldId: Id, pat: Pat, revokedOld: Pat)
    requires IsNew(log, Live(pat)) && Latest(log, oldId).Some? && !Latest(log, oldId).value.isRevoked
    requires revokedOld == Latest(log, oldId).value.(isRevoked := true, revokedAt := revokedOld.revokedAt, revokedReason := revokedOld.revokedReason)
    ensures IsMutation(log, [Live(pat), Live(revokedOld)]) && revokedOld.id == oldId
    ensures Evicted(log, [Live(pat), Live(revokedOld)]) == Some(oldId)
  {
    LatestUsed(log, oldId);
  }

  /** Looking up in the replayed indexes gives the answer that the log gives. */
  lemma ReplayedLookupAnswers(ix: Index, log: seq<Record>, c: Crypto, raw: string, now: int)
    requires ix == Replay(log)
    ensures Answers(log, c, raw, now, FreshLookup(ix, c, raw, now))
  {
    if TokenParts(raw).Some? {
      ReplayAgrees(log);
      FreshLookupAnswers(ix, log, c, TokenParts(raw).value, now);
    }
  }

  // ---------------------------------------------------------------------------
  // The store
  // ---------------------------------------------------------------------------

  /**
   * The one mutation that `runExclusive` lets proceed: its records wait for the append, or have
   * landed in the log and wait for the in-memory indexes to follow.
   */
  datatype Pending =
    | Idle
    | Writing(recs: seq<Record>, evict: Option<Id>)
    | Written(recs: seq<Record>, evict: Option<Id>)

  /** A live PAT and the token handed out with it: the token parses to the PAT's prefix and hashed secret. */
  ghost predicate IsIssue(pat: Pat, token: string, c: Crypto) {
    && TokenParts(token).Some?
    && pat.tokenPrefix == TokenParts(token).value.prefix
    && pat.tokenHash == c.hash(TokenParts(token).value.secret)
    && !pat.isRevoked
  }

  class PatStore {
    const crypto: Crypto
    const cacheTtlMs: int
    var byId: map<Id, Pat>
    var byPrefix: map<string, seq<Id>>
    var cache: Cache
    var log: seq<Record>
    var pending: Pending

    ghost function Memory(): Index
      reads `byId, `byPrefix
    {
      Index(byId, byPrefix)
    }

    /** The part of the log the indexes account for: all of it, but for an append just landed. */
    ghost function Settled(): seq<Record>
      reads `log, `pending
    {
      if pending.Written? && |pending.recs| <= |log| then log[..|log| - |pending.recs|] else log
    }

    ghost predicate Valid()
      reads this
    {
      InStep() && CacheAgrees(cache, Memory(), crypto)
    }

    /** The indexes are those of the settled log, and the pending mutation is one. */
    ghost predicate InStep()
      reads `byId, `byPrefix, `log, `pending
    {
      && Memory() == Replay(Settled())
      && (!pending.Idle? ==>
            && IsMutation(Settled(), pending.recs)
            && pending.evict == Evicted(Settled(), pending.recs))
      && (pending.Written? ==> log == Settled() + pending.recs)
    }

    method IndexPat(pat: Pat)
      modifies `byId, `byPrefix
      ensures Memory() == Indexed(old(Memory()), pat)
    {
      if pat.id in byId && byId[pat.id].tokenPrefix != pat.tokenPrefix {
        LeaveBucket(byId[pat.id].tokenPrefix, pat.id);
      }
      byId := byId[pat.id := pat];
      if pat.tokenPrefix !in byPrefix {
        byPrefix := byPrefix[pat.tokenPrefix := []];
      }
      byPrefix := byPrefix[pat.tokenPrefix := AddId(byPrefix[pat.tokenPrefix], pat.id)];
    }

    method LeaveBucket(prefix: string, id: Id)
      modifies `byPrefix
      ensures byPrefix == Leave(old(byPrefix), prefix, id)
    {
      if prefix in byPrefix {
        byPrefix := byPrefix[prefix := RemoveId(byPrefix[prefix], id)];
        if byPrefix[prefix] == [] {
          byPrefix := byPrefix - {prefix};
        }
      }
    }

    method Unindex(id: Id)
      modifies `byId, `byPrefix
      ensures Memory() == Unindexed(old(Memory()), id)
    {
      if id !in byId {
        return;
      }
      LeaveBucket(byId[id].tokenPrefix, id);
      byId := byId - {id};
    }

    /** `PatStore.open`: replays the log found on disk. */
    constructor (c: Crypto, ttl: int, onDisk: seq<Record>)
      ensures Valid() && crypto == c && log == onDisk && pending == Idle && cache == map[]
    {
      crypto, cacheTtlMs := c, ttl;
      byId, byPrefix, cache := map[], map[], map[];
      log, pending := onDisk, Idle;
      new;
      var i := 0;
      while i < |onDisk|
        invariant 0 <= i <= |onDisk|
        invariant Memory() == Replay(onDisk[..i])
        invariant log == onDisk && pending == Idle && cache == map[]
      {
        ReplayNext(onDisk, i);
        IndexRecord(onDisk[i]);
        i := i + 1;
      }
      assert onDisk[..i] == onDisk;
    }

    /** First half of `mintLocked`: everything up to the append. */
    method BeginMint(newId: Id, bytes: seq<Byte>, holder: Holder, expiresAt: Option<int>, now: int)
      returns (pat: Pat, token: string)
      requires Valid() && pending.Idle? && |bytes| == RANDOM_BYTES && !Used(log, newId)
      modifies `pending
      ensures Valid() && pending == Writing([Live(pat)], None)
      ensures IsIssue(pat, token, crypto) && pat.id == newId
      ensures pat.expiresAt == expiresAt && pat.holder == holder && pat.createdAt == now
      ensures pat.revokedAt == None && pat.revokedReason == ""
    {
      pat, token := Mint(newId, bytes, holder, expiresAt, now);
      pending := Writing([Live(pat)], None);
    }

    /** The PAT and token that a mint or a rotation hands out. */
    method Mint(newId: Id, bytes: seq<Byte>, holder: Holder, expiresAt: Option<int>, now: int)
      returns (pat: Pat, token: string)
      requires |bytes| == RANDOM_BYTES
      ensures IsIssue(pat, token, crypto) && pat.id == newId
      ensures pat.expiresAt == expiresAt && pat.holder == holder && pat.createdAt == now
      ensures pat.revokedAt == None && pat.revokedReason == ""
    {
      var secret := GenerateSecret(bytes);
      token := TOKEN_NAMESPACE + secret;
      ParseRecovers(bytes, token);
      pat := Pat(newId, secret[..PREFIX_LENGTH], crypto.hash(secret), holder, now, expiresAt, false, None, "");
    }

    /** First half of `rotateLocked`. */
    method BeginRotate(oldId: Id, newId: Id, bytes: seq<Byte>, holder: Holder, expiresAt: Option<int>, now: int)
      returns (r: Result<(Pat, string), StoreError>)
      requires Valid() && pending.Idle? && |bytes| == RANDOM_BYTES && !Used(log, newId)
      modifies `pending
      ensures Valid()
      ensures r.Err? <==> Latest(log, oldId).None? || Latest(log, oldId).value.isRevoked
      ensures r.Err? ==> pending == Idle
                         && r.error == if Latest(log, oldId).None? then NotFound(oldId) else RotationState(oldId)
      ensures r.Ok? ==>
                && IsIssue(r.value.0, r.value.1, crypto) && r.value.0.id == newId
                && r.value.0.holder == holder && r.value.0.expiresAt == expiresAt && r.value.0.createdAt == now
                && pending.Writing? && |pending.recs| == 2 && pending.recs[0] == Live(r.value.0)
                && pending.recs[1] == Live(RevokedCopy(Latest(log, oldId).value, now, RotatedTo(newId)))
                && pending.evict == Some(oldId)
      ensures r.Ok? ==> pending.recs[1].pat.revokedReason == "rotated; replaced by " + newId
    {
      ReplayAgrees(log);
      if oldId !in byId {
        return Err(NotFound(oldId));
      }
      var current := byId[oldId];
      if current.isRevoked {
        return Err(RotationState(oldId));
      }
      var pat, token := Mint(newId, bytes, holder, expiresAt, now);
      BeginReplace(current, pat, now);
      return Ok((pat, token));
    }

    method BeginReplace(current: Pat, pat: Pat, now: int)
      requires Valid() && pending.Idle? && IsNew(log, Live(pat))
      requires Latest(log, current.id) == Some(current) && !current.isRevoked
      modifies `pending
      ensures Valid() && pending.Writing? && |pending.recs| == 2 && pending.recs[0] == Live(pat)
      ensures pending.recs[1] == Live(RevokedCopy(current, now, RotatedTo(pat.id))) && pending.evict == Some(current.id)
    {
      var revokedOld := RevokedCopy(current, now, RotatedTo(pat.id));
      RotationIsMutation(log, current.id, pat, revokedOld);
      pending := Writing([Live(pat), Live(revokedOld)], Some(current.id));
    }

    /** First half of `revokeLocked`; revoking twice changes nothing and reports the PAT as it is. */
    method BeginRevoke(id: Id, reason: string, now: int) returns (r: Result<Pat, StoreError>)
      requires Valid() && pending.Idle?
      modifies `pending
      ensures Valid()
      ensures r == (if Latest(log, id).None? then Err(NotFound(id))
                    else if Latest(log, id).value.isRevoked then Ok(Latest(log, id).value)
                    else Ok(RevokedCopy(Latest(log, id).value, now, reason)))
      ensures pending == if Latest(log, id).Some? && !Latest(log, id).value.isRevoked
                         then Writing([Live(r.value)], Some(id)) else Idle
    {
      ReplayAgrees(log);
      if id !in byId {
        return Err(NotFound(id));
      }
      var current := byId[id];
      if current.isRevoked {
        return Ok(current);
      }
      var updated := RevokedCopy(current, now, reason);
      LatestUsed(log, id);
      pending := Writing([Live(updated)], Some(id));
      return Ok(updated);
    }

    /** First half of `deleteLocked`: only a revoked PAT may be deleted. */
    method BeginDelete(id: Id) returns (r: Result<(), StoreError>)
      requires Valid() && pending.Idle?
      modifies `pending
      ensures Valid()
      ensures r == (if Latest(log, id).None? then Err(NotFound(id))
                    else if !Latest(log, id).value.isRevoked then Err(DeleteState(id))
                    else Ok(()))
      ensures pending == if r.Ok? then Writing([Tombstone(id)], Some(id)) else Idle
    {
      ReplayAgrees(log);
      if id !in byId {
        return Err(NotFound(id));
      }
      if !byId[id].isRevoked {
        return Err(DeleteState(id));
      }
      pending := Writing([Tombstone(id)], Some(id));
      return Ok(());
    }

    /** The append lands; lookups may run before the mutation resumes. */
    method AppendLands()
      requires Valid() && pending.Writing?
      modifies `log, `pending
      ensures Valid() && Settled() == old(Settled()) && log == old(log) + old(pending.recs)
      ensures pending == Written(old(pending.recs), old(pending.evict))
    {
      log := log + pending.recs;
      pending := Written(pending.recs, pending.evict);
      assert Settled() == old(log);
    }

    /** The append is rejected: the mutation fails and nothing changed. */
    method AppendFails()
      requires Valid() && pending.Writing?
      modifies `pending
      ensures Valid() && pending == Idle
    {
      pending := Idle;
    }

    /** Second half of every mutation: index the records, then drop stale cache entries. */
    method Resume()
      requires Valid() && pending.Written?
      modifies this
      ensures Valid() && pending == Idle && log == old(log) && Settled() == log
    {
      CacheAfterMutation(cache, Settled(), pending.recs, crypto);
      IndexMutation(Settled(), pending.recs);
      InvalidateCache(pending.evict);
      pending := Idle;
    }

    method IndexMutation(ghost before: seq<Record>, recs: seq<Record>)
      requires Memory() == Replay(before) && 1 <= |recs| <= 2
      modifies `byId, `byPrefix
      ensures Memory() == Replay(before + recs)
    {
      MutationReplays(before, recs);
      IndexRecord(recs[0]);
      if |recs| == 2 {
        IndexRecord(recs[1]);
      }
    }

    method InvalidateCache(evict: Option<Id>)
      modifies `cache
      ensures cache == Evict(old(cache), evict)
    {
      if evict.Some? {
        InvalidateCacheForId(evict.value);
      }
    }

    method IndexRecord(rec: Record)
      modifies `byId, `byPrefix
      ensures Memory() == Applied(old(Memory()), rec)
    {
      match rec {
        case Live(pat) => IndexPat(pat);
        case Tombstone(id) => Unindex(id);
      }
    }

    method InvalidateCacheForId(id: Id)
      modifies `cache
      ensures cache == Without(old(cache), id)
    {
      var keys := cache.Keys;
      while keys != {}
        invariant keys <= old(cache).Keys
        invariant cache == map s | s in old(cache) && (s in keys || old(cache)[s].pat.id != id) :: old(cache)[s]
        decreases keys
      {
        var key :| key in keys;
        if cache[key].pat.id == id {
          cache := cache - {key};
        }
        keys := keys - {key};
      }
    }

    /**
     * Looks a raw token up. The clock is read up to three times: against the cache entry, for the
     * new entry's expiry, and against the PAT's own expiry.
     */
    method Lookup(raw: string, cacheClock: int, storeClock: int, now: int) returns (r: LookupResult)
      requires Valid()
      modifies `cache
      ensures Valid() && Settled() == old(Settled())
      ensures r == FreshLookup(Replay(Settled()), crypto, raw, now)
      ensures Answers(Settled(), crypto, raw, now, r)
      ensures r.Found? ==>
                && Latest(Settled(), r.pat.id) == Some(r.pat)
                && !r.pat.isRevoked && (r.pat.expiresAt.None? || now < r.pat.expiresAt.value)
    {
      ReplayedLookupAnswers(Memory(), Settled(), crypto, raw, now);
      ghost var answer := FreshLookup(Replay(Settled()), crypto, raw, now);
      if answer.Found? {
        FoundIsGood(Settled(), crypto, raw, now, answer);
      }
      var parsed := ParseToken(raw);
      if parsed.None? {
        return Malformed;
      }
      PartsShape(raw);
      r := LookupKey(parsed.value, cacheClock, storeClock, now);
    }

    method LookupKey(key: Parsed, cacheClock: int, storeClock: int, now: int) returns (r: LookupResult)
      requires |key.secret| == SECRET_LENGTH && key.prefix == key.secret[..PREFIX_LENGTH]
      requires CacheAgrees(cache, Memory(), crypto)
      modifies `cache
      ensures CacheAgrees(cache, Memory(), crypto)
      ensures r == FreshLookupOf(Memory(), crypto, key, now)
    {
      assert IsRight(cache, Memory(), crypto, key.secret);
      CacheEdit(cache, Memory(), crypto, key, storeClock + cacheTtlMs);
      if key.secret in cache {
        var cached := cache[key.secret];
        if cached.expiresAt > cacheClock {
          return Evaluated(cached.pat, key.prefix, now);
        }
        cache := cache - {key.secret};
      }
      var found := FindCandidate(key);
      if found.None? {
        return Unknown(key.prefix);
      }
      cache := cache[key.secret := CacheEntry(found.value, storeClock + cacheTtlMs)];
      return Evaluated(found.value, key.prefix, now);
    }

    /** The candidate loop of `lookup`. */
    method FindCandidate(key: Parsed) returns (r: Option<Pat>)
      ensures r == Winner(Memory(), crypto, key)
    {
      if key.prefix !in byPrefix || byPrefix[key.prefix] == [] {
        return None;
      }
      var ids := byPrefix[key.prefix];
      var hash := crypto.hash(key.secret);
      var i := 0;
      while i < |ids|
        invariant 0 <= i <= |ids|
        invariant FirstMatch(ids, byId, crypto, hash) == FirstMatch(ids[i..], byId, crypto, hash)
      {
        if ids[i] in byId && crypto.same(byId[ids[i]].tokenHash, hash) {
          return Some(byId[ids[i]]);
        }
        i := i + 1;
      }
      return None;
    }
  }
}
