/**
 * The write chain of the PAT store: mints, rotations, revocations and deletions queued by many callers, each step of
 * one interleaving freely with the steps of the others and with lookups.
 */
module PatRuns {
  import opened Base
  import opened KeyedLock
  import opened TokenCodec
  import P = PatStore

  datatype PatOp =
    | Mint(newId: P.Id, bytes: seq<Byte>, holder: P.Holder, expiresAt: Option<int>)
    | Rotate(oldId: P.Id, newId: P.Id, bytes: seq<Byte>, holder: P.Holder, expiresAt: Option<int>)
    | Revoke(id: P.Id, reason: string)
    | Delete(id: P.Id)

  /** What a mutation answers before its append, if it is not refused. */
  datatype Answer = Issued(pat: P.Pat, token: string) | Changed(pat: P.Pat) | Deleted | Refused(error: P.StoreError)

  /** The chain has one key and keeps no files of its own: the log is the store's. */
  type Chain = State<PatOp, ()>

  const WRITE_CHAIN: Key := "writeChain"

  function NoFile(): Body<PatOp, ()> {
    (op: PatOp, seen: Option<()>) => None
  }

  function Moved(chain: Chain, step: Step<PatOp>): Chain
    requires Enabled(chain, step)
  {
    Next(chain, step, NoFile(), false)
  }

  /** A call that has started its append is `Loaded`; one whose append has landed is `Stored`. */
  ghost predicate InStep(chain: Chain, pending: P.Pending) {
    && (forall t | 0 <= t < |chain.tasks| :: PhaseFits(chain.tasks[t], pending))
    && (!pending.Idle? ==> exists t :: 0 <= t < |chain.tasks| && (chain.tasks[t].phase.Loaded? || chain.tasks[t].phase.Stored?))
  }

  predicate PhaseFits(task: Task<PatOp, ()>, pending: P.Pending) {
    task.key == WRITE_CHAIN && (task.phase.Loaded? ==> pending.Writing?) && (task.phase.Stored? ==> pending.Written?)
  }

  /** The calls whose appends have landed, in the order of their arrival. */
  predicate InArrivalOrder(chain: Chain, landed: seq<nat>) {
    && (forall i | 0 <= i < |landed| :: landed[i] < |chain.tasks| && chain.tasks[landed[i]].applied)
    && (forall i, j | 0 <= i < j < |landed| :: landed[i] < landed[j])
  }

  /** What `runExclusive` is for: when a mutation starts, no other is pending. */
  lemma NothingPending(chain: Chain, pending: P.Pending, t: nat)
    requires Inv(chain, false) && InStep(chain, pending)
    requires t < |chain.tasks| && chain.tasks[t].phase.Running?
    ensures pending.Idle?
  {
    if !pending.Idle? {
      var u :| 0 <= u < |chain.tasks| && (chain.tasks[u].phase.Loaded? || chain.tasks[u].phase.Stored?);
      assert PhaseFits(chain.tasks[t], pending) && PhaseFits(chain.tasks[u], pending);
      OneInBody(chain, false, t, u);
    }
  }

  /** While one mutation is in its body, every other waits or is done. */
  lemma OthersRest(chain: Chain, pending: P.Pending, t: nat)
    requires Inv(chain, false) && InStep(chain, pending) && t < |chain.tasks| && InBody(chain, t)
    ensures forall u | 0 <= u < |chain.tasks| && u != t :: chain.tasks[u].phase.Waiting? || chain.tasks[u].phase.Done?
  {
    forall u | 0 <= u < |chain.tasks| && u != t
      ensures chain.tasks[u].phase.Waiting? || chain.tasks[u].phase.Done?
    {
      assert PhaseFits(chain.tasks[t], pending) && PhaseFits(chain.tasks[u], pending);
      if InBody(chain, u) {
        OneInBody(chain, false, t, u);
      }
    }
  }

  /** A step of the call in its body keeps chain and store in step. */
  lemma StepFits(chain: Chain, next: Chain, pending: P.Pending, pending': P.Pending, t: nat)
    requires Inv(chain, false) && InStep(chain, pending) && t < |chain.tasks| == |next.tasks| && InBody(chain, t)
    requires forall u | 0 <= u < |chain.tasks| && u != t :: next.tasks[u] == chain.tasks[u]
    requires PhaseFits(next.tasks[t], pending')
    requires !pending'.Idle? ==> next.tasks[t].phase.Loaded? || next.tasks[t].phase.Stored?
    ensures InStep(next, pending')
  {
    OthersRest(chain, pending, t);
    forall u | 0 <= u < |next.tasks| ensures PhaseFits(next.tasks[u], pending') {
      if u != t {
        assert PhaseFits(chain.tasks[u], pending);
      }
    }
  }

  /** Arrivals, resumptions and settlings concern no mutation under way. */
  lemma QuietFits(chain: Chain, next: Chain, pending: P.Pending)
    requires InStep(chain, pending) && |chain.tasks| <= |next.tasks|
    requires forall u | 0 <= u < |chain.tasks| ::
               && next.tasks[u].key == chain.tasks[u].key
               && (next.tasks[u].phase.Loaded? <==> chain.tasks[u].phase.Loaded?)
               && (next.tasks[u].phase.Stored? <==> chain.tasks[u].phase.Stored?)
    requires forall u | |chain.tasks| <= u < |next.tasks| :: next.tasks[u].key == WRITE_CHAIN && next.tasks[u].phase.Waiting?
    ensures InStep(next, pending)
  {
    forall u | 0 <= u < |next.tasks| ensures PhaseFits(next.tasks[u], pending) {
      assert u < |chain.tasks| ==> PhaseFits(chain.tasks[u], pending);
    }
    if !pending.Idle? {
      var u :| 0 <= u < |chain.tasks| && (chain.tasks[u].phase.Loaded? || chain.tasks[u].phase.Stored?);
      assert next.tasks[u].phase.Loaded? || next.tasks[u].phase.Stored?;
    }
  }

  /** Mutations land in arrival order. */
  lemma LandsNext(chain: Chain, landed: seq<nat>, t: nat)
    requires Inv(chain, false) && InArrivalOrder(chain, landed)
    requires forall u | 0 <= u < |chain.tasks| :: chain.tasks[u].key == WRITE_CHAIN
    requires t < |chain.tasks| && chain.tasks[t].phase.Loaded?
    ensures InArrivalOrder(Moved(chain, Store(t)), landed + [t])
  {
    forall i | 0 <= i < |landed| ensures landed[i] < t {
      assert TaskOk(chain, landed[i]) && TaskOk(chain, t);
      if t < landed[i] {
        ArrivalOrder(chain, false, t, landed[i]);
      }
    }
  }

  ghost predicate IsFresh(op: PatOp, log: seq<P.Record>) {
    op.Mint? || op.Rotate? ==> |op.bytes| == RANDOM_BYTES && !P.Used(log, op.newId)
  }

  /** An unknown PAT, one already revoked, or one that is not. */
  predicate IsRefused(op: PatOp, log: seq<P.Record>) {
    match op
    case Mint(_, _, _, _) => false
    case Rotate(id, _, _, _, _) => P.Latest(log, id).None? || P.Latest(log, id).value.isRevoked
    case Revoke(id, _) => P.Latest(log, id).None?
    case Delete(id) => P.Latest(log, id).None? || !P.Latest(log, id).value.isRevoked
  }

  /** What a mutation that is not refused hands out and leaves for its append. */
  ghost predicate IsQueued(op: PatOp, log: seq<P.Record>, now: int, c: P.Crypto, answer: Answer, pending: P.Pending) {
    match op
    case Mint(newId, _, _, _) =>
      && answer.Issued? && P.IsIssue(answer.pat, answer.token, c) && answer.pat.id == newId
      && pending == P.Writing([P.Live(answer.pat)], None)
    case Rotate(oldId, newId, _, _, _) =>
      && answer.Issued? && P.IsIssue(answer.pat, answer.token, c) && answer.pat.id == newId && P.Latest(log, oldId).Some?
      && pending == P.Writing([P.Live(answer.pat), P.Live(P.RevokedCopy(P.Latest(log, oldId).value, now, P.RotatedTo(newId)))],
                              Some(oldId))
    case Revoke(id, reason) =>
      && answer.Changed? && P.Latest(log, id).Some?
      && var current := P.Latest(log, id).value;
         if current.isRevoked then answer.pat == current && pending.Idle?
         else answer.pat == P.RevokedCopy(current, now, reason) && pending == P.Writing([P.Live(answer.pat)], Some(id))
    case Delete(id) => answer.Deleted? && pending == P.Writing([P.Tombstone(id)], Some(id))
  }

  method BeginOn(store: P.PatStore, op: PatOp, now: int) returns (answer: Answer)
    requires store.Valid() && store.pending.Idle? && IsFresh(op, store.log)
    modifies store`pending
    ensures store.Valid() && (store.pending.Idle? || store.pending.Writing?)
    ensures answer.Refused? <==> IsRefused(op, store.log)
    ensures if answer.Refused? then store.pending.Idle? else IsQueued(op, store.log, now, store.crypto, answer, store.pending)
  {
    match op {
      case Mint(newId, bytes, holder, expiresAt) =>
        var pat, token := store.BeginMint(newId, bytes, holder, expiresAt, now);
        return Issued(pat, token);
      case Rotate(oldId, newId, bytes, holder, expiresAt) =>
        var r := store.BeginRotate(oldId, newId, bytes, holder, expiresAt, now);
        return if r.Ok? then Issued(r.value.0, r.value.1) else Refused(r.error);
      case Revoke(id, reason) =>
        var r := store.BeginRevoke(id, reason, now);
        return if r.Ok? then Changed(r.value) else Refused(r.error);
      case Delete(id) =>
        var r := store.BeginDelete(id);
        return if r.Ok? then Deleted else Refused(r.error);
    }
  }

  class PatService {
    const store: P.PatStore
    var chain: Chain
    ghost var landed: seq<nat>

    ghost predicate Valid()
      reads this, store
    {
      store.Valid() && Inv(chain, false) && InStep(chain, store.pending) && InArrivalOrder(chain, landed)
    }

    constructor (c: P.Crypto, ttl: int, onDisk: seq<P.Record>)
      ensures Valid() && fresh(store) && chain.tasks == [] && landed == [] && store.log == onDisk
    {
      store := new P.PatStore(c, ttl, onDisk);
      chain := Start(map[]);
      landed := [];
      new;
      StartIsFine<PatOp, ()>(map[], NoFile(), false);
    }

    /** `runExclusive` up to its first suspension. */
    method Queue(op: PatOp) returns (t: nat)
      requires Valid()
      modifies this
      ensures Valid() && landed == old(landed)
      ensures t == |old(chain).tasks| && chain == Moved(old(chain), Enter(WRITE_CHAIN, op))
    {
      t := |chain.tasks|;
      NextKeeps(chain, Enter(WRITE_CHAIN, op), NoFile(), false);
      QuietFits(chain, Moved(chain, Enter(WRITE_CHAIN, op)), store.pending);
      chain := Moved(chain, Enter(WRITE_CHAIN, op));
    }

    /** A resumption of a waiting call, or the settling of a finished one. */
    method Turn(step: Step<PatOp>)
      requires Valid() && (step.Resume? || step.Settle?) && Enabled(chain, step)
      modifies this
      ensures Valid() && landed == old(landed) && chain == Moved(old(chain), step)
    {
      NextKeeps(chain, step, NoFile(), false);
      QuietFits(chain, Moved(chain, step), store.pending);
      chain := Moved(chain, step);
    }

    /**
     * A mutation up to its append. Nothing is asked of the store here: that no other mutation is pending follows from
     * the chain. A refused mutation, and a revocation that changes nothing, leave the chain at once.
     */
    method Begin(t: nat, now: int) returns (answer: Answer)
      requires Valid() && t < |chain.tasks| && chain.tasks[t].phase.Running?
      requires IsFresh(chain.tasks[t].op, store.log)
      modifies this, store
      ensures Valid() && landed == old(landed) && store.log == old(store.log)
      ensures chain == Moved(old(chain), if store.pending.Idle? then Throw(t) else Load(t))
      ensures answer.Refused? <==> IsRefused(old(chain.tasks[t].op), store.log)
      ensures if answer.Refused? then store.pending.Idle?
              else IsQueued(old(chain.tasks[t].op), store.log, now, store.crypto, answer, store.pending)
    {
      NothingPending(chain, store.pending, t);
      answer := BeginOn(store, chain.tasks[t].op, now);
      if store.pending.Idle? {
        Move(t, P.Idle, Throw(t));
      } else {
        Move(t, P.Idle, Load(t));
      }
    }

    /** The append of the mutation lands. */
    method AppendLands(t: nat)
      requires Valid() && t < |chain.tasks| && chain.tasks[t].phase.Loaded?
      modifies this, store
      ensures Valid() && landed == old(landed) + [t] && chain == Moved(old(chain), Store(t))
      ensures store.Settled() == old(store.Settled()) && store.log == old(store.log) + old(store.pending.recs)
    {
      assert PhaseFits(chain.tasks[t], store.pending);
      ghost var before := store.pending;
      store.AppendLands();
      forall u | 0 <= u < |chain.tasks| ensures chain.tasks[u].key == WRITE_CHAIN {
        assert PhaseFits(chain.tasks[u], before);
      }
      LandsNext(chain, landed, t);
      landed := landed + [t];
      Move(t, before, Store(t));
    }

    /** The append is rejected: the mutation fails, and the chain goes on. */
    method AppendFails(t: nat)
      requires Valid() && t < |chain.tasks| && chain.tasks[t].phase.Loaded?
      modifies this, store
      ensures Valid() && landed == old(landed) && store.log == old(store.log)
      ensures chain == Moved(old(chain), Throw(t))
    {
      assert PhaseFits(chain.tasks[t], store.pending);
      ghost var before := store.pending;
      store.AppendFails();
      Move(t, before, Throw(t));
    }

    /** The mutation resumes after its append: the indexes follow the log, and the chain goes on. */
    method Finish(t: nat)
      requires Valid() && t < |chain.tasks| && chain.tasks[t].phase.Stored?
      modifies this, store
      ensures Valid() && landed == old(landed) && store.log == old(store.log) && store.Settled() == store.log
      ensures chain == Moved(old(chain), Step<PatOp>.Finish(t))
    {
      assert PhaseFits(chain.tasks[t], store.pending);
      ghost var before := store.pending;
      store.Resume();
      Move(t, before, Step<PatOp>.Finish(t));
    }

    /** A lookup at any moment, whatever mutations are under way. */
    method Lookup(raw: string, cacheClock: int, storeClock: int, now: int) returns (r: P.LookupResult)
      requires Valid()
      modifies store
      ensures Valid() && chain == old(chain) && landed == old(landed) && store.log == old(store.log)
      ensures P.Answers(store.Settled(), store.crypto, raw, now, r)
      ensures r.Found? ==>
                && P.Latest(store.Settled(), r.pat.id) == Some(r.pat)
                && !r.pat.isRevoked && (r.pat.expiresAt.None? || now < r.pat.expiresAt.value)
    {
      r := store.Lookup(raw, cacheClock, storeClock, now);
    }

    /** The chain's side of a step that the store has just made. */
    method Move(t: nat, ghost before: P.Pending, step: Step<PatOp>)
      requires Inv(chain, false) && InStep(chain, before) && t < |chain.tasks| && InBody(chain, t)
      requires !step.Enter? && step.t == t && Enabled(chain, step)
      requires store.Valid() && PhaseFits(Moved(chain, step).tasks[t], store.pending)
      requires !store.pending.Idle? ==>
                 var phase := Moved(chain, step).tasks[t].phase; phase.Loaded? || phase.Stored?
      requires InArrivalOrder(Moved(chain, step), landed)
      modifies `chain
      ensures Valid() && chain == Moved(old(chain), step)
    {
      NextKeeps(chain, step, NoFile(), false);
      StepFits(chain, Moved(chain, step), before, store.pending, t);
      chain := Moved(chain, step);
    }
  }
}
