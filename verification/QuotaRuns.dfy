/**
 * Handlers over the quota lock: reserves and refunds of one namespace queue up, and their bodies load, check and
 * save in separate steps that interleave with everything else. What the ledger says of whole events holds of them.
 */
module QuotaRuns {
  import opened Base
  import opened KeyedLock
  import opened Quota

  type Lock = State<QuotaOp, QuotaFile>

  /**
   * The lock with all its calls, the book of one namespace's requests, and the request that each queued refund
   * belongs to. A request enters the book when its reserve writes.
   */
  datatype Service = Service(lock: Lock, book: System, refunds: map<nat, nat>)

  datatype Move =
    | Ask(kind: Kind, opts: CheckOpts, now: int)
    | StoreDone(r: nat, inserted: bool)
    | AskRefund(r: nat, now: int)
    | Advance(step: Step<QuotaOp>)

  /** The step that carries out the body of a call for this namespace. */
  predicate Lands(v: Service, step: Step<QuotaOp>, key: Key) {
    step.Store? && step.t < |v.lock.tasks| && v.lock.tasks[step.t].key == key
  }

  /**
   * A handler refunds a request once, after its store ended without a new point; other namespaces, and checks,
   * come and go freely; the clock does not go back a day from one body to the next.
   */
  predicate CanMove(v: Service, move: Move, key: Key) {
    match move
    case Ask(_, _, _) => true
    case StoreDone(r, inserted) => Possible(v.book, StoreReturns(r, inserted))
    case AskRefund(r, _) => r < |v.book.requests| && v.book.requests[r].stage == Refunding && r !in v.refunds.Values
    case Advance(step) =>
      && Enabled(v.lock, step)
      && (step.Enter? ==> step.key != key || step.op.Check?)
      && (Lands(v, step, key) ==> v.book.today <= Day(v.lock.tasks[step.t].op.now))
  }

  predicate IsTicket(v: Service, t: nat, key: Key) {
    t < |v.lock.tasks| && v.lock.tasks[t].key == key && v.lock.tasks[t].op.Release?
  }

  /** A refund not yet carried out belongs to a request that waits for it, and to no other. */
  predicate TicketOk(v: Service, t: nat, key: Key) {
    IsTicket(v, t, key) ==>
      && t in v.refunds && v.refunds[t] < |v.book.requests|
      && (!v.lock.tasks[t].applied ==>
            var (op, request) := (v.lock.tasks[t].op, v.book.requests[v.refunds[t]]);
            request.stage == Refunding && request.kind == op.kind && request.estimated == op.estimatedTokens)
  }

  ghost predicate Coupled(v: Service, key: Key) {
    && Inv(v.lock, false)
    && NotAhead(v.book) && v.book.file == FileOf(v.lock, key)
    && (forall t :: TicketOk(v, t, key))
    && (forall t | t in v.refunds :: IsTicket(v, t, key))
    && (forall t, u | t in v.refunds && u in v.refunds && t != u :: v.refunds[t] != v.refunds[u])
    && (forall t | 0 <= t < |v.lock.tasks| && v.lock.tasks[t].key == key :: !v.lock.tasks[t].op.Record?)
  }

  // ---------------------------------------------------------------------------
  // What a move means for the book
  // ---------------------------------------------------------------------------

  function Turn(book: System, day: int): seq<Event> {
    if day > book.today then [NextDay(day)] else []
  }

  /** The event of a body that saves, or of a check that does not. */
  function LandingOf(v: Service, t: nat): Option<Event>
    requires t < |v.lock.tasks|
  {
    match v.lock.tasks[t].op
    case Reserve(kind, opts, now) => Some(Begin(kind, opts, now))
    case Release(_, _, now) => if t in v.refunds then Some(Refund(v.refunds[t], now)) else None
    case _ => None
  }

  function Listed(e: Option<Event>): seq<Event> {
    if e.Some? then [e.value] else []
  }

  /** The events of the ledger that a move amounts to. */
  function EventsOf(v: Service, move: Move, key: Key): seq<Event> {
    match move
    case StoreDone(r, inserted) => [StoreReturns(r, inserted)]
    case Advance(step) =>
      if Lands(v, step, key) then Turn(v.book, Day(v.lock.tasks[step.t].op.now)) + Listed(LandingOf(v, step.t)) else []
    case _ => []
  }

  function LockAfter(v: Service, move: Move, key: Key): Lock
    requires CanMove(v, move, key)
  {
    match move
    case Ask(kind, opts, now) => Next(v.lock, Enter(key, Reserve(kind, opts, now)), QuotaBody, false)
    case AskRefund(r, now) =>
      Next(v.lock, Enter(key, Release(v.book.requests[r].kind, v.book.requests[r].estimated, now)), QuotaBody, false)
    case Advance(step) => Next(v.lock, step, QuotaBody, false)
    case StoreDone(_, _) => v.lock
  }

  ghost function AfterMove(v: Service, move: Move, key: Key): Service
    requires CanMove(v, move, key) && IsHistory(v.book, EventsOf(v, move, key))
  {
    Service(LockAfter(v, move, key), Outcome(v.book, EventsOf(v, move, key)),
            if move.AskRefund? then v.refunds[|v.lock.tasks| := move.r] else v.refunds)
  }

  // ---------------------------------------------------------------------------
  // Every move keeps book and lock together
  // ---------------------------------------------------------------------------

  lemma LockKeeps(v: Service, move: Move, key: Key)
    requires Coupled(v, key) && CanMove(v, move, key)
    ensures Inv(LockAfter(v, move, key), false)
  {
    match move {
      case Ask(kind, opts, now) => NextKeeps(v.lock, Enter(key, Reserve(kind, opts, now)), QuotaBody, false);
      case AskRefund(r, now) =>
        NextKeeps(v.lock, Enter(key, Release(v.book.requests[r].kind, v.book.requests[r].estimated, now)), QuotaBody, false);
      case Advance(step) => NextKeeps(v.lock, step, QuotaBody, false);
      case StoreDone(_, _) =>
    }
  }

  function Dated(book: System, day: int): System {
    if day > book.today then book.(today := day) else book
  }

  lemma OneEvent(s: System, e: Event)
    requires Possible(s, e)
    ensures IsHistory(s, [e]) && Outcome(s, [e]) == Moved(s, e)
  {
    assert [e][1..] == [];
  }

  /** Midnight first, if it has passed, and then the event. */
  lemma TurnFirst(book: System, day: int, e: Option<Event>)
    requires day >= book.today && (e.Some? ==> Possible(Dated(book, day), e.value))
    ensures IsHistory(book, Turn(book, day) + Listed(e))
    ensures Outcome(book, Turn(book, day) + Listed(e)) == if e.Some? then Moved(Dated(book, day), e.value) else Dated(book, day)
  {
    var es := Turn(book, day) + Listed(e);
    if e.Some? {
      OneEvent(Dated(book, day), e.value);
    }
    if day > book.today {
      assert es[1..] == Listed(e) && es[0] == NextDay(day);
    } else {
      assert es == Listed(e);
    }
  }

  lemma LandingPossible(v: Service, t: nat, key: Key)
    requires Coupled(v, key) && t < |v.lock.tasks| && v.lock.tasks[t].key == key && v.lock.tasks[t].phase.Loaded?
    requires v.book.today <= Day(v.lock.tasks[t].op.now)
    ensures LandingOf(v, t).Some? ==> Possible(Dated(v.book, Day(v.lock.tasks[t].op.now)), LandingOf(v, t).value)
  {
    assert TicketOk(v, t, key) && TaskOk(v.lock, t);
  }

  lemma FileNotAhead(op: QuotaOp, file: Option<QuotaFile>)
    requires file.Some? && file.value.Counters? ==> Day(file.value.lastReset) <= Day(op.now)
    ensures var after := After(QuotaBody, op, file);
            after.Some? && after.value.Counters? ==> Day(after.value.lastReset) <= Day(op.now)
  {
  }

  lemma Ahead(s: System, e: Event)
    requires NotAhead(s) && Possible(s, e)
    ensures NotAhead(Moved(s, e))
  {
    match e {
      case Begin(kind, opts, now) => FileNotAhead(Reserve(kind, opts, now), s.file);
      case Refund(r, now) => FileNotAhead(Release(s.requests[r].kind, s.requests[r].estimated, now), s.file);
      case _ =>
    }
  }

  /** What a body saves is what the event does to the book's file. */
  lemma LandingBooks(v: Service, t: nat, key: Key)
    requires Coupled(v, key) && CanMove(v, Advance(Store(t)), key) && Lands(v, Store(t), key)
    ensures IsHistory(v.book, EventsOf(v, Advance(Store(t)), key))
    ensures var w := AfterMove(v, Advance(Store(t)), key);
            NotAhead(w.book) && w.book.file == FileOf(w.lock, key) && |w.book.requests| >= |v.book.requests|
    ensures var (w, landing) := (AfterMove(v, Advance(Store(t)), key), LandingOf(v, t));
            forall r | 0 <= r < |v.book.requests| && !(landing.Some? && landing.value.Refund? && landing.value.r == r) ::
              w.book.requests[r] == v.book.requests[r]
  {
    var op, landing := v.lock.tasks[t].op, LandingOf(v, t);
    assert TaskOk(v.lock, t) && TicketOk(v, t, key);
    LandingPossible(v, t, key);
    TurnFirst(v.book, Day(op.now), landing);
    if landing.Some? {
      Ahead(Dated(v.book, Day(op.now)), landing.value);
    }
  }

  lemma LandingCouples(v: Service, t: nat, key: Key)
    requires Coupled(v, key) && CanMove(v, Advance(Store(t)), key) && Lands(v, Store(t), key)
    ensures IsHistory(v.book, EventsOf(v, Advance(Store(t)), key)) && Coupled(AfterMove(v, Advance(Store(t)), key), key)
  {
    LandingBooks(v, t, key);
    LockKeeps(v, Advance(Store(t)), key);
    var w := AfterMove(v, Advance(Store(t)), key);
    forall u ensures TicketOk(w, u, key) {
      LandingTickets(v, t, key, u);
    }
    SameTickets(v, w, key);
  }

  lemma LandingTickets(v: Service, t: nat, key: Key, u: nat)
    requires Coupled(v, key) && CanMove(v, Advance(Store(t)), key) && Lands(v, Store(t), key)
    requires IsHistory(v.book, EventsOf(v, Advance(Store(t)), key))
    ensures TicketOk(AfterMove(v, Advance(Store(t)), key), u, key)
  {
    LandingBooks(v, t, key);
    assert TicketOk(v, u, key) && TicketOk(v, t, key);
  }

  /** Steps keep the calls and their refunds what they were. */
  lemma SameTickets(v: Service, w: Service, key: Key)
    requires Coupled(v, key) && w.refunds == v.refunds && |w.lock.tasks| == |v.lock.tasks|
    requires forall t | 0 <= t < |v.lock.tasks| :: w.lock.tasks[t].key == v.lock.tasks[t].key && w.lock.tasks[t].op == v.lock.tasks[t].op
    ensures forall t | t in w.refunds :: IsTicket(w, t, key)
    ensures forall t, u | t in w.refunds && u in w.refunds && t != u :: w.refunds[t] != w.refunds[u]
    ensures forall t | 0 <= t < |w.lock.tasks| && w.lock.tasks[t].key == key :: !w.lock.tasks[t].op.Record?
  {
    forall t | t in w.refunds ensures IsTicket(w, t, key) {
      assert IsTicket(v, t, key);
    }
  }

  /** What a step in the lock leaves as it was: every call's key and operation, and effects not carried out by it. */
  lemma StepFrame(lock: Lock, step: Step<QuotaOp>, key: Key)
    requires Enabled(lock, step) && !(step.Store? && lock.tasks[step.t].key == key)
    ensures var next := Next(lock, step, QuotaBody, false);
      && |lock.tasks| <= |next.tasks|
      && FileOf(next, key) == FileOf(lock, key)
      && (forall t | 0 <= t < |lock.tasks| ::
            && next.tasks[t].key == lock.tasks[t].key && next.tasks[t].op == lock.tasks[t].op
            && (lock.tasks[t].key == key ==> next.tasks[t].applied == lock.tasks[t].applied))
      && (forall t | |lock.tasks| <= t < |next.tasks| ::
            step.Enter? && next.tasks[t].key == step.key && next.tasks[t].op == step.op)
  {
  }

  /** Every other move leaves the file of the namespace alone. */
  lemma QuietCouples(v: Service, move: Move, key: Key)
    requires Coupled(v, key) && CanMove(v, move, key) && move.Advance? && !Lands(v, move.step, key)
    ensures IsHistory(v.book, EventsOf(v, move, key)) && Coupled(AfterMove(v, move, key), key)
  {
    LockKeeps(v, move, key);
    StepFrame(v.lock, move.step, key);
    FrameCouples(v, AfterMove(v, move, key), key);
  }

  lemma FrameCouples(v: Service, w: Service, key: Key)
    requires Coupled(v, key) && Inv(w.lock, false)
    requires w.book == v.book && w.refunds == v.refunds && FileOf(w.lock, key) == FileOf(v.lock, key)
    requires |v.lock.tasks| <= |w.lock.tasks|
    requires forall t | 0 <= t < |v.lock.tasks| ::
               && w.lock.tasks[t].key == v.lock.tasks[t].key && w.lock.tasks[t].op == v.lock.tasks[t].op
               && (v.lock.tasks[t].key == key ==> w.lock.tasks[t].applied == v.lock.tasks[t].applied)
    requires forall t | |v.lock.tasks| <= t < |w.lock.tasks| && w.lock.tasks[t].key == key :: w.lock.tasks[t].op.Check?
    ensures Coupled(w, key)
  {
    forall u ensures TicketOk(w, u, key) {
      assert TicketOk(v, u, key);
    }
    forall t | t in w.refunds ensures IsTicket(w, t, key) {
      assert IsTicket(v, t, key);
    }
  }

  lemma StoreDoneCouples(v: Service, r: nat, inserted: bool, key: Key)
    requires Coupled(v, key) && CanMove(v, StoreDone(r, inserted), key)
    ensures IsHistory(v.book, EventsOf(v, StoreDone(r, inserted), key))
    ensures Coupled(AfterMove(v, StoreDone(r, inserted), key), key)
  {
    OneEvent(v.book, StoreReturns(r, inserted));
    Ahead(v.book, StoreReturns(r, inserted));
    var w := AfterMove(v, StoreDone(r, inserted), key);
    forall u ensures TicketOk(w, u, key) {
      assert TicketOk(v, u, key);
    }
  }

  lemma EntersCouple(v: Service, move: Move, key: Key)
    requires Coupled(v, key) && CanMove(v, move, key) && (move.Ask? || move.AskRefund?)
    ensures IsHistory(v.book, EventsOf(v, move, key)) && Coupled(AfterMove(v, move, key), key)
  {
    LockKeeps(v, move, key);
    var w := AfterMove(v, move, key);
    assert forall t | t in v.refunds :: IsTicket(v, t, key) && t < |v.lock.tasks|;
    forall u ensures TicketOk(w, u, key) {
      assert TicketOk(v, u, key);
    }
    forall t, u | t in w.refunds && u in w.refunds && t != u ensures w.refunds[t] != w.refunds[u] {
      assert t in v.refunds ==> v.refunds[t] in v.refunds.Values;
      assert u in v.refunds ==> v.refunds[u] in v.refunds.Values;
    }
  }

  lemma MoveCouples(v: Service, move: Move, key: Key)
    requires Coupled(v, key) && CanMove(v, move, key)
    ensures IsHistory(v.book, EventsOf(v, move, key)) && Coupled(AfterMove(v, move, key), key)
  {
    match move {
      case StoreDone(r, inserted) => StoreDoneCouples(v, r, inserted, key);
      case Advance(step) =>
        if Lands(v, step, key) {
          LandingCouples(v, step.t, key);
        } else {
          QuietCouples(v, move, key);
        }
      case _ => EntersCouple(v, move, key);
    }
  }

  // ---------------------------------------------------------------------------
  // Runs
  // ---------------------------------------------------------------------------

  ghost predicate IsServiceRun(v: Service, moves: seq<Move>, key: Key)
    requires Coupled(v, key)
    decreases |moves|
  {
    moves == [] || (CanMove(v, moves[0], key) && (MoveCouples(v, moves[0], key); IsServiceRun(AfterMove(v, moves[0], key), moves[1..], key)))
  }

  ghost function FinalOf(v: Service, moves: seq<Move>, key: Key): Service
    requires Coupled(v, key) && IsServiceRun(v, moves, key)
    decreases |moves|
  {
    if moves == [] then v else MoveCouples(v, moves[0], key); FinalOf(AfterMove(v, moves[0], key), moves[1..], key)
  }

  ghost function HistoryOf(v: Service, moves: seq<Move>, key: Key): seq<Event>
    requires Coupled(v, key) && IsServiceRun(v, moves, key)
    decreases |moves|
  {
    if moves == [] then []
    else MoveCouples(v, moves[0], key); EventsOf(v, moves[0], key) + HistoryOf(AfterMove(v, moves[0], key), moves[1..], key)
  }

  lemma HistoryCons(s: System, e: Event, rest: seq<Event>, next: System)
    requires Possible(s, e) && next == Moved(s, e)
    ensures IsHistory(s, [e] + rest) == IsHistory(next, rest)
    ensures IsHistory(next, rest) ==> Outcome(s, [e] + rest) == Outcome(next, rest)
  {
    assert ([e] + rest)[1..] == rest;
  }

  lemma FirstOut<T>(a: seq<T>, b: seq<T>)
    requires a != []
    ensures a == [a[0]] + a[1..] && a + b == [a[0]] + (a[1..] + b)
  {
  }

  lemma {:induction false} HistoryAppend(s: System, a: seq<Event>, b: seq<Event>)
    requires IsHistory(s, a) && IsHistory(Outcome(s, a), b)
    ensures IsHistory(s, a + b) && Outcome(s, a + b) == Outcome(Outcome(s, a), b)
    decreases |a|
  {
    if a == [] {
      assert a + b == b;
    } else {
      var next := Moved(s, a[0]);
      FirstOut(a, b);
      HistoryCons(s, a[0], a[1..], next);
      HistoryCons(s, a[0], a[1..] + b, next);
      HistoryAppend(next, a[1..], b);
    }
  }

  /**
   * Whatever the interleaving of handlers, bodies and other namespaces, with failures anywhere: the namespace's file
   * is that of a history of whole requests and refunds, in the order in which their bodies wrote.
   */
  lemma {:induction false} RunIsHistory(v: Service, moves: seq<Move>, key: Key)
    requires Coupled(v, key) && IsServiceRun(v, moves, key)
    ensures Coupled(FinalOf(v, moves, key), key)
    ensures IsHistory(v.book, HistoryOf(v, moves, key))
    ensures Outcome(v.book, HistoryOf(v, moves, key)) == FinalOf(v, moves, key).book
    ensures FileOf(FinalOf(v, moves, key).lock, key) == FinalOf(v, moves, key).book.file
    decreases |moves|
  {
    if moves != [] {
      MoveCouples(v, moves[0], key);
      var w := AfterMove(v, moves[0], key);
      RunIsHistory(w, moves[1..], key);
      HistoryAppend(v.book, EventsOf(v, moves[0], key), HistoryOf(w, moves[1..], key));
    }
  }

  /** So the law of the books, and the exact condition for exact counters, hold of every interleaving. */
  lemma ConcurrentLedger(v: Service, moves: seq<Move>, key: Key, m: Meter)
    requires Coupled(v, key) && IsServiceRun(v, moves, key) && Exact(v.book, m)
    ensures IsHistory(v.book, HistoryOf(v, moves, key))
    ensures var (w, es) := (FinalOf(v, moves, key), HistoryOf(v, moves, key));
      && 0 <= ReadOn(FileOf(w.lock, key), w.book.today, m) <= Outstanding(w.book, m)
      && ReadOn(FileOf(w.lock, key), w.book.today, m) + Drift(v.book, es, m, 0) == Outstanding(w.book, m)
      && (ExactThroughout(v.book, es, m) <==> NeverUndercharges(v.book, es, m))
      && (NeverUndercharges(v.book, es, m) ==> ReadOn(FileOf(w.lock, key), w.book.today, m) == Outstanding(w.book, m))
  {
    RunIsHistory(v, moves, key);
    HistoryDrifts(v.book, HistoryOf(v, moves, key), m, 0);
    HistoryBalanced(v.book, HistoryOf(v, moves, key), m);
    HistoryExactly(v.book, HistoryOf(v, moves, key), m);
  }

  /** A service that starts on files whose counters for this namespace are not of a later day. */
  function Opened(files: map<Key, QuotaFile>, key: Key, today: int): Service {
    Service(Start<QuotaOp, QuotaFile>(files), System(if key in files then Some(files[key]) else None, [], today), map[])
  }

  lemma OpensCoupled(files: map<Key, QuotaFile>, key: Key, today: int)
    requires key in files && files[key].Counters? ==> Day(files[key].lastReset) <= today
    ensures Coupled(Opened(files, key, today), key)
  {
    StartIsFine<QuotaOp, QuotaFile>(files, QuotaBody, false);
  }

  /** On a day for which the files hold no counters yet, the ledger starts exact. */
  lemma OpensExact(files: map<Key, QuotaFile>, key: Key, today: int, m: Meter)
    requires key in files && files[key].Counters? ==> Day(files[key].lastReset) < today
    ensures Coupled(Opened(files, key, today), key) && Exact(Opened(files, key, today).book, m)
  {
    OpensCoupled(files, key, today);
    assert Day(today * MS_PER_DAY) == today;
  }
}
