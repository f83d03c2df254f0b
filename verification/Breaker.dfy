/** The embedding client's circuit breaker: a pruned sliding window that decides as the full history would. */
module Breaker {

  datatype Outcome = Success | Failure

  datatype State = Closed | Open | HalfOpen

  datatype Entry = Entry(outcome: Outcome, ts: int)

  datatype Config = Config(windowMs: int, openMs: int, failureThreshold: real, minSamples: int)

  datatype Event = Opened(at: int) | ClosedAgain

  /** The entries newer than `cutoff`. */
  function Recent(es: seq<Entry>, cutoff: int): (r: seq<Entry>)
    ensures |r| <= |es|
  {
    if es == [] then []
    else if es[0].ts > cutoff then [es[0]] + Recent(es[1..], cutoff)
    else Recent(es[1..], cutoff)
  }

  function Failures(es: seq<Entry>): nat {
    if es == [] then 0 else (if es[0].outcome == Failure then 1 else 0) + Failures(es[1..])
  }

  lemma {:induction false} FailuresAppend(es: seq<Entry>, e: Entry)
    ensures Failures(es + [e]) == Failures(es) + if e.outcome == Failure then 1 else 0
  {
    if es != [] {
      assert (es + [e])[1..] == es[1..] + [e];
      FailuresAppend(es[1..], e);
    } else {
      assert [e][1..] == [];
    }
  }

  /** The failures are the entries that are failures. */
  lemma {:induction false} FailuresIs(es: seq<Entry>)
    ensures Failures(es) == |set i | 0 <= i < |es| && es[i].outcome == Failure|
  {
    if es != [] {
      var front, last := es[..|es| - 1], es[|es| - 1];
      FailuresIs(front);
      FailuresAppend(front, last);
      assert es == front + [last];
      var before := set i | 0 <= i < |front| && front[i].outcome == Failure;
      assert (set i | 0 <= i < |es| && es[i].outcome == Failure)
          == if last.outcome == Failure then before + {|es| - 1} else before;
    }
  }

  /** The trip rule, on the outcomes that count. */
  predicate Trips(es: seq<Entry>, cfg: Config) {
    es != [] && |es| >= cfg.minSamples && Failures(es) as real / |es| as real >= cfg.failureThreshold
  }

  lemma {:induction false} RecentAppend(es: seq<Entry>, fs: seq<Entry>, cutoff: int)
    ensures Recent(es + fs, cutoff) == Recent(es, cutoff) + Recent(fs, cutoff)
  {
    if es == [] {
      assert es + fs == fs;
    } else {
      assert (es + fs)[1..] == es[1..] + fs;
      RecentAppend(es[1..], fs, cutoff);
    }
  }

  /** Exactly the entries newer than the cutoff stay. */
  lemma {:induction false} RecentHas(es: seq<Entry>, cutoff: int, e: Entry)
    ensures e in Recent(es, cutoff) <==> e in es && e.ts > cutoff
  {
    if es != [] {
      RecentHas(es[1..], cutoff, e);
      assert es == [es[0]] + es[1..];
    }
  }

  /** One entry stays exactly when it is newer than the cutoff; with `RecentAppend` this settles every list, in order. */
  lemma RecentOne(e: Entry, cutoff: int)
    ensures Recent([e], cutoff) == if e.ts > cutoff then [e] else []
  {
    assert Recent([e][1..], cutoff) == [];
  }

  /** Pruning at an earlier cutoff first makes no difference. */
  lemma {:induction false} RecentTwice(es: seq<Entry>, earlier: int, later: int)
    requires earlier <= later
    ensures Recent(Recent(es, earlier), later) == Recent(es, later)
  {
    if es != [] {
      RecentTwice(es[1..], earlier, later);
      if es[0].ts > earlier {
        assert Recent(es, earlier)[1..] == Recent(es[1..], earlier);
      }
    }
  }

  // ---------------------------------------------------------------------------
  // The breaker that never forgets
  // ---------------------------------------------------------------------------

  /** The specification: state, opening time and every outcome ever recorded. */
  datatype Full = Full(state: State, openedAt: int, history: seq<Entry>)

  /** Outcomes within `windowMs` before `now`, plus the one being recorded. */
  function Counted(f: Full, cfg: Config, outcome: Outcome, now: int): seq<Entry> {
    Recent(f.history, now - cfg.windowMs) + [Entry(outcome, now)]
  }

  function AfterSuccess(f: Full, now: int): Full {
    Full(if f.state == HalfOpen then Closed else f.state, f.openedAt, f.history + [Entry(Success, now)])
  }

  predicate OpensOnFailure(f: Full, cfg: Config, now: int) {
    f.state == HalfOpen || (f.state == Closed && Trips(Counted(f, cfg, Failure, now), cfg))
  }

  function AfterFailure(f: Full, cfg: Config, now: int): Full {
    var opens := OpensOnFailure(f, cfg, now);
    Full(if opens then Open else f.state, if opens then now else f.openedAt, f.history + [Entry(Failure, now)])
  }

  function AfterAsk(f: Full, cfg: Config, now: int): Full {
    if f.state == Open && now - f.openedAt >= cfg.openMs then f.(state := HalfOpen) else f
  }

  // ---------------------------------------------------------------------------
  // The breaker with a pruned window
  // ---------------------------------------------------------------------------

  predicate Agree(pruned: seq<Entry>, full: seq<Entry>, cutoff: int) {
    Recent(pruned, cutoff) == Recent(full, cutoff)
  }

  /** For every cutoff from now on, a pruned list counts as the full one. */
  ghost predicate AgreeFrom(pruned: seq<Entry>, full: seq<Entry>, start: int) {
    forall cutoff | start <= cutoff :: Agree(pruned, full, cutoff)
  }

  /** Recording keeps the window good for every later cutoff. */
  lemma WindowStaysGood(pruned: seq<Entry>, full: seq<Entry>, e: Entry, start: int)
    requires pruned == Recent(full, start)
    ensures AgreeFrom(pruned + [e], full + [e], start)
  {
    forall cutoff | start <= cutoff ensures Agree(pruned + [e], full + [e], cutoff) {
      RecentTwice(full, start, cutoff);
      RecentAppend(pruned, [e], cutoff);
      RecentAppend(full, [e], cutoff);
    }
  }

  class CircuitBreaker {
    const cfg: Config
    var state: State
    var openedAt: int
    var window: seq<Entry>
    /** Every outcome recorded, the open and close notifications, and the latest clock reading. */
    ghost var history: seq<Entry>
    ghost var events: seq<Event>
    ghost var clock: int

    ghost function Model(): Full
      reads this
    {
      Full(state, openedAt, history)
    }

    /** Nothing in the window is lost that could still count; opening and closing notices alternate. */
    ghost predicate Valid()
      reads this
    {
      && AgreeFrom(window, history, clock - cfg.windowMs)
      && (state == Closed <==> events == [] || events[|events| - 1] == ClosedAgain)
      && (forall i | 0 <= i < |events| && events[i] == ClosedAgain :: i > 0 && events[i - 1].Opened?)
      && (state != Closed ==> events != [] && events[|events| - 1] == Opened(openedAt))
    }

    constructor (c: Config, now: int)
      ensures Valid() && cfg == c && clock == now && Model() == Full(Closed, 0, []) && events == []
    {
      cfg := c;
      state, openedAt, window := Closed, 0, [];
      history, events, clock := [], [], now;
    }

    /** A request is denied only while open, and only within `openMs` of the last opening. */
    method AllowRequest(now: int) returns (allowed: bool)
      requires Valid() && clock <= now
      modifies this
      ensures Valid() && clock == now && events == old(events)
      ensures Model() == AfterAsk(old(Model()), cfg, now)
      ensures !allowed <==> old(state) == Open && now - openedAt < cfg.openMs
      ensures !allowed ==> events != [] && events[|events| - 1] == Opened(openedAt)
    {
      clock := now;
      if state == Closed {
        return true;
      }
      if state == Open {
        if now - openedAt >= cfg.openMs {
          state := HalfOpen;
          return true;
        }
        return false;
      }
      return true;
    }

    /** Prunes the window; `e` is what is about to be recorded. */
    method Trim(now: int, ghost e: Entry)
      requires clock <= now
      requires AgreeFrom(window, history, clock - cfg.windowMs)
      modifies `window, `clock
      ensures clock == now && window == Recent(history, now - cfg.windowMs)
      ensures AgreeFrom(window + [e], history + [e], now - cfg.windowMs)
    {
      assert Agree(window, history, now - cfg.windowMs);
      WindowStaysGood(Recent(history, now - cfg.windowMs), history, e, now - cfg.windowMs);
      window := Recent(window, now - cfg.windowMs);
      clock := now;
    }

    method RecordSuccess(now: int)
      requires Valid() && clock <= now
      modifies this
      ensures Valid() && clock == now
      ensures Model() == AfterSuccess(old(Model()), now)
      ensures events == old(events) + if old(state) == HalfOpen then [ClosedAgain] else []
    {
      Trim(now, Entry(Success, now));
      window := window + [Entry(Success, now)];
      history := history + [Entry(Success, now)];
      if state == HalfOpen {
        state := Closed;
        events := events + [ClosedAgain];
      }
    }

    method RecordFailure(now: int)
      requires Valid() && clock <= now
      modifies this
      ensures Valid() && clock == now
      ensures Model() == AfterFailure(old(Model()), cfg, now)
      ensures events == old(events) + if OpensOnFailure(old(Model()), cfg, now) then [Opened(now)] else []
    {
      Trim(now, Entry(Failure, now));
      window := window + [Entry(Failure, now)];
      history := history + [Entry(Failure, now)];
      if state == HalfOpen {
        state, openedAt := Open, now;
        events := events + [Opened(now)];
        return;
      }
      if state == Closed {
        var total := |window|;
        if total >= cfg.minSamples {
          var failures := CountFailures();
          if failures as real / total as real >= cfg.failureThreshold {
            state, openedAt := Open, now;
            events := events + [Opened(now)];
          }
        }
      }
    }

    method CountFailures() returns (n: nat)
      ensures n == Failures(window)
    {
      n := 0;
      for i := 0 to |window|
        invariant n + Failures(window[i..]) == Failures(window)
      {
        if window[i].outcome == Failure {
          n := n + 1;
        }
      }
    }
  }

  /** Half-open lets a second request through while the first is still out. */
  method TwoProbes() returns (b: CircuitBreaker, first: bool, second: bool)
    ensures b.Valid() && first && second && b.state == HalfOpen && b.events == [Opened(0)]
  {
    b := new CircuitBreaker(Config(100, 10, 0.5, 1), 0);
    b.RecordFailure(0);
    first := b.AllowRequest(10);
    second := b.AllowRequest(10);
  }
}
