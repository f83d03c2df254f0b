/** Per-IP auth-failure limiter: pruned failure lists that decide as the full history would. */
module RateLimit {
  import opened Base

  type Ip = string

  datatype Decision = Decision(limited: bool, retryAfterSec: int)

  const PASS := Decision(false, 0)

  function Live(times: seq<int>, cutoff: int): (r: seq<int>)
    ensures |r| <= |times|
    ensures forall t :: t in r <==> t in times && t > cutoff
  {
    if times == [] then []
    else if times[0] > cutoff then [times[0]] + Live(times[1..], cutoff)
    else Live(times[1..], cutoff)
  }

  /** Rounds a positive number of milliseconds up to seconds. */
  function CeilSeconds(ms: int): (s: int)
    ensures 1000 * (s - 1) < ms <= 1000 * s
  {
    (ms + 999) / 1000
  }

  /** The decision on a full failure history since the last success. */
  function Decide(failures: seq<int>, max: int, windowMs: int, now: int): Decision {
    var live := Live(failures, now - windowMs);
    if live == [] || |live| < max then PASS
    else
      var wait := CeilSeconds(live[0] + windowMs - now);
      Decision(true, if wait > 1 then wait else 1)
  }

  predicate Ascending(times: seq<int>) {
    forall i, j | 0 <= i < j < |times| :: times[i] <= times[j]
  }

  lemma {:induction false} LiveTwice(times: seq<int>, earlier: int, later: int)
    requires earlier <= later
    ensures Live(Live(times, earlier), later) == Live(times, later)
  {
    if times != [] {
      LiveTwice(times[1..], earlier, later);
      if times[0] > earlier {
        assert Live(times, earlier)[1..] == Live(times[1..], earlier);
      }
    }
  }

  lemma {:induction false} LiveAppend(a: seq<int>, b: seq<int>, cutoff: int)
    ensures Live(a + b, cutoff) == Live(a, cutoff) + Live(b, cutoff)
  {
    if a == [] {
      assert a + b == b;
    } else {
      assert (a + b)[1..] == a[1..] + b;
      LiveAppend(a[1..], b, cutoff);
    }
  }

  /** One failure is live exactly when it is newer than the cutoff; with `LiveAppend` this settles every list, in order. */
  lemma LiveOne(t: int, cutoff: int)
    ensures Live([t], cutoff) == if t > cutoff then [t] else []
  {
    assert Live([t][1..], cutoff) == [];
  }

  /** In an ascending list, what a later cutoff removes is removed from the front. */
  lemma {:induction false} LiveIsSuffix(times: seq<int>, cutoff: int) returns (k: nat)
    requires Ascending(times)
    ensures k <= |times| && Live(times, cutoff) == times[k..]
    ensures forall i | 0 <= i < k :: times[i] <= cutoff
  {
    if times == [] {
      k := 0;
    } else if times[0] > cutoff {
      k := 0;
      AllLive(times, cutoff);
    } else {
      k := LiveIsSuffix(times[1..], cutoff);
      k := k + 1;
    }
  }

  lemma {:induction false} AllLive(times: seq<int>, cutoff: int)
    requires forall i | 0 <= i < |times| :: times[i] > cutoff
    ensures Live(times, cutoff) == times
  {
    if times != [] {
      AllLive(times[1..], cutoff);
    }
  }

  /** In an ascending list at least `n` entries are live exactly when the `n`-th from the end is. */
  lemma CountLive(times: seq<int>, cutoff: int, n: nat)
    requires Ascending(times) && 1 <= n <= |times|
    ensures |Live(times, cutoff)| >= n <==> times[|times| - n] > cutoff
  {
    var k := LiveIsSuffix(times, cutoff);
    if k <= |times| - n {
      LiveAbove(times, cutoff, k, |times| - n);
    }
  }

  lemma LiveAbove(times: seq<int>, cutoff: int, k: nat, i: nat)
    requires k <= i < |times| && Live(times, cutoff) == times[k..]
    ensures times[i] > cutoff
  {
    assert times[k..][i - k] in Live(times, cutoff);
  }

  lemma LiveAscends(times: seq<int>, cutoff: int)
    requires Ascending(times)
    ensures Ascending(Live(times, cutoff))
  {
    var k := LiveIsSuffix(times, cutoff);
  }

  /**
   * Exactly when a limited IP is let through again, if no failure is added meanwhile: once the failure that many
   * places from the end of the list the gate has just looked at has left the window.
   */
  lemma FreeExactly(failures: seq<int>, max: int, windowMs: int, now: int, later: int)
    requires Ascending(failures) && max >= 1 && now <= later && Decide(failures, max, windowMs, now).limited
    ensures var live := Live(failures, now - windowMs);
            !Decide(failures, max, windowMs, later).limited <==> live[|live| - max] <= later - windowMs
  {
    LimitedIsCount(failures, max, windowMs, now);
    LimitedIsCount(failures, max, windowMs, later);
    StillLive(failures, now - windowMs, later - windowMs, max, Live(failures, now - windowMs), Live(failures, later - windowMs));
  }

  /** How many of the live entries stay live. */
  lemma StillLive(times: seq<int>, earlier: int, later: int, n: nat, live: seq<int>, after: seq<int>)
    requires Ascending(times) && earlier <= later && 1 <= n <= |live|
    requires live == Live(times, earlier) && after == Live(times, later)
    ensures |after| >= n <==> live[|live| - n] > later
  {
    assert after == Live(live, later) by {
      LiveTwice(times, earlier, later);
    }
    assert Ascending(live) by {
      LiveAscends(times, earlier);
    }
    CountLive(live, later, n);
  }

  lemma LimitedIsCount(failures: seq<int>, max: int, windowMs: int, now: int)
    requires max >= 1
    ensures Decide(failures, max, windowMs, now).limited <==> |Live(failures, now - windowMs)| >= max
  {
  }

  /**
   * The promise of `retryAfterSec`: when at most `max` failures are live (which the gate ensures) and
   * none is added meanwhile, the IP is let through again that many seconds later.
   */
  lemma RetryAfterSuffices(failures: seq<int>, max: int, windowMs: int, now: int, later: int)
    requires Ascending(failures) && |Live(failures, now - windowMs)| <= max
    requires Decide(failures, max, windowMs, now).limited
    requires later >= now + 1000 * Decide(failures, max, windowMs, now).retryAfterSec
    ensures !Decide(failures, max, windowMs, later).limited
  {
    FreeExactly(failures, max, windowMs, now, later);
  }

  /** Exactly when the promise is kept: the failure that counts has left the window when the promised time is up. */
  lemma PromiseExactly(failures: seq<int>, max: int, windowMs: int, now: int)
    requires Ascending(failures) && max >= 1 && Decide(failures, max, windowMs, now).limited
    ensures var (live, wait) := (Live(failures, now - windowMs), 1000 * Decide(failures, max, windowMs, now).retryAfterSec);
            (forall later | later >= now + wait :: !Decide(failures, max, windowMs, later).limited)
            <==> live[|live| - max] + windowMs <= now + wait
  {
    var live, wait := Live(failures, now - windowMs), 1000 * Decide(failures, max, windowMs, now).retryAfterSec;
    FreeExactly(failures, max, windowMs, now, now + wait);
    forall later | later >= now + wait
      ensures !Decide(failures, max, windowMs, later).limited <==> live[|live| - max] <= later - windowMs
    {
      FreeExactly(failures, max, windowMs, now, later);
    }
  }

  /** Without the gate the promise fails: with max 1, a second failure at the same gate outlives the wait. */
  lemma UngatedRetryAfterFails()
    ensures var failures, d := [0, 59_000], Decide([0, 59_000], 1, 60_000, 59_000);
            d == Decision(true, 1) && Decide(failures, 1, 60_000, 59_000 + 1000 * d.retryAfterSec).limited
  {
    assert Live([59_000], -1000) == [59_000] && Live([0, 59_000], -1000) == [0, 59_000];
    assert Live([59_000], 0) == [59_000] && Live([0, 59_000], 0) == Live([59_000], 0);
  }

  /** What the limiter guarantees of one IP: the pruned list is as good as the full one from now on. */
  ghost predicate Tracks(pruned: seq<int>, full: seq<int>, windowMs: int, clock: int) {
    && Live(pruned, clock - windowMs) == Live(full, clock - windowMs)
    && Ascending(full)
    && forall i | 0 <= i < |full| :: full[i] <= clock
  }

  lemma LiveShrinks(times: seq<int>, earlier: int, later: int)
    requires earlier <= later
    ensures |Live(times, later)| <= |Live(times, earlier)|
  {
    LiveTwice(times, earlier, later);
  }

  lemma TracksLater(pruned: seq<int>, full: seq<int>, windowMs: int, clock: int, now: int)
    requires Tracks(pruned, full, windowMs, clock) && clock <= now
    ensures Tracks(pruned, full, windowMs, now)
    ensures Tracks(Live(pruned, now - windowMs), full, windowMs, now)
    ensures |Live(full, now - windowMs)| <= |Live(full, clock - windowMs)|
  {
    LiveTwice(pruned, clock - windowMs, now - windowMs);
    LiveTwice(full, clock - windowMs, now - windowMs);
    LiveTwice(pruned, now - windowMs, now - windowMs);
    LiveShrinks(full, clock - windowMs, now - windowMs);
  }

  lemma TracksPush(pruned: seq<int>, full: seq<int>, windowMs: int, now: int)
    requires Tracks(pruned, full, windowMs, now)
    ensures Tracks(pruned + [now], full + [now], windowMs, now)
    ensures |Live(full + [now], now - windowMs)| <= |Live(full, now - windowMs)| + 1
  {
    LiveAppend(pruned, [now], now - windowMs);
    LiveAppend(full, [now], now - windowMs);
  }

  function Of(m: map<Ip, seq<int>>, ip: Ip): seq<int> {
    if ip in m then m[ip] else []
  }

  /** The lists of one IP agree; and when every failure passed the gate first, at most `max` of them are live. */
  ghost predicate IsTracked(hits: map<Ip, seq<int>>, history: map<Ip, seq<int>>, w: int, clock: int, room: Option<nat>, ip: Ip) {
    && Tracks(Of(hits, ip), Of(history, ip), w, clock)
    && (room.Some? ==> |Live(Of(history, ip), clock - w)| <= room.value)
  }

  ghost predicate AllTracked(hits: map<Ip, seq<int>>, history: map<Ip, seq<int>>, w: int, clock: int, room: Option<nat>) {
    forall ip :: IsTracked(hits, history, w, clock, room, ip)
  }

  /** Time passing, and pruning any of the lists, disturb nothing. */
  lemma PruningKeeps(hits: map<Ip, seq<int>>, pruned: map<Ip, seq<int>>, history: map<Ip, seq<int>>, w: int,
                     clock: int, now: int, room: Option<nat>, cutoff: int)
    requires AllTracked(hits, history, w, clock, room) && clock <= now && cutoff == now - w
    requires forall ip :: IsPruned(hits, pruned, cutoff, ip)
    ensures AllTracked(pruned, history, w, now, room)
  {
    forall ip ensures IsTracked(pruned, history, w, now, room, ip) {
      assert IsTracked(hits, history, w, clock, room, ip) && IsPruned(hits, pruned, cutoff, ip);
      TracksLater(Of(hits, ip), Of(history, ip), w, clock, now);
    }
  }

  ghost predicate IsPruned(hits: map<Ip, seq<int>>, pruned: map<Ip, seq<int>>, cutoff: int, ip: Ip) {
    Of(pruned, ip) == Of(hits, ip) || Of(pruned, ip) == Live(Of(hits, ip), cutoff)
  }

  lemma PushKeeps(hits: map<Ip, seq<int>>, history: map<Ip, seq<int>>, w: int, now: int, room: Option<nat>, ip: Ip, room': Option<nat>)
    requires AllTracked(hits, history, w, now, room)
    requires room'.Some? ==> room == room' && |Live(Of(history, ip), now - w)| < room.value
    ensures AllTracked(hits[ip := Live(Of(hits, ip), now - w) + [now]], history[ip := Of(history, ip) + [now]], w, now, room')
  {
    var hits', history' := hits[ip := Live(Of(hits, ip), now - w) + [now]], history[ip := Of(history, ip) + [now]];
    forall x ensures IsTracked(hits', history', w, now, room', x) {
      assert IsTracked(hits, history, w, now, room, x);
      if x == ip {
        TracksLater(Of(hits, ip), Of(history, ip), w, now, now);
        TracksPush(Live(Of(hits, ip), now - w), Of(history, ip), w, now);
      }
    }
  }

  lemma ForgetKeeps(hits: map<Ip, seq<int>>, history: map<Ip, seq<int>>, w: int, now: int, room: Option<nat>, ip: Ip)
    requires AllTracked(hits, history, w, now, room)
    ensures AllTracked(hits - {ip}, history - {ip}, w, now, room)
  {
    forall x ensures IsTracked(hits - {ip}, history - {ip}, w, now, room, x) {
      assert IsTracked(hits, history, w, now, room, x);
    }
  }

  class AuthFailureLimiter {
    const max: int
    const windowMs: int
    var hits: map<Ip, seq<int>>
    /** Every failure of an IP since its last success, the latest clock reading, and whether each failure passed the gate first. */
    ghost var history: map<Ip, seq<int>>
    ghost var clock: int
    ghost var gated: bool

    ghost function Room(isGated: bool): Option<nat> {
      if isGated && max >= 1 then Some(max) else None
    }

    ghost predicate Valid()
      reads this
    {
      AllTracked(hits, history, windowMs, clock, Room(gated))
    }

    constructor (m: int, w: int, now: int)
      ensures Valid() && max == m && windowMs == w && clock == now && hits == map[] && history == map[] && gated
    {
      max, windowMs, hits := m, w, map[];
      history, clock, gated := map[], now, true;
      new;
      assert forall ip :: IsTracked(map[], map[], windowMs, now, Room(true), ip);
    }

    method Check(ip: Ip, now: int) returns (d: Decision)
      requires Valid() && clock <= now
      modifies this
      ensures Valid() && clock == now && history == old(history) && gated == old(gated)
      ensures d == Decide(Of(history, ip), max, windowMs, now)
    {
      Pruned(ip, now);
      clock := now;
      if ip !in hits || hits[ip] == [] {
        return PASS;
      }
      var live := Live(hits[ip], now - windowMs);
      if live == [] {
        hits := hits - {ip};
        return PASS;
      }
      hits := hits[ip := live];
      if |live| >= max {
        var wait := CeilSeconds(live[0] + windowMs - now);
        return Decision(true, if wait > 1 then wait else 1);
      }
      return PASS;
    }

    /** Pruning the list of one IP, or of none, keeps the limiter's promise. */
    lemma Pruned(ip: Ip, now: int)
      requires Valid() && clock <= now
      ensures AllTracked(hits, history, windowMs, now, Room(gated))
      ensures AllTracked(hits[ip := Live(Of(hits, ip), now - windowMs)], history, windowMs, now, Room(gated))
      ensures Live(Of(hits, ip), now - windowMs) == [] ==> AllTracked(hits - {ip}, history, windowMs, now, Room(gated))
      ensures Live(Of(hits, ip), now - windowMs) == Live(Of(history, ip), now - windowMs)
    {
      PruningKeeps(hits, hits, history, windowMs, clock, now, Room(gated), now - windowMs);
      PruningKeeps(hits, hits[ip := Live(Of(hits, ip), now - windowMs)], history, windowMs, clock, now, Room(gated), now - windowMs);
      if Live(Of(hits, ip), now - windowMs) == [] {
        PruningKeeps(hits, hits - {ip}, history, windowMs, clock, now, Room(gated), now - windowMs);
      }
      assert IsTracked(hits, history, windowMs, now, Room(gated), ip);
    }

    /** `gated` stays true as long as failures are recorded only when the gate lets the IP pass. */
    method RecordFailure(ip: Ip, now: int)
      requires Valid() && clock <= now
      modifies this
      ensures Valid() && clock == now
      ensures history == old(history)[ip := Of(old(history), ip) + [now]]
      ensures gated == (old(gated) && !Decide(Of(old(history), ip), max, windowMs, now).limited)
    {
      Pruned(ip, now);
      ghost var passed := !Decide(Of(history, ip), max, windowMs, now).limited;
      PushKeeps(hits, history, windowMs, now, Room(gated), ip, Room(gated && passed));
      var live := if ip in hits then Live(hits[ip], now - windowMs) else [];
      hits := hits[ip := live + [now]];
      history := history[ip := Of(history, ip) + [now]];
      gated := gated && passed;
      clock := now;
    }

    method RecordSuccess(ip: Ip)
      requires Valid()
      modifies this
      ensures Valid() && clock == old(clock) && history == old(history) - {ip} && gated == old(gated)
    {
      ForgetKeeps(hits, history, windowMs, clock, Room(gated), ip);
      hits := hits - {ip};
      history := history - {ip};
    }

    /** Sweeping at any moment cannot be observed: decisions depend on `history`, which stays. */
    method Sweep(now: int)
      requires Valid() && clock <= now
      modifies this
      ensures Valid() && clock == now && history == old(history) && gated == old(gated)
    {
      var cutoff := now - windowMs;
      var ips := hits.Keys;
      while ips != {}
        invariant history == old(history) && gated == old(gated) && clock == old(clock)
        invariant ips <= hits.Keys && forall ip | ip in ips :: hits[ip] == Of(old(hits), ip)
        invariant forall ip :: IsPruned(old(hits), hits, cutoff, ip)
        decreases ips
      {
        var ip :| ip in ips;
        var live := Live(hits[ip], cutoff);
        ghost var before := hits;
        if live == [] {
          hits := hits - {ip};
        } else {
          hits := hits[ip := live];
        }
        ips := ips - {ip};
        forall x ensures IsPruned(old(hits), hits, cutoff, x) {
          assert IsPruned(old(hits), before, cutoff, x);
        }
      }
      PruningKeeps(old(hits), hits, history, windowMs, clock, now, Room(gated), now - windowMs);
      clock := now;
    }
  }

  /** A call to the limiter between two checks of an IP. */
  datatype Call =
    | Checked(ip: Ip, at: int)
    | Failed(ip: Ip, at: int)
    | Succeeded(ip: Ip, at: int)
    | Swept(at: int)

  /** Calls in clock order from `start` to `end`, none of which records a failure of `ip`. */
  predicate IsInterlude(calls: seq<Call>, ip: Ip, start: int, end: int) {
    && start <= end
    && (forall i | 0 <= i < |calls| :: start <= calls[i].at <= end && (calls[i].Failed? ==> calls[i].ip != ip))
    && forall i, j | 0 <= i < j < |calls| :: calls[i].at <= calls[j].at
  }

  method Perform(l: AuthFailureLimiter, call: Call, ghost ip: Ip)
    requires l.Valid() && l.clock <= call.at && (call.Failed? ==> call.ip != ip)
    modifies l
    ensures l.Valid() && old(l.clock) <= l.clock <= call.at
    ensures Of(l.history, ip) == Of(old(l.history), ip) || Of(l.history, ip) == []
  {
    match call {
      case Checked(x, at) => var d := l.Check(x, at);
      case Failed(x, at) => l.RecordFailure(x, at);
      case Succeeded(x, at) => l.RecordSuccess(x);
      case Swept(at) => l.Sweep(at);
    }
  }

  /**
   * Under the gate, an IP that is told to come back in `retryAfterSec` seconds is let through then, whatever checks,
   * successes, sweeps and failures of other IPs, gated or not, come in between.
   */
  method ComeBackLater(l: AuthFailureLimiter, ip: Ip, now: int, between: seq<Call>, later: int)
    returns (first: Decision, second: Decision)
    requires l.Valid() && l.gated && l.max >= 1 && l.clock <= now
    requires IsInterlude(between, ip, now, later)
    modifies l
    ensures first.limited && later >= now + 1000 * first.retryAfterSec ==> !second.limited
  {
    first := l.Check(ip, now);
    ghost var history := Of(l.history, ip);
    assert IsTracked(l.hits, l.history, l.windowMs, now, Some(l.max as nat), ip);
    for i := 0 to |between|
      invariant l.Valid() && l.clock <= later && forall j | i <= j < |between| :: l.clock <= between[j].at
      invariant Of(l.history, ip) == history || Of(l.history, ip) == []
    {
      Perform(l, between[i], ip);
    }
    if first.limited && later >= now + 1000 * first.retryAfterSec {
      RetryAfterSuffices(history, l.max, l.windowMs, now, later);
    }
    second := l.Check(ip, later);
  }
}
