/** The FIFO concurrency limiter of the embedding client, one atomic step per event-loop turn. */
module Semaphore {

  /** A pending `embedBatch` call. */
  type Call = nat

  /**
   * A call that finds the gate full parks in `waiters`; a release wakes the first waiter, which
   * takes its permit only when it resumes. Between the two it is in `woken`.
   */
  class Semaphore {
    const max: int
    var active: int
    var waiters: seq<Call>
    var woken: seq<Call>
    /** Every call in arrival order, every grant in order, and how many permits were given back. */
    ghost var arrived: seq<Call>
    ghost var granted: seq<Call>
    ghost var returned: nat
    /** No call has ever arrived while a woken waiter had yet to resume. */
    ghost var prompt: bool

    /** Permits handed out and not yet given back. */
    ghost function Held(): int
      reads this
    {
      |granted| - returned
    }

    ghost predicate Valid()
      reads this
    {
      && active == Held() >= 0
      && (max <= 0 ==> arrived == [])
      // every call that arrived is granted, woken or waiting
      && |arrived| == |granted| + |woken| + |waiters|
      // no wake-up is lost
      && (waiters != [] ==> active + |woken| >= max)
      // bound and order, as long as woken waiters resume before anyone else arrives
      && (prompt && max > 0 ==> active + |woken| <= max)
      && (prompt ==> arrived == granted + woken + waiters)
    }

    constructor (m: int)
      ensures Valid() && max == m && active == 0 && waiters == [] && woken == []
      ensures arrived == [] && granted == [] && returned == 0 && prompt
    {
      max, active, waiters, woken := m, 0, [], [];
      arrived, granted, returned, prompt := [], [], 0, true;
    }

    /**
     * `acquire` up to its first suspension: a permit at once, or a place in the queue. The last
     * clause says exactly which arrivals break the bound.
     */
    method Acquire(c: Call) returns (immediate: bool)
      requires Valid()
      modifies this
      ensures Valid()
      ensures immediate <==> max <= 0 || old(active) < max
      ensures max <= 0 ==> unchanged(this)
      ensures max > 0 ==> arrived == old(arrived) + [c] && prompt == (old(prompt) && old(woken) == [])
      ensures woken == old(woken) && returned == old(returned)
      ensures max > 0 && immediate ==>
                active == old(active) + 1 && waiters == old(waiters) && granted == old(granted) + [c]
      ensures !immediate ==>
                active == old(active) && waiters == old(waiters) + [c] && granted == old(granted)
      ensures max > 0 && old(active + |woken|) <= max ==>
                (active + |woken| > max <==> old(active) < max == old(active) + |old(woken)|)
    {
      if max <= 0 {
        return true;
      }
      arrived := arrived + [c];
      prompt := prompt && woken == [];
      if active < max {
        active := active + 1;
        granted := granted + [c];
        return true;
      }
      waiters := waiters + [c];
      return false;
    }

    /** A woken waiter resumes after its `await` and counts its permit. */
    method Resume() returns (c: Call)
      requires Valid() && woken != []
      modifies this
      ensures Valid() && c == old(woken)[0]
      ensures woken == old(woken)[1..] && active == old(active) + 1 && waiters == old(waiters)
      ensures granted == old(granted) + [c]
      ensures arrived == old(arrived) && returned == old(returned) && prompt == old(prompt)
    {
      c := woken[0];
      assert woken == [c] + woken[1..];
      woken := woken[1..];
      active := active + 1;
      granted := granted + [c];
    }

    /** A holder gives its permit back; the first waiter, if any, is woken. */
    method Release()
      requires Valid() && Held() > 0
      modifies this
      ensures Valid()
      ensures active == old(active) - 1 && returned == old(returned) + 1
      ensures waiters == (if old(waiters) == [] then [] else old(waiters)[1..])
      ensures woken == old(woken) + (if old(waiters) == [] then [] else [old(waiters)[0]])
      ensures arrived == old(arrived) && granted == old(granted) && prompt == old(prompt)
    {
      active := active - 1;
      returned := returned + 1;
      if waiters != [] {
        assert waiters == [waiters[0]] + waiters[1..];
        woken := woken + [waiters[0]];
        waiters := waiters[1..];
      }
    }
  }

  /** While woken waiters resume before anyone else arrives: at most `max` permits, granted in arrival order. */
  lemma PromptIsFair(s: Semaphore)
    requires s.Valid() && s.prompt && s.max > 0
    ensures s.Held() <= s.max && s.granted <= s.arrived
  {
    assert s.granted + s.woken + s.waiters == s.granted + (s.woken + s.waiters);
  }

  /**
   * The bound is not unconditional: a call that arrives between a waiter's wake-up and its resumption
   * takes the freed permit ahead of it, and the waiter then takes one more.
   */
  method BargeInOvershoots(a: Call, b: Call, c: Call) returns (s: Semaphore)
    ensures s.Valid() && s.max == 1 && s.arrived == [a, b, c] && s.granted == [a, c, b] && s.Held() == 2
  {
    s := new Semaphore(1);
    var first := s.Acquire(a);
    var second := s.Acquire(b);
    s.Release();
    var third := s.Acquire(c);
    var resumed := s.Resume();
  }
}
