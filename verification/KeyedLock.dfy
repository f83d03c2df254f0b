/**
 * The per-key lock made of chained promises, and the read-modify-write bodies that run under it.
 * One step is what one call does between two suspensions; steps of different calls interleave freely.
 */
module KeyedLock {
  import opened Base

  type Key = string

  /** Where a call stands: queued, in its body before reading, after reading, after writing, finished. */
  datatype Phase<F> = Waiting | Running | Loaded(seen: Option<F>) | Stored | Done

  /**
   * One call of `withMembersLock`. `prev` is the call whose chained promise it awaits; `settled`
   * says that its own chained promise has settled; `applied`, that its body took effect.
   */
  datatype Task<Op, F> = Task(
    key: Key,
    op: Op,
    prev: Option<nat>,
    phase: Phase<F>,
    applied: bool,
    settled: bool)

  /** Calls in arrival order, the lock map (each entry names the call that made the promise), the files. */
  datatype State<Op, F> = State(tasks: seq<Task<Op, F>>, locks: map<Key, nat>, files: map<Key, F>)

  datatype Step<Op> =
    | Enter(key: Key, op: Op)
    | Resume(t: nat)
    | Load(t: nat)
    | Store(t: nat)
    | Throw(t: nat)
    | Finish(t: nat)
    | Settle(t: nat)

  /** What a body writes after reading `file`; None when it writes nothing. */
  type Body<!Op, !F> = (Op, Option<F>) -> Option<F>

  function FileOf<Op, F>(s: State<Op, F>, key: Key): Option<F> {
    if key in s.files then Some(s.files[key]) else None
  }

  function After<Op, F>(body: Body<Op, F>, op: Op, file: Option<F>): Option<F> {
    var w := body(op, file);
    if w.Some? then w else file
  }

  predicate PrevSettled<Op, F>(s: State<Op, F>, t: nat)
    requires t < |s.tasks|
  {
    var p := s.tasks[t].prev;
    p.None? || (p.value < |s.tasks| && s.tasks[p.value].settled)
  }

  predicate Enabled<Op, F>(s: State<Op, F>, step: Step<Op>) {
    match step
    case Enter(_, _) => true
    case Resume(t) => t < |s.tasks| && s.tasks[t].phase.Waiting? && PrevSettled(s, t)
    case Load(t) => t < |s.tasks| && s.tasks[t].phase.Running?
    case Store(t) => t < |s.tasks| && s.tasks[t].phase.Loaded?
    case Throw(t) => t < |s.tasks| && (s.tasks[t].phase.Running? || s.tasks[t].phase.Loaded?)
    case Finish(t) => t < |s.tasks| && s.tasks[t].phase.Stored?
    case Settle(t) => t < |s.tasks| && s.tasks[t].phase.Done? && !s.tasks[t].settled && PrevSettled(s, t)
  }

  function Put<Op, F>(s: State<Op, F>, t: nat, task: Task<Op, F>): State<Op, F>
    requires t < |s.tasks|
  {
    s.(tasks := s.tasks[t := task])
  }

  /** The `finally` block: release, and drop the map entry if it is still this call's own. */
  function Leave<Op, F>(s: State<Op, F>, t: nat, drops: bool): State<Op, F>
    requires t < |s.tasks|
  {
    var key := s.tasks[t].key;
    var locks := if drops && key in s.locks && s.locks[key] == t then s.locks - {key} else s.locks;
    Put(s, t, s.tasks[t].(phase := Done)).(locks := locks)
  }

  /** The members and rules locks drop entries (`drops`); the quota lock never does. */
  function Next<Op, F>(s: State<Op, F>, step: Step<Op>, body: Body<Op, F>, drops: bool): State<Op, F>
    requires Enabled(s, step)
  {
    match step
    case Enter(key, op) =>
      var prev := if key in s.locks then Some(s.locks[key]) else None;
      s.(tasks := s.tasks + [Task(key, op, prev, Waiting, false, false)], locks := s.locks[key := |s.tasks|])
    case Resume(t) => Put(s, t, s.tasks[t].(phase := Running))
    case Load(t) => Put(s, t, s.tasks[t].(phase := Loaded(FileOf(s, s.tasks[t].key))))
    case Store(t) =>
      var task := s.tasks[t];
      var w := body(task.op, task.phase.seen);
      var s' := Put(s, t, task.(phase := Stored, applied := true));
      if w.Some? then s'.(files := s.files[task.key := w.value]) else s'
    case Throw(t) => Leave(s, t, drops)
    case Finish(t) => Leave(s, t, drops)
    case Settle(t) => Put(s, t, s.tasks[t].(settled := true))
  }

  // ---------------------------------------------------------------------------
  // The invariant
  // ---------------------------------------------------------------------------

  predicate EarlierDone<Op, F>(tasks: seq<Task<Op, F>>, t: nat)
    requires t < |tasks|
  {
    forall u | 0 <= u < t && tasks[u].key == tasks[t].key :: tasks[u].phase.Done?
  }

  /** `p` is the last call for its key before `t`. */
  predicate Precedes<Op, F>(tasks: seq<Task<Op, F>>, p: nat, t: nat)
    requires t < |tasks|
  {
    && p < t && tasks[p].key == tasks[t].key
    && forall u | p < u < t :: tasks[u].key != tasks[t].key
  }

  predicate TaskOk<Op, F(==)>(s: State<Op, F>, t: nat)
    requires t < |s.tasks|
  {
    var task := s.tasks[t];
    && (task.prev.Some? ==> Precedes(s.tasks, task.prev.value, t))
    && (task.prev.None? || !task.phase.Waiting? ==> EarlierDone(s.tasks, t))
    && (task.settled ==> task.phase.Done?)
    && (task.phase.Loaded? ==> task.phase.seen == FileOf(s, task.key))
    && (task.phase.Stored? ==> task.applied)
    && (task.applied ==> task.phase.Stored? || task.phase.Done?)
  }

  predicate LockOk<Op, F>(s: State<Op, F>, key: Key, drops: bool) {
    && (key in s.locks ==>
          && s.locks[key] < |s.tasks| && s.tasks[s.locks[key]].key == key
          && (forall u | s.locks[key] < u < |s.tasks| :: s.tasks[u].key != key)
          && (drops ==> !s.tasks[s.locks[key]].phase.Done?))
    && (key !in s.locks ==> forall u | 0 <= u < |s.tasks| && s.tasks[u].key == key :: s.tasks[u].phase.Done?)
  }

  ghost predicate Inv<Op, F>(s: State<Op, F>, drops: bool) {
    && (forall t | 0 <= t < |s.tasks| :: TaskOk(s, t))
    && (forall key :: LockOk(s, key, drops))
  }

  predicate InBody<Op, F>(s: State<Op, F>, t: nat)
    requires t < |s.tasks|
  {
    !s.tasks[t].phase.Waiting? && !s.tasks[t].phase.Done?
  }

  lemma EnterKeeps<Op, F>(s: State<Op, F>, key: Key, op: Op, body: Body<Op, F>, drops: bool)
    requires Inv(s, drops)
    ensures Inv(Next(s, Enter(key, op), body, drops), drops)
  {
    var s' := Next(s, Enter(key, op), body, drops);
    forall t | 0 <= t < |s'.tasks| ensures TaskOk(s', t) {
      if t < |s.tasks| {
        assert TaskOk(s, t);
      } else {
        assert LockOk(s, key, drops);
      }
    }
    forall k ensures LockOk(s', k, drops) {
      assert LockOk(s, k, drops);
    }
  }

  /** A call that resumes finds every earlier call for its key done. */
  lemma {:induction false} ResumeKeeps<Op, F>(s: State<Op, F>, t: nat, body: Body<Op, F>, drops: bool)
    requires Inv(s, drops) && Enabled(s, Step<Op>.Resume(t))
    ensures Inv(Next(s, Resume(t), body, drops), drops)
  {
    var s' := Next(s, Resume(t), body, drops);
    assert TaskOk(s, t);
    assert EarlierDone(s.tasks, t) by {
      if s.tasks[t].prev.Some? {
        var p := s.tasks[t].prev.value;
        assert TaskOk(s, p);
        assert EarlierDone(s.tasks, p);
      }
    }
    QuietKeeps(s, s', t, drops);
  }

  /** A step that changes only the phase of one call, not to or from `Done`, keeps the invariant of the others. */
  lemma QuietKeeps<Op, F>(s: State<Op, F>, s': State<Op, F>, t: nat, drops: bool)
    requires Inv(s, drops) && t < |s.tasks| == |s'.tasks| && s'.locks == s.locks
    requires forall u | 0 <= u < |s.tasks| && u != t :: s'.tasks[u] == s.tasks[u]
    requires s'.tasks[t].key == s.tasks[t].key && s'.tasks[t].prev == s.tasks[t].prev
    requires s'.tasks[t].phase.Done? <==> s.tasks[t].phase.Done?
    requires forall u | 0 <= u < |s.tasks| && u != t && s.tasks[u].phase.Loaded? :: FileOf(s', s.tasks[u].key) == FileOf(s, s.tasks[u].key)
    requires TaskOk(s', t)
    ensures Inv(s', drops)
  {
    forall u | 0 <= u < |s'.tasks| ensures TaskOk(s', u) {
      assert TaskOk(s, u);
    }
    forall k ensures LockOk(s', k, drops) {
      assert LockOk(s, k, drops);
    }
  }

  lemma StoreKeeps<Op, F>(s: State<Op, F>, t: nat, body: Body<Op, F>, drops: bool)
    requires Inv(s, drops) && Enabled(s, Step<Op>.Store(t))
    ensures Inv(Next(s, Store(t), body, drops), drops)
  {
    var s' := Next(s, Store(t), body, drops);
    assert TaskOk(s, t);
    forall u | 0 <= u < |s.tasks| && u != t && s.tasks[u].phase.Loaded?
      ensures FileOf(s', s.tasks[u].key) == FileOf(s, s.tasks[u].key)
    {
      OneInBody(s, drops, t, u);
    }
    QuietKeeps(s, s', t, drops);
  }

  lemma LeaveKeeps<Op, F>(s: State<Op, F>, t: nat, drops: bool)
    requires Inv(s, drops) && t < |s.tasks| && InBody(s, t)
    ensures Inv(Leave(s, t, drops), drops)
  {
    var s' := Leave(s, t, drops);
    assert TaskOk(s, t);
    forall u | 0 <= u < |s'.tasks| ensures TaskOk(s', u) {
      assert TaskOk(s, u);
    }
    forall k ensures LockOk(s', k, drops) {
      assert LockOk(s, k, drops);
    }
  }

  /** Mutual exclusion: two calls in their bodies hold different keys. */
  lemma OneInBody<Op, F>(s: State<Op, F>, drops: bool, t: nat, u: nat)
    requires Inv(s, drops) && t < |s.tasks| && u < |s.tasks| && t != u
    requires InBody(s, t) && InBody(s, u)
    ensures s.tasks[t].key != s.tasks[u].key
  {
    assert TaskOk(s, t) && TaskOk(s, u);
  }

  /** Arrival order: a call that has started finds every earlier call for its key finished. */
  lemma ArrivalOrder<Op, F>(s: State<Op, F>, drops: bool, earlier: nat, later: nat)
    requires Inv(s, drops) && earlier < later < |s.tasks| && s.tasks[earlier].key == s.tasks[later].key
    requires !s.tasks[later].phase.Waiting?
    ensures s.tasks[earlier].phase.Done?
  {
    assert TaskOk(s, later);
  }

  /** With dropping, the map has an entry for a key exactly while some call for it is unfinished. */
  lemma EntryWhileNeeded<Op, F>(s: State<Op, F>, key: Key)
    requires Inv(s, true)
    ensures key in s.locks <==> exists t :: 0 <= t < |s.tasks| && s.tasks[t].key == key && !s.tasks[t].phase.Done?
  {
    assert LockOk(s, key, true);
  }

  lemma NextKeeps<Op, F>(s: State<Op, F>, step: Step<Op>, body: Body<Op, F>, drops: bool)
    requires Inv(s, drops) && Enabled(s, step)
    ensures Inv(Next(s, step, body, drops), drops)
  {
    match step {
      case Enter(key, op) => EnterKeeps(s, key, op, body, drops);
      case Resume(t) => ResumeKeeps(s, t, body, drops);
      case Load(t) =>
        assert TaskOk(s, t);
        QuietKeeps(s, Next(s, step, body, drops), t, drops);
      case Store(t) => StoreKeeps(s, t, body, drops);
      case Throw(t) => LeaveKeeps(s, t, drops);
      case Finish(t) => LeaveKeeps(s, t, drops);
      case Settle(t) =>
        assert TaskOk(s, t);
        QuietKeeps(s, Next(s, step, body, drops), t, drops);
    }
  }

  // ---------------------------------------------------------------------------
  // Serialisation
  // ---------------------------------------------------------------------------

  /** The file of `key` after the bodies of the first `n` calls that took effect ran one after another, in arrival order. */
  function Sequential<Op, F>(tasks: seq<Task<Op, F>>, n: nat, key: Key, file: Option<F>, body: Body<Op, F>): Option<F>
    requires n <= |tasks|
  {
    if n == 0 then file
    else
      var before := Sequential(tasks, n - 1, key, file, body);
      if tasks[n - 1].key == key && tasks[n - 1].applied then After(body, tasks[n - 1].op, before) else before
  }

  /** Every file is what the calls that took effect would have made of it one by one, in arrival order. */
  ghost predicate IsSequential<Op, F>(s: State<Op, F>, start: map<Key, F>, body: Body<Op, F>) {
    forall key :: FileOf(s, key) == Sequential(s.tasks, |s.tasks|, key, if key in start then Some(start[key]) else None, body)
  }

  ghost predicate SameEffects<Op, F>(a: seq<Task<Op, F>>, b: seq<Task<Op, F>>, n: nat, key: Key)
    requires n <= |a| && n <= |b|
  {
    forall u | 0 <= u < n ::
      && (a[u].key == key && a[u].applied <==> b[u].key == key && b[u].applied)
      && a[u].op == b[u].op
  }

  lemma {:induction false} SequentialFrame<Op, F>(a: seq<Task<Op, F>>, b: seq<Task<Op, F>>, n: nat, key: Key, file: Option<F>, body: Body<Op, F>)
    requires n <= |a| && n <= |b| && SameEffects(a, b, n, key)
    ensures Sequential(a, n, key, file, body) == Sequential(b, n, key, file, body)
  {
    if n > 0 {
      SequentialFrame(a, b, n - 1, key, file, body);
    }
  }

  /** Calls without effect change nothing. */
  lemma {:induction false} SequentialQuiet<Op, F>(tasks: seq<Task<Op, F>>, from: nat, n: nat, key: Key, file: Option<F>, body: Body<Op, F>)
    requires from <= n <= |tasks|
    requires forall u | from <= u < n && tasks[u].key == key :: !tasks[u].applied
    ensures Sequential(tasks, n, key, file, body) == Sequential(tasks, from, key, file, body)
  {
    if from < n {
      SequentialQuiet(tasks, from, n - 1, key, file, body);
    }
  }

  /** The write of one body is the next step of the sequential replay: everyone after it has yet to start. */
  lemma StoreIsSequential<Op, F>(s: State<Op, F>, t: nat, start: Option<F>, body: Body<Op, F>, drops: bool)
    requires Inv(s, drops) && Enabled(s, Step<Op>.Store(t))
    requires FileOf(s, s.tasks[t].key) == Sequential(s.tasks, |s.tasks|, s.tasks[t].key, start, body)
    ensures var s' := Next(s, Store(t), body, drops);
            FileOf(s', s.tasks[t].key) == Sequential(s'.tasks, |s'.tasks|, s.tasks[t].key, start, body)
  {
    var s', key, n := Next(s, Step<Op>.Store(t), body, drops), s.tasks[t].key, |s.tasks|;
    assert TaskOk(s, t);
    forall u | t < u < n && s.tasks[u].key == key ensures !s.tasks[u].applied {
      assert TaskOk(s, u);
    }
    SequentialQuiet(s.tasks, t, n, key, start, body);
    SequentialQuiet(s'.tasks, t + 1, n, key, start, body);
    SequentialFrame(s.tasks, s'.tasks, t, key, start, body);
  }

  lemma NextIsSequential<Op, F>(s: State<Op, F>, step: Step<Op>, start: map<Key, F>, body: Body<Op, F>, drops: bool)
    requires Inv(s, drops) && Enabled(s, step) && IsSequential(s, start, body)
    ensures IsSequential(Next(s, step, body, drops), start, body)
  {
    var s' := Next(s, step, body, drops);
    forall key ensures FileOf(s', key)
                    == Sequential(s'.tasks, |s'.tasks|, key, if key in start then Some(start[key]) else None, body)
    {
      var file := if key in start then Some(start[key]) else None;
      assert FileOf(s, key) == Sequential(s.tasks, |s.tasks|, key, file, body);
      if step.Store? && s.tasks[step.t].key == key {
        StoreIsSequential(s, step.t, file, body, drops);
      } else {
        SequentialFrame(s.tasks, s'.tasks, |s.tasks|, key, file, body);
      }
    }
  }

  // ---------------------------------------------------------------------------
  // Runs
  // ---------------------------------------------------------------------------

  function Start<Op, F>(files: map<Key, F>): State<Op, F> {
    State([], map[], files)
  }

  ghost predicate IsRun<Op, F>(s: State<Op, F>, steps: seq<Step<Op>>, body: Body<Op, F>, drops: bool)
    decreases |steps|
  {
    steps == [] || (Enabled(s, steps[0]) && IsRun(Next(s, steps[0], body, drops), steps[1..], body, drops))
  }

  ghost function Final<Op, F>(s: State<Op, F>, steps: seq<Step<Op>>, body: Body<Op, F>, drops: bool): State<Op, F>
    requires IsRun(s, steps, body, drops)
    decreases |steps|
  {
    if steps == [] then s else Final(Next(s, steps[0], body, drops), steps[1..], body, drops)
  }

  /** Whatever the interleaving, the lock invariant holds and the files are those of a one-by-one replay in arrival order. */
  lemma {:induction false} EveryRun<Op, F>(s: State<Op, F>, steps: seq<Step<Op>>, start: map<Key, F>, body: Body<Op, F>, drops: bool)
    requires IsRun(s, steps, body, drops)
    requires Inv(s, drops) && IsSequential(s, start, body)
    ensures Inv(Final(s, steps, body, drops), drops)
    ensures IsSequential(Final(s, steps, body, drops), start, body)
    decreases |steps|
  {
    if steps != [] {
      NextKeeps(s, steps[0], body, drops);
      NextIsSequential(s, steps[0], start, body, drops);
      EveryRun(Next(s, steps[0], body, drops), steps[1..], start, body, drops);
    }
  }

  lemma StartIsFine<Op, F>(files: map<Key, F>, body: Body<Op, F>, drops: bool)
    ensures Inv(Start<Op, F>(files), drops) && IsSequential(Start<Op, F>(files), files, body)
  {
  }

  // ---------------------------------------------------------------------------
  // Progress
  // ---------------------------------------------------------------------------

  /** Steps a call still has to make. */
  function Rank<Op, F>(task: Task<Op, F>): nat {
    (match task.phase
     case Waiting => 4
     case Running => 3
     case Loaded(_) => 2
     case Stored => 1
     case Done => 0) + if task.settled then 0 else 1
  }

  function Work<Op, F>(tasks: seq<Task<Op, F>>): nat {
    if tasks == [] then 0 else Rank(tasks[0]) + Work(tasks[1..])
  }

  lemma {:induction false} WorkDrops<Op, F>(tasks: seq<Task<Op, F>>, t: nat, task: Task<Op, F>)
    requires t < |tasks| && Rank(task) < Rank(tasks[t])
    ensures Work(tasks[t := task]) < Work(tasks)
  {
    var tasks' := tasks[t := task];
    if t == 0 {
      assert tasks'[1..] == tasks[1..];
    } else {
      WorkDrops(tasks[1..], t - 1, task);
      assert tasks'[1..] == tasks[1..][t - 1 := task];
    }
  }

  /** Every step but a new arrival uses up work, so without arrivals every run ends. */
  lemma StepsEnd<Op, F>(s: State<Op, F>, step: Step<Op>, body: Body<Op, F>, drops: bool)
    requires Enabled(s, step) && !step.Enter?
    ensures Work(Next(s, step, body, drops).tasks) < Work(s.tasks)
  {
    WorkDrops(s.tasks, step.t, Next(s, step, body, drops).tasks[step.t]);
  }

  /** The first unsettled promise in a chain of finished calls can settle. */
  lemma {:induction false} ChainSettles<Op, F>(s: State<Op, F>, drops: bool, t: nat) returns (u: nat)
    requires Inv(s, drops) && t < |s.tasks| && s.tasks[t].phase.Done? && !s.tasks[t].settled
    ensures u <= t && s.tasks[u].key == s.tasks[t].key && Enabled(s, Step<Op>.Settle(u))
  {
    assert TaskOk(s, t);
    if PrevSettled(s, t) {
      u := t;
    } else {
      u := ChainSettles(s, drops, s.tasks[t].prev.value);
    }
  }

  /** No deadlock: while some call for a key is unfinished, some call for that key can step. */
  lemma Progress<Op, F>(s: State<Op, F>, drops: bool, t: nat) returns (step: Step<Op>)
    requires Inv(s, drops) && t < |s.tasks| && !s.tasks[t].phase.Done?
    ensures Enabled(s, step) && !step.Enter? && s.tasks[step.t].key == s.tasks[t].key
  {
    var u := FirstUnfinished(s, t);
    match s.tasks[u].phase {
      case Running => step := Load(u);
      case Loaded(_) => step := Store(u);
      case Stored => step := Finish(u);
      case Waiting =>
        if PrevSettled(s, u) {
          step := Resume(u);
        } else {
          assert TaskOk(s, u);
          var p := s.tasks[u].prev.value;
          var v := ChainSettles(s, drops, p);
          step := Settle(v);
        }
    }
  }

  lemma {:induction false} FirstUnfinished<Op, F>(s: State<Op, F>, t: nat) returns (u: nat)
    requires t < |s.tasks| && !s.tasks[t].phase.Done?
    ensures u <= t && s.tasks[u].key == s.tasks[t].key && !s.tasks[u].phase.Done? && EarlierDone(s.tasks, u)
  {
    if EarlierDone(s.tasks, t) {
      u := t;
    } else {
      var v :| 0 <= v < t && s.tasks[v].key == s.tasks[t].key && !s.tasks[v].phase.Done?;
      u := FirstUnfinished(s, v);
    }
  }
}
