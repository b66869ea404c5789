/**
 * The in-process write-lock runner (createWriteLockRunner in
 * apps/cloud/src/server-storage.ts): a map from keys to the tail of a promise chain.
 * Every call is a job; the runner is a state machine over the settlements of promises,
 * interleaved in any order.
 */
module WriteLock {
  import opened Options

  type Key = string

  /**
   * Waiting for the tail it was chained to; acquiring the cross-process lock; running its
   * handler; its handler done; or settled without its handler ever having run.
   */
  datatype Phase = Waiting | Acquiring | Running | Ran(ok: bool) | Skipped

  datatype Job = Job(
    key: Key,
    previous: Option<nat>,    // the tail found in the map
    phase: Phase,
    aborted: bool,            // the signal fired before the handler started
    tailSettled: bool,
    swept: bool)              // the tail's own clean-up of the map has run

  datatype State = State(
    jobs: seq<Job>,
    locks: map<Key, nat>,     // writeLocks: the last tail of each key
    started: seq<nat>)        // handlers in the order they were started

  datatype Event =
    | Enqueue(key: Key)
    | Abort(id: nat)
    | Turn(id: nat)                   // the awaited tail has settled
    | Enter(id: nat)                  // the cross-process lock was obtained
    | LockFailed(id: nat)
    | Finish(id: nat, ok: bool)       // the handler settled
    | SettleTail(id: nat)
    | Sweep(id: nat)

  const Initial := State([], map[], [])

  function With(s: State, i: nat, j: Job): State
    requires i < |s.jobs|
  {
    s.(jobs := s.jobs[i := j])
  }

  predicate Enabled(s: State, e: Event) {
    match e
    case Enqueue(_) => true
    case Abort(i) => i < |s.jobs|
    case Turn(i) => i < |s.jobs| && s.jobs[i].phase == Waiting
      && (s.jobs[i].previous.Some? ==>
          s.jobs[i].previous.value < |s.jobs| && s.jobs[s.jobs[i].previous.value].tailSettled)
    case Enter(i) => i < |s.jobs| && s.jobs[i].phase == Acquiring
    case LockFailed(i) => i < |s.jobs| && s.jobs[i].phase == Acquiring
    case Finish(i, _) => i < |s.jobs| && s.jobs[i].phase == Running
    case SettleTail(i) => i < |s.jobs| && (s.jobs[i].phase.Ran? || s.jobs[i].phase.Skipped?) && !s.jobs[i].tailSettled
    case Sweep(i) => i < |s.jobs| && s.jobs[i].tailSettled && !s.jobs[i].swept
  }

  function Step(s: State, e: Event): State
    requires Enabled(s, e)
  {
    match e
    case Enqueue(key) =>
      var previous := if key in s.locks then Some(s.locks[key]) else None;
      s.(jobs := s.jobs + [Job(key, previous, Waiting, false, false, false)], locks := s.locks[key := |s.jobs|])
    case Abort(i) =>
      var j := s.jobs[i];
      // once the handler runs, the signal is the handler's own business
      With(s, i, j.(aborted := j.aborted || j.phase.Waiting? || j.phase.Acquiring?))
    case Turn(i) =>
      var j := s.jobs[i];
      With(s, i, j.(phase := if j.aborted then Skipped else Acquiring))
    case Enter(i) =>
      var j := s.jobs[i];
      if j.aborted then With(s, i, j.(phase := Skipped))
      else With(s, i, j.(phase := Running)).(started := s.started + [i])
    case LockFailed(i) => With(s, i, s.jobs[i].(phase := Skipped))
    case Finish(i, ok) => With(s, i, s.jobs[i].(phase := Ran(ok)))
    case SettleTail(i) => With(s, i, s.jobs[i].(tailSettled := true))
    case Sweep(i) =>
      var j := s.jobs[i];
      var key := j.key;
      With(s, i, j.(swept := true)).(
        locks := if key in s.locks && s.locks[key] == i then s.locks - {key} else s.locks)
  }

  /** The states a schedule of events leads to; None when an event was not enabled. */
  function Run(s: State, events: seq<Event>): Option<State>
    decreases |events|
  {
    if events == [] then Some(s)
    else if Enabled(s, events[0]) then Run(Step(s, events[0]), events[1..])
    else None
  }

  ghost predicate Reachable(s: State) {
    exists events :: Run(Initial, events) == Some(s)
  }

  // ---- the invariant ----

  predicate HandlerRan(j: Job) {
    j.phase.Running? || j.phase.Ran?
  }

  ghost predicate JobOk(s: State, i: nat)
    requires i < |s.jobs|
  {
    var j := s.jobs[i];
    && (j.tailSettled ==> j.phase.Ran? || j.phase.Skipped?)
    && (j.swept ==> j.tailSettled)
    && (j.aborted ==> !HandlerRan(j))
    && (j.previous.Some? ==> j.previous.value < i && s.jobs[j.previous.value].key == j.key)
    // whoever lies between a job and the tail it waits for has a different key or is done
    && (forall k | 0 <= k < i && s.jobs[k].key == j.key && !s.jobs[k].tailSettled ::
          j.previous.Some? && k <= j.previous.value)
    // having had its turn means that everything before it is done
    && (!j.phase.Waiting? ==> forall k | 0 <= k < i && s.jobs[k].key == j.key :: s.jobs[k].tailSettled)
  }

  ghost predicate LocksOk(s: State) {
    && (forall k | k in s.locks ::
          && s.locks[k] < |s.jobs| && s.jobs[s.locks[k]].key == k && !s.jobs[s.locks[k]].swept
          && forall i | s.locks[k] < i < |s.jobs| :: s.jobs[i].key != k)
    && (forall i | 0 <= i < |s.jobs| && s.jobs[i].key !in s.locks :: s.jobs[i].tailSettled)
  }

  ghost predicate StartedOk(s: State) {
    && (forall a | 0 <= a < |s.started| :: s.started[a] < |s.jobs| && HandlerRan(s.jobs[s.started[a]]))
    && (forall i | 0 <= i < |s.jobs| && HandlerRan(s.jobs[i]) :: i in s.started)
    && (forall a, b | 0 <= a < b < |s.started| && s.jobs[s.started[a]].key == s.jobs[s.started[b]].key ::
          s.started[a] < s.started[b])
  }

  ghost predicate Inv(s: State) {
    && (forall i | 0 <= i < |s.jobs| :: JobOk(s, i))
    && LocksOk(s)
    && StartedOk(s)
  }

  /** The event of `t`'s step concerned only job `i`. */
  ghost predicate OnlyJob(s: State, t: State, i: nat) {
    && |t.jobs| == |s.jobs| && i < |s.jobs|
    && (forall k | 0 <= k < |s.jobs| && k != i :: t.jobs[k] == s.jobs[k])
    && t.jobs[i].key == s.jobs[i].key && t.jobs[i].previous == s.jobs[i].previous
    && (s.jobs[i].tailSettled ==> t.jobs[i].tailSettled)
  }

  lemma OthersStayOk(s: State, t: State, i: nat, k: nat)
    requires OnlyJob(s, t, i) && k < |s.jobs| && k != i && JobOk(s, k)
    ensures JobOk(t, k)
  {
    var j := t.jobs[k];
    forall l | 0 <= l < k && t.jobs[l].key == j.key && !t.jobs[l].tailSettled
      ensures j.previous.Some? && l <= j.previous.value
    {
      assert s.jobs[l].key == s.jobs[k].key && !s.jobs[l].tailSettled;
    }
    forall l | !j.phase.Waiting? && 0 <= l < k && t.jobs[l].key == j.key ensures t.jobs[l].tailSettled {
      assert s.jobs[l].key == s.jobs[k].key && s.jobs[l].tailSettled;
    }
  }

  /** A job whose awaited tail has settled has nothing unfinished before it. */
  lemma TurnMeansAllDone(s: State, i: nat)
    requires Inv(s) && Enabled(s, Turn(i))
    ensures forall k | 0 <= k < i && s.jobs[k].key == s.jobs[i].key :: s.jobs[k].tailSettled
  {
    assert JobOk(s, i);
    if s.jobs[i].previous.Some? {
      assert JobOk(s, s.jobs[i].previous.value);
    }
  }

  lemma OwnJobStaysOk(s: State, e: Event)
    requires Inv(s) && Enabled(s, e) && !e.Enqueue?
    ensures OnlyJob(s, Step(s, e), e.id) && JobOk(Step(s, e), e.id)
  {
    var t, i := Step(s, e), e.id;
    if e.Turn? { TurnMeansAllDone(s, i); }
    assert JobOk(s, i);
    assert forall l | 0 <= l < i :: t.jobs[l] == s.jobs[l];
  }

  lemma JobsStayOk(s: State, e: Event)
    requires Inv(s) && Enabled(s, e) && !e.Enqueue?
    ensures OnlyJob(s, Step(s, e), e.id)
    ensures forall k | 0 <= k < |s.jobs| :: JobOk(Step(s, e), k)
  {
    OwnJobStaysOk(s, e);
    hide Step, JobOk;
    forall k | 0 <= k < |s.jobs| && k != e.id ensures JobOk(Step(s, e), k) {
      assert JobOk(s, k);
      OthersStayOk(s, Step(s, e), e.id, k);
    }
  }

  /** What a step other than a call does to the map, and to what the map depends on. */
  lemma StepOnLocks(s: State, e: Event)
    requires Inv(s) && Enabled(s, e) && !e.Enqueue?
    ensures var t, i := Step(s, e), e.id;
      && i < |s.jobs| == |t.jobs|
      && t.locks == (if e.Sweep? && s.jobs[i].key in s.locks && s.locks[s.jobs[i].key] == i then s.locks - {s.jobs[i].key} else s.locks)
      && (forall k | 0 <= k < |s.jobs| :: t.jobs[k].key == s.jobs[k].key && (s.jobs[k].tailSettled ==> t.jobs[k].tailSettled))
      && (forall k | 0 <= k < |s.jobs| :: t.jobs[k].swept == (s.jobs[k].swept || (e.Sweep? && k == i)))
      && (e.Sweep? ==> s.jobs[i].tailSettled)
  {
  }

  lemma LocksStayOk(s: State, e: Event)
    requires Inv(s) && Enabled(s, e) && !e.Enqueue?
    ensures LocksOk(Step(s, e))
  {
    var t, i := Step(s, e), e.id;
    StepOnLocks(s, e);
    hide Step, Enabled, StartedOk;
    if e.Sweep? && s.jobs[i].key in s.locks && s.locks[s.jobs[i].key] == i {
      forall k | 0 <= k < |t.jobs| && t.jobs[k].key !in t.locks ensures t.jobs[k].tailSettled {
        if s.jobs[k].key in s.locks {
          assert k <= i;
          assert JobOk(s, i);
        }
      }
    }
  }

  lemma EnterKeepsStarted(s: State, i: nat)
    requires Inv(s) && Enabled(s, Enter(i)) && !s.jobs[i].aborted
    ensures StartedOk(Step(s, Enter(i)))
  {
    var t := Step(s, Enter(i));
    assert JobOk(s, i);
    forall a | 0 <= a < |s.started| && s.jobs[s.started[a]].key == s.jobs[i].key ensures s.started[a] < i {
      assert JobOk(s, s.started[a]);
    }
    forall k | 0 <= k < |t.jobs| && HandlerRan(t.jobs[k]) ensures k in t.started {
      if k != i { assert HandlerRan(s.jobs[k]); }
    }
    forall a, b | 0 <= a < b < |t.started| && t.jobs[t.started[a]].key == t.jobs[t.started[b]].key
      ensures t.started[a] < t.started[b]
    {
      if b < |s.started| { assert s.started[a] < s.started[b]; }
    }
  }

  lemma StartedStaysOk(s: State, e: Event)
    requires Inv(s) && Enabled(s, e) && !e.Enqueue?
    ensures StartedOk(Step(s, e))
  {
    var t, i := Step(s, e), e.id;
    assert JobOk(s, i);
    if e.Enter? && !s.jobs[i].aborted {
      EnterKeepsStarted(s, i);
    } else {
      assert t.started == s.started;
      assert forall k | 0 <= k < |s.jobs| :: HandlerRan(t.jobs[k]) == HandlerRan(s.jobs[k]) && t.jobs[k].key == s.jobs[k].key;
    }
  }

  lemma EnqueueKeepsInv(s: State, key: Key)
    requires Inv(s)
    ensures Inv(Step(s, Enqueue(key)))
  {
    var t, n := Step(s, Enqueue(key)), |s.jobs|;
    forall k | 0 <= k < |t.jobs| ensures JobOk(t, k) {
      if k < n {
        assert JobOk(s, k) && forall l | 0 <= l <= k :: t.jobs[l] == s.jobs[l];
      }
    }
  }

  lemma StepKeepsInv(s: State, e: Event)
    requires Inv(s) && Enabled(s, e)
    ensures Inv(Step(s, e))
  {
    if e.Enqueue? {
      EnqueueKeepsInv(s, e.key);
    } else {
      JobsStayOk(s, e);
      LocksStayOk(s, e);
      StartedStaysOk(s, e);
    }
  }

  lemma {:induction false} RunKeepsInv(s: State, events: seq<Event>)
    requires Inv(s)
    ensures Run(s, events).Some? ==> Inv(Run(s, events).value)
    decreases |events|
  {
    if events != [] && Enabled(s, events[0]) {
      StepKeepsInv(s, events[0]);
      RunKeepsInv(Step(s, events[0]), events[1..]);
    }
  }

  lemma ReachableInv(s: State)
    requires Reachable(s)
    ensures Inv(s)
  {
    var events :| Run(Initial, events) == Some(s);
    RunKeepsInv(Initial, events);
  }

  // ---- safety over every schedule ----

  /** At most one handler per key runs. */
  lemma MutualExclusion(s: State, i: nat, j: nat)
    requires Reachable(s) && i < |s.jobs| && j < |s.jobs|
    requires s.jobs[i].key == s.jobs[j].key && s.jobs[i].phase.Running? && s.jobs[j].phase.Running?
    ensures i == j
  {
    ReachableInv(s);
    assert JobOk(s, i) && JobOk(s, j);
  }

  /** Handlers of a key start in the order of their calls, each after all earlier ones have settled. */
  lemma StartsInCallOrder(s: State, a: nat, b: nat)
    requires Reachable(s) && a < |s.started| && b < |s.started|
    requires s.started[a] < |s.jobs| && s.started[b] < |s.jobs|
    requires s.jobs[s.started[a]].key == s.jobs[s.started[b]].key
    ensures a < b <==> s.started[a] < s.started[b]
    ensures forall k | 0 <= k < s.started[b] && s.jobs[k].key == s.jobs[s.started[b]].key ::
      s.jobs[k].tailSettled && (s.jobs[k].phase.Ran? || s.jobs[k].phase.Skipped?)
  {
    ReachableInv(s);
    assert JobOk(s, s.started[b]);
    forall k | 0 <= k < s.started[b] && s.jobs[k].key == s.jobs[s.started[b]].key
      ensures s.jobs[k].phase.Ran? || s.jobs[k].phase.Skipped?
    {
      assert JobOk(s, k);
    }
  }

  lemma AbortStays(s: State, e: Event, i: nat)
    requires Inv(s) && i < |s.jobs| && s.jobs[i].aborted && Enabled(s, e)
    ensures i < |Step(s, e).jobs| && Step(s, e).jobs[i].aborted
  {
  }

  /** A handler whose signal fired before its turn is never started, whatever happens later. */
  lemma {:induction false} AbortedNeverRuns(s: State, i: nat, events: seq<Event>)
    requires Inv(s) && i < |s.jobs| && s.jobs[i].aborted
    ensures i !in s.started
    ensures Run(s, events).Some? ==> i !in Run(s, events).value.started
    decreases |events|
  {
    assert JobOk(s, i);
    if events != [] && Enabled(s, events[0]) {
      StepKeepsInv(s, events[0]);
      AbortStays(s, events[0], i);
      hide Step, Enabled, LocksOk;
      AbortedNeverRuns(Step(s, events[0]), i, events[1..]);
    }
  }

  // ---- progress ----

  /** The runner's own next event for a job; `ok` is how its handler ends. */
  function EventFor(j: Job, i: nat, ok: bool): (e: Event)
    ensures !e.Enqueue? && !e.Abort? && !e.LockFailed?
  {
    match j.phase
    case Waiting => Turn(i)
    case Acquiring => Enter(i)
    case Running => Finish(i, ok)
    case _ => if j.tailSettled then Sweep(i) else SettleTail(i)
  }

  function JobRank(j: Job): nat {
    if j.swept then 0 else if j.tailSettled then 1
    else match j.phase
      case Waiting => 5
      case Acquiring => 4
      case Running => 3
      case _ => 2
  }

  /** How many events the runner can still perform without new calls. */
  function Rank(jobs: seq<Job>): nat {
    if jobs == [] then 0 else JobRank(jobs[0]) + Rank(jobs[1..])
  }

  lemma {:induction false} RankOfUpdate(jobs: seq<Job>, i: nat, j: Job)
    requires i < |jobs|
    ensures Rank(jobs[i := j]) + JobRank(jobs[i]) == Rank(jobs) + JobRank(j)
  {
    if i == 0 {
      assert jobs[i := j][1..] == jobs[1..];
    } else {
      assert jobs[i := j][1..] == jobs[1..][i - 1 := j];
      RankOfUpdate(jobs[1..], i - 1, j);
    }
  }

  /** Every event except a new call or an abort uses up some of the rank, so none can repeat for ever. */
  lemma StepLowersRank(s: State, e: Event)
    requires Inv(s) && Enabled(s, e) && !e.Enqueue?
    ensures e.Abort? ==> Rank(Step(s, e).jobs) == Rank(s.jobs)
    ensures !e.Abort? ==> Rank(Step(s, e).jobs) < Rank(s.jobs)
  {
    var i := e.id;
    assert JobOk(s, i);
    RankOfUpdate(s.jobs, i, Step(s, e).jobs[i]);
  }

  /**
   * The first job that is not swept yet can always make a step, whatever became of the
   * handlers before it.
   */
  lemma FirstUnsweptIsEnabled(s: State, i: nat, ok: bool)
    requires Inv(s) && i < |s.jobs| && !s.jobs[i].swept
    requires forall k | 0 <= k < i :: s.jobs[k].swept
    ensures Enabled(s, EventFor(s.jobs[i], i, ok))
  {
    assert JobOk(s, i);
    if s.jobs[i].phase.Waiting? && s.jobs[i].previous.Some? {
      assert JobOk(s, s.jobs[i].previous.value);
    }
  }

  /** Every unfinished key has an enabled event of its own: no job can block another for ever. */
  lemma {:induction false} UnfinishedKeyIsEnabled(s: State, i: nat, ok: bool) returns (k: nat)
    requires Reachable(s) && i < |s.jobs| && !s.jobs[i].tailSettled
    ensures k <= i && s.jobs[k].key == s.jobs[i].key && !s.jobs[k].tailSettled
    ensures Enabled(s, EventFor(s.jobs[k], k, ok))
  {
    if l :| 0 <= l < i && s.jobs[l].key == s.jobs[i].key && !s.jobs[l].tailSettled {
      k := UnfinishedKeyIsEnabled(s, l, ok);
    } else {
      k := i;
      ReachableInv(s);
      assert JobOk(s, i);
    }
  }

  /** When nothing is left to do, the lock map is empty. */
  lemma QuietMeansNoLocks(s: State)
    requires Inv(s) && forall k | 0 <= k < |s.jobs| :: s.jobs[k].swept
    ensures s.locks == map[]
  {
    if k :| k in s.locks { assert false; }
  }

  /** A job whose handler must still run, or has. */
  predicate Due(j: Job) {
    !j.aborted && j.phase != Skipped
  }

  ghost predicate KeepsDue(s: State, t: State) {
    |t.jobs| == |s.jobs| && forall k | 0 <= k < |s.jobs| && Due(s.jobs[k]) :: Due(t.jobs[k])
  }

  /** The runner's next event for a job never makes it lose its handler. */
  lemma NextEventKeepsDue(s: State, i: nat, ok: bool)
    requires Inv(s) && i < |s.jobs| && Enabled(s, EventFor(s.jobs[i], i, ok))
    ensures KeepsDue(s, Step(s, EventFor(s.jobs[i], i, ok)))
  {
  }

  lemma AllSwept(s: State)
    requires Inv(s) && forall k | 0 <= k < |s.jobs| :: s.jobs[k].swept
    ensures s.locks == map[]
    ensures forall i | 0 <= i < |s.jobs| :: s.jobs[i].tailSettled
    ensures forall i | 0 <= i < |s.jobs| && Due(s.jobs[i]) :: i in s.started
  {
    QuietMeansNoLocks(s);
    forall i | 0 <= i < |s.jobs| ensures s.jobs[i].tailSettled && (Due(s.jobs[i]) ==> i in s.started) {
      assert JobOk(s, i);
    }
  }

  /**
   * Any state settles completely once no new calls come in: the lock map ends empty, and
   * every job neither aborted nor skipped so far has its handler run, however the
   * handlers end.
   */
  lemma {:induction false} SettlesCompletely(s: State, ends: nat -> bool) returns (events: seq<Event>, t: State)
    requires Inv(s)
    ensures Run(s, events) == Some(t) && |events| <= Rank(s.jobs)
    ensures forall e | e in events :: !e.Enqueue? && !e.Abort? && !e.LockFailed?
    ensures t.locks == map[] && |t.jobs| == |s.jobs|
    ensures forall i | 0 <= i < |s.jobs| :: t.jobs[i].tailSettled
    ensures forall i | 0 <= i < |s.jobs| && Due(s.jobs[i]) :: i in t.started
    decreases Rank(s.jobs)
  {
    if forall k | 0 <= k < |s.jobs| :: s.jobs[k].swept {
      AllSwept(s);
      events, t := [], s;
    } else {
      var e, next := NextOf(s, ends);
      var rest;
      rest, t := SettlesCompletely(next, ends);
      events := [e] + rest;
      RunCons(s, e, rest);
    }
  }

  lemma RunCons(s: State, e: Event, rest: seq<Event>)
    requires Enabled(s, e)
    ensures Run(s, [e] + rest) == Run(Step(s, e), rest)
  {
    assert ([e] + rest)[1..] == rest;
  }

  lemma NextOf(s: State, ends: nat -> bool) returns (e: Event, next: State)
    requires Inv(s) && exists k :: 0 <= k < |s.jobs| && !s.jobs[k].swept
    ensures Enabled(s, e) && next == Step(s, e) && Inv(next) && KeepsDue(s, next)
    ensures Rank(next.jobs) < Rank(s.jobs)
    ensures !e.Enqueue? && !e.Abort? && !e.LockFailed?
  {
    var i := FirstUnswept(s.jobs);
    var ok := ends(i);
    e := EventFor(s.jobs[i], i, ok);
    FirstUnsweptIsEnabled(s, i, ok);
    next := Step(s, e);
    StepKeepsInv(s, e);
    StepLowersRank(s, e);
    NextEventKeepsDue(s, i, ok);
  }

  function FirstUnswept(jobs: seq<Job>): (i: nat)
    requires exists k :: 0 <= k < |jobs| && !jobs[k].swept
    ensures i < |jobs| && !jobs[i].swept
    ensures forall k | 0 <= k < i :: jobs[k].swept
  {
    if !jobs[0].swept then 0
    else
      assert exists k :: 0 <= k < |jobs[1..]| && !jobs[1..][k].swept by {
        var k :| 0 <= k < |jobs| && !jobs[k].swept;
        assert jobs[1..][k - 1] == jobs[k];
      }
      var i := 1 + FirstUnswept(jobs[1..]);
      assert forall k | 1 <= k < i :: jobs[k] == jobs[1..][k - 1];
      i
  }
}
