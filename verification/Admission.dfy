/**
 * Requests of any number of server processes in any-token mode: namespace admission
 * (apps/cloud/src/server-request.ts, the route configurations of server.ts) on top of the
 * two-level lock (in-process queue, then a sharded cross-process lock, server-storage.ts).
 */
module Admission {
  import opened Options

  type Key = string

  /** The one lock key under which namespaces are admitted. */
  const ADMISSION_KEY: Key := "__namespace_admission__"

  // ---- routes ----

  datatype Method = Get | Head | Put | Post | Patch | Delete | Other

  datatype Config = Base | Data | CalendarFeed | Capture | Orphans | AttachmentPath

  datatype Scope = Full | CaptureOnly

  /** guardMethods: which requests must pass namespace admission. */
  predicate Guarded(c: Config, m: Method) {
    match c
    case Data => m == Put || m == Get
    case Orphans => m == Post || m == Delete
    case AttachmentPath => m == Put
    case _ => m != Get && m != Head
  }

  /** initializeNamespace: whether admission reserves an empty document. */
  predicate Reserves(c: Config) {
    c != CalendarFeed && c != Orphans
  }

  /** Whether the route's handler may write files that make up the namespace. */
  predicate Writes(c: Config, m: Method) {
    match c
    case Base => m == Post || m == Patch || m == Delete
    case Data => m == Put || m == Get
    case Capture => m == Post
    case AttachmentPath => m == Put
    case CalendarFeed => false
    case Orphans => false
  }

  // ---- requests ----

  datatype Job = Admit | Body

  datatype Stage = Entered | Checked | Finishing(ok: bool)

  datatype Pc =
    | Start
    | Queued(job: Job)                  // in the process's queue for the lock key
    | AtShard(job: Job)                 // its turn in the queue; polling the shard lock
    | Inside(job: Job, stage: Stage)    // holding both
    | Handler                           // past the preamble, holding nothing
    | Done

  datatype Req = Req(proc: nat, ns: Key, config: Config, verb: Method, scope: Scope, pc: Pc, aborted: bool)

  predicate Locking(pc: Pc) {
    pc.Queued? || pc.AtShard? || pc.Inside?
  }

  function LockKey(r: Req): Key
    requires Locking(r.pc)
  {
    if r.pc.job == Admit then ADMISSION_KEY else r.ns
  }

  datatype Server = Server(cap: int, shard: Key -> int)

  datatype State = State(
    reqs: seq<Req>,
    queues: map<(nat, Key), seq<nat>>,     // writeLocks of each process, as the order of its calls
    shards: map<int, nat>,                 // the holder of each shard lock
    namespaces: set<Key>)                  // namespaces with a document or a directory

  function Queue(s: State, p: nat, k: Key): seq<nat> {
    if (p, k) in s.queues then s.queues[(p, k)] else []
  }

  datatype Event =
    | Arrive(req: Req)
    | Abort(id: nat)
    | Check(id: nat)                       // the first existence check
    | Turn(id: nat)
    | Obtain(id: nat)
    | GiveUp(id: nat)                      // abort or time-out while polling
    | Recheck(id: nat)
    | Reserve(id: nat, created: bool, failed: bool)
    | Lock(id: nat)                        // the handler asks for its namespace's lock
    | Write(id: nat)
    | BodyDone(id: nat)
    | Leave(id: nat)
    | Finish(id: nat)

  predicate Enabled(v: Server, s: State, e: Event) {
    match e
    case Arrive(r) => r.pc == Start
    case Abort(i) => i < |s.reqs|
    case Check(i) => i < |s.reqs| && s.reqs[i].pc == Start
    case Turn(i) => i < |s.reqs| && s.reqs[i].pc.Queued?
      && Queue(s, s.reqs[i].proc, LockKey(s.reqs[i])) != []
      && Queue(s, s.reqs[i].proc, LockKey(s.reqs[i]))[0] == i
    case Obtain(i) => i < |s.reqs| && s.reqs[i].pc.AtShard? && v.shard(LockKey(s.reqs[i])) !in s.shards
    case GiveUp(i) => i < |s.reqs| && s.reqs[i].pc.AtShard?
    case Recheck(i) => i < |s.reqs| && s.reqs[i].pc == Inside(Admit, Entered)
    case Reserve(i, _, _) => i < |s.reqs| && s.reqs[i].pc == Inside(Admit, Checked)
    case Lock(i) => i < |s.reqs| && s.reqs[i].pc == Handler
    case Write(i) => i < |s.reqs| && (s.reqs[i].pc == Handler || s.reqs[i].pc == Inside(Body, Entered))
      && Writes(s.reqs[i].config, s.reqs[i].verb)
    case BodyDone(i) => i < |s.reqs| && s.reqs[i].pc.Inside? && s.reqs[i].pc.job == Body && !s.reqs[i].pc.stage.Finishing?
    case Leave(i) => i < |s.reqs| && s.reqs[i].pc.Inside? && s.reqs[i].pc.stage.Finishing?
    case Finish(i) => i < |s.reqs| && s.reqs[i].pc == Handler
  }

  function Goto(s: State, i: nat, pc: Pc): State
    requires i < |s.reqs|
  {
    s.(reqs := s.reqs[i := s.reqs[i].(pc := pc)])
  }

  /** Joins the queue of a lock. */
  function Enter(s: State, i: nat, job: Job): State
    requires i < |s.reqs|
  {
    var r := s.reqs[i].(pc := Queued(job));
    var at := (r.proc, LockKey(r));
    s.(reqs := s.reqs[i := r], queues := s.queues[at := Queue(s, r.proc, LockKey(r)) + [i]])
  }

  /** Leaves the head of the queue of its lock. */
  function Dequeue(s: State, i: nat, pc: Pc): State
    requires i < |s.reqs| && Locking(s.reqs[i].pc)
  {
    var at := (s.reqs[i].proc, LockKey(s.reqs[i]));
    var q := Queue(s, at.0, at.1);
    Goto(s, i, pc).(queues := s.queues[at := if q == [] then [] else q[1..]])
  }

  /** ensureNamespaceWriteAllowed, without an allow-list. */
  predicate WriteAllowed(v: Server, s: State, ns: Key) {
    ns in s.namespaces || (v.cap > 0 && |s.namespaces| < v.cap)
  }

  function Step(v: Server, s: State, e: Event): State
    requires Enabled(v, s, e)
  {
    match e
    case Arrive(r) => s.(reqs := s.reqs + [r])
    case Abort(i) => s.(reqs := s.reqs[i := s.reqs[i].(aborted := true)])
    case Check(i) =>
      var r := s.reqs[i];
      if r.scope == CaptureOnly then
        Goto(s, i, if r.config == Capture && r.verb == Post && r.ns in s.namespaces then Handler else Done)
      else if Guarded(r.config, r.verb) && r.ns !in s.namespaces then Enter(s, i, Admit)
      else Goto(s, i, Handler)
    case Turn(i) =>
      if s.reqs[i].aborted then Dequeue(s, i, Done) else Goto(s, i, AtShard(s.reqs[i].pc.job))
    case Obtain(i) =>
      if s.reqs[i].aborted then Dequeue(s, i, Done)
      else Goto(s, i, Inside(s.reqs[i].pc.job, Entered)).(shards := s.shards[v.shard(LockKey(s.reqs[i])) := i])
    case GiveUp(i) => Dequeue(s, i, Done)
    case Recheck(i) =>
      Goto(s, i, Inside(Admit, if WriteAllowed(v, s, s.reqs[i].ns) then Checked else Finishing(false)))
    case Reserve(i, created, failed) =>
      var r := s.reqs[i];
      if r.ns in s.namespaces || !Reserves(r.config) then Goto(s, i, Inside(Admit, Finishing(true)))
      else if !failed then Goto(s, i, Inside(Admit, Finishing(true))).(namespaces := s.namespaces + {r.ns})
      else Goto(s, i, Inside(Admit, Finishing(false))).(
        namespaces := if created then s.namespaces + {r.ns} else s.namespaces)
    case Lock(i) => Enter(s, i, Body)
    case Write(i) => s.(namespaces := s.namespaces + {s.reqs[i].ns})
    case BodyDone(i) => Goto(s, i, Inside(Body, Finishing(true)))
    case Leave(i) =>
      var r := s.reqs[i];
      Dequeue(s, i, if r.pc.job == Body || r.pc.stage.ok then Handler else Done).(
        shards := s.shards - {v.shard(LockKey(r))})
    case Finish(i) => Goto(s, i, Done)
  }

  function Initial(namespaces: set<Key>): State {
    State([], map[], map[], namespaces)
  }

  /** Where a schedule leads; None when one of its events was not enabled. */
  function Run(v: Server, s: State, events: seq<Event>): Option<State>
    decreases |events|
  {
    if events == [] then Some(s)
    else if Enabled(v, s, events[0]) then Run(v, Step(v, s, events[0]), events[1..])
    else None
  }

  // ---- the lock discipline ----

  ghost predicate ReqOk(v: Server, s: State, i: nat)
    requires i < |s.reqs|
  {
    var r := s.reqs[i];
    Locking(r.pc) ==>
      && i in Queue(s, r.proc, LockKey(r))
      && (!r.pc.Queued? ==> Queue(s, r.proc, LockKey(r))[0] == i)
      && (r.pc.Inside? ==> v.shard(LockKey(r)) in s.shards && s.shards[v.shard(LockKey(r))] == i)
  }

  ghost predicate QueueOk(s: State, p: nat, k: Key) {
    && (forall a | 0 <= a < |Queue(s, p, k)| :: Member(s, p, k, Queue(s, p, k)[a]))
    && (forall a, b | 0 <= a < b < |Queue(s, p, k)| :: Queue(s, p, k)[a] != Queue(s, p, k)[b])
  }

  predicate Member(s: State, p: nat, k: Key, i: nat) {
    i < |s.reqs| && Locking(s.reqs[i].pc) && s.reqs[i].proc == p && LockKey(s.reqs[i]) == k
  }

  ghost predicate ShardsOk(v: Server, s: State) {
    forall x | x in s.shards ::
      s.shards[x] < |s.reqs| && s.reqs[s.shards[x]].pc.Inside? && v.shard(LockKey(s.reqs[s.shards[x]])) == x
  }

  ghost predicate LockInv(v: Server, s: State) {
    && (forall i | 0 <= i < |s.reqs| :: ReqOk(v, s, i))
    && (forall p: nat, k: Key :: QueueOk(s, p, k))
    && ShardsOk(v, s)
  }

  /** A step of one request that joins or leaves nothing. */
  lemma GotoKeepsLocks(v: Server, s: State, i: nat, r: Req)
    requires LockInv(v, s) && i < |s.reqs| && r.proc == s.reqs[i].proc && r.ns == s.reqs[i].ns
    requires Locking(r.pc) == Locking(s.reqs[i].pc) && r.pc.Inside? == s.reqs[i].pc.Inside?
    requires Locking(r.pc) ==> r.pc.job == s.reqs[i].pc.job
    requires r.pc.AtShard? ==> Queue(s, r.proc, LockKey(r)) != [] && Queue(s, r.proc, LockKey(r))[0] == i
    ensures LockInv(v, s.(reqs := s.reqs[i := r]))
  {
    var t := s.(reqs := s.reqs[i := r]);
    forall k | 0 <= k < |t.reqs| ensures ReqOk(v, t, k) {
      assert ReqOk(v, s, k);
      if k == i && Locking(r.pc) { assert Queue(t, r.proc, LockKey(r)) == Queue(s, r.proc, LockKey(r)); }
    }
    forall p: nat, k ensures QueueOk(t, p, k) {
      assert QueueOk(s, p, k);
      assert Queue(t, p, k) == Queue(s, p, k);
      forall a | 0 <= a < |Queue(t, p, k)| ensures Member(t, p, k, Queue(t, p, k)[a]) {
        assert Member(s, p, k, Queue(s, p, k)[a]);
      }
    }
  }

  lemma EnterKeepsLocks(v: Server, s: State, i: nat, job: Job)
    requires LockInv(v, s) && i < |s.reqs| && !Locking(s.reqs[i].pc)
    ensures LockInv(v, Enter(s, i, job))
  {
    var t := Enter(s, i, job);
    var r := t.reqs[i];
    forall k | 0 <= k < |t.reqs| ensures ReqOk(v, t, k) {
      assert ReqOk(v, s, k);
    }
    forall p: nat, k ensures QueueOk(t, p, k) {
      assert QueueOk(s, p, k);
      assert Queue(t, p, k) == Queue(s, p, k) + if (p, k) == (r.proc, LockKey(r)) then [i] else [];
      forall a | 0 <= a < |Queue(t, p, k)| ensures Member(t, p, k, Queue(t, p, k)[a]) {
        if a < |Queue(s, p, k)| { assert Member(s, p, k, Queue(s, p, k)[a]); }
      }
      forall a, b | 0 <= a < b < |Queue(t, p, k)| ensures Queue(t, p, k)[a] != Queue(t, p, k)[b] {
        assert Member(s, p, k, Queue(s, p, k)[a]);
      }
    }
  }

  /** The head of a queue leaves it, giving back the shard lock if it had it. */
  lemma DequeueKeepsLocks(v: Server, s: State, i: nat, pc: Pc)
    requires LockInv(v, s) && i < |s.reqs| && Locking(s.reqs[i].pc) && !Locking(pc)
    requires Queue(s, s.reqs[i].proc, LockKey(s.reqs[i])) != [] && Queue(s, s.reqs[i].proc, LockKey(s.reqs[i]))[0] == i
    ensures !s.reqs[i].pc.Inside? ==> LockInv(v, Dequeue(s, i, pc))
    ensures s.reqs[i].pc.Inside? ==>
      LockInv(v, Dequeue(s, i, pc).(shards := s.shards - {v.shard(LockKey(s.reqs[i]))}))
  {
    var r := s.reqs[i];
    var q := Queue(s, r.proc, LockKey(r));
    var t := Dequeue(s, i, pc);
    t := if r.pc.Inside? then t.(shards := s.shards - {v.shard(LockKey(r))}) else t;
    assert QueueOk(s, r.proc, LockKey(r));
    forall k | 0 <= k < |t.reqs| ensures ReqOk(v, t, k) {
      assert ReqOk(v, s, k) && ReqOk(v, s, i);
      var u := s.reqs[k];
      if k != i && Locking(u.pc) && u.proc == r.proc && LockKey(u) == LockKey(r) {
        var a :| 0 <= a < |q| && q[a] == k;
        assert q[1..][a - 1] == k;
      }
    }
    forall p: nat, k ensures QueueOk(t, p, k) {
      assert QueueOk(s, p, k);
      assert Queue(t, p, k) == if (p, k) == (r.proc, LockKey(r)) then q[1..] else Queue(s, p, k);
      forall a | 0 <= a < |Queue(t, p, k)| ensures Member(t, p, k, Queue(t, p, k)[a]) {
        if (p, k) == (r.proc, LockKey(r)) {
          assert Queue(t, p, k)[a] == q[a + 1] && Member(s, p, k, q[a + 1]);
        } else {
          assert Member(s, p, k, Queue(s, p, k)[a]);
        }
      }
    }
    forall x | x in t.shards
      ensures t.shards[x] < |t.reqs| && t.reqs[t.shards[x]].pc.Inside? && v.shard(LockKey(t.reqs[t.shards[x]])) == x
    {
      assert s.shards[x] != i;
    }
  }

  lemma ObtainKeepsLocks(v: Server, s: State, i: nat)
    requires LockInv(v, s) && Enabled(v, s, Obtain(i)) && !s.reqs[i].aborted
    ensures LockInv(v, Step(v, s, Obtain(i)))
  {
    var t := Step(v, s, Obtain(i));
    forall k | 0 <= k < |t.reqs| ensures ReqOk(v, t, k) {
      assert ReqOk(v, s, k);
    }
    forall p: nat, k ensures QueueOk(t, p, k) {
      assert QueueOk(s, p, k);
      assert Queue(t, p, k) == Queue(s, p, k);
      forall a | 0 <= a < |Queue(t, p, k)| ensures Member(t, p, k, Queue(t, p, k)[a]) {
        assert Member(s, p, k, Queue(s, p, k)[a]);
      }
    }
  }

  lemma ArriveKeepsLocks(v: Server, s: State, r: Req)
    requires LockInv(v, s) && r.pc == Start
    ensures LockInv(v, s.(reqs := s.reqs + [r]))
  {
    var t := s.(reqs := s.reqs + [r]);
    forall k | 0 <= k < |t.reqs| ensures ReqOk(v, t, k) {
      if k < |s.reqs| { assert ReqOk(v, s, k); }
    }
    forall p: nat, k ensures QueueOk(t, p, k) {
      assert QueueOk(s, p, k);
      assert Queue(t, p, k) == Queue(s, p, k);
      forall a | 0 <= a < |Queue(t, p, k)| ensures Member(t, p, k, Queue(t, p, k)[a]) {
        assert Member(s, p, k, Queue(s, p, k)[a]);
      }
    }
  }

  lemma StepKeepsLocks(v: Server, s: State, e: Event)
    requires LockInv(v, s) && Enabled(v, s, e)
    ensures LockInv(v, Step(v, s, e))
  {
    match e {
      case Arrive(r) => ArriveKeepsLocks(v, s, r);
      case Abort(i) =>
        assert ReqOk(v, s, i);
        GotoKeepsLocks(v, s, i, s.reqs[i].(aborted := true));
      case Check(i) => CheckKeepsLocks(v, s, i);
      case Turn(i) =>
        if s.reqs[i].aborted { DequeueKeepsLocks(v, s, i, Done); }
        else { GotoKeepsLocks(v, s, i, s.reqs[i].(pc := AtShard(s.reqs[i].pc.job))); }
      case Obtain(i) =>
        assert ReqOk(v, s, i);
        if s.reqs[i].aborted { DequeueKeepsLocks(v, s, i, Done); } else { ObtainKeepsLocks(v, s, i); }
      case GiveUp(i) =>
        assert ReqOk(v, s, i);
        DequeueKeepsLocks(v, s, i, Done);
      case Leave(i) =>
        assert ReqOk(v, s, i);
        DequeueKeepsLocks(v, s, i, if s.reqs[i].pc.job == Body || s.reqs[i].pc.stage.ok then Handler else Done);
      case Lock(i) => EnterKeepsLocks(v, s, i, Body);
      case Write(i) => NamespacesDoNotMatter(v, s, Step(v, s, e));
      case Reserve(i, created, failed) =>
        var t := Step(v, s, e);
        GotoKeepsLocks(v, s, i, t.reqs[i]);
        NamespacesDoNotMatter(v, s.(reqs := s.reqs[i := t.reqs[i]]), t);
      case _ => GotoKeepsLocks(v, s, e.id, Step(v, s, e).reqs[e.id]);
    }
  }

  lemma CheckKeepsLocks(v: Server, s: State, i: nat)
    requires LockInv(v, s) && Enabled(v, s, Check(i))
    ensures LockInv(v, Step(v, s, Check(i)))
  {
    var t := Step(v, s, Check(i));
    if t.reqs[i].pc.Queued? { EnterKeepsLocks(v, s, i, Admit); } else { GotoKeepsLocks(v, s, i, t.reqs[i]); }
  }

  lemma NamespacesDoNotMatter(v: Server, s: State, t: State)
    requires LockInv(v, s) && t == s.(namespaces := t.namespaces)
    ensures LockInv(v, t)
  {
    forall k | 0 <= k < |t.reqs| ensures ReqOk(v, t, k) { assert ReqOk(v, s, k); }
    forall p: nat, k ensures QueueOk(t, p, k) {
      assert QueueOk(s, p, k);
      assert Queue(t, p, k) == Queue(s, p, k);
      forall a | 0 <= a < |Queue(t, p, k)| ensures Member(t, p, k, Queue(t, p, k)[a]) {
        assert Member(s, p, k, Queue(s, p, k)[a]);
      }
    }
  }

  /** At most one request, over all processes, is inside a lock key. */
  lemma InsideIsExclusive(v: Server, s: State, i: nat, j: nat)
    requires LockInv(v, s) && i < |s.reqs| && j < |s.reqs|
    requires s.reqs[i].pc.Inside? && s.reqs[j].pc.Inside? && LockKey(s.reqs[i]) == LockKey(s.reqs[j])
    ensures i == j
  {
    assert ReqOk(v, s, i) && ReqOk(v, s, j);
  }

  /** A request that holds a shard lock waits for nothing: there is no hold-and-wait. */
  lemma HoldersDoNotWait(v: Server, s: State, x: int)
    requires LockInv(v, s) && x in s.shards
    ensures s.shards[x] < |s.reqs|
    ensures !s.reqs[s.shards[x]].pc.Queued? && !s.reqs[s.shards[x]].pc.AtShard?
  {
  }

  /** Each process serves a lock key in the order of the calls. */
  lemma QueuesAreFifo(v: Server, s: State, e: Event, p: nat, k: Key)
    requires Enabled(v, s, e)
    ensures var q, q' := Queue(s, p, k), Queue(Step(v, s, e), p, k);
      q' == q || (q != [] && q' == q[1..]) || (!e.Arrive? && q' == q + [e.id])
  {
  }

  predicate Progress(e: Event) {
    !e.Arrive? && !e.Abort? && !e.GiveUp?
  }

  /** A step that is not asked for anew: no arrival, no abort, and no handler that takes its lock or writes again. */
  predicate Serving(e: Event) {
    !e.Arrive? && !e.Abort? && !e.Lock? && !e.Write?
  }

  /** What a request inside its locks does next. */
  function Inward(s: State, i: nat): (e: Event)
    requires i < |s.reqs| && s.reqs[i].pc.Inside?
    ensures Progress(e) && Serving(e) && e.id == i
  {
    var pc := s.reqs[i].pc;
    if pc.stage.Finishing? then Leave(i)
    else if pc.job == Body then BodyDone(i)
    else if pc.stage == Entered then Recheck(i)
    else Reserve(i, true, false)
  }

  /**
   * Deadlock freedom: behind every waiting request stands one that can make progress, be it
   * the request itself, the head of its queue, or the holder of the shard that head waits
   * for.  Any two lock keys may share a shard.
   */
  lemma WaitersAreServed(v: Server, s: State, i: nat) returns (e: Event, head: nat)
    requires LockInv(v, s) && i < |s.reqs| && (s.reqs[i].pc.Queued? || s.reqs[i].pc.AtShard?)
    ensures Enabled(v, s, e) && Progress(e) && Serving(e)
    ensures head < |s.reqs| && Locking(s.reqs[head].pc)
    ensures Queue(s, s.reqs[i].proc, LockKey(s.reqs[i])) != []
      && head == Queue(s, s.reqs[i].proc, LockKey(s.reqs[i]))[0]
    ensures e.id == head || (v.shard(LockKey(s.reqs[head])) in s.shards && e.id == s.shards[v.shard(LockKey(s.reqs[head]))])
  {
    assert ReqOk(v, s, i);
    var q := Queue(s, s.reqs[i].proc, LockKey(s.reqs[i]));
    assert QueueOk(s, s.reqs[i].proc, LockKey(s.reqs[i]));
    head := q[0];
    assert Member(s, s.reqs[i].proc, LockKey(s.reqs[i]), q[0]);
    if s.reqs[head].pc.Inside? {
      e := Inward(s, head);
    } else if s.reqs[head].pc.Queued? {
      e := Turn(head);
    } else {
      var x := v.shard(LockKey(s.reqs[head]));
      e := if x in s.shards then Inward(s, s.shards[x]) else Obtain(head);
    }
  }

  // ---- every request gets through ----

  function PcRank(pc: Pc): nat {
    match pc
    case Start => 7
    case Queued(_) => 6
    case AtShard(_) => 5
    case Inside(_, Entered) => 4
    case Inside(_, Checked) => 3
    case Inside(_, Finishing(_)) => 2
    case Handler => 1
    case Done => 0
  }

  function Rank(reqs: seq<Req>): nat {
    if reqs == [] then 0 else Rank(reqs[..|reqs| - 1]) + PcRank(reqs[|reqs| - 1].pc)
  }

  lemma {:induction false} RankOfUpdate(reqs: seq<Req>, i: nat, r: Req)
    requires i < |reqs|
    ensures Rank(reqs[i := r]) == Rank(reqs) - PcRank(reqs[i].pc) + PcRank(r.pc)
  {
    var n := |reqs| - 1;
    if i < n {
      RankOfUpdate(reqs[..n], i, r);
      assert reqs[i := r][..n] == reqs[..n][i := r];
    } else {
      assert reqs[i := r][..n] == reqs[..n];
    }
  }

  lemma OwnRankDrops(v: Server, s: State, e: Event)
    requires Enabled(v, s, e) && Serving(e)
    ensures e.id < |s.reqs| == |Step(v, s, e).reqs| && PcRank(Step(v, s, e).reqs[e.id].pc) < PcRank(s.reqs[e.id].pc)
  {
    hide Queue, LockKey, Guarded, Writes, Reserves, WriteAllowed;
  }

  /** Each of these steps takes its request nearer to its end, so only finitely many can follow. */
  lemma StepLowersRank(v: Server, s: State, e: Event)
    requires Enabled(v, s, e) && Serving(e)
    ensures Rank(Step(v, s, e).reqs) < Rank(s.reqs)
  {
    OwnRankDrops(v, s, e);
    forall k | 0 <= k < |s.reqs| && k != e.id ensures Step(v, s, e).reqs[k] == s.reqs[k] { OtherRequests(v, s, e, k); }
    hide Step, Enabled, PcRank, Rank;
    var t := Step(v, s, e).reqs;
    assert t == s.reqs[e.id := t[e.id]];
    RankOfUpdate(s.reqs, e.id, t[e.id]);
  }

  /** Whoever is not done has a step of progress that leads on, its own or that of the request it waits for. */
  lemma UnfinishedIsServed(v: Server, s: State, i: nat) returns (e: Event)
    requires LockInv(v, s) && i < |s.reqs| && s.reqs[i].pc != Done
    ensures Enabled(v, s, e) && Serving(e) && Progress(e)
  {
    match s.reqs[i].pc
    case Start => e := Check(i);
    case Handler => e := Finish(i);
    case Inside(_, _) => e := Inward(s, i);
    case _ =>
      var head;
      e, head := WaitersAreServed(v, s, i);
  }

  ghost predicate AllDone(s: State) {
    forall i | 0 <= i < |s.reqs| :: s.reqs[i].pc == Done
  }

  lemma NobodyWaits(s: State, p: nat, k: Key, i: nat)
    requires AllDone(s)
    ensures !Member(s, p, k, i)
  {
  }

  /** When nobody has a step left, every request is done and every lock is free. */
  lemma DoneMeansFree(v: Server, s: State)
    requires LockInv(v, s) && AllDone(s)
    ensures s.shards == map[] && forall p: nat, k: Key :: Queue(s, p, k) == []
  {
    assert forall x :: x !in s.shards;
    forall p: nat, k: Key ensures Queue(s, p, k) == [] {
      var q := Queue(s, p, k);
      NobodyWaits(s, p, k, if q == [] then 0 else q[0]);
      assert QueueOk(s, p, k);
    }
  }

  /**
   * Any state can run to the end without anybody giving up: all requests are done, all locks
   * free.  Whichever of these steps are taken, StepLowersRank says that they come to an end.
   */
  lemma {:induction false} EveryRequestGetsThrough(v: Server, s: State) returns (events: seq<Event>, t: State)
    requires LockInv(v, s)
    ensures Run(v, s, events) == Some(t) && (forall e | e in events :: Serving(e) && Progress(e)) && |events| <= Rank(s.reqs)
    ensures LockInv(v, t) && AllDone(t) && |t.reqs| == |s.reqs|
    ensures t.shards == map[] && forall p: nat, k: Key :: Queue(t, p, k) == []
    decreases Rank(s.reqs)
  {
    if AllDone(s) {
      DoneMeansFree(v, s);
      return [], s;
    }
    var i :| 0 <= i < |s.reqs| && s.reqs[i].pc != Done;
    var e := UnfinishedIsServed(v, s, i);
    StepKeepsLocks(v, s, e);
    StepLowersRank(v, s, e);
    var rest;
    rest, t := EveryRequestGetsThrough(v, Step(v, s, e));
    events := [e] + rest;
    assert events[1..] == rest;
  }

  // ---- the namespace cap ----

  /** Every route that may write a namespace's files admits and reserves the namespace first. */
  lemma WritersAreAdmitted(c: Config, m: Method)
    requires Writes(c, m)
    ensures Guarded(c, m) && Reserves(c)
  {
  }

  predicate PastAdmission(pc: Pc) {
    pc == Handler || (Locking(pc) && pc.job == Body) || pc == Inside(Admit, Finishing(true))
  }

  predicate CapReq(v: Server, s: State, i: nat)
    requires i < |s.reqs|
  {
    var r := s.reqs[i];
    && (r.pc == Inside(Admit, Checked) ==> WriteAllowed(v, s, r.ns))
    && (PastAdmission(r.pc) && Writes(r.config, r.verb) ==> r.ns in s.namespaces)
  }

  ghost predicate CapInv(v: Server, s: State, bound: int) {
    && v.cap <= bound && |s.namespaces| <= bound
    && (forall i | 0 <= i < |s.reqs| :: CapReq(v, s, i))
  }

  lemma AddOne<T>(s: set<T>, x: T)
    ensures x !in s ==> |s + {x}| == |s| + 1
    ensures x in s ==> s + {x} == s
  {
  }

  /** The request that makes the step keeps its own part of the invariant. */
  lemma OwnCap(v: Server, s: State, e: Event)
    requires Enabled(v, s, e) && !e.Arrive? && CapReq(v, s, e.id)
    ensures e.id < |Step(v, s, e).reqs| && CapReq(v, Step(v, s, e), e.id)
  {
    hide Queue, LockKey, Guarded, Writes, Reserves;
    if Writes(s.reqs[e.id].config, s.reqs[e.id].verb) { WritersAreAdmitted(s.reqs[e.id].config, s.reqs[e.id].verb); }
  }

  /** Namespaces are added only by an admitted reservation, within the cap. */
  lemma NamespacesGrow(v: Server, s: State, e: Event)
    requires Enabled(v, s, e) && (!e.Arrive? ==> CapReq(v, s, e.id))
    ensures s.namespaces <= Step(v, s, e).namespaces
    ensures Step(v, s, e).namespaces != s.namespaces ==>
      e.Reserve? && |s.namespaces| < v.cap && |Step(v, s, e).namespaces| == |s.namespaces| + 1
  {
    if !e.Arrive? { AddOne(s.namespaces, s.reqs[e.id].ns); }
  }

  /** Only the request that makes the step changes. */
  lemma OtherRequests(v: Server, s: State, e: Event, k: nat)
    requires Enabled(v, s, e) && k < |s.reqs| && (e.Arrive? || e.id != k)
    ensures k < |Step(v, s, e).reqs| && Step(v, s, e).reqs[k] == s.reqs[k]
    ensures |Step(v, s, e).reqs| == |s.reqs| + (if e.Arrive? then 1 else 0)
  {
  }

  lemma StepKeepsCap(v: Server, s: State, e: Event, bound: int)
    requires LockInv(v, s) && CapInv(v, s, bound) && Enabled(v, s, e)
    ensures CapInv(v, Step(v, s, e), bound) && s.namespaces <= Step(v, s, e).namespaces
  {
    var t := Step(v, s, e);
    NamespacesGrow(v, s, e);
    forall k | 0 <= k < |t.reqs| ensures CapReq(v, t, k) {
      if e.Arrive? && k == |s.reqs| {
      } else if !e.Arrive? && e.id == k {
        OwnCap(v, s, e);
      } else {
        OtherRequests(v, s, e, k);
        assert CapReq(v, s, k);
        if s.reqs[k].pc == Inside(Admit, Checked) && e.Reserve? {
          InsideIsExclusive(v, s, k, e.id);
        }
      }
    }
  }

  lemma {:induction false} RunKeepsAll(v: Server, s: State, events: seq<Event>, bound: int)
    requires LockInv(v, s) && CapInv(v, s, bound) && Run(v, s, events).Some?
    ensures var t := Run(v, s, events).value;
      LockInv(v, t) && CapInv(v, t, bound) && s.namespaces <= t.namespaces
    decreases |events|
  {
    if events != [] {
      StepKeepsLocks(v, s, events[0]);
      StepKeepsCap(v, s, events[0], bound);
      RunKeepsAll(v, Step(v, s, events[0]), events[1..], bound);
    }
  }

  /**
   * Over every interleaving of any requests of any processes, the namespaces never outgrow
   * the larger of the initial count and the cap, and none is lost.  A cap of zero or less
   * admits nothing new.
   */
  lemma NamespaceCap(v: Server, namespaces: set<Key>, events: seq<Event>)
    requires Run(v, Initial(namespaces), events).Some?
    ensures var t := Run(v, Initial(namespaces), events).value;
      && LockInv(v, t)
      && namespaces <= t.namespaces
      && |t.namespaces| <= (if v.cap > |namespaces| then v.cap else |namespaces|)
      && (v.cap <= |namespaces| ==> t.namespaces == namespaces)
  {
    var bound := if v.cap > |namespaces| then v.cap else |namespaces|;
    assert LockInv(v, Initial(namespaces));
    RunKeepsAll(v, Initial(namespaces), events, bound);
    var t := Run(v, Initial(namespaces), events).value;
    if v.cap <= |namespaces| { SubsetOfSameSize(namespaces, t.namespaces); }
  }

  lemma SubsetOfSameSize<T>(a: set<T>, b: set<T>)
    requires a <= b && |b| <= |a|
    ensures a == b
  {
    assert b == a + (b - a) && |b| == |a| + |b - a|;
  }

  // ---- counting the namespaces of a directory ----

  datatype Kind = FileEntry | DirectoryEntry | OtherEntry

  datatype Dirent = Dirent(name: string, kind: Kind)

  predicate IsTokenKey(k: string) {
    |k| == 64 && forall c | c in k :: 'a' <= c <= 'f' || '0' <= c <= '9'
  }

  /** The namespace an entry is counted for. */
  function CountedFor(e: Dirent): Option<Key> {
    match e.kind
    case FileEntry =>
      if |e.name| == 69 && IsTokenKey(e.name[..64]) && e.name[64..] == ".json" then Some(e.name[..64]) else None
    case DirectoryEntry => if IsTokenKey(e.name) then Some(e.name) else None
    case OtherEntry => None
  }

  ghost function TokenNamespaces(entries: seq<Dirent>): set<Key> {
    set e | e in entries && CountedFor(e).Some? :: CountedFor(e).value
  }

  predicate NamespaceExists(entries: seq<Dirent>, key: Key) {
    exists e :: e in entries && (e.name == key + ".json" || e.name == key)
  }

  method CountTokenNamespaces(entries: seq<Dirent>) returns (n: nat)
    ensures n == |TokenNamespaces(entries)|
  {
    var namespaces: set<Key> := {};
    for i := 0 to |entries|
      invariant namespaces == TokenNamespaces(entries[..i])
    {
      var counted := CountedFor(entries[i]);
      assert entries[..i + 1] == entries[..i] + [entries[i]];
      if counted.Some? {
        namespaces := namespaces + {counted.value};
      }
    }
    assert entries[..|entries|] == entries;
    n := |namespaces|;
  }

  /**
   * A namespace exists but is not counted exactly when every entry that bears its name is of
   * the wrong kind, such as a symbolic link.
   */
  lemma ExistsButNotCounted(entries: seq<Dirent>, key: Key)
    requires IsTokenKey(key)
    ensures key in TokenNamespaces(entries) ==> NamespaceExists(entries, key)
    ensures NamespaceExists(entries, key) && key !in TokenNamespaces(entries) <==>
      && NamespaceExists(entries, key)
      && (forall e | e in entries && e.name == key + ".json" :: !e.kind.FileEntry?)
      && (forall e | e in entries && e.name == key :: !e.kind.DirectoryEntry?)
  {
    forall e | e in entries && e.name == key + ".json" && e.kind.FileEntry?
      ensures key in TokenNamespaces(entries)
    {
      assert e.name[..64] == key && CountedFor(e) == Some(key);
    }
    forall e | e in entries && e.name == key && e.kind.DirectoryEntry? ensures key in TokenNamespaces(entries) {
      assert CountedFor(e) == Some(key);
    }
    forall e | e in entries && CountedFor(e) == Some(key)
      ensures (e.name == key + ".json" && e.kind.FileEntry?) || (e.name == key && e.kind.DirectoryEntry?)
    {
      if e.kind.FileEntry? { assert e.name == e.name[..64] + e.name[64..]; }
    }
  }
}
