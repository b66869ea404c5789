/**
 * The auth-failure throttle of the MCP server (apps/mcp-server/src/http-server.ts): one call
 * counts a failure under each of several keys.
 */
module AuthThrottle {
  import opened Options
  import opened InsertionMaps

  const WINDOW_MS := 60000
  const RATE_MAX := 30
  const MAX_KEYS := 5000

  datatype Window = Window(count: nat, resetAt: int)

  type Windows = OMap<string, Window>

  // ---- what one key of a call does ----

  /** The window of a key after one more failure. */
  function Next(w: Option<Window>, now: int): Window {
    if w.Some? && now < w.value.resetAt then Window(w.value.count + 1, w.value.resetAt) else Window(1, now + WINDOW_MS)
  }

  function Lookup(s: Windows, key: string): Option<Window> {
    if s.Has(key) then Some(s.Get(key)) else None
  }

  /** The keys whose window has passed. */
  function Over(s: Windows, now: int): set<string> {
    set k | k in s.vals && now > s.vals[k].resetAt
  }

  /** Windows that have passed go first; if that is not enough, the first-inserted key goes. */
  function MadeRoom(s: Windows, now: int): (r: Windows)
    requires s.Valid()
    ensures r.Valid() && r.Size() <= s.Size()
  {
    s.RemoveAllIsValid(Over(s, now));
    var p := s.RemoveAll(Over(s, now));
    if p.Size() >= MAX_KEYS then p.RemoveIsValid(p.keys[0]); p.Remove(p.keys[0]) else p
  }

  function Counted(s: Windows, key: string, now: int): (r: Windows)
    requires s.Valid()
    ensures r.Valid()
  {
    (if !s.Has(key) && s.Size() >= MAX_KEYS then MadeRoom(s, now) else s).Put(key, Next(Lookup(s, key), now))
  }

  function CountedAll(s: Windows, keys: seq<string>, now: int): (r: Windows)
    requires s.Valid()
    ensures r.Valid()
  {
    if keys == [] then s else Counted(CountedAll(s, keys[..|keys| - 1], now), keys[|keys| - 1], now)
  }

  /** The window of the i-th key just after it was counted. */
  function WindowOf(s: Windows, keys: seq<string>, i: nat, now: int): Window
    requires s.Valid() && i < |keys|
  {
    Next(Lookup(CountedAll(s, keys[..i], now), keys[i]), now)
  }

  function Seconds(w: Window, now: int): int {
    (w.resetAt - now + 999) / 1000
  }

  /** The answer to a call: the longest wait among the keys over the limit. */
  ghost predicate IsAnswer(s: Windows, keys: seq<string>, n: nat, now: int, answer: Option<int>)
    requires s.Valid() && n <= |keys|
  {
    && (answer.None? <==> forall i | 0 <= i < n :: WindowOf(s, keys, i, now).count <= RATE_MAX)
    && (answer.Some? ==>
      && (exists i | 0 <= i < n ::
        WindowOf(s, keys, i, now).count > RATE_MAX && answer.value == Seconds(WindowOf(s, keys, i, now), now))
      && (forall i | 0 <= i < n && WindowOf(s, keys, i, now).count > RATE_MAX ::
        Seconds(WindowOf(s, keys, i, now), now) <= answer.value))
  }

  // ---- the throttle ----

  lemma AnswerStep(s: Windows, keys: seq<string>, i: nat, now: int, answer: Option<int>)
    requires s.Valid() && i < |keys| && IsAnswer(s, keys, i, now, answer)
    requires answer.Some? ==> answer.value >= 0
    ensures var w := WindowOf(s, keys, i, now);
      IsAnswer(s, keys, i + 1, now, if w.count <= RATE_MAX then answer
        else if answer.Some? && answer.value > Seconds(w, now) then answer else Some(Seconds(w, now)))
  {
    hide WindowOf, Seconds;
    var w := WindowOf(s, keys, i, now);
    if answer.Some? {
      var j :| 0 <= j < i && WindowOf(s, keys, j, now).count > RATE_MAX && answer.value == Seconds(WindowOf(s, keys, j, now), now);
      assert 0 <= j < i + 1;
    }
    assert 0 <= i < i + 1 && WindowOf(s, keys, i, now) == w;
  }

  class Throttle {
    var windows: Windows

    constructor ()
      ensures windows == Empty()
    {
      windows := Empty();
    }

    method Prune(now: int)
      requires windows.Valid()
      modifies this
      ensures windows.Valid() && windows == old(windows).RemoveAll(Over(old(windows), now))
    {
      ghost var s0, over := windows, Over(windows, now);
      var candidates := windows.keys;
      s0.RemoveStart(over);
      for i := 0 to |candidates|
        invariant windows.Valid() && windows == s0.RemoveAll(s0.Among(i, over))
      {
        s0.RemoveStep(windows, i, over);
        if now > windows.Get(candidates[i]).resetAt {
          windows.RemoveIsValid(candidates[i]);
          windows := windows.Remove(candidates[i]);
        }
      }
      s0.RemoveEnd(over);
    }

    /** Counts one failure under one key. */
    method CountFailure(key: string, now: int) returns (window: Window)
      requires windows.Valid()
      modifies this
      ensures windows.Valid() && windows == Counted(old(windows), key, now)
      ensures window == Next(Lookup(old(windows), key), now)
    {
      var opens := !windows.Has(key) || now >= windows.Get(key).resetAt;
      window := if opens then Window(1, now + WINDOW_MS) else windows.Get(key).(count := windows.Get(key).count + 1);
      if !windows.Has(key) && windows.Size() >= MAX_KEYS {
        Prune(now);
        if windows.Size() >= MAX_KEYS {
          windows.RemoveIsValid(windows.keys[0]);
          windows := windows.Remove(windows.keys[0]);
        }
      }
      windows.PutIsValid(key, window);
      windows := windows.Put(key, window);
    }

    /** Counts a failure under each key; the seconds to wait when some key is over the limit. */
    method CountFailures(keys: seq<string>, now: int) returns (retryAfterSeconds: Option<int>)
      requires windows.Valid()
      modifies this
      ensures windows.Valid() && windows == CountedAll(old(windows), keys, now)
      ensures IsAnswer(old(windows), keys, |keys|, now, retryAfterSeconds)
    {
      retryAfterSeconds := None;
      ghost var s0 := windows;
      for i := 0 to |keys|
        invariant windows.Valid() && windows == CountedAll(s0, keys[..i], now)
        invariant IsAnswer(s0, keys, i, now, retryAfterSeconds)
        invariant retryAfterSeconds.Some? ==> retryAfterSeconds.value >= 0
      {
        assert keys[..i + 1][..i] == keys[..i];
        AnswerStep(s0, keys, i, now, retryAfterSeconds);
        var window := CountFailure(keys[i], now);
        if window.count > RATE_MAX {
          var floor := if retryAfterSeconds.Some? then retryAfterSeconds.value else 0;
          var seconds := Seconds(window, now);
          retryAfterSeconds := Some(if floor > seconds then floor else seconds);
        }
      }
      assert keys[..|keys|] == keys;
    }
  }

  // ---- the bound on keys ----

  /** No call takes the throttle over its bound, whatever the keys. */
  lemma {:induction false} StaysBounded(s: Windows, keys: seq<string>, now: int)
    requires s.Valid() && s.Size() <= MAX_KEYS
    ensures CountedAll(s, keys, now).Size() <= MAX_KEYS
  {
    if keys != [] {
      StaysBounded(s, keys[..|keys| - 1], now);
      BoundedStep(CountedAll(s, keys[..|keys| - 1], now), keys[|keys| - 1], now);
    }
  }

  lemma BoundedStep(s: Windows, key: string, now: int)
    requires s.Valid() && s.Size() <= MAX_KEYS
    ensures Counted(s, key, now).Size() <= MAX_KEYS
    ensures s.Size() < MAX_KEYS || s.Has(key) ==> forall k | s.Has(k) :: Counted(s, key, now).Has(k)
  {
    s.RemoveAllIsValid(Over(s, now));
    var p := s.RemoveAll(Over(s, now));
    if p.Size() >= MAX_KEYS { p.RemoveIsValid(p.keys[0]); }
  }

  ghost predicate IsOldest(s: Windows, key: string)
    requires s.Has(key)
  {
    forall k | s.Has(k) :: s.Get(key).resetAt <= s.Get(k).resetAt
  }

  /** What a new key costs a full throttle in which no window has passed: the first-inserted key alone. */
  lemma FullThrottleDropsFirst(s: Windows, key: string, now: int)
    requires s.Valid() && s.Size() == MAX_KEYS && !s.Has(key)
    requires forall k | s.Has(k) :: now <= s.Get(k).resetAt
    ensures Counted(s, key, now) == s.Remove(s.keys[0]).Put(key, Window(1, now + WINDOW_MS))
    ensures forall k | s.Has(k) && k != s.keys[0] :: Lookup(Counted(s, key, now), k) == Lookup(s, k)
  {
    assert Over(s, now) == {} by { assert forall k | k in s.vals :: s.Has(k); }
    s.RemoveAllOfNone();
  }

  /** The key that goes is one of the oldest windows exactly when the first-inserted key is. */
  lemma DropsOldestExactlyWhen(s: Windows, key: string, now: int)
    requires s.Valid() && s.Size() == MAX_KEYS && !s.Has(key)
    requires forall k | s.Has(k) :: now <= s.Get(k).resetAt
    ensures exists d :: s.Has(d) && !Counted(s, key, now).Has(d)
    ensures (forall d | s.Has(d) && !Counted(s, key, now).Has(d) :: IsOldest(s, d)) <==> IsOldest(s, s.keys[0])
  {
    FullThrottleDropsFirst(s, key, now);
    var first := s.keys[0];
    assert first in s.keys;
    assert s.Has(first) && !Counted(s, key, now).Has(first);
  }

  // ---- runs of calls, against one window per key ----

  datatype Failure = Failure(key: string, at: int)

  function RunTo(failures: seq<Failure>): (s: Windows)
    ensures s.Valid()
  {
    if failures == [] then Empty()
    else var f := failures[|failures| - 1]; Counted(RunTo(failures[..|failures| - 1]), f.key, f.at)
  }

  /** The window a key's own failures make, with no bound on keys. */
  function WindowAfter(failures: seq<Failure>, key: string): Option<Window> {
    if failures == [] then None
    else
      var f := failures[|failures| - 1];
      var w := WindowAfter(failures[..|failures| - 1], key);
      if f.key == key then Some(Next(w, f.at)) else w
  }

  function KeysOf(failures: seq<Failure>): set<string> {
    set f | f in failures :: f.key
  }

  lemma KeysOfSnoc(before: seq<Failure>, f: Failure)
    ensures KeysOf(before + [f]) == KeysOf(before) + {f.key}
  {
    assert forall x | x in before :: x in before + [f];
    assert (before + [f])[|before|] == f;
  }

  /** As long as the keys seen fit, every key has exactly the window its own failures make. */
  lemma {:induction false} ThrottleRefines(failures: seq<Failure>)
    requires |KeysOf(failures)| <= MAX_KEYS
    ensures RunTo(failures).vals.Keys == KeysOf(failures)
    ensures forall key :: Lookup(RunTo(failures), key) == WindowAfter(failures, key)
  {
    if failures != [] {
      var before, f := failures[..|failures| - 1], failures[|failures| - 1];
      assert failures == before + [f];
      KeysOfSnoc(before, f);
      SubsetIsNoLarger(KeysOf(before), KeysOf(failures));
      ThrottleRefines(before);
      var s := RunTo(before);
      s.SizeIsCard();
      assert s.Has(f.key) || s.Size() < MAX_KEYS;
    }
  }

  /** The failures of one call. */
  function Call(keys: seq<string>, now: int): seq<Failure> {
    if keys == [] then [] else Call(keys[..|keys| - 1], now) + [Failure(keys[|keys| - 1], now)]
  }

  /** A call with several keys is a run of its failures, one after the other. */
  lemma {:induction false} CallIsRun(failures: seq<Failure>, keys: seq<string>, now: int)
    ensures CountedAll(RunTo(failures), keys, now) == RunTo(failures + Call(keys, now))
  {
    if keys == [] {
      assert failures + [] == failures;
    } else {
      var n := |keys| - 1;
      CallIsRun(failures, keys[..n], now);
      var before, f := failures + Call(keys[..n], now), Failure(keys[n], now);
      assert failures + Call(keys, now) == before + [f];
      assert (before + [f])[..|before|] == before;
    }
  }

  // ---- a run in which the youngest window is dropped ----

  /** The keys of the run: the first, the others by their length, and the one too many. */
  const FIRST: string := "first"
  const LATE: string := "late"

  function Other(n: nat): (key: string)
    ensures key != FIRST && key != LATE && |key| == n + 1
  {
    var key: string := seq(n + 1, _ => 'a');
    assert key[0] == 'a' && FIRST[0] == 'f' && LATE[0] == 'l';
    key
  }

  /** The first key at time 0, and `n` others just before its window passes. */
  function Filling(n: nat): seq<Failure> {
    if n == 0 then [Failure(FIRST, 0)] else Filling(n - 1) + [Failure(Other(n - 1), 59999)]
  }

  ghost predicate Filled(s: Windows, n: nat, first: Window) {
    && s.Valid() && s.Size() == n + 1 && s.keys[0] == FIRST && s.Has(FIRST) && s.Get(FIRST) == first
    && forall k | s.Has(k) && k != FIRST :: k != LATE && |k| <= n && s.Get(k) == Window(1, 119999)
  }

  lemma RunToSnoc(before: seq<Failure>, f: Failure)
    ensures RunTo(before + [f]) == Counted(RunTo(before), f.key, f.at)
  {
    assert (before + [f])[..|before|] == before;
  }

  lemma FirstFills()
    ensures Filled(RunTo([] + [Failure(FIRST, 0)]), 0, Window(1, 60000))
  {
    RunToSnoc([], Failure(FIRST, 0));
    var s: Windows := Empty();
    assert Counted(s, FIRST, 0) == s.Put(FIRST, Window(1, 60000));
  }

  lemma FillOne(before: seq<Failure>, n: nat)
    requires Filled(RunTo(before), n, Window(1, 60000)) && n + 1 < MAX_KEYS
    ensures Filled(RunTo(before + [Failure(Other(n), 59999)]), n + 1, Window(1, 60000))
  {
    var s, key := RunTo(before), Other(n);
    RunToSnoc(before, Failure(key, 59999));
    assert !s.Has(key);
    assert Counted(s, key, 59999) == s.Put(key, Window(1, 119999));
  }

  lemma {:induction false} FillingFills(n: nat, run: seq<Failure>)
    requires n < MAX_KEYS && run == Filling(n)
    ensures Filled(RunTo(run), n, Window(1, 60000))
  {
    if n == 0 {
      FirstFills();
      assert run == [] + [Failure(FIRST, 0)];
    } else {
      var m, before := n - 1, Filling(n - 1);
      FillingFills(m, before);
      FillOne(before, m);
      assert run == before + [Failure(Other(m), 59999)];
    }
  }

  /** The first key of a throttle is renewed when its window has passed. */
  function RenewedRun(n: nat): seq<Failure> {
    Filling(n) + [Failure(FIRST, 60000)]
  }

  lemma RenewedFills(n: nat)
    requires n < MAX_KEYS
    ensures Filled(RunTo(RenewedRun(n)), n, Window(1, 120000))
  {
    FillingFills(n, Filling(n));
    RunToSnoc(Filling(n), Failure(FIRST, 60000));
    var s := RunTo(Filling(n));
    assert Counted(s, FIRST, 60000) == s.Put(FIRST, Window(1, 120000));
  }

  /** When the throttle is full, the next new key drops the renewed one, whose window is the last of all to pass. */
  lemma YoungestIsDropped(n: nat)
    requires n + 1 == MAX_KEYS
    ensures var s, r := RunTo(RenewedRun(n)), RunTo(RenewedRun(n) + [Failure(LATE, 60001)]);
      && s.Size() == MAX_KEYS && s.Has(FIRST) && s.Get(FIRST) == Window(1, 120000) && !r.Has(FIRST)
      && forall k | s.Has(k) && k != FIRST :: s.Get(k) == Window(1, 119999) && r.Has(k)
  {
    RenewedFills(n);
    RunToSnoc(RenewedRun(n), Failure(LATE, 60001));
    OthersStay(RunTo(RenewedRun(n)));
  }

  lemma OthersStay(s: Windows)
    requires Filled(s, MAX_KEYS - 1, Window(1, 120000))
    ensures var r := Counted(s, LATE, 60001);
      !r.Has(FIRST) && forall k | s.Has(k) && k != FIRST :: r.Has(k) && r.Get(k) == Window(1, 119999)
  {
    FullThrottleDropsFirst(s, LATE, 60001);
    assert FIRST != LATE;
  }
}
