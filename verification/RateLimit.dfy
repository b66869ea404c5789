/**
 * The fixed-window rate limiter (apps/cloud/src/server-rate-limit.ts).
 *
 * The limiter is a class over one insertion-ordered map; its methods are proved against
 * functions on that map, and runs of those functions against a reference that keeps, for
 * each key, nothing but the window its own hits opened.
 */
module RateLimit {
  import opened Options
  import opened InsertionMaps

  datatype Window = Window(count: nat, resetAt: int, lastSeenAt: int)

  type States = OMap<string, Window>

  datatype Limits = Limits(windowMs: nat, maxKeys: nat)

  // ---- what the operations compute ----

  /** The keys whose window has passed. */
  function Over(s: States, now: int): set<string> {
    set k | k in s.vals && now > s.vals[k].resetAt
  }

  function Pruned(s: States, now: int): (r: States)
    requires s.Valid()
    ensures r.Valid() && r.Size() <= s.Size()
  {
    s.RemoveAllIsValid(Over(s, now));
    s.RemoveAll(Over(s, now))
  }

  /** Seen longer ago, or as long ago with the earlier end. */
  predicate Older(a: Window, b: Window) {
    a.lastSeenAt < b.lastSeenAt || (a.lastSeenAt == b.lastSeenAt && a.resetAt < b.resetAt)
  }

  /** The least recently used of some keys; the first of equals. */
  function Oldest(keys: seq<string>, vals: map<string, Window>): (r: string)
    requires keys != [] && forall k | k in keys :: k in vals
    ensures r in keys
  {
    var n := |keys| - 1;
    if n == 0 then keys[0]
    else var r := Oldest(keys[..n], vals); if Older(vals[keys[n]], vals[r]) then keys[n] else r
  }

  function Victim(s: States): Option<string>
    requires s.Valid()
  {
    if s.keys == [] then None else Some(Oldest(s.keys, s.vals))
  }

  /** The eviction loop; it gives up on an empty-string key. */
  function Evicted(s: States, maxKeys: nat): (r: States)
    requires s.Valid()
    ensures r.Valid()
    ensures forall k | k in r.vals :: k in s.vals && r.vals[k] == s.vals[k]
    decreases s.Size()
  {
    if s.Size() < maxKeys || Victim(s).None? || Victim(s).value == "" then s
    else
      s.RemoveIsValid(Victim(s).value);
      Evicted(s.Remove(Victim(s).value), maxKeys)
  }

  function RetryAfter(resetAt: int, now: int): int {
    (resetAt - now + 999) / 1000
  }

  /** The new states, and the Retry-After of a refusal. */
  function Checked(l: Limits, s: States, key: string, maxAllowed: int, now: int): (r: (States, Option<int>))
    requires s.Valid()
    ensures r.0.Valid()
  {
    if s.Has(key) && now < s.Get(key).resetAt then
      var w := Window(s.Get(key).count + 1, s.Get(key).resetAt, now);
      (s.Put(key, w), if w.count > maxAllowed then Some(RetryAfter(w.resetAt, now)) else None)
    else
      var room := if !s.Has(key) && s.Size() >= l.maxKeys then Evicted(Pruned(s, now), l.maxKeys) else s;
      (room.Put(key, Window(1, now + l.windowMs, now)), None)
  }

  // ---- the limiter ----

  class RateLimiter {
    const limits: Limits
    var states: States

    constructor (windowMs: nat, maxKeys: nat)
      ensures limits == Limits(windowMs, maxKeys) && states == Empty()
    {
      limits := Limits(windowMs, maxKeys);
      states := Empty();
    }

    method Prune(now: int)
      requires states.Valid()
      modifies this`states
      ensures states.Valid() && states == Pruned(old(states), now)
    {
      ghost var s0, over := states, Over(states, now);
      var entries := states.keys;
      s0.RemoveStart(over);
      for i := 0 to |entries|
        invariant states.Valid() && states == s0.RemoveAll(s0.Among(i, over))
      {
        s0.RemoveStep(states, i, over);
        if now > states.Get(entries[i]).resetAt {
          states.RemoveIsValid(entries[i]);
          states := states.Remove(entries[i]);
        }
      }
      s0.RemoveEnd(over);
    }

    method FindLeastRecentlyUsedKey() returns (oldest: Option<string>)
      requires states.Valid()
      ensures oldest == Victim(states)
    {
      oldest := None;
      for i := 0 to |states.keys|
        invariant oldest == if i == 0 then None else Some(Oldest(states.keys[..i], states.vals))
      {
        var key := states.keys[i];
        assert states.keys[..i + 1][..i] == states.keys[..i];
        if oldest.None? || Older(states.vals[key], states.vals[oldest.value]) {
          oldest := Some(key);
        }
      }
      assert states.keys[..|states.keys|] == states.keys;
    }

    method EnsureCapacity(now: int)
      requires states.Valid()
      modifies this`states
      ensures states.Valid() && states == Evicted(Pruned(old(states), now), limits.maxKeys)
    {
      Prune(now);
      while states.Size() >= limits.maxKeys
        invariant states.Valid()
        invariant Evicted(states, limits.maxKeys) == Evicted(Pruned(old(states), now), limits.maxKeys)
        decreases states.Size()
      {
        var oldest := FindLeastRecentlyUsedKey();
        if oldest.None? || oldest.value == "" { break; }
        states.RemoveIsValid(oldest.value);
        states := states.Remove(oldest.value);
      }
    }

    /** Counts a hit; a refusal carries the seconds to wait. */
    method Check(rateKey: string, maxAllowed: int, now: int) returns (refusal: Option<int>)
      requires states.Valid()
      modifies this`states
      ensures states.Valid()
      ensures (states, refusal) == Checked(limits, old(states), rateKey, maxAllowed, now)
    {
      hide Evicted, Pruned, RetryAfter;
      if states.Has(rateKey) && now < states.Get(rateKey).resetAt {
        var w := states.Get(rateKey);
        var counted := Window(w.count + 1, w.resetAt, now);
        states.PutIsValid(rateKey, counted);
        states := states.Put(rateKey, counted);
        return if counted.count > maxAllowed then Some(RetryAfter(w.resetAt, now)) else None;
      }
      if !states.Has(rateKey) && states.Size() >= limits.maxKeys {
        EnsureCapacity(now);
      }
      states.PutIsValid(rateKey, Window(1, now + limits.windowMs, now));
      states := states.Put(rateKey, Window(1, now + limits.windowMs, now));
      refusal := None;
    }
  }

  // ---- eviction ----

  lemma {:induction false} OldestIsLeast(keys: seq<string>, vals: map<string, Window>)
    requires keys != [] && Distinct(keys) && forall k | k in keys :: k in vals
    ensures forall k | k in keys :: !Older(vals[k], vals[Oldest(keys, vals)])
    ensures forall i, j | 0 <= i < j < |keys| && keys[j] == Oldest(keys, vals) :: Older(vals[keys[j]], vals[keys[i]])
  {
    var n := |keys| - 1;
    if n > 0 {
      OldestIsLeast(keys[..n], vals);
      assert forall k | k in keys :: k in keys[..n] || k == keys[n];
      var r := Oldest(keys[..n], vals);
      forall i, j | 0 <= i < j < |keys| && keys[j] == Oldest(keys, vals)
        ensures Older(vals[keys[j]], vals[keys[i]])
      {
        assert keys[i] in keys[..n];
        if j < n { assert keys[..n][i] == keys[i] && keys[..n][j] == keys[j]; }
      }
    }
  }

  /** No entry is older than the i-th, and none before it is as old. */
  ghost predicate LeastAt(s: States, i: nat)
    requires s.Valid() && i < |s.keys|
  {
    && (forall k | k in s.keys :: !Older(s.vals[k], s.vals[s.keys[i]]))
    && (forall j | 0 <= j < i :: Older(s.vals[s.keys[i]], s.vals[s.keys[j]]))
  }

  /** The entry an eviction removes: least by (lastSeenAt, resetAt), and the earliest inserted of equals. */
  lemma VictimIsLeast(s: States)
    requires s.Valid() && s.keys != []
    ensures exists i | 0 <= i < |s.keys| :: Victim(s) == Some(s.keys[i]) && LeastAt(s, i)
  {
    OldestIsLeast(s.keys, s.vals);
    var i :| 0 <= i < |s.keys| && s.keys[i] == Oldest(s.keys, s.vals);
    assert Victim(s) == Some(s.keys[i]);
  }

  /** Whatever an eviction removes was used no later than whatever it keeps. */
  lemma {:induction false} EvictionSparesTheRecent(s: States, maxKeys: nat, gone: string, kept: string)
    requires s.Valid() && s.Has(gone) && !Evicted(s, maxKeys).Has(gone) && Evicted(s, maxKeys).Has(kept)
    ensures s.Has(kept) && !Older(s.Get(kept), s.Get(gone))
    decreases s.Size()
  {
    var v := Victim(s).value;
    OldestIsLeast(s.keys, s.vals);
    s.RemoveIsValid(v);
    if gone != v {
      EvictionSparesTheRecent(s.Remove(v), maxKeys, gone, kept);
    }
  }

  /** One eviction is enough when the map has not outgrown its bound. */
  lemma OneEviction(p: States, maxKeys: nat)
    requires p.Valid() && p.Size() <= maxKeys && maxKeys >= 1
    ensures Evicted(p, maxKeys).Size() >= maxKeys <==> p.Size() >= maxKeys && Victim(p) == Some("")
    ensures !p.Has("") ==> !Evicted(p, maxKeys).Has("")
  {
    if p.Size() >= maxKeys && Victim(p) != Some("") {
      p.RemoveIsValid(Victim(p).value);
      assert Evicted(p, maxKeys) == p.Remove(Victim(p).value);
    }
  }

  /**
   * When a check lets the map outgrow its bound: exactly when a new key arrives, no window
   * has passed, and the least recently used key is the empty string.
   */
  lemma OutgrowsExactlyWhen(l: Limits, s: States, key: string, maxAllowed: int, now: int)
    requires s.Valid() && s.Size() <= l.maxKeys && l.maxKeys >= 1
    ensures Checked(l, s, key, maxAllowed, now).0.Size() > l.maxKeys <==>
      !s.Has(key) && Pruned(s, now).Size() >= l.maxKeys && Victim(Pruned(s, now)) == Some("")
  {
    OneEviction(Pruned(s, now), l.maxKeys);
    EvictionIsNoLarger(Pruned(s, now), l.maxKeys);
  }

  lemma {:induction false} EvictionIsNoLarger(s: States, maxKeys: nat)
    requires s.Valid()
    ensures Evicted(s, maxKeys).Size() <= s.Size()
    decreases s.Size()
  {
    if s.Size() >= maxKeys && Victim(s).Some? && Victim(s).value != "" {
      s.RemoveIsValid(Victim(s).value);
      EvictionIsNoLarger(s.Remove(Victim(s).value), maxKeys);
    }
  }

  // ---- runs ----

  datatype Event = Hit(key: string, maxAllowed: int, at: int) | PruneAt(at: int)

  function RunFrom(l: Limits, s: States, events: seq<Event>): (r: States)
    requires s.Valid()
    ensures r.Valid()
  {
    if events == [] then s
    else
      var before := RunFrom(l, s, events[..|events| - 1]);
      match events[|events| - 1]
      case Hit(key, maxAllowed, at) => Checked(l, before, key, maxAllowed, at).0
      case PruneAt(at) => Pruned(before, at)
  }

  ghost predicate InOrder(events: seq<Event>) {
    forall i, j | 0 <= i < j < |events| :: events[i].at <= events[j].at
  }

  function KeysHit(events: seq<Event>): set<string> {
    set e | e in events && e.Hit? :: e.key
  }

  lemma KeysHitSnoc(before: seq<Event>, e: Event)
    ensures KeysHit(before + [e]) == KeysHit(before) + if e.Hit? then {e.key} else {}
    ensures |KeysHit(before)| <= |KeysHit(before + [e])|
  {
    assert forall x | x in before :: x in before + [e];
    assert (before + [e])[|before|] == e;
    SubsetIsNoLarger(KeysHit(before), KeysHit(before + [e]));
  }

  /** The last step of a run. */
  lemma RunFromSnoc(l: Limits, s: States, before: seq<Event>, e: Event)
    requires s.Valid()
    ensures RunFrom(l, s, before + [e]) ==
      var t := RunFrom(l, s, before);
      if e.Hit? then Checked(l, t, e.key, e.maxAllowed, e.at).0 else Pruned(t, e.at)
  {
    assert (before + [e])[..|before|] == before;
  }

  /** A run that does: the empty key, then another, with room for one. */
  lemma EmptyKeyOutgrows()
    ensures RunFrom(Limits(1000, 1), Empty(), [Hit("", 5, 0), Hit("k", 5, 1)]).Size() == 2
  {
    var l, first, second := Limits(1000, 1), Hit("", 5, 0), Hit("k", 5, 1);
    var none: States := Empty();
    RunFromSnoc(l, none, [], first);
    RunFromSnoc(l, none, [first], second);
    assert [] + [first] == [first] && [first] + [second] == [first, second];
    var s := RunFrom(l, none, [first]);
    assert s.keys == [""] && s.Get("") == Window(1, 1000, 0);
    assert Over(s, 1) == {};
    LessNothing(s.keys);
    assert Victim(s) == Some("") by { assert Oldest(s.keys, s.vals) == ""; }
    assert Evicted(Pruned(s, 1), 1) == s;
  }

  lemma InOrderSnoc(before: seq<Event>, e: Event)
    requires InOrder(before + [e])
    ensures InOrder(before) && forall x | x in before :: x.at <= e.at
  {
    var all := before + [e];
    assert forall i | 0 <= i < |before| :: all[i] == before[i];
    forall x | x in before ensures x.at <= e.at {
      var i :| 0 <= i < |before| && before[i] == x;
      assert all[i].at <= all[|before|].at;
    }
  }

  /** The map never exceeds its bound over runs without an empty key. */
  lemma {:induction false} StaysBounded(l: Limits, events: seq<Event>)
    requires l.maxKeys >= 1 && "" !in KeysHit(events)
    ensures RunFrom(l, Empty(), events).Size() <= l.maxKeys
    ensures !RunFrom(l, Empty(), events).Has("")
  {
    if events != [] {
      var before, e := events[..|events| - 1], events[|events| - 1];
      assert events == before + [e];
      KeysHitSnoc(before, e);
      StaysBounded(l, before);
      var s := RunFrom(l, Empty(), before);
      if e.Hit? {
        OutgrowsExactlyWhen(l, s, e.key, e.maxAllowed, e.at);
      }
    }
  }

  // ---- the reference: one window per key, opened by the key's own hits ----

  function NextWindow(l: Limits, w: Option<Window>, at: int): Window {
    if w.Some? && at < w.value.resetAt then Window(w.value.count + 1, w.value.resetAt, at)
    else Window(1, at + l.windowMs, at)
  }

  function WindowAfter(l: Limits, events: seq<Event>, key: string): Option<Window> {
    if events == [] then None
    else
      var n := |events| - 1;
      var w := WindowAfter(l, events[..n], key);
      if events[n].Hit? && events[n].key == key then Some(NextWindow(l, w, events[n].at)) else w
  }

  /** The answer the reference gives to a hit. */
  function Decision(l: Limits, w: Option<Window>, maxAllowed: int, at: int): Option<int> {
    if w.Some? && at < w.value.resetAt && w.value.count + 1 > maxAllowed then Some(RetryAfter(w.value.resetAt, at))
    else None
  }

  /** The kept window is the reference's; a window not kept is over. */
  ghost predicate Agrees(s: States, key: string, w: Option<Window>, now: int) {
    if s.Has(key) then w == Some(s.Get(key)) else w.Some? ==> w.value.resetAt <= now
  }

  /** A check that need not evict touches its own key alone, and answers from its window. */
  lemma CheckedWithRoom(l: Limits, s: States, key: string, w: Option<Window>, maxAllowed: int, now: int)
    requires s.Valid() && (s.Has(key) || s.Size() < l.maxKeys) && Agrees(s, key, w, now)
    ensures Checked(l, s, key, maxAllowed, now).0.vals == s.vals[key := NextWindow(l, w, now)]
    ensures Checked(l, s, key, maxAllowed, now).1 == Decision(l, w, maxAllowed, now)
  {
  }

  lemma PrunedAgrees(s: States, key: string, w: Option<Window>, at: int, now: int)
    requires s.Valid() && Agrees(s, key, w, at) && at <= now
    ensures Agrees(Pruned(s, at), key, w, now)
  {
  }

  lemma FewerKeys(events: seq<Event>, s: States, key: string)
    requires s.Valid() && s.vals.Keys <= KeysHit(events) && key in KeysHit(events) && !s.Has(key)
    ensures s.Size() < |KeysHit(events)|
  {
    s.SizeIsCard();
    assert s.vals.Keys <= KeysHit(events) - {key};
    SubsetIsNoLarger(s.vals.Keys, KeysHit(events) - {key});
  }

  lemma WindowAfterSnoc(l: Limits, before: seq<Event>, e: Event, key: string)
    ensures WindowAfter(l, before + [e], key) ==
      var w := WindowAfter(l, before, key);
      if e.Hit? && e.key == key then Some(NextWindow(l, w, e.at)) else w
  {
    assert (before + [e])[..|before|] == before;
  }

  lemma {:induction false} RunAgrees(l: Limits, events: seq<Event>, key: string, now: int)
    requires InOrder(events) && |KeysHit(events)| <= l.maxKeys
    requires forall e | e in events :: e.at <= now
    ensures RunFrom(l, Empty(), events).vals.Keys <= KeysHit(events)
    ensures Agrees(RunFrom(l, Empty(), events), key, WindowAfter(l, events, key), now)
  {
    if events != [] {
      var before, e := events[..|events| - 1], events[|events| - 1];
      assert events == before + [e] && e in events;
      KeysHitSnoc(before, e);
      InOrderSnoc(before, e);
      RunAgrees(l, before, key, e.at);
      if e.Hit? { RunAgrees(l, before, e.key, e.at); }
      RunAgreesStep(l, before, e, key, now);
    }
  }

  lemma RunAgreesStep(l: Limits, before: seq<Event>, e: Event, key: string, now: int)
    requires e.at <= now && |KeysHit(before + [e])| <= l.maxKeys
    requires RunFrom(l, Empty(), before).vals.Keys <= KeysHit(before)
    requires Agrees(RunFrom(l, Empty(), before), key, WindowAfter(l, before, key), e.at)
    requires e.Hit? ==> Agrees(RunFrom(l, Empty(), before), e.key, WindowAfter(l, before, e.key), e.at)
    ensures RunFrom(l, Empty(), before + [e]).vals.Keys <= KeysHit(before + [e])
    ensures Agrees(RunFrom(l, Empty(), before + [e]), key, WindowAfter(l, before + [e], key), now)
  {
    var s := RunFrom(l, Empty(), before);
    KeysHitSnoc(before, e);
    WindowAfterSnoc(l, before, e, key);
    RunFromSnoc(l, Empty(), before, e);
    if e.Hit? {
      if !s.Has(e.key) { FewerKeys(before + [e], s, e.key); }
      CheckedWithRoom(l, s, e.key, WindowAfter(l, before, e.key), e.maxAllowed, e.at);
    } else {
      PrunedAgrees(s, key, WindowAfter(l, before, key), e.at, now);
    }
  }

  /** With keys that fit, every answer of the limiter is the reference's, prunes or not. */
  lemma LimiterRefines(l: Limits, events: seq<Event>, hit: Event)
    requires hit.Hit? && InOrder(events + [hit]) && |KeysHit(events + [hit])| <= l.maxKeys
    ensures Checked(l, RunFrom(l, Empty(), events), hit.key, hit.maxAllowed, hit.at).1 ==
      Decision(l, WindowAfter(l, events, hit.key), hit.maxAllowed, hit.at)
  {
    KeysHitSnoc(events, hit);
    InOrderSnoc(events, hit);
    RunAgrees(l, events, hit.key, hit.at);
    var s := RunFrom(l, Empty(), events);
    if !s.Has(hit.key) { FewerKeys(events + [hit], s, hit.key); }
    CheckedWithRoom(l, s, hit.key, WindowAfter(l, events, hit.key), hit.maxAllowed, hit.at);
  }

  /** The hits of one key. */
  function HitsOf(events: seq<Event>, key: string): seq<Event> {
    if events == [] then []
    else
      var n := |events| - 1;
      HitsOf(events[..n], key) + if events[n].Hit? && events[n].key == key then [events[n]] else []
  }

  lemma {:induction false} OnlyOwnHitsCount(l: Limits, events: seq<Event>, key: string)
    ensures WindowAfter(l, events, key) == WindowAfter(l, HitsOf(events, key), key)
  {
    if events != [] {
      var before, e := events[..|events| - 1], events[|events| - 1];
      OnlyOwnHitsCount(l, before, key);
      WindowAfterSnoc(l, HitsOf(before, key), e, key);
      assert HitsOf(before, key) + [] == HitsOf(before, key);
    }
  }

  /** Two runs in which a key's own hits are the same answer its next hit the same way. */
  lemma PrunesAndOthersDoNotMatter(l: Limits, a: seq<Event>, b: seq<Event>, hit: Event)
    requires hit.Hit? && HitsOf(a, hit.key) == HitsOf(b, hit.key)
    requires InOrder(a + [hit]) && |KeysHit(a + [hit])| <= l.maxKeys
    requires InOrder(b + [hit]) && |KeysHit(b + [hit])| <= l.maxKeys
    ensures Checked(l, RunFrom(l, Empty(), a), hit.key, hit.maxAllowed, hit.at).1 ==
      Checked(l, RunFrom(l, Empty(), b), hit.key, hit.maxAllowed, hit.at).1
  {
    LimiterRefines(l, a, hit);
    LimiterRefines(l, b, hit);
    OnlyOwnHitsCount(l, a, hit.key);
    OnlyOwnHitsCount(l, b, hit.key);
  }

  // ---- how many hits an interval admits ----

  /** The hits of a key that the limiter admits at times from `a` to `a + windowMs`, ends included. */
  function Admitted(l: Limits, events: seq<Event>, key: string, a: int): nat {
    if events == [] then 0
    else
      var n := |events| - 1;
      var e := events[n];
      Admitted(l, events[..n], key, a) +
      if e.Hit? && e.key == key && a <= e.at <= a + l.windowMs
        && Checked(l, RunFrom(l, Empty(), events[..n]), key, e.maxAllowed, e.at).1 == None then 1 else 0
  }

  lemma AdmittedSnoc(l: Limits, before: seq<Event>, e: Event, key: string, a: int)
    requires InOrder(before + [e]) && |KeysHit(before + [e])| <= l.maxKeys
    ensures Admitted(l, before + [e], key, a) == Admitted(l, before, key, a) +
      if e.Hit? && e.key == key && a <= e.at <= a + l.windowMs
        && Decision(l, WindowAfter(l, before, key), e.maxAllowed, e.at) == None then 1 else 0
  {
    assert (before + [e])[..|before|] == before;
    if e.Hit? && e.key == key { LimiterRefines(l, before, e); }
  }

  function Min(x: int, y: int): int { if x < y then x else y }

  ghost predicate AdmittedSoFar(l: Limits, w: Option<Window>, m: int, a: int, admitted: nat) {
    if w.None? then admitted == 0
    else
      var start := w.value.resetAt - l.windowMs;
      && start <= w.value.lastSeenAt < w.value.resetAt
      && (w.value.lastSeenAt < a ==> admitted == 0)
      && w.value.count >= 1
      && admitted <= if start <= a then Min(w.value.count, m)
                     else if start <= a + l.windowMs then m + Min(w.value.count, m) else 2 * m
  }

  /** One hit of the key. */
  lemma AdmitStep(l: Limits, w: Option<Window>, m: int, a: int, admitted: nat, at: int)
    requires l.windowMs >= 1 && m >= 1 && AdmittedSoFar(l, w, m, a, admitted)
    requires w.Some? ==> w.value.lastSeenAt <= at
    ensures AdmittedSoFar(l, Some(NextWindow(l, w, at)), m, a,
      admitted + if a <= at <= a + l.windowMs && Decision(l, w, m, at) == None then 1 else 0)
  {
  }

  ghost predicate FixedLimit(events: seq<Event>, key: string, m: int) {
    forall e | e in events && e.Hit? && e.key == key :: e.maxAllowed == m
  }

  lemma AdmittedStep(l: Limits, before: seq<Event>, e: Event, key: string, m: int, a: int, now: int)
    requires l.windowMs >= 1 && m >= 1 && (e.Hit? && e.key == key ==> e.maxAllowed == m)
    requires InOrder(before + [e]) && |KeysHit(before + [e])| <= l.maxKeys && e.at <= now
    requires AdmittedSoFar(l, WindowAfter(l, before, key), m, a, Admitted(l, before, key, a))
    requires WindowAfter(l, before, key).Some? ==> WindowAfter(l, before, key).value.lastSeenAt <= e.at
    ensures AdmittedSoFar(l, WindowAfter(l, before + [e], key), m, a, Admitted(l, before + [e], key, a))
    ensures WindowAfter(l, before + [e], key).Some? ==> WindowAfter(l, before + [e], key).value.lastSeenAt <= now
  {
    WindowAfterSnoc(l, before, e, key);
    AdmittedSnoc(l, before, e, key, a);
    if e.Hit? && e.key == key {
      AdmitStep(l, WindowAfter(l, before, key), m, a, Admitted(l, before, key, a), e.at);
    }
  }

  lemma {:induction false} AdmittedInvariant(l: Limits, events: seq<Event>, key: string, m: int, a: int, now: int)
    requires l.windowMs >= 1 && m >= 1 && FixedLimit(events, key, m)
    requires InOrder(events) && |KeysHit(events)| <= l.maxKeys
    requires forall e | e in events :: e.at <= now
    ensures AdmittedSoFar(l, WindowAfter(l, events, key), m, a, Admitted(l, events, key, a))
    ensures WindowAfter(l, events, key).Some? ==> WindowAfter(l, events, key).value.lastSeenAt <= now
  {
    if events != [] {
      var before, e := events[..|events| - 1], events[|events| - 1];
      assert events == before + [e] && e in events && forall x | x in before :: x in events;
      KeysHitSnoc(before, e);
      InOrderSnoc(before, e);
      AdmittedInvariant(l, before, key, m, a, e.at);
      AdmittedStep(l, before, e, key, m, a, now);
    }
  }

  /** No interval as long as the window admits more than twice the limit. */
  lemma SlidingBound(l: Limits, events: seq<Event>, key: string, m: int, a: int)
    requires l.windowMs >= 1 && m >= 1 && FixedLimit(events, key, m)
    requires InOrder(events) && |KeysHit(events)| <= l.maxKeys
    ensures Admitted(l, events, key, a) <= 2 * m
  {
    if events != [] {
      forall e | e in events ensures e.at <= events[|events| - 1].at {
        var i :| 0 <= i < |events| && events[i] == e;
      }
      AdmittedInvariant(l, events, key, m, a, events[|events| - 1].at);
    }
  }

  // ---- waiting as told ----

  /** Without hits of its own a window is kept as it is, or dropped. */
  lemma {:induction false} OthersDoNotExtend(l: Limits, s: States, events: seq<Event>, key: string)
    requires s.Valid() && key !in KeysHit(events)
    ensures RunFrom(l, s, events).Has(key) ==> s.Has(key) && RunFrom(l, s, events).Get(key) == s.Get(key)
  {
    if events != [] {
      var before, e := events[..|events| - 1], events[|events| - 1];
      assert events == before + [e];
      KeysHitSnoc(before, e);
      RunFromSnoc(l, s, before, e);
      OthersDoNotExtend(l, s, before, key);
    }
  }

  /**
   * A key refused at `now` that stays away for the seconds it was told opens a fresh window
   * with its next hit, whatever happens to other keys, evictions included.
   */
  lemma WaitingFindsFreshWindow(l: Limits, s: States, key: string, maxAllowed: int, now: int,
                                events: seq<Event>, later: int)
    requires s.Valid() && key !in KeysHit(events)
    requires var refused := Checked(l, s, key, maxAllowed, now).1;
      refused.Some? && later >= now + refused.value * 1000
    ensures var after := RunFrom(l, Checked(l, s, key, maxAllowed, now).0, events);
      var (next, answer) := Checked(l, after, key, maxAllowed, later);
      answer == None && next.Has(key) && next.Get(key) == Window(1, later + l.windowMs, later)
  {
    OthersDoNotExtend(l, Checked(l, s, key, maxAllowed, now).0, events, key);
  }

  /** The seconds told are the least whole number that reaches the end of the window. */
  lemma RetryAfterIsLeast(l: Limits, s: States, key: string, maxAllowed: int, now: int)
    requires s.Valid() && Checked(l, s, key, maxAllowed, now).1.Some?
    ensures var seconds := Checked(l, s, key, maxAllowed, now).1.value;
      s.Has(key) && seconds >= 1 && (seconds - 1) * 1000 < s.Get(key).resetAt - now <= seconds * 1000
  {
  }
}
