/**
 * Reading a request body under a size limit: the cloud server's loop over a stream
 * (apps/cloud/src/server-storage.ts) and the MCP server's event handlers
 * (apps/mcp-server/src/http-server.ts), against one account of what decides the outcome.
 */
module RequestBody {
  import opened Options

  type byte = x: int | 0 <= x < 256

  type Bytes = seq<byte>

  /** What arrives: data, the end, an abort or early close, a failure. */
  datatype Event = Data(bytes: Bytes) | End | Abort | Failure

  datatype Result = Complete(body: Bytes) | TooLarge | Interrupted | Failed

  // ---- the account: the first event that settles the outcome ----

  predicate AllData(events: seq<Event>) {
    forall e | e in events :: e.Data?
  }

  /** The bytes of data events put together. */
  function Joined(events: seq<Event>): Bytes {
    if events == [] then []
    else Joined(events[..|events| - 1]) + if events[|events| - 1].Data? then events[|events| - 1].bytes else []
  }

  /** The events before the k-th are data within the limit. */
  ghost predicate Quiet(events: seq<Event>, k: nat, max: nat) {
    k <= |events| && AllData(events[..k]) && |Joined(events[..k])| <= max
  }

  /** The k-th event settles the outcome: the end, an abort, a failure, or data past the limit. */
  ghost predicate SettledAt(events: seq<Event>, k: nat, max: nat, r: Result) {
    && k < |events| && Quiet(events, k, max)
    && match events[k]
      case Data(bytes) => |Joined(events[..k])| + |bytes| > max && r == TooLarge
      case End => r == Complete(Joined(events[..k]))
      case Abort => r == Interrupted
      case Failure => r == Failed
  }

  ghost predicate Settled(events: seq<Event>, max: nat, r: Result) {
    exists k: nat :: SettledAt(events, k, max, r)
  }

  lemma JoinedSnoc(events: seq<Event>, k: nat)
    requires k < |events|
    ensures Joined(events[..k + 1]) == Joined(events[..k]) + if events[k].Data? then events[k].bytes else []
    ensures AllData(events[..k + 1]) <==> AllData(events[..k]) && events[k].Data?
  {
    assert events[..k + 1] == events[..k] + [events[k]];
    assert events[..k + 1][..k] == events[..k];
  }

  lemma {:induction false} JoinedGrows(events: seq<Event>, j: nat, k: nat)
    requires j <= k <= |events|
    ensures |Joined(events[..j])| <= |Joined(events[..k])|
    decreases k - j
  {
    if j < k {
      JoinedSnoc(events, k - 1);
      JoinedGrows(events, j, k - 1);
    }
  }

  /** One event at most settles the outcome. */
  lemma SettledOnce(events: seq<Event>, j: nat, k: nat, max: nat, r: Result, q: Result)
    requires SettledAt(events, j, max, r) && SettledAt(events, k, max, q)
    ensures j == k && r == q
  {
    if j < k { NotPast(events, j, k, max, r); }
    if k < j { NotPast(events, k, j, max, q); }
  }

  lemma NotPast(events: seq<Event>, j: nat, k: nat, max: nat, r: Result)
    requires SettledAt(events, j, max, r) && j < k
    ensures !Quiet(events, k, max)
  {
    JoinedSnoc(events, j);
    if k <= |events| {
      JoinedGrows(events, j + 1, k);
      assert AllData(events[..k]) ==> events[j].Data? by { assert k > j ==> events[..k][j] == events[j]; }
    }
  }

  /** The k-th event is the first that is no data, and all data before it fits. */
  ghost predicate StopsAt(events: seq<Event>, k: nat, max: nat, body: Bytes) {
    k < |events| && !events[k].Data? && AllData(events[..k]) && body == Joined(events[..k]) && |body| <= max
  }

  /** Data that fits, then this event. */
  ghost predicate Ends(events: seq<Event>, e: Event, max: nat, body: Bytes) {
    exists k: nat :: StopsAt(events, k, max, body) && events[k] == e
  }

  /** Some data from the start on is more than the limit. */
  ghost predicate Exceeds(events: seq<Event>, max: nat) {
    exists k: nat | k <= |events| :: AllData(events[..k]) && |Joined(events[..k])| > max
  }

  /**
   * What each answer says about the events: a body is accepted exactly when it is all the data
   * up to an end and fits, never a part left by an abort; too large exactly when the data is.
   */
  ghost predicate Exact(events: seq<Event>, max: nat, r: Result) {
    && (forall body :: r == Complete(body) <==> Ends(events, End, max, body))
    && (r == TooLarge <==> Exceeds(events, max))
    && (r == Interrupted <==> exists body :: Ends(events, Abort, max, body))
    && (r == Failed <==> exists body :: Ends(events, Failure, max, body))
  }

  /** An event that ends fitting data settles the outcome. */
  lemma StopSettles(events: seq<Event>, j: nat, max: nat, body: Bytes)
    requires StopsAt(events, j, max, body)
    ensures events[j] == End ==> SettledAt(events, j, max, Complete(body))
    ensures events[j] == Abort ==> SettledAt(events, j, max, Interrupted)
    ensures events[j] == Failure ==> SettledAt(events, j, max, Failed)
  {
  }

  /** The first prefix of data past the limit settles the outcome. */
  lemma {:induction false} ExcessSettles(events: seq<Event>, j: nat, max: nat) returns (k: nat)
    requires j <= |events| && AllData(events[..j]) && |Joined(events[..j])| > max
    ensures SettledAt(events, k, max, TooLarge)
  {
    k := j - 1;
    JoinedSnoc(events, k);
    if |Joined(events[..k])| > max { k := ExcessSettles(events, k, max); }
  }

  /** The outcome settled by one event is exact about all of them. */
  lemma OutcomeIsExact(events: seq<Event>, k: nat, max: nat, r: Result)
    requires SettledAt(events, k, max, r)
    ensures Settled(events, max, r) && Exact(events, max, r)
  {
    forall e, body | Ends(events, e, max, body)
      ensures r == if e.End? then Complete(body) else if e.Abort? then Interrupted else Failed
    {
      var j: nat :| StopsAt(events, j, max, body) && events[j] == e;
      StopSettles(events, j, max, body);
      SettledOnce(events, k, j, max, r, if e.End? then Complete(body) else if e.Abort? then Interrupted else Failed);
    }
    if Exceeds(events, max) {
      var n: nat :| n <= |events| && AllData(events[..n]) && |Joined(events[..n])| > max;
      var j := ExcessSettles(events, n, max);
      SettledOnce(events, k, j, max, r, TooLarge);
    }
    JoinedSnoc(events, k);
    if !events[k].Data? {
      assert StopsAt(events, k, max, Joined(events[..k]));
      assert Ends(events, events[k], max, Joined(events[..k]));
    }
  }

  // ---- the cloud server's loop ----

  function Flatten(chunks: seq<Bytes>): Bytes {
    if chunks == [] then [] else Flatten(chunks[..|chunks| - 1]) + chunks[|chunks| - 1]
  }

  /** Puts the chunks into one array, each behind the ones before it. */
  method Merge(chunks: seq<Bytes>, totalLength: nat) returns (merged: array<byte>)
    requires totalLength == |Flatten(chunks)|
    ensures fresh(merged) && merged[..] == Flatten(chunks)
  {
    merged := new byte[totalLength](_ => 0);
    var offset := 0;
    assert chunks[..0] == [];
    for i := 0 to |chunks|
      invariant offset == |Flatten(chunks[..i])| <= merged.Length == totalLength
      invariant merged[..offset] == Flatten(chunks[..i])
    {
      var chunk := chunks[i];
      assert chunks[..i + 1][..i] == chunks[..i];
      FlattenGrows(chunks, i + 1);
      for j := 0 to |chunk|
        invariant merged[..offset] == Flatten(chunks[..i])
        invariant merged[offset..offset + j] == chunk[..j]
      {
        merged[offset + j] := chunk[j];
        assert chunk[..j + 1] == chunk[..j] + [chunk[j]];
        assert merged[offset..offset + j + 1] == merged[offset..offset + j] + [merged[offset + j]];
      }
      assert merged[..offset + |chunk|] == merged[..offset] + merged[offset..offset + |chunk|];
      assert chunk[..|chunk|] == chunk;
      offset := offset + |chunk|;
    }
    assert chunks[..|chunks|] == chunks;
  }

  lemma {:induction false} FlattenGrows(chunks: seq<Bytes>, k: nat)
    requires k <= |chunks|
    ensures |Flatten(chunks[..k])| <= |Flatten(chunks)|
    decreases |chunks|
  {
    if k < |chunks| {
      var shorter := chunks[..|chunks| - 1];
      FlattenGrows(shorter, k);
      assert shorter[..k] == chunks[..k];
    } else {
      assert chunks[..k] == chunks;
    }
  }

  /**
   * readRequestBytes.  `declared` is the Content-Length header as a number, 0 without one; no
   * stream means no body.  A stream that runs out of events has ended.
   */
  method ReadRequestBytes(declared: int, stream: Option<seq<Event>>, max: nat) returns (r: Result)
    ensures declared > max ==> r == TooLarge
    ensures declared <= max && stream.None? ==> r == Complete([])
    ensures declared <= max && stream.Some? ==> Settled(stream.value + [End], max, r)
    ensures declared <= max && stream.Some? ==> Exact(stream.value + [End], max, r)
  {
    if declared > max { return TooLarge; }
    if stream.None? { return Complete([]); }
    var events := stream.value + [End];
    var chunks: seq<Bytes>, totalLength := [], 0;
    var i := 0;
    while true
      invariant i < |events| && Quiet(events, i, max)
      invariant Flatten(chunks) == Joined(events[..i]) && totalLength == |Flatten(chunks)|
      decreases |events| - i
    {
      JoinedSnoc(events, i);
      match events[i]
      case Abort => OutcomeIsExact(events, i, max, Interrupted); return Interrupted;
      case Failure => OutcomeIsExact(events, i, max, Failed); return Failed;
      case End => break;
      case Data(value) =>
        if |value| > 0 {
          totalLength := totalLength + |value|;
          if totalLength > max {
            OutcomeIsExact(events, i, max, TooLarge);
            return TooLarge;
          }
          assert (chunks + [value])[..|chunks|] == chunks;
          chunks := chunks + [value];
        }
        i := i + 1;
        assert i < |events|;
    }
    OutcomeIsExact(events, i, max, Complete(Joined(events[..i])));
    if |chunks| == 0 { return Complete([]); }
    if |chunks| == 1 {
      assert chunks[..0] == [] && [] + chunks[0] == chunks[0];
      assert Flatten(chunks) == Flatten(chunks[..0]) + chunks[0];
      return Complete(chunks[0]);
    }
    var merged := Merge(chunks, totalLength);
    r := Complete(merged[..]);
  }

  // ---- the MCP server's handlers ----

  /** readRequestBody: callbacks that settle one promise once. */
  class BodyReader {
    const max: nat
    var chunks: seq<Bytes>
    var total: nat
    var settled: bool
    var result: Option<Result>
    /** Everything that has arrived. */
    ghost var seen: seq<Event>

    constructor (max: nat)
      ensures this.max == max && seen == [] && Tells()
    {
      this.max := max;
      chunks, total, settled, result, seen := [], 0, false, None, [];
    }

    /** Open while all is quiet; settled by the first event that decides, and by no later one. */
    ghost predicate Tells()
      reads this
    {
      if settled then result.Some? && Settled(seen, max, result.value)
      else result.None? && Quiet(seen, |seen|, max) && Flatten(chunks) == Joined(seen) && total == |Joined(seen)|
    }

    method Finish(r: Result)
      modifies this`settled, this`result
      ensures settled && result == if old(settled) then old(result) else Some(r)
    {
      if settled { return; }
      settled := true;
      result := Some(r);
    }

    method OnData(chunk: Bytes)
      requires Tells()
      modifies this
      ensures Tells() && seen == old(seen) + [Data(chunk)] && (old(settled) ==> settled && result == old(result))
      ensures settled ==> Exact(seen, max, result.value)
    {
      ghost var before := seen;
      seen := seen + [Data(chunk)];
      StaysSettled(before, Data(chunk), max);
      JoinedSnoc(seen, |before|);
      assert seen[..|before|] == before == before[..|before|] && seen[..|seen|] == seen;
      ghost var k: nat := |before|;
      if settled {
        k :| SettledAt(before, k, max, result.value);
        OutcomeIsExact(seen, k, max, result.value);
        return;
      }
      total := total + |chunk|;
      if total > max {
        Finish(TooLarge);
        OutcomeIsExact(seen, k, max, result.value);
        return;
      }
      assert (chunks + [chunk])[..|chunks|] == chunks;
      chunks := chunks + [chunk];
    }

    /** The end, error and close handlers. */
    method OnLast(e: Event)
      requires Tells() && !e.Data?
      modifies this
      ensures Tells() && seen == old(seen) + [e] && settled && (old(settled) ==> result == old(result))
      ensures Exact(seen, max, result.value)
    {
      ghost var before := seen;
      seen := seen + [e];
      StaysSettled(before, e, max);
      assert seen[..|before|] == before && before[..|before|] == before;
      var r := if e.End? then Complete(Flatten(chunks)) else if e.Abort? then Interrupted else Failed;
      ghost var k: nat := |before|;
      if settled { k :| SettledAt(before, k, max, result.value); }
      Finish(r);
      OutcomeIsExact(seen, k, max, result.value);
    }
  }

  lemma StaysSettled(events: seq<Event>, e: Event, max: nat)
    ensures forall k: nat, r | SettledAt(events, k, max, r) :: SettledAt(events + [e], k, max, r)
  {
    forall k: nat, r | SettledAt(events, k, max, r) ensures SettledAt(events + [e], k, max, r) {
      assert (events + [e])[..k] == events[..k];
    }
  }
}
