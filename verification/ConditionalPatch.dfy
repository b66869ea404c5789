/**
 * Attachment updates of the MCP client (apps/mcp-server/src/cloud-service.ts): read, compute,
 * PATCH with If-Match, retry on 412; against the locked check of the cloud server
 * (apps/cloud/src/server.ts).  Other writers may replace the document between any two requests.
 */
module ConditionalPatch {
  import opened Options
  import opened JsText

  // ---- entity tags: strong comparison, sections 8.8.3.2 and 13.1.1 of RFC 9110 ----

  const TAG_PREFIX := "\"mindwtr-entity-sha256-"

  /** The client's test of a tag: a quoted string with no quote inside. */
  predicate StrongTag(h: string) {
    |h| >= 2 && h[0] == '"' && h[|h| - 1] == '"' && '"' !in h[1..|h| - 1]
  }

  predicate Hex(s: string) {
    forall c | c in s :: '0' <= c <= '9' || 'a' <= c <= 'f'
  }

  function ServerTag(digest: string): string {
    TAG_PREFIX + digest + ['"']
  }

  /** ifMatchAccepts. */
  predicate IfMatchAccepts(header: string, current: string) {
    Trim(header) == "*" || exists p | p in Split(header, ',') :: Trim(p) == current
  }

  lemma ServerTagIsStrong(digest: string)
    requires Hex(digest)
    ensures StrongTag(ServerTag(digest)) && ',' !in ServerTag(digest)
  {
    var t := ServerTag(digest);
    assert t[1..|t| - 1] == TAG_PREFIX[1..] + digest;
    assert forall c | c in TAG_PREFIX[1..] :: c != '"' && c != ',';
  }

  /** `p` is the text of `s` from `i` on. */
  predicate SliceAt(s: string, i: nat, p: string) {
    i + |p| <= |s| && s[i..i + |p|] == p
  }

  lemma {:induction false} FirstPieceIsPrefix(s: string, sep: char)
    ensures SliceAt(s, 0, Split(s, sep)[0])
  {
    if s != [] { FirstPieceIsPrefix(s[1..], sep); }
  }

  lemma {:induction false} PieceIsSlice(s: string, sep: char, k: nat) returns (i: nat)
    requires k < |Split(s, sep)|
    ensures SliceAt(s, i, Split(s, sep)[k])
  {
    FirstPieceIsPrefix(s, sep);
    i := 0;
    if k > 0 {
      var parts, rest := Split(s, sep), Split(s[1..], sep);
      var at := if s[0] == sep then k - 1 else k;
      var j := PieceIsSlice(s[1..], sep, at);
      assert parts[k] == rest[at];
      i := j + 1;
      assert s[1..][j..j + |parts[k]|] == s[i..i + |parts[k]|];
    }
  }

  lemma {:induction false} SplitWithout(s: string, sep: char)
    requires sep !in s
    ensures Split(s, sep) == [s]
  {
    if s != [] {
      assert s[0] in s;
      SplitWithout(s[1..], sep);
      assert [s[0]] + s[1..] == s;
    }
  }

  lemma StrongTagKeepsItsEnds(h: string)
    requires StrongTag(h)
    ensures Trim(h) == h && Trim(h) != "*"
    ensures forall k | 0 <= k < |h| && h[k] == '"' :: k == 0 || k == |h| - 1
  {
    CoreIsUnique(h, 0, |h|);
    assert h[0..|h|] == h;
    forall k | 0 < k < |h| - 1 ensures h[k] != '"' { assert h[k] == h[1..|h| - 1][k - 1]; }
  }

  /** A piece of a strong tag with both quotes in it is the whole tag. */
  lemma OnlyTheWholeTagFits(h: string, i: nat, p: string, tag: string)
    requires StrongTag(h) && StrongTag(tag) && SliceAt(h, i, p) && Trim(p) == tag
    ensures h == tag
  {
    StrongTagKeepsItsEnds(h);
    var a, z := Lead(p), Tail(p) - 1;
    assert p[a] == tag[0] && p[z] == tag[|tag| - 1];
    assert h[i + a] == p[a] && h[i + z] == p[z];
    assert i == 0 && a == 0 && z == |h| - 1;
    assert p == h;
  }

  lemma AcceptsItself(tag: string)
    requires StrongTag(tag) && ',' !in tag
    ensures IfMatchAccepts(tag, tag)
  {
    StrongTagKeepsItsEnds(tag);
    SplitWithout(tag, ',');
    assert tag in Split(tag, ',');
  }

  lemma StrongTagIsNoStar(h: string)
    requires StrongTag(h)
    ensures Trim(h) != "*"
  {
    StrongTagKeepsItsEnds(h);
  }

  lemma OnePieceIsWhole(header: string, k: nat, tag: string)
    requires StrongTag(header) && StrongTag(tag) && k < |Split(header, ',')| && Trim(Split(header, ',')[k]) == tag
    ensures header == tag
  {
    var i := PieceIsSlice(header, ',', k);
    OnlyTheWholeTagFits(header, i, Split(header, ',')[k], tag);
  }

  lemma AcceptsOnlyItself(header: string, tag: string)
    requires StrongTag(header) && StrongTag(tag) && IfMatchAccepts(header, tag)
    ensures header == tag
  {
    StrongTagIsNoStar(header);
    var k :| 0 <= k < |Split(header, ',')| && Trim(Split(header, ',')[k]) == tag;
    OnePieceIsWhole(header, k, tag);
  }

  /** For the headers the client sends, commas and all, If-Match accepts one tag only: itself. */
  lemma StrongComparison(header: string, digest: string)
    requires StrongTag(header) && Hex(digest)
    ensures IfMatchAccepts(header, ServerTag(digest)) <==> header == ServerTag(digest)
  {
    ServerTagIsStrong(digest);
    AcceptsItself(ServerTag(digest));
    if IfMatchAccepts(header, ServerTag(digest)) { AcceptsOnlyItself(header, ServerTag(digest)); }
  }

  // ---- the stored entities ----

  type Attachments = seq<string>

  datatype Entity = Entity(id: string, deleted: bool, attachments: Attachments, others: string)

  /** SHA-256 of the entity's response text, taken to be injective. */
  ghost predicate GoodDigest(digest: Entity -> string) {
    && (forall e :: Hex(digest(e)))
    && (forall e, f :: digest(e) == digest(f) ==> e == f)
  }

  /** The first entity with the id that is live or, for some patches, deleted. */
  function Find(data: seq<Entity>, id: string, deletedToo: bool): (r: Option<nat>)
    ensures r.Some? ==> r.value < |data| && data[r.value].id == id && (!data[r.value].deleted || deletedToo)
    ensures r.Some? ==> forall k | 0 <= k < r.value :: data[k].id != id || (data[k].deleted && !deletedToo)
    ensures r.None? ==> forall k | 0 <= k < |data| :: data[k].id != id || (data[k].deleted && !deletedToo)
  {
    if data == [] then None
    else if data[0].id == id && (!data[0].deleted || deletedToo) then Some(0)
    else
      var r := Find(data[1..], id, deletedToo);
      assert forall k | 0 < k < |data| :: data[k] == data[1..][k - 1];
      if r.Some? then Some(r.value + 1) else None
  }

  // ---- the server ----

  /** What a PATCH that took effect met, and what it carried. */
  datatype Applied = Applied(stored: Entity, sent: Attachments)

  datatype Write = Succeeds | ThrowsBefore | ThrowsAfter

  /** What happens around one PATCH: its clock, aborts, and how reading and writing the file go. */
  datatype Plan = Plan(nowIso: string, abortedEarly: bool, abortedLate: bool, loads: bool, deletedToo: bool, write: Write)

  predicate Undisturbed(p: Plan) {
    !p.abortedEarly && !p.abortedLate && p.loads && p.write.Succeeds?
  }

  /** The parts of a route whose source is outside the model; None is an error response. */
  datatype Route = Route(
    digest: Entity -> string,
    patchEntity: (Attachments, Entity, string) -> Option<Entity>,
    finalize: (seq<Entity>, string) -> Option<seq<Entity>>)

  /** The document a PATCH of the entity at `i` leads to; None when it is refused. */
  function Patched(route: Route, data: seq<Entity>, i: nat, attachments: Attachments, nowIso: string): Option<seq<Entity>>
    requires i < |data|
  {
    var updated := route.patchEntity(attachments, data[i], nowIso);
    if updated.None? then None else route.finalize(data[i := updated.value], nowIso)
  }

  datatype Reply = Ok(entity: Option<Entity>) | PreconditionFailed | OtherStatus | NoReply

  /** How a GET reaches the client: tags can get lost or weakened on the way. */
  datatype TagFate = Kept | Lost | Weakened

  datatype GetReply = Got(entity: Entity, etag: Option<string>) | GetFailed

  class Server {
    const route: Route
    var data: seq<Entity>
    ghost var applied: seq<Applied>
    ghost var refusals: nat

    constructor (route: Route, data: seq<Entity>)
      ensures this.route == route && this.data == data && applied == [] && refusals == 0
    {
      this.route, this.data, applied, refusals := route, data, [], 0;
    }

    method Get(id: string, loads: bool, tag: TagFate) returns (r: GetReply)
      ensures r.Got? <==> loads && Find(data, id, false).Some?
      ensures r.Got? ==> r.entity == data[Find(data, id, false).value]
      ensures r.Got? ==> r.etag == match tag
        case Kept => Some(ServerTag(route.digest(r.entity)))
        case Lost => None
        case Weakened => Some("W/" + ServerTag(route.digest(r.entity)))
    {
      if !loads { return GetFailed; }
      var idx := Find(data, id, false);
      if idx.None? { return GetFailed; }
      var e := data[idx.value];
      var etag := ServerTag(route.digest(e));
      r := Got(e, match tag case Kept => Some(etag) case Lost => None case Weakened => Some("W/" + etag));
    }

    /** The entity a PATCH meets, when its tag is one the request accepts. */
    ghost predicate Meets(id: string, ifMatch: Option<string>, deletedToo: bool)
      reads this`data
    {
      && Find(data, id, deletedToo).Some?
      && (ifMatch.Some? ==> IfMatchAccepts(ifMatch.value, ServerTag(route.digest(data[Find(data, id, deletedToo).value]))))
    }

    /** A PATCH under the namespace's write lock. */
    method Patch(id: string, attachments: Attachments, ifMatch: Option<string>, plan: Plan) returns (r: Reply)
      modifies this
      ensures applied == old(applied) ==> data == old(data)
      ensures applied != old(applied) ==> old(Meets(id, ifMatch, plan.deletedToo))
      ensures applied != old(applied) ==>
        var i := old(Find(data, id, plan.deletedToo).value);
        && applied == old(applied) + [Applied(old(data)[i], attachments)]
        && Patched(route, old(data), i, attachments, plan.nowIso) == Some(data)
      ensures refusals == old(refusals) + if r.PreconditionFailed? then 1 else 0
      ensures r.PreconditionFailed? ==> applied == old(applied) && !old(Meets(id, ifMatch, plan.deletedToo))
      ensures r.Ok? ==> applied != old(applied)
      ensures r.Ok? <==>
        && Undisturbed(plan) && old(Meets(id, ifMatch, plan.deletedToo))
        && Patched(route, old(data), old(Find(data, id, plan.deletedToo).value), attachments, plan.nowIso).Some?
    {
      if plan.abortedEarly || !plan.loads { return OtherStatus; }
      var idx := Find(data, id, plan.deletedToo);
      if idx.None? { return OtherStatus; }
      var current := data[idx.value];
      if ifMatch.Some? && !IfMatchAccepts(ifMatch.value, ServerTag(route.digest(current))) {
        refusals := refusals + 1;
        return PreconditionFailed;
      }
      var updated := route.patchEntity(attachments, current, plan.nowIso);
      if updated.None? { return OtherStatus; }
      var finalized := route.finalize(data[idx.value := updated.value], plan.nowIso);
      if finalized.None? || plan.abortedLate || plan.write.ThrowsBefore? { return OtherStatus; }
      data := finalized.value;
      applied := applied + [Applied(current, attachments)];
      if plan.write.ThrowsAfter? { return OtherStatus; }
      var saved := Find(data, id, true);
      r := Ok(if saved.Some? then Some(data[saved.value]) else None);
    }

    /** Any other writer. */
    method Interfere(data: seq<Entity>)
      modifies this`data
      ensures this.data == data
    {
      this.data := data;
    }
  }

  // ---- the client ----

  const ATTEMPTS := 3

  /** What happens around one attempt. */
  datatype Round = Round(
    beforeGet: seq<Entity>, getArrives: bool, loads: bool, tag: TagFate,
    beforePatch: seq<Entity>, patchReaches: bool, plan: Plan, replyArrives: bool)

  datatype Result = Updated(entity: Option<Entity>) | GaveUp | Failed

  /** Nothing goes wrong in a round, nobody writes between its two requests, and the update is possible. */
  ghost predicate Quiet(route: Route, links: (nat, Attachments) -> Option<Attachments>, round: Round, attempt: nat, id: string) {
    && round.getArrives && round.loads && round.tag == Kept && round.beforePatch == round.beforeGet
    && round.patchReaches && round.replyArrives
    && Undisturbed(round.plan) && !round.plan.deletedToo
    && Find(round.beforeGet, id, false).Some?
    && var i := Find(round.beforeGet, id, false).value;
    && links(attempt, round.beforeGet[i].attachments).Some?
    && Patched(route, round.beforeGet, i, links(attempt, round.beforeGet[i].attachments).value, round.plan.nowIso).Some?
  }

  /** An update sent by one attempt, computed from the attachments stored at the instant it took effect. */
  predicate ComputedFromStored(a: Applied, links: (nat, Attachments) -> Option<Attachments>, attempt: nat) {
    Some(a.sent) == links(attempt, a.stored.attachments)
  }

  predicate NothingLost(a: Applied, links: (nat, Attachments) -> Option<Attachments>) {
    ComputedFromStored(a, links, 1) || ComputedFromStored(a, links, 2) || ComputedFromStored(a, links, 3)
  }

  /** With an injective digest, If-Match accepts the tag of one entity for another only if they are equal. */
  lemma AcceptedMeansSame(digest: Entity -> string, read: Entity, stored: Entity)
    requires GoodDigest(digest)
    ensures IfMatchAccepts(ServerTag(digest(read)), ServerTag(digest(stored))) <==> read == stored
  {
    ServerTagIsStrong(digest(read));
    StrongComparison(ServerTag(digest(read)), digest(stored));
    assert ServerTag(digest(read))[|TAG_PREFIX|..|TAG_PREFIX| + |digest(read)|] == digest(read);
    assert ServerTag(digest(stored))[|TAG_PREFIX|..|TAG_PREFIX| + |digest(stored)|] == digest(stored);
  }

  class Client {
    const server: Server
    /** The new attachment list from the present one, None when it refuses; fresh ids make it depend on the attempt. */
    const links: (nat, Attachments) -> Option<Attachments>

    constructor (server: Server, links: (nat, Attachments) -> Option<Attachments>)
      ensures this.server == server && this.links == links
    {
      this.server, this.links := server, links;
    }

    /** readEntityForConditionalPatch: the entity, when its tag is the strong tag the server gives it. */
    method ReadEntity(id: string, round: Round) returns (r: Option<(Entity, string)>)
      requires GoodDigest(server.route.digest)
      ensures r.Some? ==> r.value.1 == ServerTag(server.route.digest(r.value.0))
      ensures r.Some? ==> Find(server.data, id, false).Some? && r.value.0 == server.data[Find(server.data, id, false).value]
      ensures r.Some? <==> round.getArrives && round.loads && round.tag == Kept && Find(server.data, id, false).Some?
    {
      if !round.getArrives { return None; }
      var reply := server.Get(id, round.loads, round.tag);
      if reply.GetFailed? || reply.etag.None? { return None; }
      ServerTagIsStrong(server.route.digest(reply.entity));
      if !StrongTag(reply.etag.value) { return None; }
      r := Some((reply.entity, reply.etag.value));
    }

    /** The PATCH of a list computed for `entity`. */
    method PatchIfUnchanged(id: string, ghost entity: Entity, etag: string, attachments: Attachments, plan: Plan)
      returns (reply: Reply)
      requires GoodDigest(server.route.digest) && etag == ServerTag(server.route.digest(entity))
      modifies server
      ensures server.applied == old(server.applied) || server.applied == old(server.applied) + [Applied(entity, attachments)]
      ensures reply.Ok? ==> server.applied != old(server.applied)
      ensures reply.PreconditionFailed? ==> server.applied == old(server.applied)
      ensures server.refusals == old(server.refusals) + if reply.PreconditionFailed? then 1 else 0
      ensures Undisturbed(plan) && old(WouldSucceed(id, entity, attachments, plan)) ==> reply.Ok?
    {
      ghost var met := Find(server.data, id, plan.deletedToo);
      if met.Some? { AcceptedMeansSame(server.route.digest, entity, server.data[met.value]); }
      reply := server.Patch(id, attachments, Some(etag), plan);
    }

    /** The stored entity is still `entity`, and the route takes the update. */
    ghost predicate WouldSucceed(id: string, entity: Entity, attachments: Attachments, plan: Plan)
      reads server
    {
      var met := Find(server.data, id, plan.deletedToo);
      && met.Some? && server.data[met.value] == entity
      && Patched(server.route, server.data, met.value, attachments, plan.nowIso).Some?
    }

    /** One round: None to try again, a result otherwise. */
    method Attempt(id: string, attempt: nat, round: Round) returns (r: Option<Result>)
      requires GoodDigest(server.route.digest)
      modifies server
      ensures r.None? ==> server.applied == old(server.applied) && server.refusals == old(server.refusals) + 1
      ensures r.Some? ==> !r.value.GaveUp?
      ensures server.applied == old(server.applied) ||
        exists a :: server.applied == old(server.applied) + [a] && ComputedFromStored(a, links, attempt)
      ensures r.Some? && r.value.Updated? ==> server.applied != old(server.applied)
      ensures Quiet(server.route, links, round, attempt, id) ==> r.Some? && r.value.Updated?
    {
      server.Interfere(round.beforeGet);
      var current := ReadEntity(id, round);
      if current.None? { return Some(Failed); }
      var (entity, etag) := current.value;
      var attachments := links(attempt, entity.attachments);
      if attachments.None? { return Some(Failed); }
      server.Interfere(round.beforePatch);
      if !round.patchReaches { return Some(Failed); }
      var reply := PatchIfUnchanged(id, entity, etag, attachments.value, round.plan);
      assert ComputedFromStored(Applied(entity, attachments.value), links, attempt);
      if !round.replyArrives { return Some(Failed); }
      match reply
      case Ok(e) => r := Some(Updated(e));
      case PreconditionFailed => r := None;
      case _ => r := Some(Failed);
    }

    /** conditionalAttachmentPatch. */
    method ConditionalAttachmentPatch(id: string, rounds: nat -> Round) returns (r: Result)
      requires GoodDigest(server.route.digest)
      modifies server
      ensures server.applied == old(server.applied) ||
        exists a :: server.applied == old(server.applied) + [a] && NothingLost(a, links)
      ensures r.Updated? ==> server.applied != old(server.applied)
      ensures r.GaveUp? ==> server.applied == old(server.applied) && server.refusals == old(server.refusals) + ATTEMPTS
      ensures Quiet(server.route, links, rounds(1), 1, id) ==> r.Updated?
    {
      for attempt := 1 to ATTEMPTS + 1
        invariant server.applied == old(server.applied)
        invariant server.refusals == old(server.refusals) + (attempt - 1)
        invariant attempt > 1 ==> !Quiet(server.route, links, rounds(1), 1, id)
      {
        var outcome := Attempt(id, attempt, rounds(attempt));
        if outcome.Some? { return outcome.value; }
      }
      r := GaveUp;
    }
  }
}
