/**
 * The publication of one release in one Google Play edit (scripts/ci/google-play-edit.py):
 * a fixed sequence of requests, any of which may fail before or after its effect.
 */
module PlayEdit {
  import opened Options

  // ---- the plan ----

  datatype Group = Group(language: string, imageType: string)

  datatype Asset = Asset(group: Group, path: string)

  datatype Listing = Listing(language: string, text: string)

  datatype TrackPlan = TrackPlan(track: string, release: string)

  datatype Plan = Plan(artifact: string, expectedVersionCode: int, assets: seq<Asset>, listings: seq<Listing>, tracks: seq<TrackPlan>)

  /** What _validated_plan demands of the shape: tracks and listing languages without repetition. */
  predicate ValidPlan(p: Plan) {
    && p.tracks != []
    && (forall i, j | 0 <= i < j < |p.tracks| :: p.tracks[i].track != p.tracks[j].track)
    && (forall i, j | 0 <= i < j < |p.listings| :: p.listings[i].language != p.listings[j].language)
  }

  predicate ValidEditId(id: string) {
    1 <= |id| <= 255 && forall i | 0 <= i < |id| ::
      'A' <= id[i] <= 'Z' || 'a' <= id[i] <= 'z' || '0' <= id[i] <= '9' || id[i] in "._~-"
  }

  // ---- requests and what they do ----

  datatype Release = Release(release: string, versionCode: int)

  /** What an edit holds, and what the store shows. */
  datatype Content = Content(
    bundles: set<string>, images: map<Group, seq<string>>, listings: map<string, string>, tracks: map<string, Release>)

  datatype Change =
    | Upload(artifact: string)
    | ClearImages(group: Group)
    | AddImage(group: Group, path: string)
    | PutListing(listing: Listing)
    | PutTrack(track: string, release: Release)

  datatype Request = Create | Edit(id: string, change: Change) | Commit(id: string) | Delete(id: string)

  function Images(c: Content, g: Group): seq<string> {
    if g in c.images then c.images[g] else []
  }

  function Apply(c: Content, change: Change): Content {
    match change
    case Upload(artifact) => c.(bundles := c.bundles + {artifact})
    case ClearImages(g) => c.(images := c.images[g := []])
    case AddImage(g, path) => c.(images := c.images[g := Images(c, g) + [path]])
    case PutListing(l) => c.(listings := c.listings[l.language := l.text])
    case PutTrack(t, r) => c.(tracks := c.tracks[t := r])
  }

  function ApplyAll(c: Content, changes: seq<Change>): Content {
    if changes == [] then c else Apply(ApplyAll(c, changes[..|changes| - 1]), changes[|changes| - 1])
  }

  // ---- the changes of a plan, in the order they are sent ----

  function Groups(assets: seq<Asset>): set<Group> {
    set a | a in assets :: a.group
  }

  /** The requests for one asset, given those before it. */
  function AssetChanges(before: seq<Asset>, a: Asset): seq<Change> {
    (if a.group in Groups(before) then [] else [ClearImages(a.group)]) + [AddImage(a.group, a.path)]
  }

  function ImageChanges(assets: seq<Asset>): seq<Change> {
    if assets == [] then []
    else
      var n := |assets| - 1;
      ImageChanges(assets[..n]) + AssetChanges(assets[..n], assets[n])
  }

  function ListingChanges(listings: seq<Listing>): seq<Change> {
    seq(|listings|, i requires 0 <= i < |listings| => PutListing(listings[i]))
  }

  function TrackChanges(tracks: seq<TrackPlan>, code: int): seq<Change> {
    seq(|tracks|, i requires 0 <= i < |tracks| => PutTrack(tracks[i].track, Release(tracks[i].release, code)))
  }

  function Changes(p: Plan): seq<Change> {
    [Upload(p.artifact)] + ImageChanges(p.assets) + ListingChanges(p.listings) + TrackChanges(p.tracks, p.expectedVersionCode)
  }

  function Edits(id: string, changes: seq<Change>): seq<Request> {
    seq(|changes|, i requires 0 <= i < |changes| => Edit(id, changes[i]))
  }

  /** Every request of a publication that goes well. */
  function Requests(p: Plan, id: string): seq<Request> {
    [Create] + Edits(id, Changes(p)) + [Commit(id)]
  }

  // ---- the store and the transport ----

  const MAX_RESPONSE_BYTES := 1048576

  /** Exceptions; an interrupt is a BaseException that is not an Exception. */
  datatype Error = ApiError | NetworkError | ValueError | OutcomeUnknown | Interrupt

  /** A JSON body, with the id it names and whether it gives a version code in range; None for a text that is no object. */
  datatype Body = NoBody | NotJson | Parsed(id: Option<string>, coded: bool)

  /** What comes back for a request, and whether the request took effect when it ended in an error. */
  datatype Answer = Lost(error: Error, applied: bool) | Reply(status: int, length: nat, body: Body, applied: bool)

  /** The answer of a store that has nothing to complain about. */
  function Fine(r: Request): Answer {
    Reply(200, 2, Parsed(Some(if r.Commit? then r.id else ""), true), true)
  }

  function AnswerAt(answers: seq<Answer>, k: nat, r: Request): Answer {
    if k < |answers| then answers[k] else Fine(r)
  }

  function Rest(answers: seq<Answer>, k: nat): seq<Answer> {
    if k <= |answers| then answers[k..] else []
  }

  /** What transport.request makes of an answer; a success that does not name the committed edit leaves the outcome unknown. */
  function ErrorOf(r: Request, a: Answer): Option<Error> {
    if a.Lost? then Some(a.error)
    else if a.length > MAX_RESPONSE_BYTES then
      Some(if r.Commit? && 200 <= a.status < 300 then OutcomeUnknown else ApiError)
    else if !(200 <= a.status < 300) then Some(ApiError)
    else if r.Commit? then (if a.body.Parsed? && a.body.id == Some(r.id) then None else Some(OutcomeUnknown))
    else if a.body.NotJson? then Some(ApiError)
    else None
  }

  class Play {
    /** The id the next edit gets, and the version code read from the uploaded bundle. */
    const nextId: string
    const builtCode: int
    var live: Content
    var edits: map<string, Content>
    var answers: seq<Answer>
    ghost var log: seq<Request>

    constructor (nextId: string, builtCode: int, live: Content, answers: seq<Answer>)
      ensures this.nextId == nextId && this.builtCode == builtCode && this.live == live && this.answers == answers
      ensures edits == map[] && log == []
    {
      this.nextId, this.builtCode, this.live, this.answers := nextId, builtCode, live, answers;
      edits, log := map[], [];
    }

    method Effect(r: Request)
      modifies this`live, this`edits
      ensures edits == match r
        case Create => old(edits)[nextId := old(live)]
        case Edit(id, change) => if id in old(edits) then old(edits)[id := Apply(old(edits)[id], change)] else old(edits)
        case Commit(id) => old(edits) - {id}
        case Delete(id) => old(edits) - {id}
      ensures live == if r.Commit? && r.id in old(edits) then old(edits)[r.id] else old(live)
    {
      match r
      case Create => edits := edits[nextId := live];
      case Edit(id, change) => if id in edits { edits := edits[id := Apply(edits[id], change)]; }
      case Commit(id) =>
        if id in edits { live := edits[id]; }
        edits := edits - {id};
      case Delete(id) => edits := edits - {id};
    }

    /** transport.request: without an error the request has taken effect, with one it may have. */
    method Send(r: Request) returns (error: Option<Error>, answer: Answer)
      modifies this
      ensures log == old(log) + [r]
      ensures answer == AnswerAt(old(answers), 0, r) && answers == Rest(old(answers), 1) && error == ErrorOf(r, answer)
      ensures var happens := error.None? || answer.applied;
        && live == (if happens && r.Commit? && r.id in old(edits) then old(edits)[r.id] else old(live))
        && edits == if !happens then old(edits) else match r
          case Create => old(edits)[nextId := old(live)]
          case Edit(id, change) => if id in old(edits) then old(edits)[id := Apply(old(edits)[id], change)] else old(edits)
          case Commit(id) => old(edits) - {id}
          case Delete(id) => old(edits) - {id}
    {
      log := log + [r];
      answer := Fine(r);
      if answers != [] { answer, answers := answers[0], answers[1..]; }
      error := ErrorOf(r, answer);
      if error.None? || answer.applied { Effect(r); }
    }
  }

  // ---- the publication ----

  /** How a publication ends; `primary` is the error the clean-up was decided by, `raised` the one the caller sees. */
  datatype Result =
    | Committed(editId: string, versionCode: int, tracks: seq<string>)
    | NotStarted(error: Error)
    | Failed(primary: Error, raised: Error)

  /** Where a publication starts from. */
  datatype Base = Base(log: seq<Request>, live: Content, answers: seq<Answer>)

  class Publisher {
    const play: Play
    const plan: Plan

    constructor (play: Play, plan: Plan)
      ensures this.play == play && this.plan == plan
    {
      this.play, this.plan := play, plan;
    }

    function All(): seq<Request> {
      Requests(plan, play.nextId)
    }

    function EditIdError(a: Answer): Option<Error> {
      if !(a.Reply? && a.body.Parsed? && a.body.id.Some?) || !(1 <= |play.nextId| <= 255) then Some(ValueError)
      else if !ValidEditId(play.nextId) then Some(ApiError)
      else None
    }

    function UploadError(a: Answer): Option<Error> {
      if !(a.Reply? && a.body.Parsed? && a.body.coded) then Some(ValueError)
      else if play.builtCode != plan.expectedVersionCode then Some(ApiError)
      else None
    }

    function CommitError(e: Option<Error>): Option<Error> {
      if e == Some(NetworkError) then Some(OutcomeUnknown) else e
    }

    /** The error the plan's k-th request ends in, what is checked of its answer included. */
    function Outcome(answers: seq<Answer>, k: nat): Option<Error>
      requires k < |All()|
    {
      var r := All()[k];
      var a := AnswerAt(answers, k, r);
      var e := ErrorOf(r, a);
      if r.Commit? then CommitError(e)
      else if e.Some? then e
      else if r.Create? then EditIdError(a)
      else if r.Edit? && r.change.Upload? then UploadError(a)
      else None
    }

    /** The first of the plan's first `n` requests that fails. */
    function FirstFailure(answers: seq<Answer>, n: nat): (r: Option<nat>)
      requires n <= |All()|
      ensures r.Some? ==> r.value < n && Outcome(answers, r.value).Some?
      ensures forall i | 0 <= i < (if r.Some? then r.value else n) :: Outcome(answers, i).None?
    {
      if n == 0 then None
      else
        var f := FirstFailure(answers, n - 1);
        if f.Some? then f else if Outcome(answers, n - 1).Some? then Some(n - 1) else None
    }

    lemma {:induction false} FailureIsFirst(answers: seq<Answer>, k: nat, n: nat)
      requires k < n <= |All()| && FirstFailure(answers, k).None? && Outcome(answers, k).Some?
      ensures FirstFailure(answers, n) == Some(k)
    {
      if k < n - 1 { FailureIsFirst(answers, k, n - 1); }
    }

    /** The changes sent so far are the first of the plan's, none failed, and the edit holds them. */
    ghost predicate Sent(b: Base, done: seq<Change>)
      reads play
    {
      && done <= Changes(plan)
      && play.log == b.log + [Create] + Edits(play.nextId, done)
      && play.live == b.live
      && play.nextId in play.edits && play.edits[play.nextId] == ApplyAll(b.live, done)
      && play.answers == Rest(b.answers, 1 + |done|)
      && FirstFailure(b.answers, 1 + |done|).None?
    }

    /** The k-th request, a change, was sent and is the first that failed; the edit is there. */
    ghost predicate StoppedAt(b: Base, k: nat, e: Error)
      reads play
    {
      && 1 <= k <= |Changes(plan)|
      && play.log == b.log + All()[..k + 1]
      && play.live == b.live
      && play.nextId in play.edits
      && play.answers == Rest(b.answers, k + 1)
      && FirstFailure(b.answers, k).None? && Outcome(b.answers, k) == Some(e)
    }

    ghost predicate Stopped(b: Base, e: Error)
      reads play
    {
      exists k: nat :: StoppedAt(b, k, e)
    }

    lemma EditsSnoc(log: seq<Request>, done: seq<Change>, change: Change)
      ensures Edits(play.nextId, done + [change]) == Edits(play.nextId, done) + [Edit(play.nextId, change)]
      ensures log + Edits(play.nextId, done) + [Edit(play.nextId, change)] == log + Edits(play.nextId, done + [change])
    {
    }

    lemma AllStartsWith(log: seq<Request>, done: seq<Change>)
      requires done <= Changes(plan)
      ensures log + [Create] + Edits(play.nextId, done) == log + All()[..|done| + 1]
    {
      assert [Create] + Edits(play.nextId, done) == All()[..|done| + 1];
      assert log + [Create] + Edits(play.nextId, done) == log + ([Create] + Edits(play.nextId, done));
    }

    lemma AnswerIsNext(answers: seq<Answer>, k: nat, r: Request)
      ensures AnswerAt(Rest(answers, k), 0, r) == AnswerAt(answers, k, r)
      ensures Rest(Rest(answers, k), 1) == Rest(answers, k + 1)
    {
    }

    lemma NthIsChange(done: seq<Change>, change: Change)
      requires done + [change] <= Changes(plan)
      ensures All()[1 + |done|] == Edit(play.nextId, change)
    {
      assert (done + [change])[|done|] == change;
    }

    /** The change after those done: where it is among the requests, and what sending it adds. */
    lemma ChangeIsNext(b: Base, done: seq<Change>, change: Change)
      requires done + [change] <= Changes(plan)
      ensures All()[1 + |done|] == Edit(play.nextId, change)
      ensures b.log + [Create] + Edits(play.nextId, done) + [Edit(play.nextId, change)] == b.log + [Create] + Edits(play.nextId, done + [change])
      ensures b.log + [Create] + Edits(play.nextId, done + [change]) == b.log + All()[..|done| + 2]
      ensures AnswerAt(Rest(b.answers, 1 + |done|), 0, Edit(play.nextId, change)) == AnswerAt(b.answers, 1 + |done|, Edit(play.nextId, change))
      ensures Rest(Rest(b.answers, 1 + |done|), 1) == Rest(b.answers, 2 + |done|)
      ensures ApplyAll(b.live, done + [change]) == Apply(ApplyAll(b.live, done), change)
    {
      NthIsChange(done, change);
      EditsSnoc(b.log + [Create], done, change);
      AllStartsWith(b.log, done + [change]);
      AnswerIsNext(b.answers, 1 + |done|, Edit(play.nextId, change));
      assert (done + [change])[..|done|] == done;
      hide Edits, Changes, All, Rest, AnswerAt;
    }

    method SendChange(change: Change, ghost b: Base, ghost done: seq<Change>) returns (error: Option<Error>)
      requires Sent(b, done) && done + [change] <= Changes(plan) && !change.Upload?
      modifies play
      ensures if error.None? then Sent(b, done + [change]) else Stopped(b, error.value)
    {
      ChangeIsNext(b, done, change);
      var answer;
      error, answer := play.Send(Edit(play.nextId, change));
      assert Outcome(b.answers, 1 + |done|) == error;
      if error.Some? { assert StoppedAt(b, 1 + |done|, error.value); }
    }

    method SendUpload(ghost b: Base) returns (error: Option<Error>)
      requires Sent(b, [])
      modifies play
      ensures if error.None? then Sent(b, [Upload(plan.artifact)]) && play.builtCode == plan.expectedVersionCode
        else Stopped(b, error.value)
    {
      assert [] + [Upload(plan.artifact)] == [Upload(plan.artifact)] <= Changes(plan);
      ChangeIsNext(b, [], Upload(plan.artifact));
      var answer;
      error, answer := play.Send(Edit(play.nextId, Upload(plan.artifact)));
      if error.None? { error := UploadError(answer); }
      assert Outcome(b.answers, 1) == error;
      if error.Some? { assert StoppedAt(b, 1, error.value); }
    }

    /** One asset; a group's old images go before its first new one comes. */
    method SendImage(asset: Asset, cleared: set<Group>, ghost before: seq<Asset>, ghost b: Base, ghost done: seq<Change>)
      returns (error: Option<Error>, nowCleared: set<Group>)
      requires Sent(b, done) && done + AssetChanges(before, asset) <= Changes(plan) && cleared == Groups(before)
      modifies play
      ensures if error.None? then Sent(b, done + AssetChanges(before, asset)) && nowCleared == cleared + {asset.group}
        else Stopped(b, error.value)
    {
      nowCleared := cleared + {asset.group};
      ghost var add := [AddImage(asset.group, asset.path)];
      if asset.group !in cleared {
        ghost var clear := [ClearImages(asset.group)];
        assert done + AssetChanges(before, asset) == done + clear + add;
        error := SendChange(ClearImages(asset.group), b, done);
        if error.Some? { return; }
        error := SendChange(AddImage(asset.group, asset.path), b, done + clear);
      } else {
        assert AssetChanges(before, asset) == add;
        error := SendChange(AddImage(asset.group, asset.path), b, done);
      }
    }

    method SendAsset(i: nat, cleared: set<Group>, ghost b: Base) returns (error: Option<Error>, nowCleared: set<Group>)
      requires i < |plan.assets| && Sent(b, BeforeAsset(plan, i)) && cleared == Groups(plan.assets[..i])
      modifies play
      ensures if error.None? then Sent(b, BeforeAsset(plan, i + 1)) && nowCleared == Groups(plan.assets[..i + 1])
        else Stopped(b, error.value)
    {
      ImagePrefix(plan, i);
      error, nowCleared := SendImage(plan.assets[i], cleared, plan.assets[..i], b, BeforeAsset(plan, i));
      assert plan.assets[..i + 1] == plan.assets[..i] + [plan.assets[i]];
    }

    /** The loop over the listing assets. */
    method SendImages(ghost b: Base) returns (error: Option<Error>)
      requires Sent(b, BeforeAsset(plan, 0))
      modifies play
      ensures if error.None? then Sent(b, BeforeAsset(plan, |plan.assets|)) else Stopped(b, error.value)
    {
      hide Sent;
      hide Stopped;
      error := None;
      var clearedAssetGroups: set<Group> := {};
      for i := 0 to |plan.assets|
        invariant clearedAssetGroups == Groups(plan.assets[..i])
        invariant Sent(b, BeforeAsset(plan, i)) && error.None?
      {
        error, clearedAssetGroups := SendAsset(i, clearedAssetGroups, b);
        if error.Some? { return; }
      }
    }

    method SendListings(ghost b: Base) returns (error: Option<Error>)
      requires Sent(b, BeforeListing(plan, 0))
      modifies play
      ensures if error.None? then Sent(b, BeforeListing(plan, |plan.listings|)) else Stopped(b, error.value)
    {
      hide Sent;
      hide Stopped;
      error := None;
      for i := 0 to |plan.listings|
        invariant Sent(b, BeforeListing(plan, i)) && error.None?
      {
        ListingPrefix(plan, i);
        error := SendChange(PutListing(plan.listings[i]), b, BeforeListing(plan, i));
        if error.Some? { return; }
      }
    }

    method SendTrack(i: nat, ghost b: Base) returns (error: Option<Error>)
      requires i < |plan.tracks| && Sent(b, BeforeTrack(plan, i)) && play.builtCode == plan.expectedVersionCode
      modifies play
      ensures if error.None? then Sent(b, BeforeTrack(plan, i + 1)) else Stopped(b, error.value)
    {
      TrackPrefix(plan, i);
      var release := Release(plan.tracks[i].release, play.builtCode);
      error := SendChange(PutTrack(plan.tracks[i].track, release), b, BeforeTrack(plan, i));
    }

    method SendTracks(ghost b: Base) returns (error: Option<Error>, published: seq<string>)
      requires Sent(b, BeforeTrack(plan, 0)) && play.builtCode == plan.expectedVersionCode
      modifies play
      ensures if error.None? then Sent(b, BeforeTrack(plan, |plan.tracks|)) && published == TrackNames(plan.tracks)
        else Stopped(b, error.value)
    {
      hide Sent;
      hide Stopped;
      error, published := None, [];
      for i := 0 to |plan.tracks|
        invariant Sent(b, BeforeTrack(plan, i)) && error.None?
        invariant published == TrackNames(plan.tracks[..i])
      {
        error := SendTrack(i, b);
        if error.Some? { return; }
        published := published + [plan.tracks[i].track];
      }
      assert plan.tracks[..|plan.tracks|] == plan.tracks;
    }

    /** Everything between the edit's creation and its commit. */
    method SendChanges(ghost b: Base) returns (error: Option<Error>, published: seq<string>)
      requires Sent(b, [])
      modifies play
      ensures error.None? ==> Sent(b, Changes(plan)) && play.builtCode == plan.expectedVersionCode && published == TrackNames(plan.tracks)
      ensures error.Some? ==> Stopped(b, error.value)
    {
      published := [];
      PlanParts(plan);
      error := SendUpload(b);
      if error.Some? { return; }
      error := SendImages(b);
      if error.Some? { return; }
      error := SendListings(b);
      if error.Some? { return; }
      error, published := SendTracks(b);
    }

    /** Whether the k-th request is the commit and took effect although it ended in an error. */
    predicate CommitsUnseen(answers: seq<Answer>, k: nat)
      requires k < |All()|
    {
      k == |All()| - 1 && AnswerAt(answers, k, All()[k]).applied
    }

    /** The k-th request, not the first, is the first that failed: what was sent, and what became of the store and the edit. */
    ghost predicate EndedAt(b: Base, k: nat, e: Error)
      reads play
    {
      && 1 <= k < |All()| && FirstFailure(b.answers, |All()|) == Some(k) && Outcome(b.answers, k) == Some(e)
      && play.log == b.log + All()[..k + 1]
      && play.answers == Rest(b.answers, k + 1)
      && (play.nextId in play.edits <==> !CommitsUnseen(b.answers, k))
      && play.live == if play.nextId in play.edits then b.live else ApplyAll(b.live, Changes(plan))
    }

    lemma StoppedIsEnded(b: Base, k: nat, e: Error)
      requires StoppedAt(b, k, e)
      ensures EndedAt(b, k, e)
    {
      FailureIsFirst(b.answers, k, |All()|);
    }

    /** The commit request and what its errors are turned into. */
    method SendCommit(ghost b: Base) returns (error: Option<Error>)
      requires Sent(b, Changes(plan))
      modifies play
      ensures play.log == b.log + All() && play.answers == Rest(b.answers, |All()|)
      ensures error == Outcome(b.answers, |All()| - 1)
      ensures error.None? ==> FirstFailure(b.answers, |All()|).None? && play.live == ApplyAll(b.live, Changes(plan))
      ensures error.None? ==> play.nextId !in play.edits
      ensures error.Some? ==> EndedAt(b, |All()| - 1, error.value)
    {
      ghost var k := |All()| - 1;
      assert All()[k] == Commit(play.nextId);
      assert k == 1 + |Changes(plan)|;
      assert b.log + [Create] + Edits(play.nextId, Changes(plan)) + [Commit(play.nextId)] == b.log + All();
      var answer;
      error, answer := play.Send(Commit(play.nextId));
      assert answer == AnswerAt(b.answers, k, All()[k]);
      error := CommitError(error);
      assert All()[..k + 1] == All();
      if error.Some? { FailureIsFirst(b.answers, k, |All()|); }
    }

    /** The guarded part: the changes and the commit of an edit whose id was accepted. */
    method SendAll(ghost b: Base) returns (error: Option<Error>, published: seq<string>)
      requires Sent(b, [])
      modifies play
      ensures error.None? ==>
        && FirstFailure(b.answers, |All()|).None?
        && play.log == b.log + All() && play.live == ApplyAll(b.live, Changes(plan)) && play.nextId !in play.edits
        && play.builtCode == plan.expectedVersionCode && published == TrackNames(plan.tracks)
      ensures error.Some? ==> exists k: nat :: EndedAt(b, k, error.value)
    {
      hide StoppedAt, EndedAt, Sent, FirstFailure, ApplyAll, Outcome;
      error, published := SendChanges(b);
      if error.Some? {
        ghost var k: nat :| StoppedAt(b, k, error.value);
        StoppedIsEnded(b, k, error.value);
        return;
      }
      error := SendCommit(b);
    }

    /** The deletion after a failure at the k-th request: how it ends, and whether it takes effect. */
    function DeleteError(answers: seq<Answer>, k: nat): Option<Error> {
      ErrorOf(Delete(play.nextId), AnswerAt(answers, k + 1, Delete(play.nextId)))
    }

    predicate Deletes(answers: seq<Answer>, k: nat) {
      DeleteError(answers, k).None? || AnswerAt(answers, k + 1, Delete(play.nextId)).applied
    }

    /** What becomes of a publication whose k-th request, not the first, is the first that failed. */
    ghost predicate Fails(b: Base, k: nat, r: Result)
      requires k < |All()| && Outcome(b.answers, k).Some?
      reads play
    {
      var e := Outcome(b.answers, k).value;
      && r == Failed(e, if e != Interrupt && DeleteError(b.answers, k) == Some(Interrupt) then Interrupt else e)
      && play.log == b.log + All()[..k + 1] + CleanUp(e, play.nextId)
      && play.live == (if CommitsUnseen(b.answers, k) then ApplyAll(b.live, Changes(plan)) else b.live)
      && (play.nextId in play.edits <==> !CommitsUnseen(b.answers, k) && (e == Interrupt || !Deletes(b.answers, k)))
    }

    /** What follows a failure of the guarded part: a deletion, unless it was an interrupt. */
    method CleanUpAfter(primary: Error, ghost b: Base, ghost k: nat) returns (r: Result)
      requires EndedAt(b, k, primary)
      modifies play
      ensures Fails(b, k, r)
    {
      var raised := primary;
      if primary != Interrupt {
        AnswerIsNext(b.answers, k + 1, Delete(play.nextId));
        var cleanup, last := play.Send(Delete(play.nextId));
        if cleanup == Some(Interrupt) { raised := Interrupt; }
      }
      r := Failed(primary, raised);
    }

    /** Whether the creation takes effect, however it ends. */
    predicate Creates(answers: seq<Answer>) {
      var a := AnswerAt(answers, 0, Create);
      ErrorOf(Create, a).None? || a.applied
    }

    /** The creation of the edit, and the check of its id. */
    method Begin(ghost b: Base) returns (error: Option<Error>)
      requires b == Base(play.log, play.live, play.answers)
      modifies play
      ensures error == Outcome(b.answers, 0)
      ensures error.None? ==> Sent(b, [])
      ensures error.Some? ==> FirstFailure(b.answers, |All()|) == Some(0) && play.log == b.log + [Create] && play.live == b.live
      ensures play.edits == if Creates(b.answers) then old(play.edits)[play.nextId := b.live] else old(play.edits)
    {
      var answer;
      error, answer := play.Send(Create);
      if error.None? { error := EditIdError(answer); }
      assert All()[0] == Create && FirstFailure(b.answers, 0).None?;
      assert Edits(play.nextId, []) == [] && b.log + [Create] + [] == b.log + [Create];
      if error.Some? { FailureIsFirst(b.answers, 0, |All()|); }
    }

    /** publish_release, from the creation of the edit on, for whatever the requests are answered. */
    method PublishRelease() returns (r: Result)
      modifies play
      ensures !ValidPlan(plan) ==>
        r == NotStarted(ValueError) && play.log == old(play.log) && play.live == old(play.live) && play.edits == old(play.edits)
      ensures ValidPlan(plan) ==>
        var b := Base(old(play.log), old(play.live), old(play.answers));
        match FirstFailure(b.answers, |All()|)
        case None =>
          && r == Committed(play.nextId, plan.expectedVersionCode, TrackNames(plan.tracks))
          && play.log == b.log + All() && play.live == ApplyAll(b.live, Changes(plan)) && play.nextId !in play.edits
        case Some(k) =>
          if k > 0 then Fails(b, k, r)
          else
            && r == NotStarted(Outcome(b.answers, 0).value) && play.log == b.log + [Create] && play.live == b.live
            && play.edits == if Creates(b.answers) then old(play.edits)[play.nextId := b.live] else old(play.edits)
    {
      if !ValidPlan(plan) { return NotStarted(ValueError); }
      ghost var b := Base(play.log, play.live, play.answers);
      var error := Begin(b);
      if error.Some? { return NotStarted(error.value); }
      var published;
      error, published := SendAll(b);
      if error.None? { return Committed(play.nextId, play.builtCode, published); }
      ghost var k: nat :| EndedAt(b, k, error.value);
      r := CleanUpAfter(error.value, b, k);
    }
  }

  /**
   * An interrupt of the k-th request of a plan that goes well until then: the edit is left at
   * Google Play, whatever the store would have answered to a deletion.
   */
  method InterruptLeavesEdit(plan: Plan, nextId: string, live: Content, k: nat) returns (play: Play, r: Result)
    requires ValidPlan(plan) && ValidEditId(nextId) && 1 <= k < |Requests(plan, nextId)|
    ensures r == Failed(Interrupt, Interrupt)
    ensures play.nextId == nextId && nextId in play.edits && play.live == live
    ensures forall request | request in play.log :: request != Delete(nextId)
  {
    hide Requests, Changes, ApplyAll, Publisher.FirstFailure;
    var all := Requests(plan, nextId);
    var answers := seq(k, i requires 0 <= i < k => Fine(all[i])) + [Lost(Interrupt, false)];
    play := new Play(nextId, plan.expectedVersionCode, live, answers);
    var publisher := new Publisher(play, plan);
    GoodUntil(publisher, answers, k, k);
    publisher.FailureIsFirst(answers, k, |all|);
    r := publisher.PublishRelease();
    CommitComesLast(plan, nextId, k + 1);
    assert play.log == all[..k + 1];
  }

  /**
   * An answer to the creation that is lost, or that carries no usable id, leaves an edit too, with
   * an ordinary Exception: nobody knows its id, so no deletion follows.
   */
  method LostCreationLeavesEdit(plan: Plan, nextId: string, live: Content, answer: Answer) returns (play: Play, r: Result)
    requires ValidPlan(plan) && (answer.Lost? ==> answer.error != Interrupt && answer.applied)
    requires answer.Reply? ==> 200 <= answer.status < 300 && answer.length <= MAX_RESPONSE_BYTES && answer.body == NoBody
    ensures r.NotStarted? && r.error != Interrupt && (answer.Reply? ==> r.error == ValueError)
    ensures play.nextId == nextId && nextId in play.edits && play.live == live && play.log == [Create]
  {
    play := new Play(nextId, plan.expectedVersionCode, live, [answer]);
    var publisher := new Publisher(play, plan);
    assert publisher.All()[0] == Create;
    assert publisher.FirstFailure([answer], 0).None?;
    publisher.FailureIsFirst([answer], 0, |publisher.All()|);
    hide Requests, Changes, ApplyAll, Publisher.FirstFailure;
    r := publisher.PublishRelease();
  }

  lemma {:induction false} GoodUntil(publisher: Publisher, answers: seq<Answer>, k: nat, n: nat)
    requires ValidEditId(publisher.play.nextId) && publisher.play.builtCode == publisher.plan.expectedVersionCode
    requires n <= k <= |publisher.All()| && k <= |answers|
    requires forall i | 0 <= i < k :: answers[i] == Fine(publisher.All()[i])
    ensures publisher.FirstFailure(answers, n).None?
  {
    if n > 0 { GoodUntil(publisher, answers, k, n - 1); }
  }

  // ---- the requests of a plan ----

  function BeforeAsset(p: Plan, i: nat): seq<Change>
    requires i <= |p.assets|
  {
    [Upload(p.artifact)] + ImageChanges(p.assets[..i])
  }

  function BeforeListing(p: Plan, i: nat): seq<Change>
    requires i <= |p.listings|
  {
    [Upload(p.artifact)] + ImageChanges(p.assets) + ListingChanges(p.listings)[..i]
  }

  function BeforeTrack(p: Plan, i: nat): seq<Change>
    requires i <= |p.tracks|
  {
    [Upload(p.artifact)] + ImageChanges(p.assets) + ListingChanges(p.listings) + TrackChanges(p.tracks, p.expectedVersionCode)[..i]
  }

  /** Where one loop ends the next begins. */
  lemma PlanParts(p: Plan)
    ensures BeforeAsset(p, 0) == [Upload(p.artifact)]
    ensures BeforeAsset(p, |p.assets|) == BeforeListing(p, 0)
    ensures BeforeListing(p, |p.listings|) == BeforeTrack(p, 0)
    ensures BeforeTrack(p, |p.tracks|) == Changes(p)
  {
    assert p.assets[..|p.assets|] == p.assets && p.assets[..0] == [];
  }

  function TrackNames(tracks: seq<TrackPlan>): seq<string> {
    seq(|tracks|, i requires 0 <= i < |tracks| => tracks[i].track)
  }

  /** An Exception is followed by the edit's deletion, an interrupt is not. */
  function CleanUp(primary: Error, id: string): seq<Request> {
    if primary == Interrupt then [] else [Delete(id)]
  }

  lemma {:induction false} ImageChangesGrow(assets: seq<Asset>, i: nat)
    requires i <= |assets|
    ensures ImageChanges(assets[..i]) <= ImageChanges(assets)
    decreases |assets|
  {
    if i < |assets| {
      var n := |assets| - 1;
      ImageChangesGrow(assets[..n], i);
      assert assets[..n][..i] == assets[..i];
    } else {
      assert assets[..i] == assets;
    }
  }

  lemma ImagePrefix(p: Plan, i: nat)
    requires i < |p.assets|
    ensures BeforeAsset(p, i) + AssetChanges(p.assets[..i], p.assets[i]) <= Changes(p)
    ensures BeforeAsset(p, i) + AssetChanges(p.assets[..i], p.assets[i]) == BeforeAsset(p, i + 1)
  {
    ImageChangesGrow(p.assets, i + 1);
    assert p.assets[..i + 1][..i] == p.assets[..i];
  }

  lemma ListingPrefix(p: Plan, i: nat)
    requires i < |p.listings|
    ensures BeforeListing(p, i) + [PutListing(p.listings[i])] == BeforeListing(p, i + 1) <= Changes(p)
  {
    var changes := ListingChanges(p.listings);
    assert changes[..i + 1] == changes[..i] + [PutListing(p.listings[i])];
  }

  lemma TrackPrefix(p: Plan, i: nat)
    requires i < |p.tracks|
    ensures BeforeTrack(p, i) + [PutTrack(p.tracks[i].track, Release(p.tracks[i].release, p.expectedVersionCode))] == BeforeTrack(p, i + 1)
    ensures BeforeTrack(p, i + 1) <= Changes(p)
  {
    var changes := TrackChanges(p.tracks, p.expectedVersionCode);
    assert changes[..i + 1] == changes[..i] + [changes[i]];
  }

  // ---- what a publication comes to ----

  function Count(log: seq<Request>, r: Request): nat {
    multiset(log)[r]
  }

  /** Commits and deletions of the edit among the first requests of a plan: no deletion, and a commit only as the last of all. */
  lemma CommitComesLast(p: Plan, id: string, n: nat)
    requires n <= |Requests(p, id)|
    ensures Count(Requests(p, id)[..n], Commit(id)) == if n == |Requests(p, id)| then 1 else 0
    ensures Count(Requests(p, id)[..n], Delete(id)) == 0
  {
    var all := Requests(p, id);
    var mutations := [Create] + Edits(id, Changes(p));
    assert forall i | 0 <= i < |mutations| :: mutations[i] != Commit(id) && mutations[i] != Delete(id);
    if n == |all| {
      assert all[..n] == mutations + [Commit(id)];
    } else {
      assert all[..n] == mutations[..n];
    }
  }

  /** A failed publication: at most one commit, sent after every change; one deletion exactly for an Exception. */
  lemma FailureIsCleanedUp(p: Plan, id: string, n: nat, primary: Error)
    requires 1 <= n <= |Requests(p, id)|
    ensures var sent := Requests(p, id)[..n] + CleanUp(primary, id);
      && Count(sent, Commit(id)) <= 1
      && (Count(sent, Commit(id)) == 1 ==> [Create] + Edits(id, Changes(p)) <= sent)
      && (Count(sent, Delete(id)) == 1 <==> primary != Interrupt)
      && Count(sent, Delete(id)) <= 1
  {
    CommitComesLast(p, id, n);
    var sent := Requests(p, id)[..n] + CleanUp(primary, id);
    assert multiset(sent) == multiset(Requests(p, id)[..n]) + multiset(CleanUp(primary, id));
    if n == |Requests(p, id)| { assert Requests(p, id)[..n] == Requests(p, id); }
  }

  lemma {:induction false} ApplyAppend(c: Content, a: seq<Change>, b: seq<Change>)
    ensures ApplyAll(c, a + b) == ApplyAll(ApplyAll(c, a), b)
    decreases |b|
  {
    if b == [] {
      assert a + b == a;
    } else {
      var n := |b| - 1;
      ApplyAppend(c, a, b[..n]);
      assert (a + b)[..|a + b| - 1] == a + b[..n];
    }
  }

  /** A plan's images for a group, in order. */
  function ImagesOf(assets: seq<Asset>, g: Group): seq<string> {
    if assets == [] then []
    else
      var n := |assets| - 1;
      ImagesOf(assets[..n], g) + if assets[n].group == g then [assets[n].path] else []
  }

  lemma ApplyOne(c: Content, change: Change)
    ensures ApplyAll(c, [change]) == Apply(c, change)
  {
    assert [change][..0] == [];
  }

  lemma ApplyTwo(c: Content, first: Change, second: Change)
    ensures ApplyAll(c, [first, second]) == Apply(Apply(c, first), second)
  {
    assert [first, second][..1] == [first];
    ApplyOne(c, first);
  }

  lemma AddEffect(c: Content, a: Asset, g: Group)
    ensures var r := Apply(c, AddImage(a.group, a.path));
      && Images(r, g) == (if a.group == g then Images(c, g) + [a.path] else Images(c, g))
      && r.listings == c.listings && r.tracks == c.tracks && r.bundles == c.bundles
  {
  }

  lemma ClearEffect(c: Content, group: Group, g: Group)
    ensures var r := Apply(c, ClearImages(group));
      && Images(r, g) == (if group == g then [] else Images(c, g))
      && r.listings == c.listings && r.tracks == c.tracks && r.bundles == c.bundles
  {
  }

  lemma AssetEffect(c: Content, before: seq<Asset>, a: Asset, g: Group)
    ensures var r := ApplyAll(c, AssetChanges(before, a));
      && Images(r, g) == (if a.group != g then Images(c, g) else if g in Groups(before) then Images(c, g) + [a.path] else [a.path])
      && r.listings == c.listings && r.tracks == c.tracks && r.bundles == c.bundles
  {
    var clear, add := ClearImages(a.group), AddImage(a.group, a.path);
    if a.group in Groups(before) {
      assert AssetChanges(before, a) == [add];
      ApplyOne(c, add);
      AddEffect(c, a, g);
    } else {
      assert AssetChanges(before, a) == [clear, add];
      ApplyTwo(c, clear, add);
      ClearEffect(c, a.group, g);
      AddEffect(Apply(c, clear), a, g);
      assert [] + [a.path] == [a.path];
    }
  }

  lemma ImagesStep(c: Content, assets: seq<Asset>)
    requires assets != []
    ensures var n := |assets| - 1;
      ApplyAll(c, ImageChanges(assets)) == ApplyAll(ApplyAll(c, ImageChanges(assets[..n])), AssetChanges(assets[..n], assets[n]))
  {
    var n := |assets| - 1;
    ApplyAppend(c, ImageChanges(assets[..n]), AssetChanges(assets[..n], assets[n]));
  }

  /** Interleaved as they may be, the assets leave each touched group with its images in order, and no other. */
  lemma {:induction false} ImagesEffect(c: Content, assets: seq<Asset>, g: Group)
    ensures var r := ApplyAll(c, ImageChanges(assets));
      && Images(r, g) == (if g in Groups(assets) then ImagesOf(assets, g) else Images(c, g))
      && r.listings == c.listings && r.tracks == c.tracks && r.bundles == c.bundles
  {
    if assets != [] {
      var n := |assets| - 1;
      var before, a := assets[..n], assets[n];
      ImagesStep(c, assets);
      ImagesEffect(c, before, g);
      AssetEffect(ApplyAll(c, ImageChanges(before)), before, a, g);
      hide ApplyAll, AssetChanges, ImageChanges;
      assert assets == before + [a];
      assert Groups(assets) == Groups(before) + {a.group};
      if g !in Groups(before) { UntouchedHasNone(before, g); }
    }
  }

  lemma {:induction false} UntouchedHasNone(assets: seq<Asset>, g: Group)
    requires g !in Groups(assets)
    ensures ImagesOf(assets, g) == []
  {
    if assets != [] {
      var n := |assets| - 1;
      assert assets == assets[..n] + [assets[n]];
      UntouchedHasNone(assets[..n], g);
    }
  }

  /** A plan's text for a language, None when it has none. */
  function PlannedText(listings: seq<Listing>, language: string): Option<string> {
    if listings == [] then None
    else
      var n := |listings| - 1;
      if listings[n].language == language then Some(listings[n].text) else PlannedText(listings[..n], language)
  }

  function PlannedRelease(tracks: seq<TrackPlan>, track: string): Option<string> {
    if tracks == [] then None
    else
      var n := |tracks| - 1;
      if tracks[n].track == track then Some(tracks[n].release) else PlannedRelease(tracks[..n], track)
  }

  function Lookup<V>(m: map<string, V>, k: string): Option<V> {
    if k in m then Some(m[k]) else None
  }

  lemma {:induction false} ListingsEffect(c: Content, listings: seq<Listing>, language: string)
    ensures var r := ApplyAll(c, ListingChanges(listings));
      && r.images == c.images && r.tracks == c.tracks && r.bundles == c.bundles
      && Lookup(r.listings, language) ==
        (if PlannedText(listings, language).Some? then PlannedText(listings, language) else Lookup(c.listings, language))
  {
    if listings != [] {
      var n := |listings| - 1;
      ListingsEffect(c, listings[..n], language);
      assert ListingChanges(listings)[..n] == ListingChanges(listings[..n]);
    }
  }

  lemma {:induction false} TracksEffect(c: Content, tracks: seq<TrackPlan>, code: int, track: string)
    ensures var r := ApplyAll(c, TrackChanges(tracks, code));
      && r.images == c.images && r.listings == c.listings && r.bundles == c.bundles
      && Lookup(r.tracks, track) == (if PlannedRelease(tracks, track).Some?
        then Some(Release(PlannedRelease(tracks, track).value, code)) else Lookup(c.tracks, track))
  {
    if tracks != [] {
      var n := |tracks| - 1;
      TracksEffect(c, tracks[..n], code, track);
      assert TrackChanges(tracks, code)[..n] == TrackChanges(tracks[..n], code);
    }
  }

  /** In a valid plan every listing and every track counts. */
  lemma {:induction false} PlannedListing(listings: seq<Listing>, i: nat)
    requires i < |listings| && forall j, k | 0 <= j < k < |listings| :: listings[j].language != listings[k].language
    ensures PlannedText(listings, listings[i].language) == Some(listings[i].text)
  {
    var n := |listings| - 1;
    if i < n { PlannedListing(listings[..n], i); }
  }

  lemma {:induction false} PlannedTrack(tracks: seq<TrackPlan>, i: nat)
    requires i < |tracks| && forall j, k | 0 <= j < k < |tracks| :: tracks[j].track != tracks[k].track
    ensures PlannedRelease(tracks, tracks[i].track) == Some(tracks[i].release)
  {
    var n := |tracks| - 1;
    if i < n { PlannedTrack(tracks[..n], i); }
  }

  lemma ChangesEffect(c: Content, p: Plan)
    ensures ApplyAll(c, Changes(p)) ==
      ApplyAll(ApplyAll(ApplyAll(ApplyAll(c, [Upload(p.artifact)]), ImageChanges(p.assets)), ListingChanges(p.listings)),
        TrackChanges(p.tracks, p.expectedVersionCode))
  {
    ApplyAppend(c, [Upload(p.artifact)], ImageChanges(p.assets));
    var images := [Upload(p.artifact)] + ImageChanges(p.assets);
    ApplyAppend(c, images, ListingChanges(p.listings));
    ApplyAppend(c, images + ListingChanges(p.listings), TrackChanges(p.tracks, p.expectedVersionCode));
  }

  /**
   * What a committed edit holds: every touched image group has exactly the plan's images in
   * order, every planned listing and track is set, and everything else is as it was.
   */
  lemma CommittedContent(c: Content, p: Plan, g: Group, language: string, track: string)
    ensures var r := ApplyAll(c, Changes(p));
      && r.bundles == c.bundles + {p.artifact}
      && Images(r, g) == (if g in Groups(p.assets) then ImagesOf(p.assets, g) else Images(c, g))
      && Lookup(r.listings, language) ==
        (if PlannedText(p.listings, language).Some? then PlannedText(p.listings, language) else Lookup(c.listings, language))
      && Lookup(r.tracks, track) == (if PlannedRelease(p.tracks, track).Some?
        then Some(Release(PlannedRelease(p.tracks, track).value, p.expectedVersionCode)) else Lookup(c.tracks, track))
  {
    ChangesEffect(c, p);
    var c1 := ApplyAll(c, [Upload(p.artifact)]);
    ApplyOne(c, Upload(p.artifact));
    ImagesEffect(c1, p.assets, g);
    var c2 := ApplyAll(c1, ImageChanges(p.assets));
    ListingsEffect(c2, p.listings, language);
    TracksEffect(ApplyAll(c2, ListingChanges(p.listings)), p.tracks, p.expectedVersionCode, track);
  }
}
