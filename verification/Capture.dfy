/**
 * The locked part of a capture with audio (apps/cloud/src/server-capture.ts): the audio is
 * published first, the document that references it second, and audio left over by a failed
 * document write is removed only when the visible document does not reference it.
 */
module Capture {
  import opened Options
  import opened DurableStore

  // ---- the stored document, as far as the clean-up reads it ----

  datatype CloudKeyField = NoKey | NotAString | Key(key: string)

  datatype Attachment = NotAnItem | Item(cloudKey: CloudKeyField)

  datatype Attachments = NoAttachments | NotAList | List(items: seq<Attachment>)

  datatype Owner = NotAnOwner | Owner(attachments: Attachments)

  datatype Blob =
    | Blank                                                // a stage not yet written
    | Audio(bytes: seq<nat>)
    | Unparsable
    | BadShape                                             // JSON without task and project lists
    | Document(tasks: seq<Owner>, projects: seq<Owner>)

  ghost predicate OwnerReferences(o: Owner, key: string) {
    o.Owner? && o.attachments.List? && Item(Key(key)) in o.attachments.items
  }

  ghost predicate References(b: Blob, key: string) {
    b.Document? && exists o :: o in b.tasks + b.projects && OwnerReferences(o, key)
  }

  // ---- the canonical scan ----

  datatype Verdict = Referenced | Unreferenced | Invalid

  function ScanItems(items: seq<Attachment>, key: string): Verdict {
    if items == [] then Unreferenced
    else if items[0].NotAnItem? || items[0].cloudKey.NotAString? then Invalid
    else if items[0].cloudKey == Key(key) then Referenced
    else ScanItems(items[1..], key)
  }

  function ScanOwner(o: Owner, key: string): Verdict {
    if o.NotAnOwner? then Invalid
    else match o.attachments
      case NoAttachments => Unreferenced
      case NotAList => Invalid
      case List(items) => ScanItems(items, key)
  }

  function ScanOwners(owners: seq<Owner>, key: string): Verdict {
    if owners == [] then Unreferenced
    else match ScanOwner(owners[0], key)
      case Unreferenced => ScanOwners(owners[1..], key)
      case v => v
  }

  function ScanDocument(b: Option<Blob>, key: string): Verdict {
    if b.Some? && b.value.Document? then ScanOwners(b.value.tasks + b.value.projects, key) else Invalid
  }

  lemma {:induction false} ScanItemsIsExact(items: seq<Attachment>, key: string)
    ensures ScanItems(items, key) == Referenced ==> Item(Key(key)) in items
    ensures ScanItems(items, key) == Unreferenced ==> Item(Key(key)) !in items
  {
    if items != [] { ScanItemsIsExact(items[1..], key); }
  }

  lemma {:induction false} ScanOwnersIsExact(owners: seq<Owner>, key: string)
    ensures ScanOwners(owners, key) == Referenced ==> exists o :: o in owners && OwnerReferences(o, key)
    ensures ScanOwners(owners, key) == Unreferenced ==> forall o | o in owners :: !OwnerReferences(o, key)
  {
    if owners != [] {
      if owners[0].Owner? && owners[0].attachments.List? {
        ScanItemsIsExact(owners[0].attachments.items, key);
      }
      ScanOwnersIsExact(owners[1..], key);
      assert owners[0] in owners && forall o | o in owners[1..] :: o in owners;
    }
  }

  /** The scan's positive answers are true: only a readable document can be called unreferenced. */
  lemma ScanIsTruthful(b: Option<Blob>, key: string)
    ensures ScanDocument(b, key) == Referenced ==> b.Some? && References(b.value, key)
    ensures ScanDocument(b, key) == Unreferenced ==> b.Some? && b.value.Document? && !References(b.value, key)
  {
    if b.Some? && b.value.Document? {
      ScanOwnersIsExact(b.value.tasks + b.value.projects, key);
    }
  }

  // ---- the protocol ----

  /** The audio is there for good. */
  ghost predicate AudioSafe(d: Disk<Blob>, audioPath: Path, audio: Blob) {
    Durably(d, audioPath, Some(audio))
  }

  /** Neither the visible document nor one a crash may bring back mentions the key. */
  ghost predicate Unmentioned(d: Disk<Blob>, docPath: Path, key: string) {
    forall b :: CanHold(d, docPath, Some(b)) ==> !References(b, key)
  }

  /** The capture invariant. */
  ghost predicate Consistent(d: Disk<Blob>, docPath: Path, audioPath: Path, key: string, audio: Blob) {
    Valid(d) && (AudioSafe(d, audioPath, audio) || Unmentioned(d, docPath, key))
  }

  /** The invariant read as a statement about readers and restarts. */
  lemma ConsistentMeans(d: Disk<Blob>, docPath: Path, audioPath: Path, key: string, audio: Blob)
    requires Consistent(d, docPath, audioPath, key, audio)
    ensures Read(d, docPath).Some? && References(Read(d, docPath).value, key) ==> AudioSafe(d, audioPath, audio)
    ensures forall r | Recovers(d, r) ::
      Read(r, docPath).Some? && References(Read(r, docPath).value, key) ==> Read(r, audioPath) == Some(audio)
  {
    assert Read(d, docPath).Some? ==> CanHold(d, docPath, Read(d, docPath)) by {
      assert Binding(d, docPath) in Possible(d, docPath);
    }
    forall r | Recovers(d, r) && Read(r, docPath).Some? && References(Read(r, docPath).value, key)
      ensures Read(r, audioPath) == Some(audio)
    {
      CanHoldIsExact(d, docPath, Read(r, docPath));
      DurableSurvivesCrash(d, r, audioPath, Some(audio));
    }
  }

  lemma KeptDocumentStaysUnmentioned(d0: Disk<Blob>, d: Disk<Blob>, docPath: Path, key: string)
    requires Valid(d0) && Valid(d) && Kept(d0, d, docPath) && Unmentioned(d0, docPath, key)
    ensures Unmentioned(d, docPath, key)
  {
    KeptIsNoWorse(d0, d, docPath);
  }

  /** After a document write, an unmentioning visible document means no crash brings back a mention. */
  lemma VisibleDecides(d0: Disk<Blob>, d: Disk<Blob>, docPath: Path, temp: Path, document: Blob, key: string)
    requires Valid(d0) && Publishing(d0, d, docPath, temp, document) && Unmentioned(d0, docPath, key)
    ensures Read(d, docPath).None? || !References(Read(d, docPath).value, key) ==> Unmentioned(d, docPath, key)
  {
    if Same(d0, d, docPath) {
      SameIsAllOrNothing(d0, d, docPath, document);
    } else {
      var i :| Swapped(d0, d, docPath, i, document);
      SwappedIsAllOrNothing(d0, d, docPath, i, document);
    }
  }

  /** What became of the clean-up after a failed document write. */
  datatype Cleanup = NotRun | Retained(Verdict) | LostAuthority | Attempted(removal: Removal)

  datatype CaptureResult =
    | Stored | LoadFailed | Refused | AudioNotStored | Failed(cleanup: Cleanup)

  /** Outcomes of checks that depend on the world outside the disk. */
  datatype World = World(
    abortedEarly: bool, abortedLate: bool,
    audioResolved: bool, audioRoot: bool, audioSafe: bool, audioGuards: Guards,
    documentSafe: bool, documentGuards: Guards,
    cleanupRoot1: bool, documentReadable: bool, cleanupRoot2: bool, audioResolvedAgain: bool,
    parentExists: bool, vanishes: bool)

  /** No abort, no refused path, no lost storage root. */
  predicate Undisturbed(w: World) {
    && !w.abortedEarly && !w.abortedLate && w.audioResolved && w.audioRoot && w.audioSafe && w.documentSafe
    && w.audioGuards == UNCHANGED && w.documentGuards == UNCHANGED
  }

  datatype Names = Names(docPath: Path, docTemp: string, audioPath: Path, audioTemp: string)

  ghost predicate Apart(n: Names) {
    && n.docPath.parent != n.audioPath.parent
    && n.docTemp != n.docPath.name
    && n.audioTemp != n.audioPath.name
  }

  class CaptureRoute {
    const fs: FileSystem<Blob>
    const names: Names
    const cloudKey: string
    const audio: Blob

    constructor (fs: FileSystem<Blob>, names: Names, cloudKey: string, audio: Blob)
      ensures this.fs == fs && this.names == names && this.cloudKey == cloudKey && this.audio == audio
    {
      this.fs, this.names, this.cloudKey, this.audio := fs, names, cloudKey, audio;
    }

    ghost predicate Holds(d: Disk<Blob>) {
      Consistent(d, names.docPath, names.audioPath, cloudKey, audio)
    }

    ghost predicate HeldSince(n: nat)
      reads fs
    {
      forall k | n <= k < |fs.trace| :: Holds(fs.trace[k])
    }

    ghost predicate DocumentUnmentioned()
      reads fs
    {
      Valid(fs.disk) && Unmentioned(fs.disk, names.docPath, cloudKey)
    }

    /** The random name of a stage is already taken. */
    predicate StagesInUse()
      reads fs
    {
      Binding(fs.disk, DocumentStage()).Some? || Binding(fs.disk, Path(names.audioPath.parent, names.audioTemp)).Some?
    }

    function DocumentStage(): Path {
      Path(names.docPath.parent, names.docTemp)
    }

    /** storeCaptureAudio: true when the audio was published, false for its error responses and throws. */
    method StoreCaptureAudio(w: World) returns (ok: bool)
      requires Apart(names) && DocumentUnmentioned()
      modifies fs
      ensures DocumentUnmentioned() && old(fs.trace) <= fs.trace && HeldSince(|old(fs.trace)|)
      ensures Kept(old(fs.disk), fs.disk, names.docPath)
      ensures ok ==> AudioSafe(fs.disk, names.audioPath, audio)
      ensures Undisturbed(w) && old(fs.faults) == [] && !old(StagesInUse()) ==> ok && fs.faults == [] && Binding(fs.disk, DocumentStage()) == None
    {
      if !w.audioRoot || !w.audioResolved { return false; }
      ghost var d0, n := fs.disk, |fs.trace|;
      var r := fs.WriteData(names.audioPath, audio, Blank, names.audioTemp, w.audioSafe, w.audioGuards);
      forall k | n <= k < |fs.trace| ensures Holds(fs.trace[k]) {
        KeptDocumentStaysUnmentioned(d0, fs.trace[k], names.docPath, cloudKey);
      }
      KeptDocumentStaysUnmentioned(d0, fs.disk, names.docPath, cloudKey);
      assert Kept(d0, fs.disk, DocumentStage());
      ok := r == Returned(true);
    }

    /** The document write, once the audio is safe. */
    method WriteDocument(document: Blob, w: World) returns (r: Outcome)
      requires Apart(names) && DocumentUnmentioned() && AudioSafe(fs.disk, names.audioPath, audio)
      modifies fs
      ensures old(fs.trace) <= fs.trace && HeldSince(|old(fs.trace)|)
      ensures Holds(fs.disk) && AudioSafe(fs.disk, names.audioPath, audio)
      ensures r.Threw? || r == Returned(true)
      ensures r == Returned(true) ==> !w.abortedLate && Durably(fs.disk, names.docPath, Some(document))
      ensures Undisturbed(w) && old(fs.faults) == [] && old(Binding(fs.disk, DocumentStage())) == None ==> r == Returned(true)
      ensures Read(fs.disk, names.docPath).None? || !References(Read(fs.disk, names.docPath).value, cloudKey) ==> DocumentUnmentioned()
    {
      r := Threw(false);
      ghost var d0, n := fs.disk, |fs.trace|;
      if w.abortedLate { return; }
      r := fs.WriteData(names.docPath, document, Blank, names.docTemp, w.documentSafe, w.documentGuards);
      forall k | n <= k < |fs.trace| ensures Holds(fs.trace[k]) {
        KeptIsNoWorse(d0, fs.trace[k], names.audioPath);
      }
      KeptIsNoWorse(d0, fs.disk, names.audioPath);
      VisibleDecides(d0, fs.disk, names.docPath, Path(names.docPath.parent, names.docTemp), document, cloudKey);
    }

    /** removeOrphanedCaptureAudio. */
    method RemoveOrphanedCaptureAudio(w: World) returns (c: Cleanup)
      requires Apart(names) && Holds(fs.disk) && AudioSafe(fs.disk, names.audioPath, audio)
      requires Read(fs.disk, names.docPath).None? || !References(Read(fs.disk, names.docPath).value, cloudKey) ==> DocumentUnmentioned()
      modifies fs
      ensures old(fs.trace) <= fs.trace && HeldSince(|old(fs.trace)|) && Holds(fs.disk)
      ensures Read(fs.disk, names.docPath) == old(Read(fs.disk, names.docPath))
      ensures var verdict := ScanDocument(if w.documentReadable then Read(fs.disk, names.docPath) else None, cloudKey);
        if !w.cleanupRoot1 then c == LostAuthority
        else if verdict != Unreferenced then c == Retained(verdict)
        else if !w.cleanupRoot2 then c == LostAuthority
        else c.Attempted?
      ensures c.Attempted? ==> ScanDocument(Read(fs.disk, names.docPath), cloudKey) == Unreferenced
      ensures !c.Attempted? ==> AudioSafe(fs.disk, names.audioPath, audio)
      ensures c.Attempted? && w.audioResolvedAgain && old(fs.faults) == [] ==> Read(fs.disk, names.audioPath) == None
    {
      if !w.cleanupRoot1 { return LostAuthority; }
      var seen := if w.documentReadable then Read(fs.disk, names.docPath) else None;
      var verdict := ScanDocument(seen, cloudKey);
      ScanIsTruthful(seen, cloudKey);
      if verdict != Unreferenced { return Retained(verdict); }
      if !w.cleanupRoot2 { return LostAuthority; }
      c := Attempted(AlreadyAbsent);
      if w.audioResolvedAgain {
        ghost var d0, n := fs.disk, |fs.trace|;
        var removal := fs.DurablyRemove(names.audioPath, w.parentExists, true, _ => false, w.vanishes);
        forall k | n <= k < |fs.trace| ensures Holds(fs.trace[k]) {
          assert fs.Removing(d0, fs.trace[k], names.audioPath);
          KeptDocumentStaysUnmentioned(d0, fs.trace[k], names.docPath, cloudKey);
        }
        KeptDocumentStaysUnmentioned(d0, fs.disk, names.docPath, cloudKey);
        KeptIsNoWorse(d0, fs.disk, names.docPath);
        c := Attempted(removal);
      }
    }

    /**
     * The handler under the write lock.  `loaded` is whether the stored document could be
     * read; `finalized` is the document to be written, None when finalizing rejects it.
     */
    method HandleCapture(loaded: bool, finalized: Option<Blob>, w: World) returns (r: CaptureResult)
      requires Apart(names) && DocumentUnmentioned()
      modifies fs
      ensures old(fs.trace) <= fs.trace && HeldSince(|old(fs.trace)|) && Holds(fs.disk)
      ensures r == Stored ==> finalized.Some? && Durably(fs.disk, names.docPath, finalized)
      ensures r == Stored ==> AudioSafe(fs.disk, names.audioPath, audio)
      ensures r in {LoadFailed, Refused, AudioNotStored, Failed(NotRun)} ==>
        Read(fs.disk, names.docPath) == old(Read(fs.disk, names.docPath)) && DocumentUnmentioned()
      ensures Undisturbed(w) && old(fs.faults) == [] && !old(StagesInUse()) && loaded && finalized.Some? ==> r == Stored
      ensures w.abortedEarly <==> r == Failed(NotRun)
      ensures !w.abortedEarly && !loaded <==> r == LoadFailed
      ensures !w.abortedEarly && loaded && finalized.None? <==> r == Refused
      ensures r.Failed? && r.cleanup.Attempted? ==>
        ScanDocument(Read(fs.disk, names.docPath), cloudKey) == Unreferenced
      ensures r.Failed? && !r.cleanup.Attempted? && r.cleanup != NotRun ==> AudioSafe(fs.disk, names.audioPath, audio)
    {
      if w.abortedEarly { return Failed(NotRun); }
      if !loaded { return LoadFailed; }
      if finalized.None? { return Refused; }
      ghost var d0, n := fs.disk, |fs.trace|;
      var stored := StoreCaptureAudio(w);
      KeptIsNoWorse(d0, fs.disk, names.docPath);
      if !stored { return AudioNotStored; }
      var written := WriteDocument(finalized.value, w);
      if written == Returned(true) { return Stored; }
      var cleanup := RemoveOrphanedCaptureAudio(w);
      r := Failed(cleanup);
    }
  }
}
