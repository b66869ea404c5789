/**
 * Which stored files a sweep spares: keys of references (apps/cloud/src/server-attachments.ts)
 * beside the paths at which captured recordings are stored (apps/cloud/src/server-capture.ts).
 */
module SweepProtection {
  import opened Options
  import opened JsText
  import opened AttachmentPaths
  import opened AttachmentGc
  import opened PurgeKeys

  lemma {:induction false} SlashedIsSame(s: string)
    requires '\\' !in s
    ensures Slashed(s) == s
  {
    if s != [] { SlashedIsSame(s[1..]); }
  }

  /** The stored file of a captured key: its path below the attachment root. */
  function StoredAt(cloudKey: string): Path
    requires Normalize(CaptureStoragePath(cloudKey)).Some?
  {
    Segments(Normalize(CaptureStoragePath(cloudKey)).value)
  }

  /** The sweep takes a recording for an orphan exactly when the document has no live reference at its storage path. */
  lemma OrphanExactlyWhenPathIsUnreferenced(data: Data, cloudKey: string)
    requires Normalize(CaptureStoragePath(cloudKey)).Some?
    ensures Unreferenced(Referenced(data), StoredAt(cloudKey)) <==> Normalize(CaptureStoragePath(cloudKey)).value !in Referenced(data)
  {
    var n := Normalize(CaptureStoragePath(cloudKey)).value;
    NormalizeIsStable(CaptureStoragePath(cloudKey));
    assert !Allowed('\\');
    SlashedIsSame(n);
  }

  /** The keys that the attachments holding `cloudKey` itself give the sweep. */
  function OwnKey(cloudKey: string): set<string> {
    if Normalize(cloudKey).Some? then {Normalize(cloudKey).value} else {}
  }

  /** When nothing but the captured key is referenced, the recording is spared exactly when that key has no prefix. */
  lemma OnlyReferenceProtectsExactlyUnprefixed(data: Data, cloudKey: string)
    requires Normalize(CaptureStoragePath(cloudKey)).Some? && Referenced(data) == OwnKey(cloudKey)
    ensures Unreferenced(Referenced(data), StoredAt(cloudKey)) <==> PREFIX <= cloudKey
  {
    OrphanExactlyWhenPathIsUnreferenced(data, cloudKey);
    PrefixChangesNormalForm(cloudKey);
  }

  /**
   * So, after a reported clean pass, such a recording is gone for good when it was past its grace
   * period at the start: no path leads to it any more, now or after a crash.
   */
  lemma ReferencedRecordingIsSwept(data: Data, cloudKey: string, b: State, r: Tree, i: Inode)
    requires Normalize(CaptureStoragePath(cloudKey)).Some? && PREFIX <= cloudKey && Referenced(data) == OwnKey(cloudKey)
    requires ROOT in b.done && (r == b.tree || Recovers(b.tree, r)) && forall p :: b.orphan(p) <==> Unreferenced(Referenced(data), p)
    requires i in b.initial.nodes && b.initial.nodes[i].File? && b.initial.nodes[i].mtime <= b.start - GRACE_MS
    requires forall o | o in b.overlooked :: !o.failed
    ensures WalkTo(r, StoredAt(cloudKey)) != Some(i)
  {
    OnlyReferenceProtectsExactlyUnprefixed(data, cloudKey);
    if WalkTo(r, StoredAt(cloudKey)) == Some(i) {
      CleanMeansCollected(b, r, StoredAt(cloudKey), i);
      var o :| o in b.overlooked && o.inode == i;
      OverlookedLooksAbsent(b, o);
    }
  }

  /** A document with one live task, whose recording has this key. */
  function OneRecording(cloudKey: string): Data {
    Data([], [Task(false, [Attachment(true, cloudKey, false)])], Settings(None, ""))
  }

  lemma OneRecordingIsReferenced(cloudKey: string)
    requires cloudKey != ""
    ensures Referenced(OneRecording(cloudKey)) == OwnKey(cloudKey)
  {
    hide Normalize;
    var a, t := Attachment(true, cloudKey, false), OneRecording(cloudKey).tasks[0];
    assert a in t.attachments && t in OneRecording(cloudKey).tasks && KeyOf(a) == Normalize(cloudKey);
    assert LiveKeys(t.attachments) == OwnKey(cloudKey);
  }

  const KEY: string := "attachments/a"

  lemma PathOfKey()
    ensures Normalize(CaptureStoragePath(KEY)) == Some("a") && Segments("a") == ["a"]
  {
    hide Normalize, Segments;
    GoodNamesAreNormal(["a"]);
    assert CaptureStoragePath(KEY) == "a";
  }

  lemma KeyIsNormal()
    ensures Normalize(KEY) == Some(KEY)
  {
    hide Normalize, Segments;
    var parts := ["attachments", "a"];
    assert parts[1..] == ["a"] && Join(parts, '/') == KEY;
    GoodNamesAreNormal(parts);
  }

  /** Nothing disturbs this sweep, and it removes the recording that the document references. */
  method RecordingGoes() returns (report: Option<Report>, b: State)
    ensures KEY in Referenced(OneRecording(KEY))
    ensures Now(b.initial, Slot(ROOT, "a")) == Some(1) && Now(b.tree, Slot(ROOT, "a")) == None
    ensures report.Some? && report.value.errors == []
  {
    hide Normalize, Segments, Referenced, Balanced, CaptureStoragePath, WellFormed, Shallow;
    KeyIsNormal();
    PathOfKey();
    OneRecordingIsReferenced(KEY);
    OneOldFileIsFit();
    var referenced := CollectReferenced(OneRecording(KEY));
    report, b := GarbageCollectOrphanAttachments(referenced, n => GRACE_MS, GRACE_MS, OneOldFile(), true, true, [], MAX_SEGMENTS);
    ReferencedRecordingIsSwept(OneRecording(KEY), KEY, b, b.tree, 1);
    RootIsDir(b);
    OneStep(b.tree, "a");
  }

  lemma OneStep(t: Tree, name: string)
    requires IsDir(t, ROOT)
    ensures WalkTo(t, [name]) == Now(t, Slot(ROOT, name))
  {
    assert [name][..0] == [];
  }

  lemma RootIsDir(b: State)
    ensures IsDir(b.tree, ROOT)
  {
  }
}
