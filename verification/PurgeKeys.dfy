/**
 * The bookkeeping of attachment keys when a project is purged
 * (apps/cloud/src/server-attachments.ts, the purge branch of server.ts).
 */
module PurgeKeys {
  import opened Options
  import opened InsertionMaps
  import opened AttachmentPaths

  datatype Attachment = Attachment(isFile: bool, cloudKey: string, deleted: bool)   // "" stands for no key

  datatype Project = Project(id: string, purged: bool, attachments: seq<Attachment>)

  datatype Task = Task(purged: bool, attachments: seq<Attachment>)

  datatype Pending = Pending(cloudKey: string, others: string)

  datatype AttachmentSettings = AttachmentSettings(pendingRemoteDeletes: Option<seq<Pending>>, others: string)

  datatype Settings = Settings(attachments: Option<AttachmentSettings>, others: string)

  datatype Data = Data(projects: seq<Project>, tasks: seq<Task>, settings: Settings)

  // ---- which keys documents hold ----

  /** getAttachmentCloudKey. */
  function KeyOf(a: Attachment): Option<string> {
    if !a.isFile || a.cloudKey == "" then None else Normalize(a.cloudKey)
  }

  function Keys(attachments: seq<Attachment>): set<string> {
    set a | a in attachments && KeyOf(a).Some? :: KeyOf(a).value
  }

  function LiveKeys(attachments: seq<Attachment>): set<string> {
    set a | a in attachments && !a.deleted && KeyOf(a).Some? :: KeyOf(a).value
  }

  function ProjectKeys(projects: seq<Project>, purgedId: string): set<string> {
    set p, k | p in projects && p.id != purgedId && !p.purged && k in Keys(p.attachments) :: k
  }

  function TaskKeys(tasks: seq<Task>): set<string> {
    set t, k | t in tasks && !t.purged && k in Keys(t.attachments) :: k
  }

  function LiveTaskKeys(tasks: seq<Task>): set<string> {
    set t, k | t in tasks && !t.purged && k in LiveKeys(t.attachments) :: k
  }

  function LiveProjectKeys(projects: seq<Project>): set<string> {
    set p, k | p in projects && !p.purged && k in LiveKeys(p.attachments) :: k
  }

  /** Keys held by owners other than the project being purged, attachments in the trash included. */
  function Retained(data: Data, purgedId: string): set<string> {
    ProjectKeys(data.projects, purgedId) + TaskKeys(data.tasks)
  }

  /** Keys that live attachments of unpurged owners refer to. */
  function Referenced(data: Data): set<string> {
    LiveProjectKeys(data.projects) + LiveTaskKeys(data.tasks)
  }

  lemma KeysSnoc(attachments: seq<Attachment>, i: nat)
    requires i < |attachments|
    ensures Keys(attachments[..i + 1]) == Keys(attachments[..i]) + Unit(KeyOf(attachments[i]))
    ensures LiveKeys(attachments[..i + 1]) ==
      LiveKeys(attachments[..i]) + if attachments[i].deleted then {} else Unit(KeyOf(attachments[i]))
  {
    assert attachments[..i + 1] == attachments[..i] + [attachments[i]];
  }

  function Unit(k: Option<string>): set<string> {
    if k.Some? then {k.value} else {}
  }

  /** Adds an attachment list's keys to a set, as the inner loops do. */
  method AddKeys(found: set<string>, attachments: seq<Attachment>) returns (r: set<string>)
    ensures r == found + Keys(attachments)
  {
    r := found;
    for i := 0 to |attachments|
      invariant r == found + Keys(attachments[..i])
    {
      KeysSnoc(attachments, i);
      var cloudKey := KeyOf(attachments[i]);
      if cloudKey.Some? { r := r + {cloudKey.value}; }
    }
    assert attachments[..|attachments|] == attachments;
  }

  method AddLiveKeys(found: set<string>, attachments: seq<Attachment>) returns (r: set<string>)
    ensures r == found + LiveKeys(attachments)
  {
    r := found;
    for i := 0 to |attachments|
      invariant r == found + LiveKeys(attachments[..i])
    {
      KeysSnoc(attachments, i);
      if attachments[i].deleted { continue; }
      var normalized := KeyOf(attachments[i]);
      if normalized.Some? { r := r + {normalized.value}; }
    }
    assert attachments[..|attachments|] == attachments;
  }

  /** collectRetainedAttachmentCloudKeysForProjectPurge. */
  method CollectRetained(data: Data, purgedId: string) returns (keys: set<string>)
    ensures keys == Retained(data, purgedId)
  {
    keys := {};
    for i := 0 to |data.projects|
      invariant keys == ProjectKeys(data.projects[..i], purgedId)
    {
      var p := data.projects[i];
      assert data.projects[..i + 1] == data.projects[..i] + [p];
      if p.id == purgedId || p.purged { continue; }
      keys := AddKeys(keys, p.attachments);
    }
    assert data.projects[..|data.projects|] == data.projects;
    for i := 0 to |data.tasks|
      invariant keys == ProjectKeys(data.projects, purgedId) + TaskKeys(data.tasks[..i])
    {
      var t := data.tasks[i];
      assert data.tasks[..i + 1] == data.tasks[..i] + [t];
      if t.purged { continue; }
      keys := AddKeys(keys, t.attachments);
    }
    assert data.tasks[..|data.tasks|] == data.tasks;
  }

  /** collectReferencedAttachmentCloudKeys. */
  method CollectReferenced(data: Data) returns (referenced: set<string>)
    ensures referenced == Referenced(data)
  {
    referenced := {};
    for i := 0 to |data.tasks|
      invariant referenced == LiveTaskKeys(data.tasks[..i])
    {
      var t := data.tasks[i];
      assert data.tasks[..i + 1] == data.tasks[..i] + [t];
      if !t.purged { referenced := AddLiveKeys(referenced, t.attachments); }
    }
    assert data.tasks[..|data.tasks|] == data.tasks;
    for i := 0 to |data.projects|
      invariant referenced == LiveTaskKeys(data.tasks) + LiveProjectKeys(data.projects[..i])
    {
      var p := data.projects[i];
      assert data.projects[..i + 1] == data.projects[..i] + [p];
      if !p.purged { referenced := AddLiveKeys(referenced, p.attachments); }
    }
    assert data.projects[..|data.projects|] == data.projects;
  }

  // ---- the keys a purge schedules ----

  /** The keys a purge of the project, in its updated form, puts on the pending list. */
  function Scheduled(data: Data, project: Project): set<string> {
    Keys(project.attachments) - Retained(data, project.id)
  }

  function KeysOf(pending: seq<Pending>): seq<string> {
    seq(|pending|, i requires 0 <= i < |pending| => pending[i].cloudKey)
  }

  /** Entries by key, each under its own. */
  type Index = m: OMap<string, Pending> | (forall k | k in m.keys :: m.Has(k)) && UnderOwnKey(m)
    ghost witness OMap([], map[])

  ghost predicate UnderOwnKey(m: OMap<string, Pending>) {
    forall k | m.Has(k) :: k in m.keys && m.Get(k).cloudKey == k
  }

  function Insert(m: Index, p: Pending): (r: Index)
    ensures r.vals == m.vals[p.cloudKey := p]
    ensures r.keys == if m.Has(p.cloudKey) then m.keys else m.keys + [p.cloudKey]
  {
    m.Put(p.cloudKey, p)
  }

  lemma InsertIsDistinct(m: Index, p: Pending)
    requires Distinct(m.keys)
    ensures Distinct(Insert(m, p).keys)
  {
  }

  /** Array.from(map.values()). */
  function Values(m: Index): (r: seq<Pending>)
    ensures |r| == |m.keys|
    ensures forall i | 0 <= i < |r| :: r[i] == m.Get(m.keys[i]) && r[i].cloudKey == m.keys[i]
  {
    seq(|m.keys|, i requires 0 <= i < |m.keys| => m.Get(m.keys[i]))
  }

  lemma KeysOfValues(m: Index)
    ensures KeysOf(Values(m)) == m.keys
    ensures forall k :: k in KeysOf(Values(m)) <==> k in m.vals.Keys
  {
    assert KeysOf(Values(m)) == m.keys;
    forall k ensures k in m.keys <==> k in m.vals.Keys { assert m.Has(k) <==> k in m.keys; }
  }

  /** Schedules one key unless it is retained or scheduled already. */
  method Schedule(m: Index, cloudKey: Option<string>, retained: set<string>) returns (r: Index)
    requires Distinct(m.keys)
    ensures Distinct(r.keys)
    ensures r.vals.Keys == m.vals.Keys + (Unit(cloudKey) - retained)
  {
    if cloudKey.None? || cloudKey.value in retained || m.Has(cloudKey.value) { return m; }
    InsertIsDistinct(m, Pending(cloudKey.value, ""));
    r := Insert(m, Pending(cloudKey.value, ""));
  }

  /** The loop over the project's attachments. */
  method ScheduleAll(attachments: seq<Attachment>, retained: set<string>) returns (byCloudKey: Index)
    ensures byCloudKey.vals.Keys == Keys(attachments) - retained && Distinct(byCloudKey.keys)
  {
    byCloudKey := Empty();
    for i := 0 to |attachments|
      invariant byCloudKey.vals.Keys == Keys(attachments[..i]) - retained
      invariant Distinct(byCloudKey.keys)
    {
      KeysSnoc(attachments, i);
      byCloudKey := Schedule(byCloudKey, KeyOf(attachments[i]), retained);
    }
    assert attachments[..|attachments|] == attachments;
  }

  /** collectPendingRemoteDeletesForProjectPurge. */
  method CollectPending(project: Project, data: Data) returns (pending: seq<Pending>)
    ensures forall k :: k in KeysOf(pending) <==> k in Scheduled(data, project)
    ensures Distinct(KeysOf(pending))
  {
    var retained := CollectRetained(data, project.id);
    var byCloudKey := ScheduleAll(project.attachments, retained);
    pending := Values(byCloudKey);
    KeysOfValues(byCloudKey);
  }

  // ---- appending to the pending list ----

  /** Existing entries by key: the first place, the last value. */
  function PutAll(m: Index, entries: seq<Pending>): Index {
    if entries == [] then m else Insert(PutAll(m, entries[..|entries| - 1]), entries[|entries| - 1])
  }

  /** New entries for keys not there yet. */
  function AddAll(m: Index, entries: seq<Pending>): Index {
    if entries == [] then m
    else
      var before := AddAll(m, entries[..|entries| - 1]);
      var p := entries[|entries| - 1];
      if before.Has(p.cloudKey) then before else Insert(before, p)
  }

  function Existing(settings: Settings): seq<Pending> {
    if settings.attachments.Some? && settings.attachments.value.pendingRemoteDeletes.Some?
    then settings.attachments.value.pendingRemoteDeletes.value else []
  }

  function Merged(existing: seq<Pending>, pending: seq<Pending>): Index {
    AddAll(PutAll(Empty(), existing), pending)
  }

  function WithPending(settings: Settings, entries: seq<Pending>): Settings {
    var others := if settings.attachments.Some? then settings.attachments.value.others else "";
    settings.(attachments := Some(AttachmentSettings(Some(entries), others)))
  }

  function Appended(settings: Settings, pending: seq<Pending>): Settings {
    if pending == [] then settings else WithPending(settings, Values(Merged(Existing(settings), pending)))
  }

  /** The loop over the existing entries. */
  method IndexExisting(existing: seq<Pending>) returns (byCloudKey: Index)
    ensures byCloudKey == PutAll(Empty(), existing)
  {
    byCloudKey := Empty();
    for i := 0 to |existing|
      invariant byCloudKey == PutAll(Empty(), existing[..i])
    {
      assert existing[..i + 1][..i] == existing[..i];
      byCloudKey := Insert(byCloudKey, existing[i]);
    }
    assert existing[..|existing|] == existing;
  }

  /** The loop over the new ones. */
  method AddNew(m: Index, pending: seq<Pending>) returns (byCloudKey: Index)
    ensures byCloudKey == AddAll(m, pending)
  {
    byCloudKey := m;
    for i := 0 to |pending|
      invariant byCloudKey == AddAll(m, pending[..i])
    {
      assert pending[..i + 1][..i] == pending[..i];
      if byCloudKey.Has(pending[i].cloudKey) { continue; }
      byCloudKey := Insert(byCloudKey, pending[i]);
    }
    assert pending[..|pending|] == pending;
  }

  /** appendPendingRemoteAttachmentDeletes. */
  method AppendPending(settings: Settings, pending: seq<Pending>) returns (r: Settings)
    ensures r == Appended(settings, pending)
  {
    if pending == [] { return settings; }
    var existing := IndexExisting(Existing(settings));
    var byCloudKey := AddNew(existing, pending);
    r := WithPending(settings, Values(byCloudKey));
  }

  // ---- what appending means ----

  function KeySet(entries: seq<Pending>): set<string> {
    set p | p in entries :: p.cloudKey
  }

  lemma Snoc(m: Index, before: seq<Pending>, p: Pending)
    ensures PutAll(m, before + [p]) == Insert(PutAll(m, before), p)
    ensures AddAll(m, before + [p]) == (if AddAll(m, before).Has(p.cloudKey) then AddAll(m, before) else Insert(AddAll(m, before), p))
  {
    var all := before + [p];
    assert all[..|all| - 1] == before && all[|all| - 1] == p;
  }

  lemma KeySetSnoc(before: seq<Pending>, p: Pending)
    ensures KeySet(before + [p]) == KeySet(before) + {p.cloudKey}
  {
  }

  lemma {:induction false} PutAllKeys(m: Index, entries: seq<Pending>)
    requires Distinct(m.keys)
    ensures PutAll(m, entries).vals.Keys == m.vals.Keys + KeySet(entries) && Distinct(PutAll(m, entries).keys)
  {
    if entries != [] {
      var before, p := entries[..|entries| - 1], entries[|entries| - 1];
      assert entries == before + [p];
      PutAllKeys(m, before);
      KeySetSnoc(before, p);
      Snoc(m, before, p);
      InsertIsDistinct(PutAll(m, before), p);
    }
  }

  lemma {:induction false} AddAllKeys(m: Index, entries: seq<Pending>)
    requires Distinct(m.keys)
    ensures AddAll(m, entries).vals.Keys == m.vals.Keys + KeySet(entries) && Distinct(AddAll(m, entries).keys)
  {
    if entries != [] {
      var before, p := entries[..|entries| - 1], entries[|entries| - 1];
      assert entries == before + [p];
      AddAllKeys(m, before);
      KeySetSnoc(before, p);
      Snoc(m, before, p);
      InsertIsDistinct(AddAll(m, before), p);
    }
  }

  lemma MergedKeys(existing: seq<Pending>, pending: seq<Pending>)
    ensures Merged(existing, pending).vals.Keys == KeySet(existing) + KeySet(pending)
    ensures Distinct(Merged(existing, pending).keys)
  {
    PutAllKeys(Empty(), existing);
    AddAllKeys(PutAll(Empty(), existing), pending);
  }

  lemma {:induction false} AddAllKeeps(m: Index, entries: seq<Pending>, k: string)
    requires m.Has(k)
    ensures AddAll(m, entries).Has(k) && AddAll(m, entries).Get(k) == m.Get(k)
  {
    if entries != [] { AddAllKeeps(m, entries[..|entries| - 1], k); }
  }

  /** Of the existing entries of a key, the last one counts. */
  lemma {:induction false} LastExistingWins(entries: seq<Pending>, p: Pending, later: seq<Pending>)
    requires p.cloudKey !in KeySet(later)
    ensures var m := PutAll(Empty(), entries + [p] + later);
      m.Has(p.cloudKey) && m.Get(p.cloudKey) == p
  {
    if later == [] {
      assert entries + [p] + [] == entries + [p];
      Snoc(Empty(), entries, p);
    } else {
      var before, last := later[..|later| - 1], later[|later| - 1];
      assert entries + [p] + later == (entries + [p] + before) + [last] && later == before + [last];
      KeySetSnoc(before, last);
      LastExistingWins(entries, p, before);
      Snoc(Empty(), entries + [p] + before, last);
    }
  }

  /** After appending, no key appears twice, and the keys are exactly those of both lists. */
  lemma AppendedKeys(settings: Settings, pending: seq<Pending>)
    requires pending != []
    ensures var r := Existing(Appended(settings, pending));
      Distinct(KeysOf(r)) && KeySet(r) == KeySet(Existing(settings)) + KeySet(pending)
  {
    MergedKeys(Existing(settings), pending);
    KeySetOfValues(Merged(Existing(settings), pending));
  }

  lemma KeySetOfValues(m: Index)
    ensures KeysOf(Values(m)) == m.keys && KeySet(Values(m)) == m.vals.Keys
  {
    var r := Values(m);
    assert KeysOf(r) == m.keys;
    forall k | k in m.vals.Keys ensures k in KeySet(r) {
      assert m.Has(k);
      var at :| 0 <= at < |m.keys| && m.keys[at] == k;
      assert r[at] in r;
    }
    assert KeySet(r) == m.vals.Keys;
  }

  /** An entry that stood in the list, the last of its key, is never overwritten by a new one. */
  lemma AppendKeepsExisting(settings: Settings, earlier: seq<Pending>, p: Pending, later: seq<Pending>, pending: seq<Pending>)
    requires Existing(settings) == earlier + [p] + later && p.cloudKey !in KeySet(later)
    ensures p in Existing(Appended(settings, pending))
  {
    if pending == [] {
      assert (earlier + [p] + later)[|earlier|] == p;
    } else {
      LastExistingWins(earlier, p, later);
      var before := PutAll(Empty(), earlier + [p] + later);
      AddAllKeeps(before, pending, p.cloudKey);
      IsAmongValues(AddAll(before, pending), p);
    }
  }

  lemma IsAmongValues(m: Index, p: Pending)
    requires m.Has(p.cloudKey) && m.Get(p.cloudKey) == p
    ensures p in Values(m)
  {
    var at :| 0 <= at < |m.keys| && m.keys[at] == p.cloudKey;
    assert Values(m)[at] == p;
  }

  /** Reading entries with different keys gives a map with just these entries, in order. */
  lemma {:induction false} PutAllOfDistinct(entries: seq<Pending>)
    requires Distinct(KeysOf(entries))
    ensures PutAll(Empty(), entries).keys == KeysOf(entries)
    ensures forall p | p in entries :: PutAll(Empty(), entries).Has(p.cloudKey) && PutAll(Empty(), entries).Get(p.cloudKey) == p
  {
    if entries != [] {
      var before, p := entries[..|entries| - 1], entries[|entries| - 1];
      assert entries == before + [p];
      assert KeysOf(entries) == KeysOf(before) + [p.cloudKey];
      LastIsFresh(KeysOf(before), p.cloudKey);
      PutAllOfDistinct(before);
      Snoc(Empty(), before, p);
    }
  }

  lemma LastIsFresh(keys: seq<string>, k: string)
    requires Distinct(keys + [k])
    ensures Distinct(keys) && k !in keys
  {
    var all := keys + [k];
    assert forall i | 0 <= i < |keys| :: all[i] == keys[i];
    forall i | 0 <= i < |keys| ensures keys[i] != k { assert all[i] != all[|keys|]; }
  }

  lemma ReadBack(m: Index)
    requires Distinct(m.keys)
    ensures PutAll(Empty(), Values(m)) == m
  {
    var v := Values(m);
    assert KeysOf(v) == m.keys;
    PutAllOfDistinct(v);
    SameKeysSameValues(PutAll(Empty(), v), m);
  }

  lemma SameKeysSameValues(a: Index, b: Index)
    requires a.keys == b.keys && forall p | p in Values(b) :: a.Has(p.cloudKey) && a.Get(p.cloudKey) == p
    ensures a == b
  {
    forall k ensures k in a.vals <==> k in b.vals {
      assert (a.Has(k) <==> k in a.keys) && (b.Has(k) <==> k in b.keys);
    }
    forall k | k in b.vals ensures a.vals[k] == b.vals[k] {
      assert b.Has(k);
      IsAmongValues(b, b.Get(k));
    }
    assert a.vals == b.vals;
  }

  /** Appending a list twice is appending it once. */
  lemma AppendIsIdempotent(settings: Settings, pending: seq<Pending>)
    ensures Appended(Appended(settings, pending), pending) == Appended(settings, pending)
  {
    if pending != [] {
      var m := Merged(Existing(settings), pending);
      MergedKeys(Existing(settings), pending);
      ReadBack(m);
      forall p | p in pending ensures m.Has(p.cloudKey) { assert p.cloudKey in KeySet(pending); }
      AddAllPresent(m, pending);
      assert Existing(Appended(settings, pending)) == Values(m);
      assert Merged(Values(m), pending) == m;
    }
  }

  lemma {:induction false} AddAllPresent(m: Index, entries: seq<Pending>)
    requires forall p | p in entries :: m.Has(p.cloudKey)
    ensures AddAll(m, entries) == m
  {
    if entries != [] { AddAllPresent(m, entries[..|entries| - 1]); }
  }

  // ---- the purge ----

  /** The document after the purge of the project at `idx`, whose updated form is `project`. */
  function Purged(data: Data, idx: nat, project: Project, pending: seq<Pending>): Data
    requires idx < |data.projects|
  {
    data.(projects := data.projects[idx := project.(purged := true)], settings := Appended(data.settings, pending))
  }

  method PurgeProject(data: Data, idx: nat, project: Project) returns (after: Data, scheduled: seq<Pending>)
    requires idx < |data.projects|
    ensures after == Purged(data, idx, project, scheduled)
    ensures Distinct(KeysOf(scheduled))
    ensures forall k :: k in KeysOf(scheduled) <==> k in Scheduled(data, project)
  {
    scheduled := CollectPending(project, data);
    var settings := AppendPending(data.settings, scheduled);
    after := data.(projects := data.projects[idx := project.(purged := true)], settings := settings);
  }

  /** No other unpurged project has the purged one's id. */
  ghost predicate OnlyOne(data: Data, idx: nat, id: string) {
    forall j | 0 <= j < |data.projects| && j != idx && !data.projects[j].purged :: data.projects[j].id != id
  }

  /** No other unpurged project of that id has a live attachment at a scheduled key. */
  ghost predicate NoTwinNeeds(data: Data, idx: nat, project: Project) {
    forall j | 0 <= j < |data.projects| && j != idx && !data.projects[j].purged && data.projects[j].id == project.id ::
      LiveKeys(data.projects[j].attachments) !! Scheduled(data, project)
  }

  /** For a document and a purge: no scheduled key is referenced afterwards exactly when no twin needs one. */
  lemma UnreferencedExactlyWhenNoTwinNeeds(data: Data, idx: nat, project: Project, pending: seq<Pending>)
    requires idx < |data.projects|
    ensures Scheduled(data, project) !! Referenced(Purged(data, idx, project, pending)) <==> NoTwinNeeds(data, idx, project)
  {
    var after := Purged(data, idx, project, pending);
    if NoTwinNeeds(data, idx, project) {
      forall k | k in Referenced(after) ensures k !in Scheduled(data, project) {
        ReferencedIsRetained(data, idx, project, pending, k);
      }
    }
    forall j | 0 <= j < |data.projects| && j != idx && !data.projects[j].purged && data.projects[j].id == project.id
      ensures LiveKeys(data.projects[j].attachments) <= Referenced(after)
    {
      assert after.projects[j] == data.projects[j] && data.projects[j] in after.projects;
    }
  }

  /** What is referenced after a purge is retained by another owner, or lives in a twin. */
  lemma ReferencedIsRetained(data: Data, idx: nat, project: Project, pending: seq<Pending>, k: string)
    requires idx < |data.projects| && NoTwinNeeds(data, idx, project)
    requires k in Referenced(Purged(data, idx, project, pending))
    ensures k !in Scheduled(data, project)
  {
    var after := Purged(data, idx, project, pending);
    if k in LiveProjectKeys(after.projects) {
      var p :| p in after.projects && !p.purged && k in LiveKeys(p.attachments);
      var j :| 0 <= j < |after.projects| && after.projects[j] == p;
      assert data.projects[j] == p && p in data.projects;
      assert k in Keys(p.attachments);
      if p.id != project.id { assert k in ProjectKeys(data.projects, project.id); }
    } else {
      var t :| t in after.tasks && !t.purged && k in LiveKeys(t.attachments);
      assert k in Keys(t.attachments);
    }
  }

  /** With no second project of the same id, no scheduled key is referenced after the purge. */
  lemma ScheduledIsUnreferenced(data: Data, idx: nat, project: Project, pending: seq<Pending>)
    requires idx < |data.projects| && OnlyOne(data, idx, project.id)
    ensures Scheduled(data, project) !! Referenced(Purged(data, idx, project, pending))
  {
    UnreferencedExactlyWhenNoTwinNeeds(data, idx, project, pending);
  }

  /** The same document with other attachments. */
  ghost predicate SameShape(a: Data, b: Data) {
    && |a.projects| == |b.projects| && |a.tasks| == |b.tasks|
    && (forall i | 0 <= i < |a.projects| :: a.projects[i].id == b.projects[i].id && a.projects[i].purged == b.projects[i].purged)
    && forall i | 0 <= i < |a.tasks| :: a.tasks[i].purged == b.tasks[i].purged
  }

  const SHARED := Attachment(true, "a", false)

  lemma SharedHasKey()
    ensures KeyOf(SHARED) == Some("a")
  {
    assert AttachmentPaths.Segments("a") == ["a"] by { SegmentsOfJoin(["a"]); }
    assert forall c | c in "a" :: Allowed(c);
    NormalFormsAre("a");
  }

  function Bare(data: Data): Data {
    data.(projects := seq(|data.projects|, i requires 0 <= i < |data.projects| => data.projects[i].(attachments := [])),
          tasks := seq(|data.tasks|, i requires 0 <= i < |data.tasks| => data.tasks[i].(attachments := [])))
  }

  /**
   * The guard is exact: whatever the attachments, nothing scheduled stays referenced if and
   * only if no other unpurged project shares the id.
   */
  lemma UnreferencedExactlyWhenOnlyOne(data: Data, idx: nat)
    requires idx < |data.projects|
    ensures OnlyOne(data, idx, data.projects[idx].id) <==>
      forall d: Data, project: Project | SameShape(data, d) && project.id == data.projects[idx].id ::
        Scheduled(d, project) !! Referenced(Purged(d, idx, project, []))
  {
    var id := data.projects[idx].id;
    if OnlyOne(data, idx, id) {
      forall d: Data, project: Project | SameShape(data, d) && project.id == id
        ensures Scheduled(d, project) !! Referenced(Purged(d, idx, project, []))
      {
        ScheduledIsUnreferenced(d, idx, project, []);
      }
    } else {
      var j :| 0 <= j < |data.projects| && j != idx && !data.projects[j].purged && data.projects[j].id == id;
      TwinIsScheduled(data, idx, j);
    }
  }

  /** Two unpurged projects with one id that share a file: purging one schedules the other's file. */
  lemma TwinIsScheduled(data: Data, idx: nat, j: nat)
    requires idx < |data.projects| && j < |data.projects| && j != idx
    requires !data.projects[j].purged && data.projects[j].id == data.projects[idx].id
    ensures exists d: Data, project: Project | SameShape(data, d) && project.id == data.projects[idx].id ::
      !(Scheduled(d, project) !! Referenced(Purged(d, idx, project, [])))
  {
    SharedHasKey();
    var bare := Bare(data);
    var twin := bare.projects[j].(attachments := [SHARED]);
    var project := bare.projects[idx].(attachments := [SHARED]);
    var d := bare.(projects := bare.projects[j := twin]);
    assert SameShape(data, d);
    assert SHARED in project.attachments && "a" in Keys(project.attachments);
    assert "a" !in ProjectKeys(d.projects, project.id) by {
      forall p | p in d.projects && p.id != project.id ensures p.attachments == [] {
        var i :| 0 <= i < |d.projects| && d.projects[i] == p;
      }
    }
    assert "a" !in TaskKeys(d.tasks) by { assert forall t | t in d.tasks :: t.attachments == []; }
    var after := Purged(d, idx, project, []);
    assert after.projects[j] == twin && twin in after.projects && SHARED in twin.attachments;
    assert "a" in LiveKeys(twin.attachments);
    assert !twin.purged;
    assert "a" in LiveProjectKeys(after.projects);
    assert "a" in Referenced(after) && "a" in Scheduled(d, project);
  }
}
