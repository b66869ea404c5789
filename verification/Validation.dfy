/**
 * The integrity check of a stored document (apps/cloud/src/server-validation.ts): loops that
 * fill maps and sets, proved to accept exactly the documents of a quantified predicate.
 */
module Validation {
  import opened Options
  import opened JsText
  import AttachmentPaths

  datatype Json =
    | Null
    | Bool(b: bool)
    | Num(value: real)
    | Str(text: string)
    | Arr(items: seq<Json>)
    | Obj(fields: map<string, Json>)

  const MAX_ATTEMPTS := 100

  /** The configured limit, and functions whose source is outside the model. */
  datatype Core = Core(
    maxItems: nat,
    parses: string -> bool,                                       // Date.parse gives a finite number
    cancellation: Json -> bool,                                   // normalizeCancellationTimestamp accepts
    repeatReminder: Json -> Option<Json>,                         // normalizeRepeatReminderMinutes
    timeSpent: Json -> Option<Json>,                              // normalizeTimeSpentMinutes
    startOffset: Json -> Option<Json>,                            // normalizeRelativeStartOffset
    recurrence: Json -> Option<Json>,                             // normalizeRecurrenceForLoad
    archiveReference: (Json, Option<Json>, Option<Json>) -> bool) // isTaskSectionProjectArchiveReference

  // ---- fields ----

  function Field(v: Json, name: string): Option<Json> {
    if v.Obj? && name in v.fields then Some(v.fields[name]) else None
  }

  predicate IsString(v: Option<Json>) {
    v.Some? && v.value.Str?
  }

  predicate IsFilled(v: Option<Json>) {
    IsString(v) && !Blank(v.value.text)
  }

  /** x == null: absent or null. */
  predicate IsNullish(v: Option<Json>) {
    v.None? || v.value.Null?
  }

  function TextOf(v: Json, name: string): string {
    if IsString(Field(v, name)) then Field(v, name).value.text else ""
  }

  /** A reference to another entity: the trimmed string, empty when there is none. */
  function Reference(v: Json, name: string): string {
    Trim(TextOf(v, name))
  }

  predicate IsTimestamp(core: Core, v: Option<Json>) {
    IsFilled(v) && core.parses(v.value.text)
  }

  predicate Live(v: Json) {
    IsNullish(Field(v, "deletedAt"))
  }

  predicate Dated(core: Core, v: Json) {
    && IsTimestamp(core, Field(v, "createdAt"))
    && IsTimestamp(core, Field(v, "updatedAt"))
    && (!Live(v) ==> IsTimestamp(core, Field(v, "deletedAt")))
  }

  // ---- fields whose values are checked against what the clients' normalizers make of them ----

  const RECURRENCE_KEYS := {
    "rule", "seriesId", "strategy", "byDay", "byMonthDay", "weekStart", "count", "until",
    "completedOccurrences", "anchorDay", "startAnchorDay", "dueAnchorDay", "reviewAnchorDay", "rrule"}

  const SORT_BY_VALUES := {"default", "due", "start", "review", "title", "timeEstimate", "created", "created-desc", "completed"}

  predicate GoodCancellation(core: Core, e: Json) {
    IsNullish(Field(e, "cancelledAt")) || core.cancellation(Field(e, "cancelledAt").value)
  }

  /** A number that normalizes to itself; zero stands for none. */
  predicate GoodMinutes(v: Option<Json>, normalize: Json -> Option<Json>) {
    IsNullish(v) || v.value == Num(0.0) || normalize(v.value) == Some(v.value)
  }

  predicate GoodStartOffset(core: Core, v: Option<Json>) {
    !IsNullish(v) ==>
      && v.value.Obj? && v.value.fields.Keys <= {"amount", "unit"}
      && var normalized := core.startOffset(v.value);
      && normalized.Some?
      && Field(normalized.value, "amount") == Field(v.value, "amount")
      && Field(normalized.value, "unit") == Field(v.value, "unit")
  }

  /** A rule name, or an object of known fields each of which normalizes to itself. */
  predicate GoodRecurrence(core: Core, v: Option<Json>) {
    !IsNullish(v) ==>
      && (v.value.Str? || (v.value.Obj? && v.value.fields.Keys <= RECURRENCE_KEYS))
      && var normalized := core.recurrence(v.value);
      && normalized.Some?
      && (v.value.Obj? ==> forall key | key in v.value.fields :: Field(normalized.value, key) == Some(v.value.fields[key]))
  }

  predicate GoodViewSections(v: Option<Json>) {
    IsNullish(v) || (v.value.Obj? && forall key | key in v.value.fields :: v.value.fields[key].Str?)
  }

  /** validateTaskPropValues finds no fault. */
  predicate GoodTaskProps(core: Core, t: Json) {
    && GoodCancellation(core, t)
    && GoodMinutes(Field(t, "repeatReminderMinutes"), core.repeatReminder)
    && GoodMinutes(Field(t, "timeSpentMinutes"), core.timeSpent)
    && GoodStartOffset(core, Field(t, "relativeStartOffset"))
    && GoodRecurrence(core, Field(t, "recurrence"))
    && GoodViewSections(Field(t, "viewSectionIds"))
  }

  /** validateProjectPropValues finds no fault. */
  predicate GoodProjectProps(core: Core, p: Json) {
    && GoodCancellation(core, p)
    && (IsNullish(Field(p, "taskSortBy")) || (IsString(Field(p, "taskSortBy")) && TextOf(p, "taskSortBy") in SORT_BY_VALUES))
  }

  // ---- single entities ----

  predicate GoodTask(core: Core, t: Json) {
    && t.Obj? && IsFilled(Field(t, "id")) && IsFilled(Field(t, "title"))
    && IsString(Field(t, "status"))
    && TextOf(t, "status") in ["inbox", "next", "waiting", "someday", "reference", "done", "archived"]
    && Dated(core, t) && GoodTaskProps(core, t)
  }

  predicate GoodProject(core: Core, p: Json) {
    && p.Obj? && IsFilled(Field(p, "id")) && IsFilled(Field(p, "title"))
    && IsString(Field(p, "status")) && TextOf(p, "status") in ["active", "someday", "waiting", "archived"]
    && Dated(core, p)
    && (!IsNullish(Field(p, "purgedAt")) ==> IsTimestamp(core, Field(p, "purgedAt")))
    && GoodProjectProps(core, p)
  }

  predicate GoodSection(core: Core, s: Json) {
    s.Obj? && IsString(Field(s, "id")) && IsString(Field(s, "projectId")) && IsString(Field(s, "title")) && Dated(core, s)
  }

  predicate GoodArea(core: Core, a: Json) {
    a.Obj? && IsString(Field(a, "id")) && IsString(Field(a, "name")) && Dated(core, a)
  }

  predicate GoodPerson(core: Core, p: Json) {
    && p.Obj? && IsFilled(Field(p, "id")) && IsFilled(Field(p, "name"))
    && (IsNullish(Field(p, "note")) || IsString(Field(p, "note")))
    && (IsNullish(Field(p, "referenceLink")) || IsString(Field(p, "referenceLink")))
    && Dated(core, p)
  }

  predicate IsWhole(x: real) {
    x.Floor as real == x
  }

  predicate GoodAttempts(v: Option<Json>) {
    v.Some? ==> v.value.Num? && IsWhole(v.value.value) && 0.0 <= v.value.value <= MAX_ATTEMPTS as real
  }

  predicate GoodPendingDelete(core: Core, d: Json) {
    && d.Obj?
    && Reference(d, "cloudKey") != "" && AttachmentPaths.Normalize(Reference(d, "cloudKey")).Some?
    && (Field(d, "title").Some? ==> IsString(Field(d, "title")))
    && GoodAttempts(Field(d, "attempts"))
    && (!IsNullish(Field(d, "lastErrorAt")) ==> IsTimestamp(core, Field(d, "lastErrorAt")))
  }

  // ---- the document ----

  /** A collection that may be absent: its items, and whether it is there at all. */
  function Items(v: Json, name: string): seq<Json> {
    if Field(v, name).Some? && Field(v, name).value.Arr? then Field(v, name).value.items else []
  }

  predicate ListOrAbsent(core: Core, v: Json, name: string) {
    Field(v, name).Some? ==> Field(v, name).value.Arr? && |Items(v, name)| <= core.maxItems
  }

  predicate Shaped(core: Core, v: Json) {
    && v.Obj?
    && Field(v, "tasks").Some? && Field(v, "projects").Some?
    && ListOrAbsent(core, v, "tasks") && ListOrAbsent(core, v, "projects")
    && ListOrAbsent(core, v, "sections") && ListOrAbsent(core, v, "areas") && ListOrAbsent(core, v, "people")
    && (Field(v, "settings").Some? ==> Field(v, "settings").value.Obj?)
  }

  /** The ids of the live entities of a collection. */
  function LiveIds(list: seq<Json>): set<string> {
    set e | e in list && Live(e) :: TextOf(e, "id")
  }

  /** Among entities with the same id the last one listed counts. */
  function LastWithId(list: seq<Json>, id: string): Option<Json> {
    if list == [] then None
    else if TextOf(list[|list| - 1], "id") == id then Some(list[|list| - 1])
    else LastWithId(list[..|list| - 1], id)
  }

  /** A section by itself, and that a live one is in a live project. */
  predicate SectionFits(core: Core, s: Json, projects: seq<Json>) {
    GoodSection(core, s) && (Live(s) ==> TextOf(s, "projectId") in LiveIds(projects))
  }

  /** A task's section is live, or excused by the archive exception, and lies in the project it names. */
  predicate SectionAgrees(core: Core, t: Json, sections: seq<Json>, projects: seq<Json>) {
    var sectionId, projectId := Reference(t, "sectionId"), Reference(t, "projectId");
    var section := LastWithId(sections, sectionId);
    && projectId != ""
    && (sectionId in LiveIds(sections) || core.archiveReference(t, section, LastWithId(projects, projectId)))
    && (if section.Some? then TextOf(section.value, "projectId") else "") == projectId
  }

  predicate TaskHasHome(core: Core, t: Json, sections: Option<seq<Json>>, projects: seq<Json>) {
    Live(t) ==>
      && (Reference(t, "projectId") != "" ==> Reference(t, "projectId") in LiveIds(projects))
      && (Reference(t, "sectionId") != "" ==> sections.Some? && SectionAgrees(core, t, sections.value, projects))
  }

  predicate HasArea(e: Json, areas: seq<Json>) {
    Live(e) && Reference(e, "areaId") != "" ==> Reference(e, "areaId") in LiveIds(areas)
  }

  predicate GoodSettings(core: Core, settings: Option<Json>) {
    settings.Some? && Field(settings.value, "attachments").Some? ==>
      var attachments := Field(settings.value, "attachments").value;
      attachments.Obj? &&
      (Field(attachments, "pendingRemoteDeletes").Some? ==>
        && Field(attachments, "pendingRemoteDeletes").value.Arr?
        && |Field(attachments, "pendingRemoteDeletes").value.items| <= core.maxItems
        && forall d | d in Field(attachments, "pendingRemoteDeletes").value.items :: GoodPendingDelete(core, d))
  }

  function Sections(v: Json): Option<seq<Json>> {
    if Field(v, "sections").Some? && Field(v, "sections").value.Arr? then Some(Field(v, "sections").value.items) else None
  }

  /** The documents a server stores. */
  predicate Acceptable(core: Core, v: Json) {
    && Shaped(core, v)
    && var tasks, projects, areas := Items(v, "tasks"), Items(v, "projects"), Items(v, "areas");
    && (forall t | t in tasks :: GoodTask(core, t) && TaskHasHome(core, t, Sections(v), projects) && HasArea(t, areas))
    && (forall p | p in projects :: GoodProject(core, p) && HasArea(p, areas))
    && (forall s | s in Items(v, "sections") :: SectionFits(core, s, projects))
    && (forall a | a in areas :: GoodArea(core, a))
    && (forall p | p in Items(v, "people") :: GoodPerson(core, p))
    && GoodSettings(core, Field(v, "settings"))
  }

  // ---- the loops of the check ----

  /** The first loops: every entity by itself. */
  method CheckEach(list: seq<Json>, good: Json -> bool) returns (ok: bool)
    ensures ok <==> forall e | e in list :: good(e)
  {
    for i := 0 to |list|
      invariant forall j | 0 <= j < i :: good(list[j])
    {
      if !good(list[i]) { return false; }
    }
    ok := true;
  }

  /** Map.set for every entity in turn, so that the last one with an id stays. */
  ghost predicate Indexes(byId: map<string, Json>, list: seq<Json>) {
    forall id :: (id in byId <==> LastWithId(list, id).Some?) && (id in byId ==> LastWithId(list, id) == Some(byId[id]))
  }

  lemma IndexStep(byId: map<string, Json>, list: seq<Json>, e: Json)
    requires Indexes(byId, list)
    ensures Indexes(byId[TextOf(e, "id") := e], list + [e])
  {
    var all := list + [e];
    assert all[..|all| - 1] == list;
    forall id ensures LastWithId(all, id) == if TextOf(e, "id") == id then Some(e) else LastWithId(list, id) {}
  }

  lemma LiveIdsSnoc(list: seq<Json>, e: Json)
    ensures LiveIds(list + [e]) == LiveIds(list) + if Live(e) then {TextOf(e, "id")} else {}
  {
  }

  /** One more entity indexed, in a list that is walked from its start. */
  lemma WalkStep(list: seq<Json>, i: nat, byId: map<string, Json>)
    requires i < |list| && Indexes(byId, list[..i])
    ensures Indexes(byId[TextOf(list[i], "id") := list[i]], list[..i + 1])
    ensures LiveIds(list[..i + 1]) == LiveIds(list[..i]) + if Live(list[i]) then {TextOf(list[i], "id")} else {}
  {
    assert list[..i + 1] == list[..i] + [list[i]];
    IndexStep(byId, list[..i], list[i]);
    LiveIdsSnoc(list[..i], list[i]);
  }

  method IndexProjects(projects: seq<Json>) returns (byId: map<string, Json>, active: set<string>)
    ensures Indexes(byId, projects) && active == LiveIds(projects)
  {
    byId, active := map[], {};
    for i := 0 to |projects|
      invariant Indexes(byId, projects[..i]) && active == LiveIds(projects[..i])
    {
      WalkStep(projects, i, byId);
      var id := TextOf(projects[i], "id");
      byId := byId[id := projects[i]];
      if Live(projects[i]) { active := active + {id}; }
    }
    assert projects[..|projects|] == projects;
  }

  /** The loop over sections, whatever makes a section good by itself. */
  method IndexSections(sections: seq<Json>, good: Json -> bool, activeProjects: set<string>)
    returns (ok: bool, byId: map<string, Json>, active: set<string>)
    ensures ok <==> forall s | s in sections :: good(s) && (Live(s) ==> TextOf(s, "projectId") in activeProjects)
    ensures ok ==> Indexes(byId, sections) && active == LiveIds(sections)
  {
    byId, active := map[], {};
    for i := 0 to |sections|
      invariant forall j | 0 <= j < i :: good(sections[j]) && (Live(sections[j]) ==> TextOf(sections[j], "projectId") in activeProjects)
      invariant Indexes(byId, sections[..i]) && active == LiveIds(sections[..i])
    {
      var section := sections[i];
      WalkStep(sections, i, byId);
      if !good(section) { return false, byId, active; }
      byId := byId[TextOf(section, "id") := section];
      if Live(section) {
        active := active + {TextOf(section, "id")};
        if TextOf(section, "projectId") !in activeProjects { return false, byId, active; }
      }
    }
    assert sections[..|sections|] == sections;
    ok := true;
  }

  method CheckSections(core: Core, sections: seq<Json>, projects: seq<Json>, activeProjects: set<string>)
    returns (ok: bool, byId: map<string, Json>, active: set<string>)
    requires activeProjects == LiveIds(projects)
    ensures ok <==> forall s | s in sections :: SectionFits(core, s, projects)
    ensures ok ==> Indexes(byId, sections) && active == LiveIds(sections)
  {
    ok, byId, active := IndexSections(sections, s => GoodSection(core, s), activeProjects);
  }

  method CheckTaskHome(core: Core, t: Json, sections: seq<Json>, projects: seq<Json>,
                       projectsById: map<string, Json>, activeProjects: set<string>,
                       sectionsById: map<string, Json>, activeSections: set<string>) returns (ok: bool)
    requires Indexes(projectsById, projects) && activeProjects == LiveIds(projects)
    requires Indexes(sectionsById, sections) && activeSections == LiveIds(sections)
    ensures ok <==> TaskHasHome(core, t, Some(sections), projects)
  {
    if !Live(t) { return true; }
    var projectId, sectionId := Reference(t, "projectId"), Reference(t, "sectionId");
    if projectId != "" && projectId !in activeProjects { return false; }
    if sectionId != "" {
      if projectId == "" { return false; }
      var section := if sectionId in sectionsById then Some(sectionsById[sectionId]) else None;
      var project := if projectId in projectsById then Some(projectsById[projectId]) else None;
      assert section == LastWithId(sections, sectionId) && project == LastWithId(projects, projectId);
      if sectionId !in activeSections && !core.archiveReference(t, section, project) { return false; }
      var sectionProjectId := if section.Some? then TextOf(section.value, "projectId") else "";
      if sectionProjectId != projectId { return false; }
    }
    ok := true;
  }

  method CheckHomesWithSections(core: Core, tasks: seq<Json>, sections: seq<Json>, projects: seq<Json>,
                                projectsById: map<string, Json>, activeProjects: set<string>) returns (ok: bool)
    requires Indexes(projectsById, projects) && activeProjects == LiveIds(projects)
    ensures ok <==>
      && (forall s | s in sections :: SectionFits(core, s, projects))
      && forall t | t in tasks :: TaskHasHome(core, t, Some(sections), projects)
  {
    var good, sectionsById, activeSections := CheckSections(core, sections, projects, activeProjects);
    if !good { return false; }
    for i := 0 to |tasks|
      invariant forall j | 0 <= j < i :: TaskHasHome(core, tasks[j], Some(sections), projects)
    {
      ok := CheckTaskHome(core, tasks[i], sections, projects, projectsById, activeProjects, sectionsById, activeSections);
      if !ok { return; }
    }
    ok := true;
  }

  method CheckTaskAlone(core: Core, t: Json, projects: seq<Json>, activeProjects: set<string>) returns (ok: bool)
    requires activeProjects == LiveIds(projects)
    ensures ok <==> TaskHasHome(core, t, None, projects)
  {
    if !Live(t) { return true; }
    var projectId, sectionId := Reference(t, "projectId"), Reference(t, "sectionId");
    if projectId != "" && projectId !in activeProjects { return false; }
    ok := sectionId == "";
  }

  method CheckHomesWithoutSections(core: Core, tasks: seq<Json>, projects: seq<Json>, activeProjects: set<string>) returns (ok: bool)
    requires activeProjects == LiveIds(projects)
    ensures ok <==> forall t | t in tasks :: TaskHasHome(core, t, None, projects)
  {
    for i := 0 to |tasks|
      invariant forall j | 0 <= j < i :: TaskHasHome(core, tasks[j], None, projects)
    {
      ok := CheckTaskAlone(core, tasks[i], projects, activeProjects);
      if !ok { return; }
    }
    ok := true;
  }

  method CheckHomes(core: Core, tasks: seq<Json>, sections: Option<seq<Json>>, projects: seq<Json>) returns (ok: bool)
    ensures ok <==>
      && (sections.Some? ==> forall s | s in sections.value :: SectionFits(core, s, projects))
      && forall t | t in tasks :: TaskHasHome(core, t, sections, projects)
  {
    var projectsById, activeProjects := IndexProjects(projects);
    if sections.Some? {
      ok := CheckHomesWithSections(core, tasks, sections.value, projects, projectsById, activeProjects);
    } else {
      ok := CheckHomesWithoutSections(core, tasks, projects, activeProjects);
    }
  }

  method CollectLiveAreas(areas: seq<Json>, good: Json -> bool) returns (ok: bool, active: set<string>)
    ensures ok <==> forall a | a in areas :: good(a)
    ensures ok ==> active == LiveIds(areas)
  {
    active := {};
    for i := 0 to |areas|
      invariant forall j | 0 <= j < i :: good(areas[j])
      invariant active == LiveIds(areas[..i])
    {
      assert areas[..i + 1] == areas[..i] + [areas[i]];
      LiveIdsSnoc(areas[..i], areas[i]);
      if !good(areas[i]) { return false, active; }
      if Live(areas[i]) { active := active + {TextOf(areas[i], "id")}; }
    }
    assert areas[..|areas|] == areas;
    ok := true;
  }

  method CheckAreaReferences(entities: seq<Json>, areas: seq<Json>, activeAreas: set<string>) returns (ok: bool)
    requires activeAreas == LiveIds(areas)
    ensures ok <==> forall e | e in entities :: HasArea(e, areas)
  {
    for i := 0 to |entities|
      invariant forall j | 0 <= j < i :: HasArea(entities[j], areas)
    {
      if !Live(entities[i]) { continue; }
      var areaId := Reference(entities[i], "areaId");
      assert HasArea(entities[i], areas) <==> (areaId != "" ==> areaId in activeAreas);
      if areaId != "" && areaId !in activeAreas { return false; }
    }
    ok := true;
  }

  method CheckSettings(core: Core, settings: Option<Json>) returns (ok: bool)
    ensures ok <==> GoodSettings(core, settings)
  {
    if settings.None? { return true; }
    var attachments := Field(settings.value, "attachments");
    if attachments.None? { return true; }
    if !attachments.value.Obj? { return false; }
    var pending := Field(attachments.value, "pendingRemoteDeletes");
    if pending.None? { return true; }
    if !pending.value.Arr? || |pending.value.items| > core.maxItems { return false; }
    ok := CheckEach(pending.value.items, d => GoodPendingDelete(core, d));
  }

  /** validateAppData accepts exactly the acceptable documents. */
  method ValidateAppData(core: Core, v: Json) returns (ok: bool)
    ensures ok <==> Acceptable(core, v)
  {
    if !Shaped(core, v) { return false; }
    var tasks, projects, areas := Items(v, "tasks"), Items(v, "projects"), Items(v, "areas");
    ok := CheckEach(tasks, t => GoodTask(core, t));
    if !ok { return; }
    ok := CheckEach(projects, p => GoodProject(core, p));
    if !ok { return; }
    ok := CheckHomes(core, tasks, Sections(v), projects);
    if !ok { return; }
    var activeAreas;
    ok, activeAreas := CollectLiveAreas(areas, a => GoodArea(core, a));
    if !ok { return; }
    ok := CheckEach(Items(v, "people"), p => GoodPerson(core, p));
    if !ok { return; }
    ok := CheckAreaReferences(projects, areas, activeAreas);
    if !ok { return; }
    ok := CheckAreaReferences(tasks, areas, activeAreas);
    if !ok { return; }
    ok := CheckSettings(core, Field(v, "settings"));
  }

  // ---- what acceptance means for readers ----

  ghost predicate UniqueIds(list: seq<Json>) {
    forall i, j | 0 <= i < j < |list| :: TextOf(list[i], "id") != TextOf(list[j], "id")
  }

  /** With unique ids, the entity that counts for an id is the only one that has it. */
  lemma {:induction false} LastIsTheOne(list: seq<Json>, e: Json)
    requires UniqueIds(list) && e in list
    ensures LastWithId(list, TextOf(e, "id")) == Some(e)
  {
    var last := list[|list| - 1];
    if TextOf(last, "id") == TextOf(e, "id") {
      var i :| 0 <= i < |list| && list[i] == e;
      assert i == |list| - 1;
    } else {
      LastIsTheOne(list[..|list| - 1], e);
    }
  }

  lemma {:induction false} LastIsOneOf(list: seq<Json>, id: string)
    ensures LastWithId(list, id).Some? <==> exists e | e in list :: TextOf(e, "id") == id
    ensures LastWithId(list, id).Some? ==> LastWithId(list, id).value in list && TextOf(LastWithId(list, id).value, "id") == id
  {
    if list != [] {
      LastIsOneOf(list[..|list| - 1], id);
      assert list == list[..|list| - 1] + [list[|list| - 1]];
    }
  }

  /**
   * In an acceptable document whose sections have unique ids, a live task with a section is in
   * the one section of that id, in that section's project, and the project is live.
   */
  lemma AcceptedTaskHasOneHome(core: Core, v: Json, t: Json, s: Json)
    requires Acceptable(core, v) && t in Items(v, "tasks") && Live(t)
    requires s in Items(v, "sections") && UniqueIds(Items(v, "sections"))
    requires Reference(t, "sectionId") != "" && Reference(t, "sectionId") == TextOf(s, "id")
    ensures TextOf(s, "projectId") == Reference(t, "projectId")
    ensures exists p | p in Items(v, "projects") :: Live(p) && TextOf(p, "id") == Reference(t, "projectId")
    ensures Live(s) || core.archiveReference(t, Some(s), LastWithId(Items(v, "projects"), Reference(t, "projectId")))
  {
    var sections, projects := Items(v, "sections"), Items(v, "projects");
    LastIsTheOne(sections, s);
    assert TaskHasHome(core, t, Sections(v), projects);
    if Reference(t, "sectionId") in LiveIds(sections) {
      var other :| other in sections && Live(other) && TextOf(other, "id") == TextOf(s, "id");
      LastIsTheOne(sections, other);
    }
  }

  /**
   * When an id is listed again, the last section says in which project the task must be, and
   * any live one that it may be there.
   */
  lemma DuplicateSectionDecides(core: Core, t: Json, sections: seq<Json>, projects: seq<Json>, again: Json)
    requires Live(t) && Reference(t, "sectionId") != "" && TextOf(again, "id") == Reference(t, "sectionId")
    ensures var projectId := Reference(t, "projectId");
      TaskHasHome(core, t, Some(sections + [again]), projects) <==>
        && projectId != "" && projectId in LiveIds(projects) && TextOf(again, "projectId") == projectId
        && (|| Live(again) || Reference(t, "sectionId") in LiveIds(sections)
            || core.archiveReference(t, Some(again), LastWithId(projects, projectId)))
  {
    var all := sections + [again];
    assert all[..|all| - 1] == sections;
    LiveIdsSnoc(sections, again);
    assert LastWithId(all, Reference(t, "sectionId")) == Some(again);
  }

  /** So a deleted section passes beside an earlier live one of its id, and an earlier one of the right project does not help. */
  lemma EarlierDuplicateHelpsOnlyAlive(core: Core, t: Json, first: Json, again: Json, projects: seq<Json>)
    requires Live(t) && Reference(t, "sectionId") != "" && Reference(t, "projectId") in LiveIds(projects) - {""}
    requires TextOf(first, "id") == TextOf(again, "id") == Reference(t, "sectionId")
    requires !Live(again) && !core.archiveReference(t, Some(again), LastWithId(projects, Reference(t, "projectId")))
    ensures !TaskHasHome(core, t, Some([again]), projects)
    ensures TaskHasHome(core, t, Some([first, again]), projects) <==> Live(first) && TextOf(again, "projectId") == Reference(t, "projectId")
  {
    DuplicateSectionDecides(core, t, [], projects, again);
    assert [] + [again] == [again];
    DuplicateSectionDecides(core, t, [first], projects, again);
    assert [first] + [again] == [first, again];
  }

  /** Without a list of sections no live task may name one. */
  lemma AbsentSectionsMeanNone(core: Core, v: Json, t: Json)
    requires Acceptable(core, v) && t in Items(v, "tasks") && Live(t) && Field(v, "sections").None?
    ensures Reference(t, "sectionId") == ""
  {
    assert TaskHasHome(core, t, Sections(v), Items(v, "projects"));
  }
}
