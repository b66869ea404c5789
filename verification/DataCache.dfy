/**
 * The process-local caches of stored documents (apps/cloud/src/server-data-cache.ts) over
 * the uncached loader and the document writer (apps/cloud/src/server-storage.ts).
 *
 * Documents handed out are heap objects that their receivers may change at will; the cache
 * owns the copies it keeps.
 */
module DataCache {
  import opened Options
  import opened InsertionMaps
  import opened JsText

  const MAX_ENTRIES := 64

  // ---- stored documents and what a load makes of them ----

  datatype Field = Absent | NotAString | Text(text: string)

  datatype Area = NotARecord(value: int) | Record(createdAt: Field, updatedAt: Field, others: int)

  /** A document as its areas and everything else in it. */
  datatype Doc = Doc(areas: seq<Area>, others: int)

  const DEFAULT_DOC := Doc([], 0)

  predicate HasText(f: Field) {
    f.Text? && Trim(f.text) != []
  }

  function LoadedArea(a: Area, nowIso: string): Area {
    if a.NotARecord? then a
    else
      var createdAt := if HasText(a.createdAt) then a.createdAt else if HasText(a.updatedAt) then a.updatedAt else Text(nowIso);
      a.(createdAt := createdAt, updatedAt := if HasText(a.updatedAt) then a.updatedAt else createdAt)
  }

  /** normalizeLoadedAreas at the time `nowIso`. */
  function Normalized(d: Doc, nowIso: string): Doc {
    d.(areas := seq(|d.areas|, i requires 0 <= i < |d.areas| => LoadedArea(d.areas[i], nowIso)))
  }

  /** Every area carries both of its dates. */
  predicate Stamped(d: Doc) {
    forall a | a in d.areas :: a.Record? ==> HasText(a.createdAt) && HasText(a.updatedAt)
  }

  /** What a cache may hold for a stored document: the document as written, or as loaded once. */
  ghost predicate IsView(d: Doc, view: Doc) {
    view == d || exists t :: view == Normalized(d, t)
  }

  lemma StampedIsFixed(d: Doc, nowIso: string)
    requires Stamped(d)
    ensures Normalized(d, nowIso) == d
  {
    assert forall i | 0 <= i < |d.areas| :: d.areas[i] in d.areas;
  }

  /** Every area carries one of its dates. */
  predicate OneDate(d: Doc) {
    forall a | a in d.areas :: a.Record? ==> HasText(a.createdAt) || HasText(a.updatedAt)
  }

  /** Loading gives the document back as it is stored exactly when every area has its dates. */
  lemma FixedExactlyWhenStamped(d: Doc, nowIso: string)
    requires Trim(nowIso) != []
    ensures Normalized(d, nowIso) == d <==> Stamped(d)
  {
    if Stamped(d) {
      StampedIsFixed(d, nowIso);
    } else {
      var a :| a in d.areas && a.Record? && !(HasText(a.createdAt) && HasText(a.updatedAt));
      var i :| 0 <= i < |d.areas| && d.areas[i] == a;
      assert Normalized(d, nowIso).areas[i] == LoadedArea(a, nowIso) != a;
    }
  }

  /** Loads at two times give the same exactly when every area has a date to fill in for the other. */
  lemma SteadyExactlyWhenOneDate(d: Doc, t: string, u: string)
    requires Trim(t) != [] && Trim(u) != []
    ensures Normalized(d, t) == Normalized(d, u) <==> t == u || OneDate(d)
  {
    if OneDate(d) {
      assert forall i | 0 <= i < |d.areas| :: d.areas[i] in d.areas;
    } else {
      var a :| a in d.areas && a.Record? && !HasText(a.createdAt) && !HasText(a.updatedAt);
      var i :| 0 <= i < |d.areas| && d.areas[i] == a;
      assert Normalized(d, t).areas[i] == a.(createdAt := Text(t), updatedAt := Text(t));
      assert Normalized(d, u).areas[i] == a.(createdAt := Text(u), updatedAt := Text(u));
    }
  }

  // ---- the files ----

  datatype Identity = Identity(ctimeMs: int, ino: int, mtimeMs: int, size: int)

  datatype Content = Readable(doc: Doc) | Unreadable

  datatype StoredFile = StoredFile(identity: Identity, content: Content)

  /** What an uncached load answers. */
  datatype Loaded = Loaded(doc: Doc) | LoadedNothing

  class Store {
    var files: map<string, StoredFile>
    /** What each identity a path ever had stood for. */
    var issued: map<(string, Identity), Content>

    constructor ()
      ensures Valid() && files == map[] && issued == map[]
    {
      files, issued := map[], map[];
    }

    ghost predicate Valid()
      reads this
    {
      forall p | p in files :: (p, files[p].identity) in issued && issued[(p, files[p].identity)] == files[p].content
    }

    function IdentityOf(path: string): Option<Identity>
      reads this
    {
      if path in files then Some(files[path].identity) else None
    }

    function Direct(path: string, nowIso: string): Loaded
      reads this
    {
      if path !in files then Loaded(DEFAULT_DOC)
      else match files[path].content
        case Readable(doc) => Loaded(Normalized(doc, nowIso))
        case Unreadable => LoadedNothing
    }

    /** An atomic replacement, with an identity that is new for the path. */
    method Replace(path: string, file: StoredFile)
      requires Valid() && (path, file.identity) !in issued
      modifies this
      ensures Valid()
      ensures files == old(files)[path := file]
      ensures issued == old(issued)[(path, file.identity) := file.content]
    {
      files := files[path := file];
      issued := issued[(path, file.identity) := file.content];
    }

    method Delete(path: string)
      requires Valid()
      modifies this`files
      ensures Valid() && files == old(files) - {path}
    {
      files := files - {path};
    }
  }

  // ---- bounded recency maps ----

  /** promoteCacheEntry. */
  function Promoted<V>(m: OMap<string, V>, key: string, v: V): OMap<string, V> {
    m.Remove(key).Put(key, v)
  }

  lemma PromotedIsValid<V>(m: OMap<string, V>, key: string, v: V)
    requires m.Valid()
    ensures var r := Promoted(m, key, v);
      r.Valid() && r.Size() == m.Size() + (if m.Has(key) then 0 else 1) && r.vals == m.vals[key := v]
  {
    m.RemoveIsValid(key);
    var removed := m.Remove(key);
    removed.PutIsValid(key, v);
    PutBack(m.vals, key, v);
  }

  lemma PutBack<V>(vals: map<string, V>, key: string, v: V)
    ensures (vals - {key})[key := v] == vals[key := v]
  {
  }

  /** trimDataCache: drops the least recent while there are too many; an empty key stops it. */
  method TrimCache<V>(m: OMap<string, V>) returns (r: OMap<string, V>)
    requires m.Valid()
    ensures r.Valid()
    ensures forall k | r.Has(k) :: m.Has(k) && r.Get(k) == m.Get(k)
    ensures "" !in m.keys ==> r.keys == Latest(m.keys)
  {
    r := m;
    ghost var n := 0;
    while r.Size() > MAX_ENTRIES
      invariant r.Valid()
      invariant 0 <= n <= |m.keys| && r.keys == m.keys[n..] && (n > 0 ==> |m.keys| - n >= MAX_ENTRIES)
      invariant forall k | r.Has(k) :: m.Has(k) && r.Get(k) == m.Get(k)
      decreases r.Size()
    {
      var oldest := r.keys[0];
      if oldest == "" {
        assert oldest in r.keys;
        return;
      }
      r.RemoveIsValid(oldest);
      assert Without(r.keys, oldest) == r.keys[1..];
      r := r.Remove(oldest);
      n := n + 1;
    }
  }

  /** Promotes and trims. */
  method Remember<V>(m: OMap<string, V>, key: string, v: V) returns (r: OMap<string, V>)
    requires m.Valid() && !m.Has("") && key != ""
    ensures r.Valid() && r.Size() <= MAX_ENTRIES && !r.Has("")
    ensures r.keys == Latest(Without(m.keys, key) + [key])
    ensures r.Has(key) && r.Get(key) == v
    ensures forall k | k in r.vals && k != key :: k in m.vals && r.vals[k] == m.vals[k]
  {
    var promoted := Promoted(m, key, v);
    PromotedIsValid(m, key, v);
    assert promoted.keys == Without(m.keys, key) + [key];
    r := TrimCache(promoted);
    assert r.keys[|r.keys| - 1] == key;
    forall k | k in r.vals && k != key ensures k in m.vals && r.vals[k] == m.vals[k] {
      assert r.Has(k);
    }
  }

  /** The last keys, as many as a cache holds. */
  function Latest(keys: seq<string>): (r: seq<string>) {
    if |keys| <= MAX_ENTRIES then keys else keys[|keys| - MAX_ENTRIES..]
  }

  // ---- the caches ----

  class AppDocument {
    var body: Doc

    constructor (body: Doc)
      ensures this.body == body
    {
      this.body := body;
    }
  }

  datatype Entry = Entry(identity: Identity, document: AppDocument)

  datatype WriteOutcome = Written(identity: Identity) | FailedBefore | FailedAfterRename(identity: Identity)

  class Cache {
    const store: Store
    var parsed: OMap<string, Entry>
    var validated: OMap<string, Identity>
    /** Contents that passed validation or were written by the server. */
    ghost var vetted: set<(string, Content)>

    constructor (store: Store)
      requires store.Valid()
      ensures this.store == store && Inv() && Owned() == {}
    {
      this.store := store;
      parsed, validated, vetted := Empty(), Empty(), {};
    }

    ghost function Owned(): set<AppDocument>
      reads this
    {
      set p | p in parsed.vals :: parsed.vals[p].document
    }

    /** Each kept copy is a view of what its identity stands for. */
    ghost predicate EntryHolds(p: string, e: Entry)
      reads store, e.document
    {
      && (p, e.identity) in store.issued
      && store.issued[(p, e.identity)].Readable?
      && IsView(store.issued[(p, e.identity)].doc, e.document.body)
    }

    ghost predicate Bounded()
      reads this
    {
      && parsed.Valid() && parsed.Size() <= MAX_ENTRIES && !parsed.Has("")
      && validated.Valid() && validated.Size() <= MAX_ENTRIES && !validated.Has("")
    }

    ghost predicate ParsedHolds()
      reads this, store, Owned()
    {
      forall p | p in parsed.vals :: EntryHolds(p, parsed.vals[p])
    }

    ghost predicate ValidatedHolds()
      reads this, store
    {
      forall p | p in validated.vals ::
        (p, validated.vals[p]) in store.issued && (p, store.issued[(p, validated.vals[p])]) in vetted
    }

    ghost predicate Inv()
      reads this, store, Owned()
    {
      store.Valid() && Bounded() && ParsedHolds() && ValidatedHolds()
    }

    /** Whether the parsed cache has an entry for the file as it is. */
    predicate Hits(path: string)
      reads this, store
    {
      parsed.Has(path) && Some(parsed.Get(path).identity) == store.IdentityOf(path)
    }

    method Forget(path: string)
      requires Inv()
      modifies this`parsed
      ensures Inv() && Owned() <= old(Owned()) && !parsed.Has(path)
    {
      parsed.RemoveIsValid(path);
      parsed := parsed.Remove(path);
    }

    /** Makes an entry the most recent one and drops the least recent past the bound. */
    method Keep(path: string, e: Entry)
      requires Inv() && path != "" && EntryHolds(path, e)
      modifies this`parsed
      ensures Inv() && Owned() <= old(Owned()) + {e.document}
      ensures parsed.keys == Latest(Without(old(parsed.keys), path) + [path]) && parsed.Has(path) && parsed.Get(path) == e
    {
      parsed := Remember(parsed, path, e);
      assert forall p | p in parsed.vals && p != path :: parsed.vals[p].document in old(Owned());
    }

    method Promote(path: string)
      requires Inv() && parsed.Has(path)
      modifies this`parsed
      ensures Inv() && parsed.vals == old(parsed.vals) && parsed.keys == Without(old(parsed.keys), path) + [path]
    {
      PromotedIsValid(parsed, path, parsed.Get(path));
      parsed := Promoted(parsed, path, parsed.Get(path));
      assert parsed.vals == old(parsed.vals);
    }

    /** The entry for the file as it is holds `body`, and is the most recent one. */
    ghost predicate Keeps(path: string, body: Doc)
      reads this, store, Owned()
    {
      Hits(path) && path in parsed.vals && parsed.Get(path).document.body == body
      && parsed.keys != [] && parsed.keys[|parsed.keys| - 1] == path
    }

    /** rememberParsedDataFile; `clones` is whether the copy could be made. */
    method RememberParsed(path: string, document: AppDocument, clones: bool)
      requires Inv() && path != ""
      requires path in store.files ==>
        store.files[path].content.Readable? && IsView(store.files[path].content.doc, document.body)
      modifies this`parsed
      ensures Inv() && fresh(Owned() - old(Owned()))
      ensures if path in store.files && clones then Keeps(path, document.body) else !parsed.Has(path)
    {
      var identity := store.IdentityOf(path);
      if identity.Some? && clones {
        var copy := new AppDocument(document.body);
        Keep(path, Entry(identity.value, copy));
      } else {
        Forget(path);
      }
    }

    /** The part of a load that goes past the cache. */
    method LoadPast(path: string, nowIso: string, clonesIn: bool) returns (r: Option<AppDocument>)
      requires Inv() && path != ""
      modifies this`parsed
      ensures Inv() && fresh(Owned() - old(Owned()))
      ensures r.Some? ==> fresh(r.value) && r.value !in Owned()
      ensures store.Direct(path, nowIso) == if r.Some? then Loaded(r.value.body) else LoadedNothing
      ensures r.Some? && path in store.files ==> if clonesIn then Keeps(path, r.value.body) else !parsed.Has(path)
    {
      hide Keeps;
      var direct := store.Direct(path, nowIso);
      if direct.LoadedNothing? { return None; }
      var document := new AppDocument(direct.doc);
      assert path in store.files ==> direct.doc == Normalized(store.files[path].content.doc, nowIso);
      RememberParsed(path, document, clonesIn);
      r := Some(document);
    }

    /**
     * loadAppDataForWrite; None when the file is unreadable.  The flags say whether the copy
     * out of the cache and the copy into it can be made.
     */
    method LoadForWrite(path: string, nowIso: string, clonesOut: bool, clonesIn: bool) returns (r: Option<AppDocument>)
      requires Inv() && path != ""
      modifies this`parsed
      ensures Inv() && fresh(Owned() - old(Owned()))
      ensures r.Some? ==> fresh(r.value) && r.value !in Owned()
      ensures r.None? <==> store.Direct(path, nowIso).LoadedNothing?
      ensures path !in store.files ==> r.Some? && r.value.body == DEFAULT_DOC
      ensures r.Some? && path in store.files ==> IsView(store.files[path].content.doc, r.value.body)
      ensures r.Some? && old(Hits(path)) && clonesOut ==> r.value.body == old(parsed.Get(path).document.body)
      ensures r.Some? && !(old(Hits(path)) && clonesOut) ==> Loaded(r.value.body) == store.Direct(path, nowIso)
      ensures r.Some? && path in store.files && ((old(Hits(path)) && clonesOut) || clonesIn) ==> Keeps(path, r.value.body)
      ensures r.Some? && path in store.files && !(old(Hits(path)) && clonesOut) && !clonesIn ==> !parsed.Has(path)
    {
      if Hits(path) {
        var cached := parsed.Get(path);
        assert EntryHolds(path, cached);
        if clonesOut {
          var copy := new AppDocument(cached.document.body);
          Promote(path);
          return Some(copy);
        }
        Forget(path);
      }
      r := LoadPast(path, nowIso, clonesIn);
    }

    method ForgetValidated(path: string)
      requires Inv()
      modifies this`validated
      ensures Inv() && !validated.Has(path)
    {
      validated.RemoveIsValid(path);
      validated := validated.Remove(path);
    }

    /** rememberValidatedDataFile, for a file whose content has been vetted. */
    method RememberValidated(path: string)
      requires Inv() && path != ""
      modifies this`validated, this`vetted
      ensures Inv()
      ensures vetted == old(vetted) + if path in store.files then {(path, store.files[path].content)} else {}
      ensures path in store.files ==> validated.Has(path) && Some(validated.Get(path)) == store.IdentityOf(path)
    {
      var identity := store.IdentityOf(path);
      if identity.Some? {
        vetted := vetted + {(path, store.files[path].content)};
        validated := Remember(validated, path, identity.value);
      } else {
        ForgetValidated(path);
      }
    }

    /** isTrustedValidatedDataFile: a trusted file is one whose present content was vetted. */
    method IsTrusted(path: string) returns (trusted: bool)
      requires Inv() && path != ""
      modifies this`validated
      ensures Inv()
      ensures trusted <==> old(validated.Has(path)) && Some(old(validated.Get(path))) == store.IdentityOf(path)
      ensures trusted ==> path in store.files && (path, store.files[path].content) in vetted
      ensures !trusted ==> !validated.Has(path)
    {
      if !validated.Has(path) { return false; }
      var cached := validated.Get(path);
      trusted := Some(cached) == store.IdentityOf(path);
      if trusted {
        PromotedIsValid(validated, path, cached);
        validated := Promoted(validated, path, cached);
      } else {
        ForgetValidated(path);
      }
    }

    /** writeCloudData; false when the document writer throws. */
    method WriteCloudData(path: string, document: AppDocument, outcome: WriteOutcome, clonesIn: bool) returns (ok: bool)
      requires Inv() && path != "" && document !in Owned()
      requires !outcome.FailedBefore? ==> (path, outcome.identity) !in store.issued
      modifies this, store
      ensures Inv() && fresh(Owned() - old(Owned()))
      ensures ok <==> outcome.Written?
      ensures store.files == if outcome.FailedBefore? then old(store.files)
        else old(store.files)[path := StoredFile(outcome.identity, Readable(document.body))]
      ensures store.issued == if outcome.FailedBefore? then old(store.issued)
        else old(store.issued)[(path, outcome.identity) := Readable(document.body)]
      ensures !ok ==> !parsed.Has(path)
      ensures ok ==> (path, Readable(document.body)) in vetted
      ensures ok ==> validated.Has(path) && validated.Get(path) == outcome.identity
      ensures ok ==> if clonesIn then Keeps(path, document.body) else !parsed.Has(path)
    {
      if !outcome.FailedBefore? {
        store.Replace(path, StoredFile(outcome.identity, Readable(document.body)));
      }
      ok := outcome.Written?;
      if !ok {
        Forget(path);
        return;
      }
      assert IsView(document.body, document.body);
      RememberParsed(path, document, clonesIn);
      RememberValidated(path);
    }
  }

  // ---- whole runs ----

  /**
   * What a server process and the world around it may do: load a document, change one it was
   * given, write one back (the write may fail before or after its rename), and, from outside,
   * replace or delete a file.
   */
  datatype Op =
    | Load(path: string, nowIso: string, clonesOut: bool, clonesIn: bool)
    | Edit(handle: nat, body: Doc)
    | Save(path: string, handle: nat, outcome: WriteOutcome, clonesIn: bool)
    | Swap(path: string, file: StoredFile)
    | Drop(path: string)

  /** A cached load's answer, beside the answer of an uncached load at the same moment. */
  datatype Answer = Answer(got: Loaded, direct: Loaded)

  predicate StampedOp(op: Op) {
    match op
    case Edit(_, body) => Stamped(body)
    case Swap(_, file) => file.content.Readable? ==> Stamped(file.content.doc)
    case _ => true
  }

  ghost predicate StampedStore(store: Store)
    reads store
  {
    forall i | i in store.issued :: store.issued[i].Readable? ==> Stamped(store.issued[i].doc)
  }

  lemma ViewOfStamped(d: Doc, view: Doc, nowIso: string)
    requires Stamped(d) && IsView(d, view)
    ensures view == d == Normalized(d, nowIso)
  {
    StampedIsFixed(d, nowIso);
    if view != d {
      var t :| view == Normalized(d, t);
      StampedIsFixed(d, t);
    }
  }

  /** The handles a run has given out are its own, never the cache's. */
  ghost predicate Isolated(c: Cache, handles: seq<AppDocument>)
    reads c, c.Owned()
  {
    forall h | h in handles :: h !in c.Owned()
  }

  method LoadOp(c: Cache, op: Op) returns (r: Option<AppDocument>, answer: Answer)
    requires c.Inv() && op.Load? && op.path != ""
    modifies c`parsed
    ensures c.Inv() && fresh(c.Owned() - old(c.Owned()))
    ensures r.Some? ==> fresh(r.value) && r.value !in c.Owned()
    ensures answer == Answer(if r.Some? then Loaded(r.value.body) else LoadedNothing, c.store.Direct(op.path, op.nowIso))
    ensures answer.got.LoadedNothing? <==> answer.direct.LoadedNothing?
    ensures StampedStore(c.store) ==> answer.got == answer.direct && (r.Some? ==> Stamped(r.value.body))
  {
    var direct := c.store.Direct(op.path, op.nowIso);
    r := c.LoadForWrite(op.path, op.nowIso, op.clonesOut, op.clonesIn);
    answer := Answer(if r.Some? then Loaded(r.value.body) else LoadedNothing, direct);
    if StampedStore(c.store) && r.Some? && op.path in c.store.files {
      var file := c.store.files[op.path];
      assert c.store.issued[(op.path, file.identity)] == file.content;
      ViewOfStamped(file.content.doc, r.value.body, op.nowIso);
    }
  }

  /** Operations that no run can contain are skipped: unknown handles, identities used before. */
  predicate Possible(c: Cache, handles: seq<AppDocument>, op: Op)
    reads c, c.store
  {
    match op
    case Load(path, _, _, _) => path != ""
    case Edit(h, _) => h < |handles|
    case Save(path, h, outcome, _) =>
      path != "" && h < |handles| && (!outcome.FailedBefore? ==> (path, outcome.identity) !in c.store.issued)
    case Swap(path, file) => (path, file.identity) !in c.store.issued
    case Drop(_) => true
  }

  method ChangeOp(c: Cache, handles: seq<AppDocument>, op: Op)
    requires c.Inv() && Isolated(c, handles) && !op.Load? && Possible(c, handles, op)
    modifies c, c.store, set h | h in handles
    ensures c.Inv() && Isolated(c, handles) && fresh(c.Owned() - old(c.Owned()))
    ensures forall i | 0 <= i < |handles| && (!op.Edit? || handles[i] != handles[op.handle]) :: handles[i].body == old(handles[i].body)
    ensures op.Edit? ==> handles[op.handle].body == op.body
    ensures op.Edit? ==> c.store.issued == old(c.store.issued)
    ensures old(StampedStore(c.store)) && StampedOp(op) && old(forall h | h in handles :: Stamped(h.body)) ==> StampedStore(c.store)
  {
    match op
    case Edit(h, body) =>
      handles[h].body := body;
      assert c.Owned() == old(c.Owned());
    case Save(path, h, outcome, clonesIn) =>
      var ok := c.WriteCloudData(path, handles[h], outcome, clonesIn);
    case Swap(path, file) =>
      c.store.Replace(path, file);
    case Drop(path) =>
      c.store.Delete(path);
  }

  /**
   * Any run: whatever was done with the documents handed out, a load reports an unreadable file
   * exactly when an uncached load does, and, where areas carry their dates, the very same document.
   */
  method Run(c: Cache, ops: seq<Op>) returns (answers: seq<Answer>)
    requires c.Inv()
    modifies c, c.store
    ensures c.Inv()
    ensures forall a | a in answers :: a.got.LoadedNothing? <==> a.direct.LoadedNothing?
    ensures old(StampedStore(c.store)) && (forall op | op in ops :: StampedOp(op)) ==>
      forall a | a in answers :: a.got == a.direct
  {
    answers := [];
    var handles: seq<AppDocument> := [];
    ghost var stamped := StampedStore(c.store) && forall op | op in ops :: StampedOp(op);
    for i := 0 to |ops|
      invariant c.Inv() && Isolated(c, handles) && fresh(c.Owned() - old(c.Owned()))
      invariant fresh(set h | h in handles)
      invariant stamped ==> StampedStore(c.store) && forall h | h in handles :: Stamped(h.body)
      invariant forall a | a in answers :: a.got.LoadedNothing? <==> a.direct.LoadedNothing?
      invariant stamped ==> forall a | a in answers :: a.got == a.direct
    {
      var op := ops[i];
      if Possible(c, handles, op) {
        if op.Load? {
          var r, answer := LoadOp(c, op);
          answers := answers + [answer];
          if r.Some? { handles := handles + [r.value]; }
        } else {
          ChangeOp(c, handles, op);
          assert stamped ==> StampedOp(op);
        }
      }
    }
  }

  // ---- when a cached load differs from an uncached one ----

  /** A load of one file: its time, and whether the copies out of the cache and into it can be made. */
  datatype Reading = Reading(at: string, out: bool, back: bool)

  /** Where a load's answer comes from: the file, a document kept by a write, or one kept by a load. */
  datatype Origin = Uncached | Kept | LoadedAt(at: string)

  function Seen(d: Doc, o: Origin, at: string): Doc {
    match o
    case Uncached => Normalized(d, at)
    case Kept => d
    case LoadedAt(t) => Normalized(d, t)
  }

  /** What the cache holds before the i-th load, when it held `held` before the first; None is nothing. */
  function HeldBefore(held: Option<Origin>, readings: seq<Reading>, i: nat): Option<Origin>
    requires i <= |readings|
  {
    if i == 0 then held
    else
      var h, last := HeldBefore(held, readings, i - 1), readings[i - 1];
      if h.Some? && last.out then h else if last.back then Some(LoadedAt(last.at)) else None
  }

  function OriginOf(held: Option<Origin>, readings: seq<Reading>, i: nat): Origin
    requires i < |readings|
  {
    var h := HeldBefore(held, readings, i);
    if h.Some? && readings[i].out then h.value else Uncached
  }

  /** The cases in which a load answers as an uncached one would. */
  predicate Agrees(d: Doc, o: Origin, at: string) {
    match o
    case Uncached => true
    case Kept => Stamped(d)
    case LoadedAt(t) => t == at || OneDate(d)
  }

  /** The times of the answers' origins are times of loads. */
  ghost predicate Dated(held: Option<Origin>, readings: seq<Reading>) {
    (held.Some? && held.value.LoadedAt? ==> Trim(held.value.at) != []) && forall x | x in readings :: Trim(x.at) != []
  }

  lemma {:induction false} HeldIsDated(held: Option<Origin>, readings: seq<Reading>, i: nat)
    requires Dated(held, readings) && i <= |readings|
    ensures var h := HeldBefore(held, readings, i); h.Some? && h.value.LoadedAt? ==> Trim(h.value.at) != []
  {
    hide Trim;
    if i > 0 {
      HeldIsDated(held, readings, i - 1);
      assert readings[i - 1] in readings;
    }
  }

  lemma AgreesIsExact(d: Doc, held: Option<Origin>, readings: seq<Reading>, i: nat)
    requires Dated(held, readings) && i < |readings|
    ensures var o, at := OriginOf(held, readings, i), readings[i].at; Seen(d, o, at) == Normalized(d, at) <==> Agrees(d, o, at)
  {
    HeldIsDated(held, readings, i);
    var o, at := OriginOf(held, readings, i), readings[i].at;
    match o
    case Uncached =>
    case Kept => FixedExactlyWhenStamped(d, at);
    case LoadedAt(t) => SteadyExactlyWhenOneDate(d, t, at);
  }

  /** When every copy can be made, a document kept by a write answers all loads, else the first load answers the others. */
  lemma {:induction false} CopiesMade(held: Option<Origin>, readings: seq<Reading>, i: nat)
    requires i < |readings| && forall x | x in readings :: x.out && x.back
    ensures OriginOf(held, readings, i) == if held.Some? then held.value else if i == 0 then Uncached else LoadedAt(readings[0].at)
  {
    if i > 0 {
      CopiesMade(held, readings, i - 1);
      assert readings[i - 1] in readings && readings[i] in readings;
    }
  }

  lemma HeldStart(held: Option<Origin>, readings: seq<Reading>)
    ensures HeldBefore(held, readings, 0) == held
  {
  }

  lemma HeldStep(held: Option<Origin>, readings: seq<Reading>, i: nat)
    requires i < |readings|
    ensures var h := HeldBefore(held, readings, i);
      HeldBefore(held, readings, i + 1) == HeldBefore(h, [readings[i]], 1) && OriginOf(held, readings, i) == OriginOf(h, [readings[i]], 0)
  {
    var h := HeldBefore(held, readings, i);
    assert HeldBefore(h, [readings[i]], 0) == h;
  }

  /** A load's answer, and that of an uncached load at its time. */
  function Answered(d: Doc, held: Option<Origin>, readings: seq<Reading>, i: nat): Answer
    requires i < |readings|
  {
    Answer(Loaded(Seen(d, OriginOf(held, readings, i), readings[i].at)), Loaded(Normalized(d, readings[i].at)))
  }

  ghost predicate Holding(c: Cache, path: string, d: Doc, held: Option<Origin>)
    reads c, c.store, c.Owned()
  {
    && path in c.store.files && c.store.files[path].content == Readable(d)
    && if held.Some? then held != Some(Uncached) && c.Keeps(path, Seen(d, held.value, "")) else !c.Hits(path)
  }

  method LoadOnce(c: Cache, path: string, reading: Reading, ghost d: Doc, ghost held: Option<Origin>) returns (answer: Answer)
    requires c.Inv() && path != "" && Holding(c, path, d, held)
    modifies c`parsed
    ensures c.Inv() && fresh(c.Owned() - old(c.Owned()))
    ensures Holding(c, path, d, HeldBefore(held, [reading], 1))
    ensures answer == Answered(d, held, [reading], 0)
  {
    assert HeldBefore(held, [reading], 0) == held;
    var direct := c.store.Direct(path, reading.at);
    var r := c.LoadForWrite(path, reading.at, reading.out, reading.back);
    answer := Answer(Loaded(r.value.body), direct);
  }

  /** Loads of a file that nobody changes meanwhile. */
  method LoadEach(c: Cache, path: string, readings: seq<Reading>, ghost d: Doc, ghost held: Option<Origin>) returns (answers: seq<Answer>)
    requires c.Inv() && path != "" && Holding(c, path, d, held) && Dated(held, readings)
    modifies c`parsed
    ensures c.Inv() && |answers| == |readings|
    ensures forall i | 0 <= i < |readings| :: answers[i] == Answered(d, held, readings, i)
    ensures forall i | 0 <= i < |readings| ::
      answers[i].got == answers[i].direct <==> Agrees(d, OriginOf(held, readings, i), readings[i].at)
  {
    hide Normalized, Cache.Inv, Cache.Keeps, Cache.Hits, Agrees, HeldBefore, OriginOf, Holding, Trim;
    assert HeldBefore(held, readings, 0) == held by { HeldStart(held, readings); }
    answers := [];
    ghost var owned := c.Owned();
    for i := 0 to |readings|
      invariant c.Inv() && Holding(c, path, d, HeldBefore(held, readings, i)) && fresh(c.Owned() - owned) && |answers| == i
      invariant forall j | 0 <= j < i :: answers[j] == Answered(d, held, readings, j)
    {
      var answer := LoadOnce(c, path, readings[i], d, HeldBefore(held, readings, i));
      HeldStep(held, readings, i);
      answers := answers + [answer];
    }
    forall i | 0 <= i < |readings|
      ensures answers[i].got == answers[i].direct <==> Agrees(d, OriginOf(held, readings, i), readings[i].at)
    {
      AgreesIsExact(d, held, readings, i);
    }
  }

  function KeptIf(kept: bool): Option<Origin> {
    if kept then Some(Kept) else None
  }

  /**
   * Loads after a write, whichever copies can be made: an answer from the document kept by the
   * write agrees with an uncached load exactly when every area written has both dates, one kept
   * by a load exactly when every area has a date or no time has passed.
   */
  method WriteThenLoad(c: Cache, path: string, document: AppDocument, identity: Identity, kept: bool, readings: seq<Reading>)
    returns (answers: seq<Answer>)
    requires c.Inv() && path != "" && document !in c.Owned() && (path, identity) !in c.store.issued
    requires forall x | x in readings :: Trim(x.at) != []
    modifies c, c.store
    ensures c.Inv() && |answers| == |readings|
    ensures forall i | 0 <= i < |readings| :: answers[i] == Answered(document.body, KeptIf(kept), readings, i)
    ensures forall i | 0 <= i < |readings| ::
      answers[i].got == answers[i].direct <==> Agrees(document.body, OriginOf(KeptIf(kept), readings, i), readings[i].at)
  {
    var ok := c.WriteCloudData(path, document, Written(identity), kept);
    answers := LoadEach(c, path, readings, document.body, KeptIf(kept));
  }

  /** The same for loads of a file put there from outside, which the cache does not hold. */
  method LoadThenLoad(c: Cache, path: string, file: StoredFile, readings: seq<Reading>) returns (answers: seq<Answer>)
    requires c.Inv() && path != "" && file.content.Readable? && (path, file.identity) !in c.store.issued
    requires forall x | x in readings :: Trim(x.at) != []
    modifies c, c.store
    ensures c.Inv() && |answers| == |readings|
    ensures forall i | 0 <= i < |readings| :: answers[i] == Answered(file.content.doc, None, readings, i)
    ensures forall i | 0 <= i < |readings| ::
      answers[i].got == answers[i].direct <==> Agrees(file.content.doc, OriginOf(None, readings, i), readings[i].at)
  {
    assert c.Hits(path) ==> c.EntryHolds(path, c.parsed.Get(path));
    assert c.parsed.Has(path) ==> (path, c.parsed.Get(path).identity) in c.store.issued;
    c.store.Replace(path, file);
    answers := LoadEach(c, path, readings, file.content.doc, None);
  }

  /** An area with one date, written and loaded: the cache leaves the other out, the uncached load fills it in. */
  method OneDateDiffersAfterWrite(identity: Identity) returns (answers: seq<Answer>)
    ensures |answers| == 1 && answers[0].got != answers[0].direct
    ensures answers[0].got == Loaded(Doc([Record(Text("t"), Absent, 0)], 0))
    ensures answers[0].direct == Loaded(Doc([Record(Text("t"), Text("t"), 0)], 0))
  {
    assert Trim("t") != [] by { assert !Whitespace("t"[0]); }
    assert Trim("u") != [] by { assert !Whitespace("u"[0]); }
    var store := new Store();
    var c := new Cache(store);
    var document := new AppDocument(Doc([Record(Text("t"), Absent, 0)], 0));
    var readings := [Reading("u", true, true)];
    CopiesMade(Some(Kept), readings, 0);
    answers := WriteThenLoad(c, "data.json", document, identity, true, readings);
    assert Normalized(document.body, "u").areas == [Record(Text("t"), Text("t"), 0)];
  }

  /** An undated area put there from outside: the cache keeps the time of the first load. */
  method UndatedAreaDiffersAfterLoad(identity: Identity) returns (answers: seq<Answer>)
    ensures |answers| == 2 && answers[0].got == answers[0].direct && answers[1].got != answers[1].direct
    ensures answers[1].got == Loaded(Doc([Record(Text("t"), Text("t"), 0)], 0))
    ensures answers[1].direct == Loaded(Doc([Record(Text("u"), Text("u"), 0)], 0))
  {
    assert Trim("t") != [] by { assert !Whitespace("t"[0]); }
    assert Trim("u") != [] by { assert !Whitespace("u"[0]); }
    var store := new Store();
    var c := new Cache(store);
    var d := Doc([Record(Absent, Absent, 0)], 0);
    var readings := [Reading("t", true, true), Reading("u", true, true)];
    CopiesMade(None, readings, 0);
    CopiesMade(None, readings, 1);
    answers := LoadThenLoad(c, "data.json", StoredFile(identity, Readable(d)), readings);
    assert Normalized(d, "t").areas == [Record(Text("t"), Text("t"), 0)];
    assert Normalized(d, "u").areas == [Record(Text("u"), Text("u"), 0)];
  }
}
