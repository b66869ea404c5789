/**
 * Durable file publication and removal (apps/cloud/src/server-storage.ts).
 *
 * A disk has a visible state and the states a crash may leave behind.  A directory
 * entry that was changed since its directory was last synced may come back as any
 * of the bindings it had since then; a file whose contents were not synced may come
 * back holding anything.
 */
module DurableStore {
  import opened Options

  datatype Path = Path(parent: string, name: string)

  type Ino = nat

  datatype Disk<C> = Disk(
    dir: map<Path, Ino>,                 // visible directory entries
    data: map<Ino, C>,                   // visible file contents
    past: map<Path, set<Option<Ino>>>,   // earlier bindings a crash may restore
    synced: set<Ino>,                    // files whose contents are on stable storage
    next: Ino)                           // the next unused file number

  function Binding<C>(d: Disk<C>, p: Path): Option<Ino> {
    if p in d.dir then Some(d.dir[p]) else None
  }

  function Past<C>(d: Disk<C>, p: Path): set<Option<Ino>> {
    if p in d.past then d.past[p] else {}
  }

  /** Every binding `p` may have after a crash. */
  function Possible<C>(d: Disk<C>, p: Path): set<Option<Ino>> {
    Past(d, p) + {Binding(d, p)}
  }

  ghost predicate Valid<C>(d: Disk<C>) {
    && d.synced <= d.data.Keys
    && (forall i | i in d.data :: i < d.next)
    && (forall p, i | Some(i) in Possible(d, p) :: i in d.data)
  }

  /** What a reader sees at `p`. */
  function Read<C>(d: Disk<C>, p: Path): Option<C> {
    if p in d.dir && d.dir[p] in d.data then Some(d.data[d.dir[p]]) else None
  }

  /** `r` is a state the machine may restart in when it crashes in state `d`. */
  ghost predicate Recovers<C>(d: Disk<C>, r: Disk<C>) {
    && Valid(r)
    && r.past == map[]
    && r.synced == r.data.Keys
    && (forall p :: Binding(r, p) in Possible(d, p))
    && (forall i | i in d.synced && i in d.data :: i in r.data && r.data[i] == d.data[i])
  }

  /** After a crash in state `d`, `p` may hold `c` (`None`: be absent). */
  ghost predicate CanHold<C>(d: Disk<C>, p: Path, c: Option<C>) {
    match c
    case None => None in Possible(d, p)
    case Some(v) => exists i :: Some(i) in Possible(d, p) && (i in d.synced && i in d.data ==> d.data[i] == v)
  }

  /** CanHold says exactly what some crash can leave at `p`. */
  lemma CanHoldIsExact<C(!new)>(d: Disk<C>, p: Path, c: Option<C>)
    requires Valid(d)
    ensures CanHold(d, p, c) <==> exists r: Disk<C> :: Recovers(d, r) && Read(r, p) == c
  {
    if CanHold(d, p, c) {
      var b: Option<Ino>;
      var contents := d.data;
      if c.None? {
        b := None;
      } else {
        var i :| Some(i) in Possible(d, p) && (i in d.synced && i in d.data ==> d.data[i] == c.value);
        b := Some(i);
        contents := d.data[i := c.value];
      }
      var dir := if b.Some? then d.dir[p := b.value] else d.dir - {p};
      var r := Disk(dir, contents, map[], contents.Keys, d.next);
      forall q ensures Binding(r, q) in Possible(d, q) {
        if q != p { assert Binding(r, q) == Binding(d, q); }
      }
      forall q, i | Some(i) in Possible(r, q) ensures i in r.data {
        assert Possible(r, q) == {Binding(r, q)};
        assert Some(i) in Possible(d, q);
      }
      assert Recovers(d, r) && Read(r, p) == c;
    }
    forall r: Disk<C> | Recovers(d, r) && Read(r, p) == c ensures CanHold(d, p, c) {
      assert Binding(r, p) in Possible(d, p) && Binding(r, p) in Possible(r, p);
      if c.Some? {
        var i := r.dir[p];
        assert Some(i) in Possible(d, p) && (i in d.synced && i in d.data ==> d.data[i] == c.value);
      }
    }
  }

  // ---- the effects of the individual system calls ----

  function Rebind<C>(d: Disk<C>, p: Path, b: Option<Ino>): (r: Disk<C>)
    ensures forall q :: Binding(r, q) == if q == p then b else Binding(d, q)
    ensures forall q :: Possible(r, q) == if q == p then Possible(d, p) + {b} else Possible(d, q)
  {
    d.(dir := if b.Some? then d.dir[p := b.value] else d.dir - {p}, past := d.past[p := Possible(d, p)])
  }

  function Create<C>(d: Disk<C>, p: Path, c: C): (r: Disk<C>)
    ensures forall q :: Binding(r, q) == if q == p then Some(d.next) else Binding(d, q)
    ensures forall q :: Possible(r, q) == if q == p then Possible(d, p) + {Some(d.next)} else Possible(d, q)
  {
    var grown := d.(data := d.data[d.next := c], synced := d.synced - {d.next}, next := d.next + 1);
    assert forall q :: Possible(grown, q) == Possible(d, q) && Binding(grown, q) == Binding(d, q);
    Rebind(grown, p, Some(d.next))
  }

  function Overwrite<C>(d: Disk<C>, i: Ino, c: C): (r: Disk<C>)
    ensures forall q :: Binding(r, q) == Binding(d, q)
    ensures forall q :: Possible(r, q) == Possible(d, q)
  {
    d.(data := d.data[i := c], synced := d.synced - {i})
  }

  function SyncFile<C>(d: Disk<C>, i: Ino): (r: Disk<C>)
    ensures forall q :: Binding(r, q) == Binding(d, q)
    ensures forall q :: Possible(r, q) == Possible(d, q)
  {
    d.(synced := d.synced + {i})
  }

  function SyncParent<C>(d: Disk<C>, parent: string): (r: Disk<C>)
    ensures forall q :: Binding(r, q) == Binding(d, q)
    ensures forall q :: Possible(r, q) == if q.parent == parent then {Binding(d, q)} else Possible(d, q)
  {
    d.(past := map p | p in d.past && p.parent != parent :: d.past[p])
  }

  function Unlink<C>(d: Disk<C>, p: Path): Disk<C> {
    Rebind(d, p, None)
  }

  function Rename<C>(d: Disk<C>, from: Path, to: Path): Disk<C> {
    Rebind(Rebind(d, to, Binding(d, from)), from, None)
  }

  // ---- how a state compares with an earlier one ----

  /** Nothing about `p`, now or after a crash, differs between `d0` and `d`. */
  ghost predicate Same<C>(d0: Disk<C>, d: Disk<C>, p: Path) {
    && Binding(d, p) == Binding(d0, p)
    && Possible(d, p) == Possible(d0, p)
    && SameFiles(d0, d, Possible(d0, p))
  }

  ghost predicate SameFiles<C>(d0: Disk<C>, d: Disk<C>, bs: set<Option<Ino>>) {
    forall i | Some(i) in bs ::
      && (i in d.data <==> i in d0.data)
      && (i in d0.data && i in d.data ==> d.data[i] == d0.data[i])
      && (i in d.synced <==> i in d0.synced)
  }

  /** Like Same, except that syncs may have ruled out some of the earlier bindings. */
  ghost predicate Kept<C>(d0: Disk<C>, d: Disk<C>, p: Path) {
    && Binding(d, p) == Binding(d0, p)
    && Possible(d, p) <= Possible(d0, p)
    && SameFiles(d0, d, Possible(d0, p))
  }

  /** The all-or-nothing law: `p` shows, and after a crash holds, its old contents or exactly `c`. */
  ghost predicate AllOrNothing<C(!new)>(d0: Disk<C>, d: Disk<C>, p: Path, c: C) {
    && (Read(d, p) == Read(d0, p) || Read(d, p) == Some(c))
    && (forall v :: CanHold(d, p, v) ==> CanHold(d0, p, v) || v == Some(c))
  }

  /** `p` shows `c` and no crash can change that. */
  ghost predicate Durably<C(!new)>(d: Disk<C>, p: Path, c: Option<C>) {
    && Read(d, p) == c
    && (forall v :: CanHold(d, p, v) <==> v == c)
  }

  lemma SameIsAllOrNothing<C(!new)>(d0: Disk<C>, d: Disk<C>, p: Path, c: C)
    requires Valid(d0) && Valid(d) && Same(d0, d, p)
    ensures AllOrNothing(d0, d, p, c)
    ensures forall v :: CanHold(d, p, v) <==> CanHold(d0, p, v)
  {
  }

  /** A crash in a state that obeys the law leaves `c`, or what a crash before could have left. */
  lemma CrashIsAllOrNothing<C(!new)>(d0: Disk<C>, d: Disk<C>, r: Disk<C>, p: Path, c: C)
    requires Valid(d0) && Valid(d) && AllOrNothing(d0, d, p, c) && Recovers(d, r)
    ensures Read(r, p) == Some(c) || exists r0: Disk<C> :: Recovers(d0, r0) && Read(r0, p) == Read(r, p)
    ensures forall v :: Durably(d0, p, v) ==> Read(r, p) == v || Read(r, p) == Some(c)
  {
    CanHoldIsExact(d, p, Read(r, p));
    CanHoldIsExact(d0, p, Read(r, p));
  }

  lemma DurableSurvivesCrash<C(!new)>(d: Disk<C>, r: Disk<C>, p: Path, c: Option<C>)
    requires Valid(d) && Durably(d, p, c) && Recovers(d, r)
    ensures Read(r, p) == c
  {
    CanHoldIsExact(d, p, Read(r, p));
  }

  /** An entry that was only kept holds no more than before, and what was durable stays so. */
  lemma KeptIsNoWorse<C(!new)>(d0: Disk<C>, d: Disk<C>, p: Path)
    requires Valid(d0) && Valid(d) && Kept(d0, d, p)
    ensures Read(d, p) == Read(d0, p)
    ensures forall v :: CanHold(d, p, v) ==> CanHold(d0, p, v)
    ensures forall c :: Durably(d0, p, c) ==> Durably(d, p, c)
  {
    assert Binding(d, p) in Possible(d, p) && Binding(d0, p) in Possible(d0, p);
    assert CanHold(d, p, Read(d, p));
    forall v | CanHold(d, p, v) ensures CanHold(d0, p, v) {}
    forall c | Durably(d0, p, c) ensures Durably(d, p, c) {
      forall v ensures CanHold(d, p, v) <==> v == c {}
    }
  }

  /** `i` is a new, fully synced copy of `c` that is bound to `p` on top of its old bindings. */
  ghost predicate Swapped<C>(d0: Disk<C>, d: Disk<C>, p: Path, i: Ino, c: C) {
    && Binding(d, p) == Some(i)
    && Possible(d, p) <= Possible(d0, p) + {Some(i)}
    && i in d.synced && i in d.data && d.data[i] == c
    && SameFiles(d0, d, Possible(d0, p))
  }

  lemma SwappedIsAllOrNothing<C(!new)>(d0: Disk<C>, d: Disk<C>, p: Path, i: Ino, c: C)
    requires Valid(d0) && Valid(d) && Swapped(d0, d, p, i, c)
    ensures AllOrNothing(d0, d, p, c)
  {
  }

  /** `i` is a staged copy that only the entry `temp` leads to; every other entry is as in `d0`. */
  ghost predicate Staged<C(!new)>(d0: Disk<C>, d: Disk<C>, temp: Path, i: Ino) {
    && Valid(d)
    && i in d.data
    && (forall p | p != temp :: Same(d0, d, p) && Some(i) !in Possible(d, p))
  }

  /** The states a publication of `c` at `dest` through `temp` may pass. */
  ghost predicate Publishing<C(!new)>(d0: Disk<C>, d: Disk<C>, dest: Path, temp: Path, c: C) {
    && Valid(d)
    && (Same(d0, d, dest) || exists i :: Swapped(d0, d, dest, i, c))
    && (forall p | p != dest && p != temp :: Kept(d0, d, p))
  }

  lemma PublishingIsAllOrNothing<C(!new)>(d0: Disk<C>, d: Disk<C>, dest: Path, temp: Path, c: C)
    requires Valid(d0) && Publishing(d0, d, dest, temp, c)
    ensures AllOrNothing(d0, d, dest, c)
  {
    if Same(d0, d, dest) {
      SameIsAllOrNothing(d0, d, dest, c);
    } else {
      var i :| Swapped(d0, d, dest, i, c);
      SwappedIsAllOrNothing(d0, d, dest, i, c);
    }
  }

  lemma CreateStages<C(!new)>(d: Disk<C>, temp: Path, c: C)
    requires Valid(d)
    ensures Staged(d, Create(d, temp, c), temp, d.next)
  {
  }

  lemma RewriteKeepsStaged<C(!new)>(d0: Disk<C>, d: Disk<C>, temp: Path, i: Ino, c: C)
    requires Valid(d0) && Staged(d0, d, temp, i)
    ensures Staged(d0, Overwrite(d, i, c), temp, i)
    ensures Staged(d0, SyncFile(d, i), temp, i)
  {
    forall p | p != temp
      ensures Same(d0, Overwrite(d, i, c), p) && Some(i) !in Possible(Overwrite(d, i, c), p)
      ensures Same(d0, SyncFile(d, i), p) && Some(i) !in Possible(SyncFile(d, i), p)
    {
      assert Same(d0, d, p);
    }
  }

  lemma RenameSwaps<C(!new)>(d0: Disk<C>, d: Disk<C>, temp: Path, dest: Path, i: Ino, c: C)
    requires Valid(d0) && temp != dest && Staged(d0, d, temp, i)
    requires Binding(d, temp) == Some(i) && i in d.synced && d.data[i] == c
    ensures Valid(Rename(d, temp, dest)) && Swapped(d0, Rename(d, temp, dest), dest, i, c)
    ensures Publishing(d0, Rename(d, temp, dest), dest, temp, c)
  {
    assert Same(d0, d, dest);
    assert Swapped(d0, Rename(d, temp, dest), dest, i, c);
    forall p | p != dest && p != temp ensures Kept(d0, Rename(d, temp, dest), p) {
      assert Same(d0, d, p);
    }
  }

  lemma UnlinkTempKeepsPublishing<C(!new)>(d0: Disk<C>, d: Disk<C>, dest: Path, temp: Path, c: C)
    requires Valid(d0) && temp != dest && Publishing(d0, d, dest, temp, c)
    ensures Publishing(d0, Unlink(d, temp), dest, temp, c)
    ensures Same(d0, d, dest) ==> Same(d0, Unlink(d, temp), dest)
    ensures forall i :: Swapped(d0, d, dest, i, c) ==> Swapped(d0, Unlink(d, temp), dest, i, c)
  {
    forall i | Swapped(d0, d, dest, i, c) ensures Swapped(d0, Unlink(d, temp), dest, i, c) {}
    forall p | p != dest && p != temp ensures Kept(d0, Unlink(d, temp), p) {
      assert Kept(d0, d, p);
    }
  }

  lemma SyncParentIsValid<C(!new)>(d: Disk<C>, parent: string)
    requires Valid(d)
    ensures Valid(SyncParent(d, parent))
    ensures forall q :: Possible(SyncParent(d, parent), q) <= Possible(d, q)
  {
    var d' := SyncParent(d, parent);
    forall q ensures Possible(d', q) <= Possible(d, q) {
      assert Binding(d', q) == Binding(d, q) && Binding(d, q) in Possible(d, q);
    }
  }

  lemma SyncParentKeepsPublishing<C(!new)>(d0: Disk<C>, d: Disk<C>, dest: Path, temp: Path, i: Ino, c: C)
    requires Valid(d0) && Publishing(d0, d, dest, temp, c) && Swapped(d0, d, dest, i, c)
    ensures Publishing(d0, SyncParent(d, dest.parent), dest, temp, c)
    ensures Swapped(d0, SyncParent(d, dest.parent), dest, i, c)
    ensures Durably(SyncParent(d, dest.parent), dest, Some(c))
  {
    var d' := SyncParent(d, dest.parent);
    SyncParentIsValid(d, dest.parent);
    assert Swapped(d0, d', dest, i, c);
    assert Possible(d', dest) == {Some(i)};
    forall p | p != dest && p != temp ensures Kept(d0, d', p) {
      assert Kept(d0, d, p);
    }
  }

  /** Renamed and synced: `dest` shows the staged file, and no crash can bring back another. */
  lemma RenameAndSyncSettle<C(!new)>(d0: Disk<C>, d: Disk<C>, temp: Path, dest: Path, i: Ino, c: C)
    requires Valid(d0) && temp != dest && Staged(d0, d, temp, i)
    requires Binding(d, temp) == Some(i) && i in d.synced && d.data[i] == c
    ensures var r := Rename(d, temp, dest); Publishing(d0, r, dest, temp, c)
    ensures var r := SyncParent(Rename(d, temp, dest), dest.parent);
      Publishing(d0, r, dest, temp, c) && Swapped(d0, r, dest, i, c) && Possible(r, dest) == {Some(i)} && Binding(r, temp) == None
  {
    RenameSwaps(d0, d, temp, dest, i, c);
    SyncParentKeepsPublishing(d0, Rename(d, temp, dest), dest, temp, i, c);
  }

  lemma StagedIsPublishing<C(!new)>(d0: Disk<C>, d: Disk<C>, dest: Path, temp: Path, i: Ino, c: C)
    requires temp != dest && Staged(d0, d, temp, i)
    ensures Publishing(d0, d, dest, temp, c) && Same(d0, d, dest)
  {
    forall p | p != dest && p != temp ensures Kept(d0, d, p) {
      assert Same(d0, d, p);
    }
  }

  /** Everything but `temp` is as it was. */
  ghost predicate StageOnly<C(!new)>(d0: Disk<C>, d: Disk<C>, temp: Path) {
    Valid(d) && forall p | p != temp :: Same(d0, d, p)
  }

  lemma StageOnlyIsPublishing<C(!new)>(d0: Disk<C>, d: Disk<C>, dest: Path, temp: Path, c: C)
    requires temp != dest && StageOnly(d0, d, temp)
    ensures Publishing(d0, d, dest, temp, c) && Same(d0, d, dest)
  {
    forall p | p != dest && p != temp ensures Kept(d0, d, p) {
      assert Same(d0, d, p);
    }
  }

  lemma StageComesAndGoes<C(!new)>(d: Disk<C>, temp: Path, c: C)
    requires Valid(d)
    ensures StageOnly(d, d, temp) && StageOnly(d, Create(d, temp, c), temp) && StageOnly(d, Unlink(Create(d, temp, c), temp), temp)
    ensures Staged(d, Create(d, temp, c), temp, d.next) && Binding(Create(d, temp, c), temp) == Some(d.next)
  {
    CreateStages(d, temp, c);
    forall p | p != temp ensures Same(d, Unlink(Create(d, temp, c), temp), p) {
      assert Same(d, Create(d, temp, c), p);
    }
  }

  /** How one system call ends: it works, fails without or after its effect, or tears a write. */
  datatype Fault<C> = Proceed | FailBefore | FailAfter | Torn(contents: C)

  /** How a publication ends; an exception says whether the rename had been issued. */
  datatype Outcome = Returned(ok: bool) | Threw(afterRename: bool)

  /** How a removal ends. */
  datatype Removal = Removed | AlreadyAbsent | RemovalThrew

  /** How a check ends that depends on the world outside the disk. */
  datatype Check = Match | Mismatch | Raises

  /** The checks of one prepared publication: the open stage, the storage root and the identities of the paths. */
  datatype Guards = Guards(handle: Check, root1: bool, current1: Check, root2: bool, current2: Check, root3: bool)

  const UNCHANGED := Guards(Match, true, Match, true, Match, true)

  /** How a check that is no match ends a publication. */
  function Refusal(c: Check): Outcome {
    if c.Raises? then Threw(false) else Returned(false)
  }

  /** What the checks make of a publication in which every system call works. */
  function Decided(g: Guards): Outcome {
    if !g.handle.Match? then Refusal(g.handle)
    else if !g.root1 then Threw(false)
    else if !g.current1.Match? then Refusal(g.current1)
    else if !g.root2 then Threw(false)
    else if !g.current2.Match? then Refusal(g.current2)
    else if !g.root3 then Threw(true)
    else Returned(true)
  }

  /** writeData throws where a publication answers false. */
  function Insisting(r: Outcome): Outcome {
    if r == Returned(false) then Threw(false) else r
  }

  /** The stage reserved for one publication. */
  class PreparedFilePublication {
    const target: Path
    const temp: Path
    const tempIdentity: Ino
    var tempHandle: bool   // is the stage still open

    constructor (target: Path, temp: Path, tempIdentity: Ino)
      ensures this.target == target && this.temp == temp && this.tempIdentity == tempIdentity && tempHandle
    {
      this.target, this.temp, this.tempIdentity, tempHandle := target, temp, tempIdentity, true;
    }
  }

  /** The file system: its disk, the outcomes of the calls to come, and every state it passed. */
  class FileSystem<C(!new)> {
    var disk: Disk<C>
    var faults: seq<Fault<C>>       // once used up, every call works
    ghost var trace: seq<Disk<C>>

    constructor (disk: Disk<C>, faults: seq<Fault<C>>)
      ensures this.disk == disk && this.faults == faults && trace == []
    {
      this.disk, this.faults, trace := disk, faults, [];
    }

    /** Every state since `trace` had length `n` obeys the all-or-nothing law at `dest`. */
    ghost predicate AtomicSince(n: nat, d0: Disk<C>, dest: Path, data: C)
      reads this
    {
      forall k | n <= k < |trace| :: Valid(trace[k]) && AllOrNothing(d0, trace[k], dest, data)
    }

    ghost predicate PublishingSince(n: nat, d0: Disk<C>, dest: Path, temp: Path, data: C)
      reads this
    {
      forall k | n <= k < |trace| :: Publishing(d0, trace[k], dest, temp, data)
    }

    ghost predicate StageOnlySince(n: nat, d0: Disk<C>, temp: Path)
      reads this
    {
      forall k | n <= k < |trace| :: StageOnly(d0, trace[k], temp)
    }

    lemma PublishingSinceIsAtomic(n: nat, d0: Disk<C>, dest: Path, temp: Path, data: C)
      requires Valid(d0) && PublishingSince(n, d0, dest, temp, data)
      ensures AtomicSince(n, d0, dest, data)
    {
      forall k | n <= k < |trace| ensures Valid(trace[k]) && AllOrNothing(d0, trace[k], dest, data) {
        PublishingIsAllOrNothing(d0, trace[k], dest, temp, data);
      }
    }

    method NextFault() returns (f: Fault<C>)
      modifies this`faults
      ensures old(faults) == [] ==> f == Proceed && faults == []
    {
      if faults == [] {
        f := Proceed;
      } else {
        f, faults := faults[0], faults[1..];
      }
    }

    /** One system call whose whole effect is `effect`. */
    method Call(effect: Disk<C>) returns (ok: bool)
      modifies this
      ensures disk == effect || (!ok && disk == old(disk))
      ensures old(faults) == [] ==> ok && faults == []
      ensures trace == old(trace) + [disk]
    {
      var f := NextFault();
      if f != FailBefore {
        disk := effect;
      }
      trace := trace + [disk];
      ok := f == Proceed;
    }

    /** Writes all of `data` to the open file `i`; a torn write leaves other contents behind. */
    method Write(i: Ino, data: C) returns (ok: bool)
      modifies this
      ensures disk == old(disk) || exists c :: disk == Overwrite(old(disk), i, c)
      ensures ok ==> disk == Overwrite(old(disk), i, data)
      ensures old(faults) == [] ==> ok && faults == []
      ensures trace == old(trace) + [disk]
    {
      var f := NextFault();
      match f {
        case FailBefore =>
        case Torn(c) => disk := Overwrite(disk, i, c);
        case _ => disk := Overwrite(disk, i, data);
      }
      trace := trace + [disk];
      ok := f == Proceed;
    }

    method Exists(p: Path) returns (found: bool)
      modifies this`faults
      ensures found ==> Binding(disk, p).Some?
      ensures old(faults) == [] ==> faults == [] && found == Binding(disk, p).Some?
    {
      var f := NextFault();
      found := f == Proceed && p in disk.dir;
    }

    /** syncDirectoryEntryParent: open, sync and close the directory. */
    method SyncDirectory(parent: string) returns (ok: bool)
      modifies this
      ensures disk == old(disk) || disk == SyncParent(old(disk), parent)
      ensures ok ==> disk == SyncParent(old(disk), parent)
      ensures old(faults) == [] ==> ok && faults == []
      ensures old(trace) <= trace
      ensures forall k | |old(trace)| <= k < |trace| :: trace[k] in {old(disk), SyncParent(old(disk), parent)}
    {
      ok := Call(disk);
      if ok {
        ok := Call(SyncParent(disk, parent));
        if ok {
          ok := Call(disk);
        } else {
          var _ := Call(disk);                    // close, errors ignored
        }
      }
    }

    /** Opens `temp` and fills it with synced contents; `tempHandle` tells whether it stayed open. */
    method StageFile(temp: Path, data: C, blank: C, ghost dest: Path) returns (ok: bool, tempHandle: bool, i: Ino)
      requires Valid(disk) && temp != dest
      modifies this
      ensures old(trace) <= trace
      ensures Publishing(old(disk), disk, dest, temp, data)
      ensures PublishingSince(|old(trace)|, old(disk), dest, temp, data)
      ensures forall p | p != temp :: Same(old(disk), disk, p)
      ensures ok ==> Staged(old(disk), disk, temp, i) && Binding(disk, temp) == Some(i)
      ensures ok ==> i in disk.synced && disk.data[i] == data
      ensures old(faults) == [] ==> faults == [] && ok == (temp !in old(disk).dir)
    {
      ghost var d0 := disk;
      i, ok, tempHandle := disk.next, false, false;
      if temp in disk.dir { return; }             // 'wx' refuses an existing file
      CreateStages(disk, temp, blank);
      StagedIsPublishing(d0, Create(disk, temp, blank), dest, temp, i, data);
      tempHandle := Call(Create(disk, temp, blank));
      if !tempHandle { return; }
      ok := FillStage(d0, temp, i, data, dest);
      if !ok { return; }
      ok := Call(disk);                           // close
      tempHandle := !ok;
    }

    /** Writes and syncs the open stage `i`. */
    method FillStage(ghost d0: Disk<C>, ghost temp: Path, i: Ino, data: C, ghost dest: Path) returns (ok: bool)
      requires Valid(d0) && temp != dest && Staged(d0, disk, temp, i)
      modifies this
      ensures Staged(d0, disk, temp, i) && Publishing(d0, disk, dest, temp, data)
      ensures Binding(disk, temp) == Binding(old(disk), temp)
      ensures old(trace) <= trace && PublishingSince(|old(trace)|, d0, dest, temp, data)
      ensures ok ==> i in disk.synced && disk.data[i] == data
      ensures old(faults) == [] ==> faults == [] && ok
    {
      ghost var staged := disk;
      ok := Write(i, data);
      forall c ensures Staged(d0, Overwrite(staged, i, c), temp, i) {
        RewriteKeepsStaged(d0, staged, temp, i, c);
      }
      StagedIsPublishing(d0, disk, dest, temp, i, data);
      if ok {
        RewriteKeepsStaged(d0, disk, temp, i, data);
        StagedIsPublishing(d0, SyncFile(disk, i), dest, temp, i, data);
        ok := Call(SyncFile(disk, i));
      }
    }

    /** A call and then the sync of a directory. */
    method CallAndSync(effect: Disk<C>, parent: string) returns (ok: bool)
      modifies this
      ensures disk == old(disk) || disk == effect || disk == SyncParent(effect, parent)
      ensures ok ==> disk == SyncParent(effect, parent)
      ensures old(trace) <= trace
      ensures forall k | |old(trace)| <= k < |trace| :: trace[k] in {old(disk), effect, SyncParent(effect, parent)}
      ensures old(faults) == [] ==> faults == [] && ok
    {
      ok := Call(effect);
      if ok { ok := SyncDirectory(parent); }
    }

    /** Renames the synced stage over `dest` and syncs their directory. */
    method CommitFile(ghost d0: Disk<C>, temp: Path, dest: Path, ghost i: Ino, ghost data: C) returns (ok: bool)
      requires Valid(d0) && temp != dest && Staged(d0, disk, temp, i)
      requires Binding(disk, temp) == Some(i) && i in disk.synced && disk.data[i] == data
      modifies this
      ensures Publishing(d0, disk, dest, temp, data)
      ensures old(trace) <= trace && PublishingSince(|old(trace)|, d0, dest, temp, data)
      ensures ok ==> Settled(d0, dest, i, data) && Binding(disk, temp) == None
      ensures old(faults) == [] ==> faults == [] && ok
    {
      RenameAndSyncSettle(d0, disk, temp, dest, i, data);
      StagedIsPublishing(d0, disk, dest, temp, i, data);
      hide Publishing, Staged, Swapped, Rename, SyncParent, Possible, Binding, Valid;
      ok := CallAndSync(Rename(disk, temp, dest), dest.parent);
    }

    /** `dest` shows the synced file `i` holding `data`, and no crash can bring back another. */
    ghost predicate Settled(d0: Disk<C>, dest: Path, i: Ino, data: C)
      reads this
    {
      Swapped(d0, disk, dest, i, data) && Possible(disk, dest) == {Some(i)}
    }

    lemma SettledIsDurable(d0: Disk<C>, dest: Path, i: Ino, data: C)
      requires Settled(d0, dest, i, data)
      ensures Durably(disk, dest, Some(data))
    {
      assert Some(i) in Possible(disk, dest);
    }

    /** The clean-up every publication ends with: unlink the stage if it is still there. */
    method DropStage(ghost d0: Disk<C>, temp: Path, ghost dest: Path, ghost data: C)
      requires Valid(d0) && temp != dest && Publishing(d0, disk, dest, temp, data)
      modifies this
      ensures Publishing(d0, disk, dest, temp, data)
      ensures old(trace) <= trace && PublishingSince(|old(trace)|, d0, dest, temp, data)
      ensures old(Same(d0, disk, dest)) ==> Same(d0, disk, dest)
      ensures forall i :: old(Settled(d0, dest, i, data)) ==> Settled(d0, dest, i, data)
      ensures old(faults) == [] ==> faults == [] && Binding(disk, temp) == None
    {
      var left := Exists(temp);
      if left {
        UnlinkTempKeepsPublishing(d0, disk, dest, temp, data);
        var _ := Call(Unlink(disk, temp));        // errors ignored
      }
    }

    /** durablyPublishFile: stage, write, sync, close, rename, sync the parent, clean up. */
    method DurablyPublishFile(dest: Path, data: C, blank: C, tempName: string, beforeRename: Check)
      returns (r: Outcome)
      requires Valid(disk) && tempName != dest.name
      modifies this
      ensures Valid(disk) && old(trace) <= trace
      ensures AtomicSince(|old(trace)|, old(disk), dest, data)
      ensures r == Returned(true) ==> beforeRename.Match? && Durably(disk, dest, Some(data))
      ensures r == Returned(false) ==> beforeRename.Mismatch?
      ensures r == Returned(false) || r == Threw(false) ==> Same(old(disk), disk, dest)
      ensures forall p | p != dest && p != Path(dest.parent, tempName) :: Kept(old(disk), disk, p)
      ensures old(faults) == [] && Path(dest.parent, tempName) !in old(disk).dir ==>
        r == if beforeRename.Match? then Returned(true) else Refusal(beforeRename)
      ensures old(faults) == [] ==> Binding(disk, Path(dest.parent, tempName)) == None
    {
      var temp := Path(dest.parent, tempName);
      ghost var d0, n := disk, |trace|;
      hide Staged, Swapped, AllOrNothing, Durably;
      r := Threw(false);
      var staged, tempHandle, i := StageFile(temp, data, blank, dest);
      if staged {
        if beforeRename.Match? {
          var ok := CommitFile(d0, temp, dest, i, data);
          r := if ok then Returned(true) else Threw(true);
        } else {
          r := Refusal(beforeRename);
        }
      }
      if tempHandle {
        var _ := Call(disk);                      // close, errors ignored
      }
      assert Publishing(d0, disk, dest, temp, data);
      DropStage(d0, temp, dest, data);
      PublishingSinceIsAtomic(n, d0, dest, temp, data);
      if r == Returned(true) { SettledIsDurable(d0, dest, i, data); }
    }

    /** prepareFilePublicationSafely: `safe` says whether the target was found safe to publish to. */
    method PreparePublication(target: Path, tempName: string, blank: C, safe: bool)
      returns (p: PreparedFilePublication?, threw: bool)
      requires Valid(disk) && tempName != target.name
      modifies this
      ensures p != null ==> fresh(p) && p.tempHandle && p.target == target && p.temp == Path(target.parent, tempName)
      ensures p != null ==> Staged(old(disk), disk, p.temp, p.tempIdentity)
      ensures p != null ==> safe && Binding(disk, p.temp) == Some(p.tempIdentity)
      ensures StageOnly(old(disk), disk, Path(target.parent, tempName))
      ensures old(trace) <= trace && StageOnlySince(|old(trace)|, old(disk), Path(target.parent, tempName))
      ensures old(faults) == [] && safe && Path(target.parent, tempName) !in old(disk).dir ==> faults == [] && p != null
    {
      p, threw := null, false;
      var temp := Path(target.parent, tempName);
      StageComesAndGoes(disk, temp, blank);
      hide StageOnly, Staged, Valid, Create, Unlink;
      if !safe { return; }
      threw := true;
      if temp in disk.dir { return; }
      var i := disk.next;
      var created := Call(Create(disk, temp, blank));
      if !created { return; }
      var stat := Call(disk);
      if !stat {
        var _ := Call(disk);                      // close, errors ignored
        var _ := Call(Unlink(disk, temp));        // errors ignored
        return;
      }
      p := new PreparedFilePublication(target, temp, i);
      threw := false;
    }

    /**
     * publishPreparedFilePublication.  `d0` is any earlier state since which only the
     * stage has changed; `g` holds the outcomes of the identity and storage-root checks.
     */
    method PublishPrepared(p: PreparedFilePublication, data: C, g: Guards, ghost d0: Disk<C>) returns (r: Outcome)
      requires Valid(d0) && p.temp != p.target && Staged(d0, disk, p.temp, p.tempIdentity)
      requires p.temp.parent == p.target.parent
      modifies this, p
      ensures Publishing(d0, disk, p.target, p.temp, data)
      ensures old(trace) <= trace && PublishingSince(|old(trace)|, d0, p.target, p.temp, data)
      ensures AtomicSince(|old(trace)|, d0, p.target, data)
      ensures r == Returned(true) ==> g == UNCHANGED
      ensures r == Returned(true) ==> exists i :: Settled(d0, p.target, i, data)
      ensures r == Returned(true) ==> Durably(disk, p.target, Some(data))
      ensures r == Returned(false) || r == Threw(false) ==> Same(d0, disk, p.target)
      ensures old(faults) == [] && old(p.tempHandle) && old(Binding(disk, p.temp)) == Some(p.tempIdentity) ==>
        faults == [] && r == Decided(g)
        && Binding(disk, p.temp) in {None, Some(p.tempIdentity)}
    {
      r := Returned(false);
      StagedIsPublishing(d0, disk, p.target, p.temp, p.tempIdentity, data);
      if !p.tempHandle { return; }
      ghost var n := |trace|;
      r := PublishStage(p, data, g, d0);
      PublishingSinceIsAtomic(n, d0, p.target, p.temp, data);
      if r == Returned(true) {
        ghost var i :| Settled(d0, p.target, i, data);
        SettledIsDurable(d0, p.target, i, data);
      }
    }

    /** isPreparedFilePublicationCurrent: the other checks, then the lstat of the stage, which fails when it is gone. */
    function StillCurrent(p: PreparedFilePublication, others: Check): Check
      reads this`disk
    {
      if !others.Match? then others
      else if Binding(disk, p.temp).None? then Raises
      else if Binding(disk, p.temp) != Some(p.tempIdentity) then Mismatch
      else Match
    }

    /** The steps of publishPreparedFilePublication for a stage that is still open. */
    method PublishStage(p: PreparedFilePublication, data: C, g: Guards, ghost d0: Disk<C>) returns (r: Outcome)
      requires Valid(d0) && p.temp != p.target && Staged(d0, disk, p.temp, p.tempIdentity)
      requires p.temp.parent == p.target.parent && Same(d0, disk, p.target) && Publishing(d0, disk, p.target, p.temp, data)
      modifies this, p
      ensures Publishing(d0, disk, p.target, p.temp, data)
      ensures old(trace) <= trace && PublishingSince(|old(trace)|, d0, p.target, p.temp, data)
      ensures r == Returned(true) ==> g == UNCHANGED
      ensures r == Returned(true) ==> exists i :: Settled(d0, p.target, i, data)
      ensures r == Returned(false) || r == Threw(false) ==> Same(d0, disk, p.target)
      ensures old(faults) == [] && old(Binding(disk, p.temp)) == Some(p.tempIdentity) ==>
        faults == [] && r == Decided(g)
        && Binding(disk, p.temp) in {None, Some(p.tempIdentity)}
    {
      hide Publishing, Staged, Swapped, Same, Kept, AllOrNothing;
      r := Threw(false);
      var ok := FillStage(d0, p.temp, p.tempIdentity, data, p.target);
      StagedIsPublishing(d0, disk, p.target, p.temp, p.tempIdentity, data);
      if !ok { return; }
      if !g.handle.Match? { return Refusal(g.handle); }
      ok := Call(disk);                           // close
      if !ok { return; }
      p.tempHandle := false;
      if !g.root1 { return; }
      var still := StillCurrent(p, g.current1);
      if !still.Match? { return Refusal(still); }
      if !g.root2 { return; }
      still := StillCurrent(p, g.current2);
      if !still.Match? { return Refusal(still); }
      ok := CommitFile(d0, p.temp, p.target, p.tempIdentity, data);
      r := if ok && g.root3 then Returned(true) else Threw(true);
    }

    /** abandonPreparedFilePublication: close the stage and unlink it if it is still this one. */
    method AbandonPublication(p: PreparedFilePublication, ghost d0: Disk<C>, ghost data: C)
      requires Valid(d0) && p.temp != p.target && Publishing(d0, disk, p.target, p.temp, data)
      modifies this, p`tempHandle
      ensures !p.tempHandle && Publishing(d0, disk, p.target, p.temp, data)
      ensures old(trace) <= trace && PublishingSince(|old(trace)|, d0, p.target, p.temp, data)
      ensures old(Same(d0, disk, p.target)) ==> Same(d0, disk, p.target)
      ensures forall i :: old(Settled(d0, p.target, i, data)) ==> Settled(d0, p.target, i, data)
      ensures old(faults) == [] ==> faults == []
      ensures old(faults) == [] && old(Binding(disk, p.temp)) in {None, Some(p.tempIdentity)} ==> Binding(disk, p.temp) == None
    {
      if p.tempHandle {
        var _ := Call(disk);                      // close, errors ignored
        p.tempHandle := false;
      }
      var found := Exists(p.temp);
      if found && Binding(disk, p.temp) == Some(p.tempIdentity) {
        UnlinkTempKeepsPublishing(d0, disk, p.target, p.temp, data);
        var _ := Call(Unlink(disk, p.temp));      // errors ignored
      }
    }

    /** writeData through a publication of the caller's, as PUT /v1/data has one; anything but success throws. */
    method WriteDataThrough(p: PreparedFilePublication, data: C, g: Guards, ghost d0: Disk<C>) returns (r: Outcome)
      requires Valid(d0) && p.temp != p.target && Staged(d0, disk, p.temp, p.tempIdentity)
      requires p.temp.parent == p.target.parent
      modifies this, p
      ensures r.Threw? || r == Returned(true)
      ensures Publishing(d0, disk, p.target, p.temp, data)
      ensures old(trace) <= trace && PublishingSince(|old(trace)|, d0, p.target, p.temp, data)
      ensures AtomicSince(|old(trace)|, d0, p.target, data)
      ensures r == Returned(true) ==> g == UNCHANGED && Durably(disk, p.target, Some(data))
      ensures r == Returned(true) ==> exists i :: Settled(d0, p.target, i, data)
      ensures r == Threw(false) ==> Same(d0, disk, p.target)
      ensures old(faults) == [] && old(p.tempHandle) && old(Binding(disk, p.temp)) == Some(p.tempIdentity) ==>
        && faults == [] && r == Insisting(Decided(g))
        && Binding(disk, p.temp) in {None, Some(p.tempIdentity)}
    {
      r := PublishPrepared(p, data, g, d0);
      r := Insisting(r);
    }

    /** writeData: prepare, publish, abandon; anything but success throws. */
    method WriteData(target: Path, data: C, blank: C, tempName: string, safe: bool, g: Guards) returns (r: Outcome)
      requires Valid(disk) && tempName != target.name
      modifies this
      ensures r.Threw? || r == Returned(true)
      ensures Valid(disk) && old(trace) <= trace
      ensures Publishing(old(disk), disk, target, Path(target.parent, tempName), data)
      ensures PublishingSince(|old(trace)|, old(disk), target, Path(target.parent, tempName), data)
      ensures AtomicSince(|old(trace)|, old(disk), target, data)
      ensures r == Returned(true) ==> Durably(disk, target, Some(data))
      ensures r == Threw(false) ==> Same(old(disk), disk, target)
      ensures old(faults) == [] && safe && Path(target.parent, tempName) !in old(disk).dir ==>
        && faults == [] && r == Insisting(Decided(g))
        && Binding(disk, Path(target.parent, tempName)) == None
    {
      ghost var d0, n := disk, |trace|;
      var p, threw := PreparePublication(target, tempName, blank, safe);
      StageOnlyIsPublishing(d0, disk, target, Path(target.parent, tempName), data);
      forall k | n <= k < |trace| ensures Publishing(d0, trace[k], target, Path(target.parent, tempName), data) {
        StageOnlyIsPublishing(d0, trace[k], target, Path(target.parent, tempName), data);
      }
      if p == null {
        r := Threw(false);
        PublishingSinceIsAtomic(n, d0, target, Path(target.parent, tempName), data);
        return;
      }
      r := WriteDataThrough(p, data, g, d0);
      AbandonPublication(p, d0, data);
      PublishingSinceIsAtomic(n, d0, target, Path(target.parent, tempName), data);
      if r == Returned(true) {
        ghost var i :| Settled(d0, target, i, data);
        SettledIsDurable(d0, target, i, data);
      }
    }

    /** Whatever `p` shows is what it will still be bound to after a crash. */
    ghost predicate Acknowledged(p: Path)
      reads this
    {
      Possible(disk, p) == {Binding(disk, p)}
    }

    /** Since `n`, `p` was either untouched or gone, and no other entry changed. */
    ghost predicate RemovingSince(n: nat, d0: Disk<C>, p: Path)
      reads this
    {
      forall k | n <= k < |trace| :: Removing(d0, trace[k], p)
    }

    ghost predicate Removing(d0: Disk<C>, d: Disk<C>, p: Path) {
      && Valid(d)
      && (Binding(d, p) == Binding(d0, p) || Binding(d, p) == None)
      && Possible(d, p) <= Possible(d0, p) + {None}
      && SameFiles(d0, d, Possible(d0, p))
      && (forall q | q != p :: Kept(d0, d, q))
    }

    /** What an existence test sees: it follows links, so one that leads nowhere is not there. */
    predicate Seems(d: Disk<C>, p: Path, dead: C -> bool) {
      p in d.dir && !(d.dir[p] in d.data && dead(d.data[d.dir[p]]))
    }

    /**
     * durablyRemoveEntry.  `dead` tells the links that lead nowhere.  `vanishes`: somebody else
     * removes the entry between the existence test and the removal, which then reports ENOENT.
     */
    method DurablyRemove(p: Path, parentExists: bool, syncParent: bool, dead: C -> bool, vanishes: bool) returns (r: Removal)
      requires Valid(disk)
      modifies this
      ensures Removing(old(disk), disk, p)
      ensures old(trace) <= trace && RemovingSince(|old(trace)|, old(disk), p)
      ensures r == Removed ==> Seems(old(disk), p, dead) && Binding(disk, p) == None
      ensures r == Removed && syncParent ==> Acknowledged(p) && Durably(disk, p, None)
      ensures r == AlreadyAbsent && syncParent && parentExists ==> Acknowledged(p)
      ensures r == AlreadyAbsent && syncParent && parentExists && old(Binding(disk, p)) == None ==> Durably(disk, p, None)
      ensures old(faults) == [] ==> Binding(disk, p) == if Seems(old(disk), p, dead) then None else old(Binding(disk, p))
      ensures old(faults) == [] ==> r == if Seems(old(disk), p, dead) && !vanishes then Removed else AlreadyAbsent
    {
      ghost var d0 := disk;
      assert Removing(d0, disk, p);
      r := AlreadyAbsent;
      var found := Exists(p);
      if found && Seems(disk, p, dead) {
        assert Removing(d0, Unlink(d0, p), p) by {
          forall q | q != p ensures Kept(d0, Unlink(d0, p), q) {}
        }
        var ok := Call(Unlink(disk, p));
        if vanishes && ok {
          r := AlreadyAbsent;                     // it was not this call that removed it
        } else if ok {
          r := Removed;
        } else {
          return RemovalThrew;
        }
      }
      if syncParent && (parentExists || r == Removed) {
        ghost var d1 := disk;
        SyncParentIsValid(d1, p.parent);
        assert Removing(d0, SyncParent(d1, p.parent), p) by {
          forall q | q != p ensures Kept(d0, SyncParent(d1, p.parent), q) {
            assert Kept(d0, d1, q);
          }
        }
        var ok := SyncDirectory(p.parent);
        if !ok { r := RemovalThrew; }
      }
    }

    /** The directory entry of segment `k` below `root`. */
    function SegmentEntry(root: string, segments: seq<string>, k: nat): (p: Path)
      requires k < |segments|
      ensures |p.parent| >= |root| + k
      ensures forall j | 0 <= j < k :: |SegmentEntry(root, segments, j).parent| < |p.parent|
    {
      if k == 0 then Path(root, segments[0])
      else var above := SegmentEntry(root, segments, k - 1); Path(above.parent + "/" + above.name, segments[k])
    }

    ghost predicate IsDirectory(d: Disk<C>, p: Path, isDirectory: C -> bool) {
      Binding(d, p).Some? && Binding(d, p).value in d.data && isDirectory(d.data[Binding(d, p).value])
    }

    /** Something that is no directory stands where a segment should be. */
    ghost predicate Obstructed(d: Disk<C>, root: string, segments: seq<string>, isDirectory: C -> bool) {
      exists k | 0 <= k < |segments| ::
        Binding(d, SegmentEntry(root, segments, k)).Some? && !IsDirectory(d, SegmentEntry(root, segments, k), isDirectory)
    }

    /** Every real path can be found and is within the root, and other processes make directories only. */
    predicate Peaceful(resolves: seq<Check>, rivals: seq<Option<C>>, isDirectory: C -> bool) {
      && (forall k | 0 <= k < |resolves| :: resolves[k].Match?)
      && forall k | 0 <= k < |rivals| && rivals[k].Some? :: isDirectory(rivals[k].value)
    }

    /** The entry exists, leads to a directory, and survives every crash as it is. */
    ghost predicate DurableDirectory(d: Disk<C>, p: Path, isDirectory: C -> bool) {
      Possible(d, p) == {Binding(d, p)} && IsDirectory(d, p, isDirectory)
    }

    lemma GrewKeepsDirectory(d0: Disk<C>, d: Disk<C>, p: Path, isDirectory: C -> bool)
      requires Grew(d0, d)
      ensures IsDirectory(d0, p, isDirectory) ==> IsDirectory(d, p, isDirectory)
      ensures DurableDirectory(d0, p, isDirectory) ==> DurableDirectory(d, p, isDirectory)
    {
      assert Binding(d, p) in Possible(d, p);
    }

    /** Every entry there was is still there, no less safe than before. */
    ghost predicate Grew(d0: Disk<C>, d: Disk<C>) {
      && Valid(d)
      && (forall q | Binding(d0, q).Some? :: Binding(d, q) == Binding(d0, q) && Possible(d, q) <= Possible(d0, q))
      && (forall i | i in d0.data :: i in d.data && d.data[i] == d0.data[i])
    }

    lemma GrewKeepsGrowing(d0: Disk<C>, d1: Disk<C>, d2: Disk<C>)
      requires Grew(d0, d1) && Grew(d1, d2)
      ensures Grew(d0, d2)
    {
    }

    /**
     * ensureDirectoryWithinRoot: None is an exception; `resolves` holds the outcomes of the
     * real-path checks, `rivals` what another process makes of a missing segment just before this
     * call does, which then gets EEXIST.  With `create`, success means that every segment, old or new, is a
     * directory no crash can take away, also when an earlier call left one unsynced.
     */
    method EnsureDirectoryWithinRoot(root: string, segments: seq<string>, create: bool, directory: C,
        isDirectory: C -> bool, resolves: seq<Check>, rivals: seq<Option<C>>) returns (r: Option<bool>)
      requires Valid(disk) && isDirectory(directory) && |resolves| == |rivals| == |segments|
      modifies this
      ensures Grew(old(disk), disk)
      ensures !create ==> disk == old(disk)
      ensures create && r == Some(true) ==>
        forall k | 0 <= k < |segments| :: DurableDirectory(disk, SegmentEntry(root, segments, k), isDirectory)
      ensures r == Some(false) ==> exists k | 0 <= k < |segments| :: !IsDirectory(disk, SegmentEntry(root, segments, k), isDirectory) || resolves[k].Mismatch?
      ensures old(faults) == [] && !Obstructed(old(disk), root, segments, isDirectory) && Peaceful(resolves, rivals, isDirectory) ==>
        r == Some(true)
    {
      var k := 0;
      while k < |segments|
        invariant 0 <= k <= |segments| && Grew(old(disk), disk)
        invariant !create ==> disk == old(disk)
        invariant create ==> forall j | 0 <= j < k :: DurableDirectory(disk, SegmentEntry(root, segments, j), isDirectory)
        invariant old(faults) == [] ==> faults == []
        invariant forall j | k <= j < |segments| ::
          Binding(disk, SegmentEntry(root, segments, j)) == old(Binding(disk, SegmentEntry(root, segments, j)))
      {
        var p := SegmentEntry(root, segments, k);
        ghost var d0 := disk;
        var next, stop := EnsureSegment(p, create, directory, isDirectory, resolves[k], rivals[k]);
        if !next { return stop; }
        assert forall j | k < j < |segments| :: SegmentEntry(root, segments, j) != p;
        forall j | create && 0 <= j < k ensures DurableDirectory(disk, SegmentEntry(root, segments, j), isDirectory) {
          GrewKeepsDirectory(d0, disk, SegmentEntry(root, segments, j), isDirectory);
        }
        GrewKeepsGrowing(old(disk), d0, disk);
        k := k + 1;
      }
      r := Some(true);
    }

    /** One segment of the walk: go on to the next one, or stop with the result of the whole call. */
    method EnsureSegment(p: Path, create: bool, directory: C, isDirectory: C -> bool, resolves: Check, rival: Option<C>)
      returns (next: bool, stop: Option<bool>)
      requires Valid(disk) && isDirectory(directory)
      modifies this
      ensures Grew(old(disk), disk)
      ensures !create ==> disk == old(disk)
      ensures next && create ==> DurableDirectory(disk, p, isDirectory)
      ensures !next && stop == Some(true) ==> !create
      ensures !next && stop == Some(false) ==> !IsDirectory(disk, p, isDirectory) || resolves.Mismatch?
      ensures forall q | q != p :: Binding(disk, q) == old(Binding(disk, q))
      ensures old(faults) == [] ==> faults == []
      ensures old(faults) == [] && Peaceful([resolves], [rival], isDirectory) ==>
        Binding(old(disk), p).None? || IsDirectory(old(disk), p, isDirectory) ==> next || stop == Some(true)
    {
      assert [resolves][0] == resolves && [rival][0] == rival;
      next, stop := false, None;
      var seen := Call(disk);                     // lstat
      if !seen { return; }
      if p !in disk.dir {
        if !create { return false, Some(true); }
        if rival.Some? {
          RivalMakes(p, rival.value);             // mkdir then fails with EEXIST, which is fine
        } else {
          var made := MakeDirectory(p, directory);
          if !made { return; }
        }
      }
      var again := Call(disk);                    // lstat
      if !again { return; }
      assert Binding(disk, p) in Possible(disk, p);
      if p !in disk.dir || !isDirectory(disk.data[disk.dir[p]]) { return false, Some(false); }
      if !resolves.Match? { return false, if resolves.Raises? then None else Some(false); }
      if create {
        SyncParentIsValid(disk, p.parent);
        var synced := SyncDirectory(p.parent);
        if !synced { return; }
      }
      next := true;
    }

    /** Another process makes the entry, and has not synced its directory yet. */
    method RivalMakes(p: Path, c: C)
      requires Valid(disk) && p !in disk.dir
      modifies this`disk, this`trace
      ensures disk == SyncFile(Create(old(disk), p, c), old(disk).next) && p in disk.dir && Grew(old(disk), disk)
    {
      CreateStages(disk, p, c);
      RewriteKeepsStaged(disk, Create(disk, p, c), p, disk.next, c);
      disk := SyncFile(Create(disk, p, c), disk.next);
      trace := trace + [disk];
    }

    /** mkdir: a new entry that leads to a new, empty directory; a call that fails may have made it. */
    method MakeDirectory(p: Path, directory: C) returns (ok: bool)
      requires Valid(disk) && p !in disk.dir
      modifies this
      ensures disk == old(disk) || disk == SyncFile(Create(old(disk), p, directory), old(disk).next)
      ensures ok ==> p in disk.dir
      ensures Grew(old(disk), disk)
      ensures old(faults) == [] ==> faults == [] && ok
    {
      CreateStages(disk, p, directory);
      RewriteKeepsStaged(disk, Create(disk, p, directory), p, disk.next, directory);
      ok := Call(SyncFile(Create(disk, p, directory), disk.next));
    }
  }
}
