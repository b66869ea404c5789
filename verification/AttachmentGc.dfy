/**
 * The sweep of orphaned attachment files (apps/cloud/src/server-attachments.ts): a recursive
 * walk that removes entry by entry and publishes each directory once, at its end.  Uploads and
 * deletions of single attachments take no lock, so those of other processes may come between
 * any two of its system calls.
 */
module AttachmentGc {
  import opened Options
  import opened JsText
  import opened AttachmentPaths

  const GRACE_MS := 300000

  // ---- a file system ----

  /** The names from the attachment root down; the root itself is the empty path. */
  type Path = seq<string>

  type Inode = nat

  const ROOT: Inode := 0

  datatype Node = Dir(path: Path) | File(mtime: int) | Link(mtime: int, dangling: bool)

  /** A name in a directory. */
  datatype Slot = Slot(dir: Inode, name: string)

  /**
   * `bound` is what can be seen.  `past` holds what a name was bound to, or that it was not,
   * before changes that its directory has not been synced since: a crash may bring it back.
   */
  datatype Tree = Tree(nodes: map<Inode, Node>, bound: map<Slot, Inode>, past: set<(Slot, Option<Inode>)>, next: Inode)

  predicate IsDir(t: Tree, i: Inode) {
    i in t.nodes && t.nodes[i].Dir?
  }

  function Now(t: Tree, s: Slot): Option<Inode> {
    if s in t.bound then Some(t.bound[s]) else None
  }

  /** What a name may be bound to, now or after a crash. */
  ghost predicate Possible(t: Tree, s: Slot, x: Option<Inode>) {
    x == Now(t, s) || (s, x) in t.past
  }

  /** A directory is never renamed, so its path is part of it. */
  predicate Fits(t: Tree, s: Slot, i: Inode) {
    IsDir(t, s.dir) && i in t.nodes && (t.nodes[i].Dir? ==> t.nodes[i].path == PathOf(t, s))
  }

  function PathOf(t: Tree, s: Slot): Path
    requires IsDir(t, s.dir)
  {
    t.nodes[s.dir].path + [s.name]
  }

  ghost predicate WellFormed(t: Tree) {
    && IsDir(t, ROOT) && t.nodes[ROOT].path == []
    && (forall i | i in t.nodes :: i < t.next)
    && forall s, x | Possible(t, s, x) && x.Some? :: Fits(t, s, x.value)
  }

  function Unbound(t: Tree, s: Slot): Tree {
    t.(bound := t.bound - {s}, past := t.past + {(s, Now(t, s))})
  }

  function WithNew(t: Tree, s: Slot, n: Node): Tree {
    t.(nodes := t.nodes[t.next := n], bound := t.bound[s := t.next], past := t.past + {(s, Now(t, s))}, next := t.next + 1)
  }

  function Synced(t: Tree, dir: Inode): Tree {
    t.(past := set e | e in t.past && e.0.dir != dir)
  }

  /** `r` is a tree a restart may find after a crash in `t`. */
  ghost predicate Recovers(t: Tree, r: Tree) {
    && r.nodes == t.nodes && r.next == t.next && r.past == {}
    && forall s :: Possible(t, s, Now(r, s))
  }

  /** Following a path from the root. */
  function WalkTo(t: Tree, p: Path): Option<Inode> {
    if p == [] then Some(ROOT)
    else
      var dir := WalkTo(t, p[..|p| - 1]);
      if dir.Some? && IsDir(t, dir.value) then Now(t, Slot(dir.value, p[|p| - 1])) else None
  }

  // ---- what a tree can turn into ----

  ghost predicate IsNew(t: Tree, x: Option<Inode>) {
    x.None? || x.value >= t.next
  }

  /** Nodes stay as they are, and names are bound to what they were, to nothing or to something new. */
  ghost predicate Extends(t0: Tree, t: Tree) {
    && t0.next <= t.next
    && (forall i | i in t0.nodes :: i in t.nodes && t.nodes[i] == t0.nodes[i])
    && (forall i | i in t.nodes && i !in t0.nodes :: i >= t0.next && (t.nodes[i].Dir? ==> |t.nodes[i].path| <= MAX_SEGMENTS))
    && (forall s, x | Possible(t, s, x) :: Possible(t0, s, x) || IsNew(t0, x))
    && forall s :: Now(t, s) == Now(t0, s) || IsNew(t0, Now(t, s))
  }

  lemma ExtendsTwice(t0: Tree, t1: Tree, t2: Tree)
    requires Extends(t0, t1) && Extends(t1, t2)
    ensures Extends(t0, t2)
  {
  }

  lemma UnboundExtends(t: Tree, s: Slot)
    requires WellFormed(t)
    ensures WellFormed(Unbound(t, s)) && Extends(t, Unbound(t, s))
  {
    var r := Unbound(t, s);
    forall q, x | Possible(r, q, x) ensures Possible(t, q, x) || x.None? {}
    forall q, x | Possible(r, q, x) && x.Some? ensures Fits(r, q, x.value) { assert Fits(t, q, x.value); }
  }

  lemma WithNewExtends(t: Tree, s: Slot, n: Node)
    requires WellFormed(t) && IsDir(t, s.dir) && (n.Dir? ==> n.path == PathOf(t, s) && |n.path| <= MAX_SEGMENTS)
    ensures WellFormed(WithNew(t, s, n)) && Extends(t, WithNew(t, s, n))
  {
    var r := WithNew(t, s, n);
    forall q, x | Possible(r, q, x) ensures Possible(t, q, x) || (q == s && x == Some(t.next)) {}
    forall q, x | Possible(r, q, x) && x.Some? ensures Fits(r, q, x.value) {
      if Possible(t, q, x) { assert Fits(t, q, x.value); }
    }
  }

  lemma SyncedExtends(t: Tree, dir: Inode)
    requires WellFormed(t)
    ensures WellFormed(Synced(t, dir)) && Extends(t, Synced(t, dir))
    ensures forall s: Slot, x | s.dir == dir && Possible(Synced(t, dir), s, x) :: x == Now(t, s)
  {
    var r := Synced(t, dir);
    forall q, x | Possible(r, q, x) ensures Possible(t, q, x) {}
    forall q, x | Possible(r, q, x) && x.Some? ensures Fits(r, q, x.value) { assert Fits(t, q, x.value); }
  }

  // ---- what a file's fate depends on ----

  function Slashed(s: string): string {
    if s == [] then [] else [if s[0] == '\\' then '/' else s[0]] + Slashed(s[1..])
  }

  function RelativePath(p: Path): string
    requires p != []
  {
    Slashed(Join(p, '/'))
  }

  /** A valid path that no stored document references. */
  predicate Unreferenced(referenced: set<string>, p: Path) {
    p != [] && Normalize(RelativePath(p)).Some? && Normalize(RelativePath(p)).value !in referenced
  }

  /** A file whose path may go, past its grace period at the time `at`. */
  predicate Collectable(orphan: Path -> bool, p: Path, n: Node, at: int) {
    !n.Dir? && orphan(p) && n.mtime <= at - GRACE_MS
  }

  /** A link to nothing looks absent to the check before a removal. */
  predicate LooksAbsent(n: Node) {
    n.Link? && n.dangling
  }

  // ---- the books of a sweep ----

  /** A file the sweep removed: what was there at its lstat, what at its unlink, and the time read between. */
  datatype Removal = Removal(slot: Slot, seen: Inode, gone: Inode, at: int, told: bool)

  /** An entry that was there when the check before its removal said it was not; `failed` if the check itself failed. */
  datatype Oversight = Oversight(slot: Slot, inode: Inode, failed: bool)

  /**
   * The tree being swept, with the books kept on it: the clock and its last reading, what the
   * sweep removed and overlooked, the directories it is done with, and what others took away.
   */
  datatype Books = Books(
    orphan: Path -> bool, clock: nat -> int, start: int, initial: Tree,
    tree: Tree, now: int, removed: seq<Removal>, overlooked: set<Oversight>, done: set<Inode>, lost: set<(Slot, Inode)>)

  predicate Overlooked(b: Books, s: Slot, i: Inode) {
    Oversight(s, i, false) in b.overlooked || Oversight(s, i, true) in b.overlooked
  }

  /** A binding that leaves the sweep nothing to do; what came during the sweep is none of its business. */
  ghost predicate Settled(b: Books, s: Slot, x: Option<Inode>) {
    IsNew(b.initial, x) ||
    (IsDir(b.tree, s.dir) && x.value in b.tree.nodes &&
     var n := b.tree.nodes[x.value];
     if n.Dir? then x.value in b.done
     else !Collectable(b.orphan, PathOf(b.tree, s), n, b.start) || Overlooked(b, s, x.value))
  }

  /** The removed file's path was unreferenced and the file seen there past its grace period; what went was it, or a recent upload. */
  ghost predicate Justified(b: Books, r: Removal) {
    && IsDir(b.tree, r.slot.dir) && r.seen in b.tree.nodes && r.gone in b.tree.nodes
    && Collectable(b.orphan, PathOf(b.tree, r.slot), b.tree.nodes[r.seen], r.at)
    && (exists n :: r.at == b.clock(n))
    && !b.tree.nodes[r.gone].Dir? && !LooksAbsent(b.tree.nodes[r.gone])
    && (r.gone != r.seen ==> r.gone >= b.initial.next && b.tree.nodes[r.gone].mtime > r.at - GRACE_MS)
  }

  ghost predicate WasRemoved(b: Books, s: Slot, i: Inode) {
    exists r | r in b.removed :: r.slot == s && r.gone == i
  }

  /** Every file there at the start is still there, or was taken away by others or by the sweep. */
  ghost predicate Accounted(b: Books) {
    forall s | s in b.initial.bound && !IsDir(b.initial, b.initial.bound[s]) ::
      var i := b.initial.bound[s];
      Now(b.tree, s) == Some(i) || (s, i) in b.lost || WasRemoved(b, s, i)
  }

  /** A directory there at the start is still there as long as something that was in it then is. */
  ghost predicate ParentsStay(b: Books) {
    forall s, q | s in b.initial.bound && q in b.initial.bound && q.dir == b.initial.bound[s] && Now(b.tree, q) == Now(b.initial, q) ::
      Now(b.tree, s) == Now(b.initial, s)
  }

  /** Whatever the names of a finished directory may be bound to is settled. */
  ghost predicate Finished(b: Books) {
    forall s: Slot, x | s.dir in b.done && Possible(b.tree, s, x) :: Settled(b, s, x)
  }

  ghost predicate Balanced(b: Books) {
    && WellFormed(b.initial) && WellFormed(b.tree) && Extends(b.initial, b.tree)
    && (forall n :: b.start <= b.clock(n))
    && (forall r | r in b.removed :: Justified(b, r))
    && (forall o | o in b.overlooked :: o.inode in b.tree.nodes && (o.failed || LooksAbsent(b.tree.nodes[o.inode])))
    && Accounted(b) && ParentsStay(b) && Finished(b)
  }

  const BARE := Tree(map[ROOT := Dir([])], map[], {}, 1)

  type State = b: Books | Balanced(b)
    ghost witness Books((p: Path) => false, (n: nat) => 0, 0, BARE, BARE, 0, [], {}, {}, {})

  /** What is settled, removed and overlooked stays so. */
  ghost predicate Onward(b0: Books, b: Books) {
    && b.orphan == b0.orphan && b.clock == b0.clock && b.start == b0.start && b.initial == b0.initial
    && Extends(b0.tree, b.tree)
    && b0.removed <= b.removed && b0.overlooked <= b.overlooked && b0.done <= b.done && b0.lost <= b.lost
  }

  lemma OnwardItself(b: Books)
    ensures Onward(b, b)
  {
  }

  lemma OnwardTwice(b0: Books, b1: Books, b2: Books)
    requires Onward(b0, b1) && Onward(b1, b2)
    ensures Onward(b0, b2)
  {
    ExtendsTwice(b0.tree, b1.tree, b2.tree);
  }

  lemma SettledStays(b0: State, b: Books, s: Slot, x: Option<Inode>)
    requires Onward(b0, b) && Settled(b0, s, x)
    ensures Settled(b, s, x)
  {
  }

  lemma JustifiedStays(b0: State, b: Books, r: Removal)
    requires Onward(b0, b) && Justified(b0, r)
    ensures Justified(b, r)
  {
    var n :| r.at == b0.clock(n);
    assert r.at == b.clock(n);
  }

  /** The name's present binding is settled. */
  ghost predicate Handled(b: Books, s: Slot) {
    Settled(b, s, Now(b.tree, s))
  }

  lemma HandledStays(b0: State, b: State, s: Slot)
    requires Onward(b0, b) && Handled(b0, s)
    ensures Handled(b, s)
  {
    SettledStays(b0, b, s, Now(b0.tree, s));
    assert Now(b.tree, s) == Now(b0.tree, s) || IsNew(b0.tree, Now(b.tree, s));
  }

  lemma FinishedStays(b0: State, b: Books)
    requires Onward(b0, b) && b.done == b0.done
    ensures Finished(b)
  {
    forall s: Slot, x | s.dir in b.done && Possible(b.tree, s, x) ensures Settled(b, s, x) {
      if Possible(b0.tree, s, x) { SettledStays(b0, b, s, x); }
    }
  }

  /** A change of the tree, with what it adds to the books, keeps them balanced. */
  lemma ChangeBalances(b0: State, b: Books)
    requires Onward(b0, b) && WellFormed(b.tree) && Accounted(b) && ParentsStay(b) && b.done == b0.done
    requires forall r | r in b.removed && r !in b0.removed :: Justified(b, r)
    requires forall o | o in b.overlooked && o !in b0.overlooked ::
      o.inode in b.tree.nodes && (o.failed || LooksAbsent(b.tree.nodes[o.inode]))
    ensures Balanced(b)
  {
    ExtendsTwice(b.initial, b0.tree, b.tree);
    forall r | r in b.removed ensures Justified(b, r) {
      if r in b0.removed { JustifiedStays(b0, b, r); }
    }
    FinishedStays(b0, b);
  }

  predicate HasChildren(t: Tree, dir: Inode) {
    exists s | s in t.bound :: s.dir == dir
  }

  /** A change at one name: the file there is accounted for, a directory there was empty. */
  lemma AccountedStays(b0: State, b: Books, s: Slot)
    requires Onward(b0, b)
    requires forall q | q != s :: Now(b.tree, q) == Now(b0.tree, q)
    requires s in b0.tree.bound && Now(b.tree, s) != Now(b0.tree, s) ==>
      if IsDir(b0.tree, b0.tree.bound[s]) then !HasChildren(b0.tree, b0.tree.bound[s])
      else (s, b0.tree.bound[s]) in b.lost || WasRemoved(b, s, b0.tree.bound[s])
    ensures Accounted(b) && ParentsStay(b)
  {
    forall q | q in b.initial.bound && !IsDir(b.initial, b.initial.bound[q])
      ensures Now(b.tree, q) == Some(b.initial.bound[q]) || (q, b.initial.bound[q]) in b.lost || WasRemoved(b, q, b.initial.bound[q])
    {
      var i := b.initial.bound[q];
      if WasRemoved(b0, q, i) {
        var r :| r in b0.removed && r.slot == q && r.gone == i;
        assert r in b.removed;
      } else if Now(b0.tree, q) == Some(i) && q == s {
        assert Possible(b.initial, q, Now(b.initial, q)) && Fits(b.initial, q, i);
      }
    }
    forall d, q | d in b.initial.bound && q in b.initial.bound && q.dir == b.initial.bound[d] && Now(b.tree, q) == Now(b.initial, q)
      ensures Now(b.tree, d) == Now(b.initial, d)
    {
      assert Possible(b.initial, q, Now(b.initial, q)) && Fits(b.initial, q, b.initial.bound[q]);
      assert Now(b0.tree, q) == Now(b.initial, q);
      assert q in b0.tree.bound;
    }
  }

  // ---- what others do meanwhile ----

  /** Another process replaces or creates a file, makes a directory, takes a file away or syncs a directory. */
  datatype Act = Put(slot: Slot, mtime: int) | MakeDir(slot: Slot) | Drop(slot: Slot) | Publish(dir: Inode)

  /**
   * Attachment paths have at most MAX_SEGMENTS names, a file never replaces a directory, and an
   * upload is written less than the grace period before it is published.
   */
  predicate CanAct(b: Books, a: Act) {
    match a
    case Put(s, mtime) => Within(b.tree, s) && !BoundToDir(b.tree, s) && mtime > b.now - GRACE_MS
    case MakeDir(s) => Within(b.tree, s) && s !in b.tree.bound
    case Drop(s) => s in b.tree.bound && !BoundToDir(b.tree, s)
    case Publish(dir) => true
  }

  predicate Within(t: Tree, s: Slot) {
    IsDir(t, s.dir) && |t.nodes[s.dir].path| < MAX_SEGMENTS
  }

  predicate BoundToDir(t: Tree, s: Slot) {
    s in t.bound && IsDir(t, t.bound[s])
  }

  function Losing(b: Books, s: Slot): set<(Slot, Inode)> {
    b.lost + if s in b.tree.bound then {(s, b.tree.bound[s])} else {}
  }

  function Acted(b: Books, a: Act): Books {
    if !CanAct(b, a) then b
    else
      match a
      case Put(s, mtime) => b.(tree := WithNew(b.tree, s, File(mtime)), lost := Losing(b, s))
      case MakeDir(s) => b.(tree := WithNew(b.tree, s, Dir(PathOf(b.tree, s))))
      case Drop(s) => b.(tree := Unbound(b.tree, s), lost := Losing(b, s))
      case Publish(dir) => b.(tree := Synced(b.tree, dir))
  }

  function Meanwhile(b: Books, acts: seq<Act>): Books {
    if acts == [] then b else Acted(Meanwhile(b, acts[..|acts| - 1]), acts[|acts| - 1])
  }

  /** Since the clock was read the name is bound to what it was, to nothing, to a recent upload or to a new directory. */
  ghost predicate Meantime(b0: Books, b: Books) {
    && b.now == b0.now && b.removed == b0.removed && b.overlooked == b0.overlooked && b.done == b0.done
    && forall s :: Now(b.tree, s) == Now(b0.tree, s) || Now(b.tree, s).None? || Newcomer(b0, b, Now(b.tree, s).value)
  }

  predicate Newcomer(b0: Books, b: Books, i: Inode) {
    i >= b0.tree.next && i in b.tree.nodes && (b.tree.nodes[i].Dir? || (b.tree.nodes[i].File? && b.tree.nodes[i].mtime > b.now - GRACE_MS))
  }

  /** A file put where there was none or another; `s` may also get a directory. */
  lemma WithNewKeeps(b: State, r: Books, s: Slot, n: Node)
    requires Within(b.tree, s) && !BoundToDir(b.tree, s) && (if n.Dir? then n.path == PathOf(b.tree, s) else n.mtime > b.now - GRACE_MS && n.File?)
    requires r == b.(tree := WithNew(b.tree, s, n), lost := Losing(b, s))
    ensures Balanced(r) && Onward(b, r) && Meantime(b, r)
  {
    WithNewExtends(b.tree, s, n);
    AccountedStays(b, r, s);
    ChangeBalances(b, r);
  }

  lemma DropKeeps(b: State, r: Books, s: Slot)
    requires s in b.tree.bound && !BoundToDir(b.tree, s) && r == b.(tree := Unbound(b.tree, s), lost := Losing(b, s))
    ensures Balanced(r) && Onward(b, r) && Meantime(b, r)
  {
    UnboundExtends(b.tree, s);
    AccountedStays(b, r, s);
    ChangeBalances(b, r);
  }

  lemma SyncKeeps(b: State, r: Books, dir: Inode)
    requires r == b.(tree := Synced(b.tree, dir))
    ensures Balanced(r) && Onward(b, r) && Meantime(b, r)
  {
    SyncedExtends(b.tree, dir);
    AccountedStays(b, r, Slot(dir, ""));
    ChangeBalances(b, r);
  }

  lemma ActKeeps(b: State, a: Act)
    ensures Balanced(Acted(b, a)) && Onward(b, Acted(b, a)) && Meantime(b, Acted(b, a))
  {
    if CanAct(b, a) {
      match a
      case Put(s, mtime) => WithNewKeeps(b, Acted(b, a), s, File(mtime));
      case MakeDir(s) => WithNewKeeps(b, Acted(b, a), s, Dir(PathOf(b.tree, s)));
      case Drop(s) => DropKeeps(b, Acted(b, a), s);
      case Publish(dir) => SyncKeeps(b, Acted(b, a), dir);
    }
  }

  lemma MeantimeTwice(b0: State, b1: State, b2: State)
    requires Meantime(b0, b1) && Meantime(b1, b2) && Onward(b0, b1) && Onward(b1, b2)
    ensures Meantime(b0, b2)
  {
    forall s ensures Now(b2.tree, s) == Now(b0.tree, s) || Now(b2.tree, s).None? || Newcomer(b0, b2, Now(b2.tree, s).value) {
      if Now(b2.tree, s) == Now(b1.tree, s) && Now(b1.tree, s).Some? && Now(b1.tree, s) != Now(b0.tree, s) {
        assert Newcomer(b0, b1, Now(b1.tree, s).value);
      }
    }
  }

  lemma {:induction false} MeanwhileKeeps(b: State, acts: seq<Act>)
    ensures Balanced(Meanwhile(b, acts)) && Onward(b, Meanwhile(b, acts)) && Meantime(b, Meanwhile(b, acts))
  {
    if acts != [] {
      var n := |acts| - 1;
      MeanwhileKeeps(b, acts[..n]);
      var mid: State := Meanwhile(b, acts[..n]);
      ActKeeps(mid, acts[n]);
      OnwardTwice(b, mid, Acted(mid, acts[n]));
      MeantimeTwice(b, mid, Acted(mid, acts[n]));
    }
  }

  // ---- the sweep ----

  /** What happens at a system call: others act before it, and an error may come before or after its effect. */
  datatype Fault = Works | Fails | FailsAfter

  datatype Turn = Turn(acts: seq<Act>, fault: Fault)

  function TurnAt(turns: seq<Turn>): Turn {
    if turns == [] then Turn([], Works) else turns[0]
  }

  function Rest(turns: seq<Turn>): seq<Turn> {
    if turns == [] then [] else turns[1..]
  }

  datatype Outcome = Gone | AlreadyAbsent | NotEmpty | Failed

  function Told(removed: seq<Removal>): nat {
    if removed == [] then 0 else Told(removed[..|removed| - 1]) + if removed[|removed| - 1].told then 1 else 0
  }

  /** The existence test of a removal. */
  predicate Passes(b: Books, fault: Fault, s: Slot) {
    fault.Works? && s in b.tree.bound && !(b.tree.bound[s] in b.tree.nodes && LooksAbsent(b.tree.nodes[b.tree.bound[s]]))
  }

  /** The books after a test that was not passed. */
  function Missed(b: Books, fault: Fault, s: Slot): Books {
    if s in b.tree.bound then b.(overlooked := b.overlooked + {Oversight(s, b.tree.bound[s], !fault.Works?)}) else b
  }

  /** The books after the sweep took a file away. */
  function Taken(b: Books, s: Slot, seen: Inode, told: bool): Books
    requires s in b.tree.bound
  {
    b.(tree := Unbound(b.tree, s), removed := b.removed + [Removal(s, seen, b.tree.bound[s], b.now, told)])
  }

  /** The last reading of the clock saw a file past its grace period at an unreferenced path. */
  ghost predicate SeenPast(b: Books, s: Slot, seen: Inode) {
    && IsDir(b.tree, s.dir) && seen in b.tree.nodes && Collectable(b.orphan, PathOf(b.tree, s), b.tree.nodes[seen], b.now)
    && exists n :: b.now == b.clock(n)
  }

  lemma MissedKeeps(b: State, fault: Fault, s: Slot)
    requires !Passes(b, fault, s)
    ensures Balanced(Missed(b, fault, s)) && Onward(b, Missed(b, fault, s))
    ensures !BoundToDir(b.tree, s) ==> Handled(Missed(b, fault, s), s)
  {
    var r := Missed(b, fault, s);
    if s in b.tree.bound {
      assert Possible(b.tree, s, Now(b.tree, s)) && Fits(b.tree, s, b.tree.bound[s]);
      AccountedStays(b, r, s);
      ChangeBalances(b, r);
    }
  }

  lemma TakenKeeps(b: State, s: Slot, seen: Inode, told: bool)
    requires s in b.tree.bound && SeenPast(b, s, seen)
    requires b.tree.bound[s] in b.tree.nodes && !b.tree.nodes[b.tree.bound[s]].Dir? && !LooksAbsent(b.tree.nodes[b.tree.bound[s]])
    requires b.tree.bound[s] == seen || (b.tree.bound[s] >= b.initial.next && b.tree.nodes[b.tree.bound[s]].mtime > b.now - GRACE_MS)
    ensures Balanced(Taken(b, s, seen, told)) && Onward(b, Taken(b, s, seen, told))
  {
    var r := Taken(b, s, seen, told);
    var removal := Removal(s, seen, b.tree.bound[s], b.now, told);
    UnboundExtends(b.tree, s);
    assert r.removed[|b.removed|] == removal;
    assert Justified(r, removal) by { var n :| b.now == b.clock(n); assert removal.at == r.clock(n); }
    AccountedStays(b, r, s);
    ChangeBalances(b, r);
  }

  lemma NowIsInNodes(t: Tree, s: Slot)
    requires WellFormed(t) && s in t.bound
    ensures Fits(t, s, t.bound[s])
  {
    assert Possible(t, s, Now(t, s));
  }

  /** durablyRemoveFile without a sync, after an lstat that saw `seen`: the books and the outcome, for what happens at its two calls. */
  function Unlinked(b: Books, test: Turn, unlink: Turn, s: Slot, seen: Inode): (Books, Outcome) {
    var b1 := Meanwhile(b, test.acts);
    if !Passes(b1, test.fault, s) then (Missed(b1, test.fault, s), AlreadyAbsent)
    else
      var b2 := Meanwhile(b1, unlink.acts);
      if unlink.fault.Fails? then (b2, Failed)
      else if s !in b2.tree.bound then (b2, AlreadyAbsent)
      else if BoundToDir(b2.tree, s) then (b2, Failed)
      else (Taken(b2, s, seen, unlink.fault.Works?), if unlink.fault.Works? then Gone else Failed)
  }

  /** The turns left after it. */
  function TurnsLeft(b: Books, turns: seq<Turn>, s: Slot): seq<Turn> {
    if Passes(Meanwhile(b, TurnAt(turns).acts), TurnAt(turns).fault, s) then Rest(Rest(turns)) else Rest(turns)
  }

  /** durablyRemoveDirectory without a sync. */
  function DirRemoved(b: Books, test: Turn, rmdir: Turn, s: Slot): (Books, Outcome) {
    var b1 := Meanwhile(b, test.acts);
    if !Passes(b1, test.fault, s) then (Missed(b1, test.fault, s), AlreadyAbsent)
    else
      var b2 := Meanwhile(b1, rmdir.acts);
      if rmdir.fault.Fails? then (b2, Failed)
      else if s !in b2.tree.bound then (b2, AlreadyAbsent)
      else if !BoundToDir(b2.tree, s) then (b2, Failed)
      else if HasChildren(b2.tree, b2.tree.bound[s]) then (b2, NotEmpty)
      else (b2.(tree := Unbound(b2.tree, s)), if rmdir.fault.Works? then Gone else Failed)
  }

  /** What an unlink finds is what the lstat saw, or came since. */
  lemma FoundIsSeen(b0: State, b2: State, s: Slot, seen: Inode)
    requires SeenPast(b0, s, seen) && Now(b0.tree, s) == Some(seen) && Onward(b0, b2) && Meantime(b0, b2)
    ensures SeenPast(b2, s, seen)
    ensures s in b2.tree.bound && b2.tree.bound[s] != seen ==> b2.tree.bound[s] >= b2.initial.next
    ensures s in b2.tree.bound && b2.tree.bound[s] != seen && !BoundToDir(b2.tree, s) ==>
      b2.tree.bound[s] in b2.tree.nodes && b2.tree.nodes[b2.tree.bound[s]].mtime > b2.now - GRACE_MS
  {
    assert Now(b2.tree, s) == Now(b0.tree, s) || Now(b2.tree, s).None? || Newcomer(b0, b2, Now(b2.tree, s).value);
    var n :| b0.now == b0.clock(n);
    assert b2.now == b2.clock(n);
  }

  lemma UnlinkedKeeps(b: State, test: Turn, unlink: Turn, s: Slot, seen: Inode)
    requires SeenPast(b, s, seen) && Now(b.tree, s) == Some(seen)
    ensures var (r, outcome) := Unlinked(b, test, unlink, s, seen);
      && Balanced(r) && Onward(b, r)
      && (outcome.AlreadyAbsent? || outcome.Gone? || outcome.Failed?)
      && (!outcome.Failed? ==> Handled(r, s))
      && Told(r.removed) == Told(b.removed) + (if outcome.Gone? then 1 else 0)
  {
    hide Extends, Balanced, Justified, Meanwhile, Meantime, Onward;
    MeanwhileKeeps(b, test.acts);
    var b1: State := Meanwhile(b, test.acts);
    FoundIsSeen(b, b1, s, seen);
    if !Passes(b1, test.fault, s) {
      MissedKeeps(b1, test.fault, s);
      OnwardTwice(b, b1, Missed(b1, test.fault, s));
      return;
    }
    MeanwhileKeeps(b1, unlink.acts);
    var b2: State := Meanwhile(b1, unlink.acts);
    OnwardTwice(b, b1, b2);
    MeantimeTwice(b, b1, b2);
    if unlink.fault.Fails? || s !in b2.tree.bound || BoundToDir(b2.tree, s) { return; }
    FoundIsSeen(b, b2, s, seen);
    NowIsInNodes(b2.tree, s);
    FoundIsNoDeadLink(b1, b2, s);
    TakenKeeps(b2, s, seen, unlink.fault.Works?);
    var r := Taken(b2, s, seen, unlink.fault.Works?);
    OnwardTwice(b, b2, r);
    assert r.removed[..|b2.removed|] == b2.removed;
  }

  /** Uploads are files, so what passed the test is no link to nothing at the unlink. */
  lemma FoundIsNoDeadLink(b1: State, b2: State, s: Slot)
    requires Onward(b1, b2) && Meantime(b1, b2) && Passes(b1, Works, s) && s in b2.tree.bound
    ensures b2.tree.bound[s] in b2.tree.nodes && !LooksAbsent(b2.tree.nodes[b2.tree.bound[s]])
  {
    NowIsInNodes(b1.tree, s);
    assert Now(b2.tree, s) == Now(b1.tree, s) || Newcomer(b1, b2, Now(b2.tree, s).value);
  }

  lemma DirRemovedKeeps(b: State, test: Turn, rmdir: Turn, s: Slot)
    ensures var (r, outcome) := DirRemoved(b, test, rmdir, s); Balanced(r) && Onward(b, r) && r.removed == b.removed
  {
    hide Extends, Balanced, Justified, Meanwhile, Meantime, Onward;
    MeanwhileKeeps(b, test.acts);
    var b1: State := Meanwhile(b, test.acts);
    if !Passes(b1, test.fault, s) {
      MissedKeeps(b1, test.fault, s);
      OnwardTwice(b, b1, Missed(b1, test.fault, s));
      return;
    }
    MeanwhileKeeps(b1, rmdir.acts);
    var b2: State := Meanwhile(b1, rmdir.acts);
    OnwardTwice(b, b1, b2);
    if rmdir.fault.Fails? || !BoundToDir(b2.tree, s) || HasChildren(b2.tree, b2.tree.bound[s]) { return; }
    var r := b2.(tree := Unbound(b2.tree, s));
    UnboundExtends(b2.tree, s);
    AccountedStays(b2, r, s);
    ChangeBalances(b2, r);
    OnwardTwice(b, b2, r);
  }

  function Published(b: Books, dir: Inode, clean: bool): Books {
    b.(tree := Synced(b.tree, dir), done := if clean then b.done + {dir} else b.done)
  }

  lemma PublishedKeeps(b0: State, b: State, dir: Inode, clean: bool)
    requires Onward(b0, b) && (clean ==> forall s: Slot | s.dir == dir :: Handled(b0, s))
    ensures Balanced(Published(b, dir, clean)) && Onward(b0, Published(b, dir, clean))
  {
    if clean {
      forall s: Slot | s.dir == dir ensures Handled(b, s) { HandledStays(b0, b, s); }
      SyncFinishes(b, dir);
    } else {
      SyncKeeps(b, Published(b, dir, clean), dir);
    }
    OnwardTwice(b0, b, Published(b, dir, clean));
  }

  /** When every name of a directory is settled, its sync finishes it. */
  lemma SyncFinishes(b: State, dir: Inode)
    requires forall s: Slot | s.dir == dir :: Handled(b, s)
    ensures var r := b.(tree := Synced(b.tree, dir), done := b.done + {dir}); Balanced(r) && Onward(b, r)
  {
    var m := b.(tree := Synced(b.tree, dir));
    SyncKeeps(b, m, dir);
    SyncedExtends(b.tree, dir);
    var r := m.(done := b.done + {dir});
    forall s: Slot, x | s.dir in r.done && Possible(r.tree, s, x) ensures Settled(r, s, x) {
      if s.dir == dir {
        assert x == Now(b.tree, s) && Handled(b, s);
        SettledStays(b, r, s, x);
      } else {
        SettledStays(m, r, s, x);
      }
    }
    forall removal | removal in r.removed ensures Justified(r, removal) { JustifiedStays(b, r, removal); }
    AccountedStays(b, r, Slot(dir, ""));
  }

  // ---- frames: with nothing happening meanwhile ----

  /** No name comes, and only names below `p` go. */
  ghost predicate Spares(t0: Tree, t: Tree, p: Path) {
    && (forall q | q in t.bound :: q in t0.bound && t.bound[q] == t0.bound[q])
    && forall q | q in t0.bound && IsDir(t0, q.dir) && !(p <= t0.nodes[q.dir].path) :: q in t.bound
  }

  /** No name comes, and only `s` and names below it go. */
  ghost predicate SparesBut(t0: Tree, t: Tree, s: Slot) {
    && IsDir(t0, s.dir)
    && (forall q | q in t.bound :: q in t0.bound && t.bound[q] == t0.bound[q])
    && forall q | q in t0.bound && q != s && IsDir(t0, q.dir) && !(PathOf(t0, s) <= t0.nodes[q.dir].path) :: q in t.bound
  }

  /** The name is not that of an empty directory. */
  predicate Pruned(t: Tree, s: Slot) {
    BoundToDir(t, s) ==> HasChildren(t, t.bound[s])
  }

  /** Nobody else took anything, and no existence test failed. */
  ghost predicate Undisturbed(b0: Books, b: Books) {
    b.lost == b0.lost && forall o | o in b.overlooked :: o in b0.overlooked || !o.failed
  }

  ghost predicate Quiet(b0: Books, b: Books, p: Path) {
    Spares(b0.tree, b.tree, p) && Undisturbed(b0, b)
  }

  ghost predicate QuietBut(b0: Books, b: Books, s: Slot) {
    SparesBut(b0.tree, b.tree, s) && Pruned(b.tree, s) && Undisturbed(b0, b)
  }

  lemma UnlinkedQuietly(b: State, s: Slot, seen: Inode)
    requires SeenPast(b, s, seen) && Now(b.tree, s) == Some(seen)
    ensures var (r, outcome) := Unlinked(b, Turn([], Works), Turn([], Works), s, seen); !outcome.Failed? && QuietBut(b, r, s)
  {
  }

  lemma DirRemovedQuietly(b: State, s: Slot)
    requires BoundToDir(b.tree, s) && IsDir(b.tree, s.dir)
    ensures var (r, outcome) := DirRemoved(b, Turn([], Works), Turn([], Works), s); !outcome.Failed? && QuietBut(b, r, s)
  {
  }

  /** Directories are no deeper than `depth`; those made meanwhile are no deeper than a key. */
  ghost predicate Shallow(t: Tree, depth: nat) {
    MAX_SEGMENTS <= depth && forall i | IsDir(t, i) :: |t.nodes[i].path| <= depth
  }

  lemma ShallowStays(t0: Tree, t: Tree, depth: nat)
    requires Shallow(t0, depth) && Extends(t0, t)
    ensures Shallow(t, depth)
  {
    forall i | IsDir(t, i) ensures |t.nodes[i].path| <= depth {
      if i in t0.nodes { assert IsDir(t0, i); }
    }
  }

  lemma DirStays(t0: Tree, t: Tree, i: Inode)
    requires Extends(t0, t) && IsDir(t0, i)
    ensures IsDir(t, i) && t.nodes[i].path == t0.nodes[i].path
  {
  }

  lemma NowKeeps(b: State, at: int)
    ensures Balanced(b.(now := at)) && Onward(b, b.(now := at))
  {
    var r := b.(now := at);
    forall q | q in r.removed ensures Justified(r, q) { JustifiedStays(b, r, q); }
    AccountedStays(b, r, Slot(ROOT, ""));
    FinishedStays(b, r);
  }

  /** The directory just visited, or something new, is what its name is bound to. */
  lemma VisitedIsHandled(b0: State, b: State, s: Slot, i: Inode)
    requires Onward(b0, b) && Now(b0.tree, s) == Some(i) && IsDir(b0.tree, i) && IsDir(b0.tree, s.dir) && i in b.done
    ensures Handled(b, s)
  {
    assert Now(b.tree, s) == Now(b0.tree, s) || IsNew(b0.tree, Now(b.tree, s));
  }

  lemma QuietItself(b: Books, p: Path)
    ensures Quiet(b, b, p)
  {
  }

  lemma QuietTwice(b0: Books, b1: Books, b2: Books, s: Slot, p: Path)
    requires Extends(b0.tree, b1.tree) && Quiet(b0, b1, p) && QuietBut(b1, b2, s) && b1.tree.nodes[s.dir].path == p
    ensures Quiet(b0, b2, p)
  {
    forall q | q in b0.tree.bound && IsDir(b0.tree, q.dir) && !(p <= b0.tree.nodes[q.dir].path) ensures q in b2.tree.bound {
      DirStays(b0.tree, b1.tree, q.dir);
      assert p <= PathOf(b1.tree, s);
    }
  }

  /** Work on one name leaves the others there, and no directory among them emptied. */
  lemma OthersStay(b0: State, b: State, s: Slot, q: Slot)
    requires Onward(b0, b) && QuietBut(b0, b, s) && q != s && q.dir == s.dir
    ensures q in b0.tree.bound ==> q in b.tree.bound
    ensures Pruned(b0.tree, q) ==> Pruned(b.tree, q)
  {
    var t0, t := b0.tree, b.tree;
    assert !(PathOf(t0, s) <= t0.nodes[s.dir].path);
    if BoundToDir(t, q) && Pruned(t0, q) {
      var i := t.bound[q];
      NowIsInNodes(t0, q);
      var c :| c in t0.bound && c.dir == i;
      assert !(PathOf(t0, s) <= PathOf(t0, q)) by { assert PathOf(t0, s)[|t0.nodes[s.dir].path|] == s.name; }
      assert c in t.bound;
    }
  }

  /** With nothing happening meanwhile a visited directory is removed or not empty. */
  lemma EmptiedIsRemoved(b0: State, b1: State, s: Slot, i: Inode)
    requires Extends(b0.tree, b1.tree) && Now(b0.tree, s) == Some(i) && IsDir(b0.tree, i) && IsDir(b0.tree, s.dir)
    requires Quiet(b0, b1, PathOf(b0.tree, s))
    ensures var (r, outcome) := DirRemoved(b1, Turn([], Works), Turn([], Works), s);
      !outcome.Failed? && QuietBut(b0, r, s)
  {
    DirStays(b0.tree, b1.tree, s.dir);
    DirStays(b0.tree, b1.tree, i);
    assert !(PathOf(b0.tree, s) <= b0.tree.nodes[s.dir].path);
    DirRemovedQuietly(b1, s);
    var r := DirRemoved(b1, Turn([], Works), Turn([], Works), s).0;
    forall q | q in b0.tree.bound && q != s && IsDir(b0.tree, q.dir) && !(PathOf(b0.tree, s) <= b0.tree.nodes[q.dir].path)
      ensures q in r.tree.bound
    {
      DirStays(b0.tree, b1.tree, q.dir);
    }
  }

  /** A name that was not listed is bound to nothing, or to something new. */
  lemma UnlistedIsHandled(b0: State, b: State, s: Slot)
    requires Onward(b0, b) && s !in b0.tree.bound
    ensures Handled(b, s)
  {
    assert Now(b.tree, s) == Now(b0.tree, s) || IsNew(b0.tree, Now(b.tree, s));
  }

  lemma ChildPath(t: Tree, s: Slot)
    requires WellFormed(t) && BoundToDir(t, s)
    ensures IsDir(t, s.dir) && t.nodes[t.bound[s]].path == PathOf(t, s)
  {
    NowIsInNodes(t, s);
  }

  class Sweep {
    var books: State
    var turns: seq<Turn>
    var scanned: nat
    var kept: nat
    var deleted: nat
    var errors: seq<Path>
    /** Removals that failed, and files that were already gone or seemed so. */
    ghost var failed: nat
    ghost var vanished: nat

    constructor (books: State, turns: seq<Turn>)
      requires books.removed == []
      ensures this.books == books && this.turns == turns && errors == [] && Counted()
      ensures scanned == kept == deleted == 0
    {
      this.books, this.turns := books, turns;
      scanned, kept, deleted, errors, failed, vanished := 0, 0, 0, [], 0, 0;
    }

    /** Each scanned file adds to exactly one count. */
    ghost predicate Counted()
      reads this
    {
      scanned == kept + deleted + failed + vanished && deleted == Told(books.removed) && failed <= |errors|
    }

    // ---- system calls ----

    /** Others act, then a call of the sweep has its turn. */
    method Await() returns (fault: Fault)
      modifies this`books, this`turns
      ensures books == Meanwhile(old(books), TurnAt(old(turns)).acts) && turns == Rest(old(turns)) && fault == TurnAt(old(turns)).fault
      ensures Onward(old(books), books) && Meantime(old(books), books)
      ensures old(turns) == [] ==> turns == [] && fault == Works && books == old(books)
    {
      var turn := TurnAt(turns);
      turns := Rest(turns);
      MeanwhileKeeps(books, turn.acts);
      books := Meanwhile(books, turn.acts);
      fault := turn.fault;
    }

    /** existsSync, which answers no to every error. */
    method Exists(s: Slot) returns (found: bool)
      modifies this`books, this`turns
      ensures turns == Rest(old(turns))
      ensures var turn := TurnAt(old(turns));
        var b := Meanwhile(old(books), turn.acts);
        found == Passes(b, turn.fault, s) && books == if found then b else Missed(b, turn.fault, s)
    {
      var fault := Await();
      found := Passes(books, fault, s);
      if !found {
        MissedKeeps(books, fault, s);
        books := Missed(books, fault, s);
      }
    }

    method Unlink(s: Slot, seen: Inode) returns (r: Outcome)
      requires SeenPast(books, s, seen) && Now(books.tree, s) == Some(seen)
      modifies this`books, this`turns
      ensures (books, r) == Unlinked(old(books), TurnAt(old(turns)), TurnAt(Rest(old(turns))), s, seen)
      ensures turns == TurnsLeft(old(books), old(turns), s)
    {
      UnlinkedKeeps(books, TurnAt(turns), TurnAt(Rest(turns)), s, seen);
      hide Extends, Balanced, Meanwhile, Settled, Meantime;
      var found := Exists(s);
      if !found { return AlreadyAbsent; }
      var fault := Await();
      if fault.Fails? { return Failed; }
      if s !in books.tree.bound { return AlreadyAbsent; }
      if BoundToDir(books.tree, s) { return Failed; }
      books := Taken(books, s, seen, fault.Works?);
      r := if fault.Works? then Gone else Failed;
    }

    method RemoveDirectory(s: Slot) returns (r: Outcome)
      modifies this`books, this`turns
      ensures (books, r) == DirRemoved(old(books), TurnAt(old(turns)), TurnAt(Rest(old(turns))), s)
      ensures old(turns) == [] ==> turns == []
    {
      DirRemovedKeeps(books, TurnAt(turns), TurnAt(Rest(turns)), s);
      var found := Exists(s);
      if !found { return AlreadyAbsent; }
      var fault := Await();
      if fault.Fails? { return Failed; }
      if s !in books.tree.bound { return AlreadyAbsent; }
      if !BoundToDir(books.tree, s) { return Failed; }
      if HasChildren(books.tree, books.tree.bound[s]) { return NotEmpty; }
      books := books.(tree := Unbound(books.tree, s));
      r := if fault.Works? then Gone else Failed;
    }

    /** lstatSync; None is an error, an entry that is gone included. */
    method Stat(s: Slot) returns (found: Option<Inode>)
      modifies this`books, this`turns
      ensures books == Meanwhile(old(books), TurnAt(old(turns)).acts) && turns == Rest(old(turns))
      ensures Onward(old(books), books) && books.removed == old(books.removed)
      ensures found == if TurnAt(old(turns)).fault.Works? then Now(books.tree, s) else None
      ensures found.Some? ==> IsDir(books.tree, s.dir) && found.value in books.tree.nodes
      ensures old(turns) == [] ==> turns == [] && books == old(books)
    {
      var fault := Await();
      if !fault.Works? || s !in books.tree.bound { return None; }
      NowIsInNodes(books.tree, s);
      found := Now(books.tree, s);
    }

    /** readdir: the names of a directory, in some order; None is an error. */
    method ReadDir(dir: Inode) returns (listing: Option<seq<string>>)
      modifies this`books, this`turns
      ensures books == Meanwhile(old(books), TurnAt(old(turns)).acts) && turns == Rest(old(turns))
      ensures books.removed == old(books.removed) && Onward(old(books), books)
      ensures listing.Some? <==> TurnAt(old(turns)).fault.Works?
      ensures listing.Some? ==> forall s | s in books.tree.bound && s.dir == dir :: s.name in listing.value
      ensures listing.Some? ==> forall n | n in listing.value :: Slot(dir, n) in books.tree.bound
      ensures listing.Some? ==> forall i, j | 0 <= i < j < |listing.value| :: listing.value[i] != listing.value[j]
      ensures old(turns) == [] ==> turns == [] && books == old(books) && listing.Some?
    {
      var fault := Await();
      if !fault.Works? { return None; }
      var left := set s | s in books.tree.bound && s.dir == dir;
      ghost var all := left;
      var listed: seq<string> := [];
      while left != {}
        invariant left <= all && forall s | s in all :: s in left || s.name in listed
        invariant forall i | 0 <= i < |listed| :: Slot(dir, listed[i]) in all && Slot(dir, listed[i]) !in left
        invariant forall i, j | 0 <= i < j < |listed| :: listed[i] != listed[j]
        decreases left
      {
        var s :| s in left;
        left := left - {s};
        listed := listed + [s.name];
      }
      listing := Some(listed);
    }

    /** durablySyncDirectory at the end of a directory; `clean` is whether all went well in it. */
    method PublishDirectory(dir: Inode, clean: bool)
      requires Counted() && (clean ==> forall s: Slot | s.dir == dir :: Handled(books, s))
      modifies this`books, this`turns, this`errors
      ensures Counted() && old(errors) <= errors && Onward(old(books), books)
      ensures errors == old(errors) && clean ==> dir in books.done
      ensures old(turns) == [] ==> turns == [] && errors == old(errors) && books == old(books).(tree := Synced(old(books.tree), dir), done := books.done)
    {
      hide Extends, Balanced, Meanwhile, Handled, Meantime;
      ghost var b0 := books;
      var fault := Await();
      if !fault.Fails? {
        PublishedKeeps(b0, books, dir, clean && fault.Works?);
        books := Published(books, dir, clean && fault.Works?);
      }
      if !fault.Works? { errors := errors + [if IsDir(books.tree, dir) then books.tree.nodes[dir].path else []]; }
    }

    // ---- the walk ----

    /** What became of a collectable file: one more deleted, one more error, or one that was not there. */
    twostate predicate CountsRemoval(s: Slot, outcome: Outcome)
      reads this
    {
      && kept == old(kept)
      && (if outcome.Gone? then deleted == old(deleted) + 1 else deleted == old(deleted))
      && (if outcome.Failed? then |errors| == |old(errors)| + 1 else errors == old(errors))
    }

    /** A file that was seen there, with the time read after. */
    method VisitFile(s: Slot, seen: Inode)
      requires Counted() && Now(books.tree, s) == Some(seen)
      requires IsDir(books.tree, s.dir) && seen in books.tree.nodes && !books.tree.nodes[seen].Dir?
      modifies this
      ensures Counted() && old(errors) <= errors && Onward(old(books), books) && scanned == old(scanned) + 1
      ensures var b, path := old(books).(now := books.clock(old(scanned))), PathOf(old(books.tree), s);
        if Collectable(books.orphan, path, old(books.tree.nodes[seen]), b.now) then
          var (r, outcome) := Unlinked(b, TurnAt(old(turns)), TurnAt(Rest(old(turns))), s, seen);
          books == r && CountsRemoval(s, outcome) && turns == TurnsLeft(b, old(turns), s)
        else books.tree == b.tree && books.removed == b.removed && kept == old(kept) + 1 && errors == old(errors)
      ensures errors == old(errors) ==> Handled(books, s)
      ensures old(turns) == [] ==>
        turns == [] && errors == old(errors) && QuietBut(old(books), books, s)
    {
      var path := PathOf(books.tree, s);
      var at := books.clock(scanned);
      scanned := scanned + 1;
      assert books.start <= at;
      if !books.orphan(path) {
        kept := kept + 1;
        return;
      }
      NowKeeps(books, at);
      books := books.(now := at);
      if books.tree.nodes[seen].mtime > at - GRACE_MS {
        kept := kept + 1;
        return;
      }
      CollectFile(s, seen, path);
    }

    method CollectFile(s: Slot, seen: Inode, path: Path)
      requires scanned == kept + deleted + failed + vanished + 1 && deleted == Told(books.removed) && failed <= |errors|
      requires SeenPast(books, s, seen) && Now(books.tree, s) == Some(seen)
      modifies this
      ensures Counted() && old(errors) <= errors && Onward(old(books), books) && scanned == old(scanned)
      ensures var (r, outcome) := Unlinked(old(books), TurnAt(old(turns)), TurnAt(Rest(old(turns))), s, seen);
        books == r && CountsRemoval(s, outcome) && turns == TurnsLeft(old(books), old(turns), s)
      ensures errors == old(errors) ==> Handled(books, s)
      ensures old(turns) == [] ==>
        turns == [] && errors == old(errors) && QuietBut(old(books), books, s)
    {
      hide Unlinked, Settled, Extends, Balanced;
      UnlinkedKeeps(books, TurnAt(turns), TurnAt(Rest(turns)), s, seen);
      UnlinkedQuietly(books, s, seen);
      var r := Unlink(s, seen);
      if r.Gone? {
        deleted := deleted + 1;
      } else if r.AlreadyAbsent? {
        vanished := vanished + 1;
      } else {
        errors, failed := errors + [path], failed + 1;
      }
    }

    method VisitDirectory(s: Slot, i: Inode, ghost depth: nat, ghost level: nat) returns (threw: bool)
      requires Counted() && Now(books.tree, s) == Some(i) && IsDir(books.tree, s.dir) && IsDir(books.tree, i)
      requires Shallow(books.tree, depth) && books.tree.nodes[i].path == PathOf(books.tree, s) && |books.tree.nodes[s.dir].path| == level < depth
      modifies this
      decreases depth - level, 1
      ensures Counted() && old(errors) <= errors && Onward(old(books), books)
      ensures !threw && errors == old(errors) ==> Handled(books, s)
      ensures old(turns) == [] ==>
        turns == [] && !threw && errors == old(errors) && QuietBut(old(books), books, s)
    {
      hide Extends, Settled, Balanced, DirRemoved;
      ghost var b0 := books;
      var path := PathOf(books.tree, s);
      threw := Visit(i, depth, level + 1);
      if threw { return; }
      ghost var b1 := books;
      DirRemovedKeeps(books, TurnAt(turns), TurnAt(Rest(turns)), s);
      if old(turns) == [] { EmptiedIsRemoved(b0, b1, s, i); }
      var r := RemoveDirectory(s);
      if r.Failed? { errors := errors + [path]; }
      OnwardTwice(b0, b1, books);
      if i in books.done { VisitedIsHandled(b0, books, s, i); }
    }

    method VisitEntry(s: Slot, ghost depth: nat, ghost level: nat) returns (threw: bool)
      requires Counted() && IsDir(books.tree, s.dir) && |books.tree.nodes[s.dir].path| == level <= depth && Shallow(books.tree, depth)
      modifies this
      decreases depth - level, 2
      ensures Counted() && old(errors) <= errors && Onward(old(books), books)
      ensures !threw && errors == old(errors) ==> Handled(books, s)
      ensures old(turns) == [] && s in old(books.tree.bound) ==>
        turns == [] && !threw && errors == old(errors) && QuietBut(old(books), books, s)
    {
      hide Settled, Spares, SparesBut, Undisturbed, Meanwhile, Extends;
      ghost var b0 := books;
      threw := false;
      var path := PathOf(books.tree, s);
      var found := Stat(s);
      if found.None? {
        errors := errors + [path];
        return;
      }
      ghost var b1 := books;
      DirStays(b0.tree, b1.tree, s.dir);
      ShallowStays(b0.tree, b1.tree, depth);
      if IsDir(books.tree, found.value) {
        ChildPath(books.tree, s);
        threw := VisitDirectory(s, found.value, depth, level);
      } else {
        VisitFile(s, found.value);
      }
      OnwardTwice(b0, b1, books);
    }

    method VisitEntries(dir: Inode, names: seq<string>, ghost depth: nat, ghost level: nat) returns (threw: bool)
      requires Counted() && IsDir(books.tree, dir) && |books.tree.nodes[dir].path| == level <= depth && Shallow(books.tree, depth)
      requires forall i, j | 0 <= i < j < |names| :: names[i] != names[j]
      modifies this
      decreases depth - level, 3
      ensures Counted() && old(errors) <= errors && Onward(old(books), books)
      ensures !threw && errors == old(errors) ==> forall n | n in names :: Handled(books, Slot(dir, n))
      ensures old(turns) == [] && (forall n | n in names :: Slot(dir, n) in old(books.tree.bound)) ==>
        && turns == [] && !threw && errors == old(errors) && Quiet(old(books), books, old(books.tree.nodes[dir].path))
        && forall n | n in names :: Pruned(books.tree, Slot(dir, n))
    {
      hide Settled, Handled, Extends, Balanced, WellFormed, Spares, SparesBut, Quiet, Pruned, Undisturbed;
      ghost var b0, path := books, books.tree.nodes[dir].path;
      OnwardItself(b0);
      QuietItself(b0, path);
      ghost var quiet := turns == [] && forall n | n in names :: Slot(dir, n) in books.tree.bound;
      threw := false;
      for i := 0 to |names|
        invariant !threw && Counted() && old(errors) <= errors && Onward(b0, books)
        invariant IsDir(books.tree, dir) && books.tree.nodes[dir].path == path && Shallow(books.tree, depth)
        invariant errors == old(errors) ==> forall j | 0 <= j < i :: Handled(books, Slot(dir, names[j]))
        invariant quiet ==> turns == [] && errors == old(errors) && Quiet(b0, books, path)
        invariant quiet ==> forall j | i <= j < |names| :: Slot(dir, names[j]) in books.tree.bound
        invariant quiet ==> forall j | 0 <= j < i :: Pruned(books.tree, Slot(dir, names[j]))
      {
        ghost var b1 := books;
        threw := VisitEntry(Slot(dir, names[i]), depth, level);
        OnwardTwice(b0, b1, books);
        if threw { return; }
        ShallowStays(b1.tree, books.tree, depth);
        DirStays(b1.tree, books.tree, dir);
        forall j | 0 <= j < i && Handled(b1, Slot(dir, names[j])) ensures Handled(books, Slot(dir, names[j])) {
          HandledStays(b1, books, Slot(dir, names[j]));
        }
        if quiet {
          QuietTwice(b0, b1, books, Slot(dir, names[i]), path);
          forall j | 0 <= j < |names| && j != i
            ensures Slot(dir, names[j]) in b1.tree.bound ==> Slot(dir, names[j]) in books.tree.bound
            ensures Pruned(b1.tree, Slot(dir, names[j])) ==> Pruned(books.tree, Slot(dir, names[j]))
          {
            OthersStay(b1, books, Slot(dir, names[i]), Slot(dir, names[j]));
          }
        }
      }
    }

    method Visit(dir: Inode, ghost depth: nat, ghost level: nat) returns (threw: bool)
      requires Counted() && IsDir(books.tree, dir) && |books.tree.nodes[dir].path| == level <= depth && Shallow(books.tree, depth)
      modifies this
      decreases depth - level, 4
      ensures Counted() && old(errors) <= errors && Onward(old(books), books)
      ensures !threw && errors == old(errors) ==> dir in books.done
      ensures old(turns) == [] ==>
        && turns == [] && !threw && errors == old(errors) && Quiet(old(books), books, old(books.tree.nodes[dir].path))
        && forall s: Slot | s.dir == dir :: Pruned(books.tree, s)
    {
      hide Settled, Handled, Extends, Balanced;
      ghost var b0 := books;
      var before := |errors|;
      var listing := ReadDir(dir);
      if listing.None? { return true; }
      ghost var b1 := books;
      DirStays(b0.tree, b1.tree, dir);
      ShallowStays(b0.tree, b1.tree, depth);
      threw := VisitEntries(dir, listing.value, depth, level);
      OnwardTwice(b0, b1, books);
      if threw { return; }
      ghost var b2 := books;
      forall s: Slot | s.dir == dir && s !in b1.tree.bound ensures Handled(b2, s) { UnlistedIsHandled(b1, b2, s); }
      assert |errors| == before ==> errors == old(errors);
      assert |errors| == before ==> forall s: Slot | s.dir == dir :: Handled(b2, s) by {
        forall s: Slot | s.dir == dir && |errors| == before ensures Handled(b2, s) { assert s == Slot(dir, s.name); }
      }
      PublishDirectory(dir, |errors| == before);
      OnwardTwice(b0, b2, books);
      if old(turns) == [] {
        forall s: Slot | s.dir == dir ensures Pruned(books.tree, s) {
          assert Pruned(b2.tree, s) by { assert s == Slot(dir, s.name); }
        }
      }
    }

    /** garbageCollectOrphanAttachments on an attachment root that exists; a failing readdir throws. */
    method GarbageCollect(rootIsDirectory: bool, ghost depth: nat) returns (threw: bool)
      requires Counted() && errors == [] && Shallow(books.tree, depth)
      modifies this
      ensures Counted() && Onward(old(books), books)
      ensures !threw && errors == [] ==> ROOT in books.done
      ensures old(turns) == [] && rootIsDirectory ==> !threw && errors == [] && Quiet(old(books), books, [])
    {
      if !rootIsDirectory {
        errors := [[]];
        return false;
      }
      threw := Visit(ROOT, depth, 0);
    }
  }

  // ---- what a sweep comes to ----

  /** What a path leads to, now or after a crash, once the root is finished: anything there before is finished or settled. */
  lemma {:induction false} WalkIsSettled(b: State, r: Tree, p: Path)
    requires ROOT in b.done && (r == b.tree || Recovers(b.tree, r)) && WalkTo(r, p).Some? && WalkTo(r, p).value < b.initial.next
    ensures var i := WalkTo(r, p).value;
      && i in b.tree.nodes
      && (IsDir(b.tree, i) ==> i in b.done && b.tree.nodes[i].path == p)
      && (!IsDir(b.tree, i) ==> exists s: Slot :: IsDir(b.tree, s.dir) && PathOf(b.tree, s) == p && Now(r, s) == Some(i) && Settled(b, s, Some(i)))
  {
    if p != [] {
      var n := |p| - 1;
      var i, d := WalkTo(r, p).value, WalkTo(r, p[..n]).value;
      var s := Slot(d, p[n]);
      assert Possible(b.tree, s, Now(r, s));
      assert Fits(b.tree, s, i);
      OldIsBelowOld(b, s, i);
      WalkIsSettled(b, r, p[..n]);
      assert Settled(b, s, Some(i));
      assert PathOf(b.tree, s) == p;
      assert IsDir(b.tree, s.dir) && Now(r, s) == Some(i);
    }
  }

  /** What was there before the sweep can only be in a directory that was. */
  lemma OldIsBelowOld(b: State, s: Slot, i: Inode)
    requires Possible(b.tree, s, Some(i)) && i < b.initial.next
    ensures s.dir < b.initial.next
  {
    assert Possible(b.initial, s, Some(i)) && Fits(b.initial, s, i);
  }

  /**
   * A reported clean pass: a file that any path leads to, now, after whatever others do next, or
   * after a crash, came during the sweep, was not collectable at its start, or was overlooked.
   */
  lemma CleanMeansCollected(b: State, r: Tree, p: Path, i: Inode)
    requires ROOT in b.done && (r == b.tree || Recovers(b.tree, r))
    requires WalkTo(r, p) == Some(i) && !IsDir(b.tree, i) && i < b.initial.next
    ensures i in b.tree.nodes
    ensures Collectable(b.orphan, p, b.tree.nodes[i], b.start) ==> exists o | o in b.overlooked :: o.inode == i
  {
    WalkIsSettled(b, r, p);
    var s: Slot :| IsDir(b.tree, s.dir) && PathOf(b.tree, s) == p && Now(r, s) == Some(i) && Settled(b, s, Some(i));
    if Collectable(b.orphan, p, b.tree.nodes[i], b.start) {
      var o := if Oversight(s, i, false) in b.overlooked then Oversight(s, i, false) else Oversight(s, i, true);
      assert o in b.overlooked && o.inode == i;
    }
  }

  /** Only a link to nothing is overlooked by a test that works. */
  lemma OverlookedLooksAbsent(b: State, o: Oversight)
    requires o in b.overlooked && !o.failed
    ensures o.inode in b.tree.nodes && b.tree.nodes[o.inode].Link? && b.tree.nodes[o.inode].dangling
  {
    assert o.inode in b.tree.nodes && (o.failed || LooksAbsent(b.tree.nodes[o.inode]));
  }

  /** Of the files there at the start the sweep itself takes away unreferenced ones past their grace period, and no links to nothing. */
  lemma OnlyOrphansGo(b: State, s: Slot)
    requires s in b.initial.bound && !IsDir(b.initial, b.initial.bound[s])
    requires Now(b.tree, s) != Now(b.initial, s) && (s, b.initial.bound[s]) !in b.lost
    ensures Fits(b.initial, s, b.initial.bound[s]) && !LooksAbsent(b.initial.nodes[b.initial.bound[s]])
    ensures exists n :: Collectable(b.orphan, PathOf(b.initial, s), b.initial.nodes[b.initial.bound[s]], b.clock(n))
  {
    NowIsInNodes(b.initial, s);
    var i := b.initial.bound[s];
    assert WasRemoved(b, s, i);
    var r :| r in b.removed && r.slot == s && r.gone == i;
    assert Justified(b, r);
    var n :| r.at == b.clock(n);
    assert Collectable(b.orphan, PathOf(b.initial, s), b.initial.nodes[i], b.clock(n));
  }

  /** A link to nothing stays, unless others take it away. */
  lemma DanglingLinksStay(b: State, s: Slot)
    requires s in b.initial.bound && b.initial.bound[s] in b.initial.nodes && LooksAbsent(b.initial.nodes[b.initial.bound[s]])
    requires (s, b.initial.bound[s]) !in b.lost
    ensures Now(b.tree, s) == Now(b.initial, s)
  {
    if Now(b.tree, s) != Now(b.initial, s) { OnlyOrphansGo(b, s); }
  }

  /**
   * Which collectable entries a finished directory still holds, when others left them alone and
   * no existence test failed: exactly the links to nothing.
   */
  lemma StaysExactlyWhenDangling(b: State, s: Slot)
    requires s in b.initial.bound && s.dir in b.done && (s, b.initial.bound[s]) !in b.lost
    requires Oversight(s, b.initial.bound[s], true) !in b.overlooked
    requires Fits(b.initial, s, b.initial.bound[s])
    requires Collectable(b.orphan, PathOf(b.initial, s), b.initial.nodes[b.initial.bound[s]], b.start)
    ensures Now(b.tree, s) == Now(b.initial, s) <==> LooksAbsent(b.initial.nodes[b.initial.bound[s]])
  {
    var i := b.initial.bound[s];
    if LooksAbsent(b.initial.nodes[i]) { DanglingLinksStay(b, s); }
    if Now(b.tree, s) == Some(i) {
      assert Possible(b.tree, s, Some(i)) && Settled(b, s, Some(i));
      OverlookedLooksAbsent(b, Oversight(s, i, false));
    }
  }

  /** What keeps its name keeps its path. */
  lemma {:induction false} KeptIsOnItsPath(b: State, p: Path, s: Slot, i: Inode)
    requires p != [] && WalkTo(b.initial, p) == Some(i) && WalkTo(b.initial, p[..|p| - 1]) == Some(s.dir) && s.name == p[|p| - 1]
    requires Now(b.tree, s) == Some(i)
    ensures WalkTo(b.tree, p) == Some(i)
  {
    var above := p[..|p| - 1];
    if above != [] {
      var up := Slot(WalkTo(b.initial, above[..|above| - 1]).value, above[|above| - 1]);
      assert Now(b.initial, up) == Some(s.dir);
      assert Now(b.tree, up) == Now(b.initial, up);
      KeptIsOnItsPath(b, above, up, s.dir);
    }
  }

  /**
   * The same for paths: after a clean pass that others and failing tests left alone, a path that
   * led to a collectable entry still leads to it exactly when that is a link to nothing.
   */
  lemma PathStaysExactlyWhenDangling(b: State, p: Path, i: Inode)
    requires ROOT in b.done && b.lost == {} && forall o | o in b.overlooked :: !o.failed
    requires WalkTo(b.initial, p) == Some(i) && i in b.initial.nodes && Collectable(b.orphan, p, b.initial.nodes[i], b.start)
    ensures WalkTo(b.tree, p) == Some(i) <==> LooksAbsent(b.initial.nodes[i])
  {
    var s := Slot(WalkTo(b.initial, p[..|p| - 1]).value, p[|p| - 1]);
    if LooksAbsent(b.initial.nodes[i]) {
      DanglingLinksStay(b, s);
      KeptIsOnItsPath(b, p, s, i);
    }
    if WalkTo(b.tree, p) == Some(i) {
      CleanMeansCollected(b, b.tree, p, i);
      var o :| o in b.overlooked && o.inode == i;
      OverlookedLooksAbsent(b, o);
    }
  }

  /**
   * When a removal passes over an entry that is there: exactly when the existence test fails,
   * or meets a link to nothing.
   */
  lemma PassedOverExactlyWhenTestSaysNo(b: State, test: Turn, unlink: Turn, s: Slot, seen: Inode)
    ensures var (r, outcome) := Unlinked(b, test, unlink, s, seen);
      var found := Meanwhile(b, test.acts).tree;
      outcome.AlreadyAbsent? && s in r.tree.bound <==>
        s in found.bound && (!test.fault.Works? || (found.bound[s] in found.nodes && LooksAbsent(found.nodes[found.bound[s]])))
  {
  }

  /**
   * Every removal: an unreferenced path at which a file past its grace period was seen.  The
   * file that went was past it exactly when it is the one that was seen.
   */
  lemma PastGraceExactlyWhenSeen(b: State, r: Removal)
    requires r in b.removed
    ensures IsDir(b.tree, r.slot.dir) && r.seen in b.tree.nodes && r.gone in b.tree.nodes && !b.tree.nodes[r.gone].Dir?
    ensures Collectable(b.orphan, PathOf(b.tree, r.slot), b.tree.nodes[r.seen], r.at)
    ensures Collectable(b.orphan, PathOf(b.tree, r.slot), b.tree.nodes[r.gone], r.at) <==> r.gone == r.seen
  {
    assert Justified(b, r);
  }

  /** Some of the acts puts a file at the name. */
  predicate Replaces(b: Books, acts: seq<Act>, s: Slot) {
    acts != [] &&
    var n := |acts| - 1;
    Replaces(b, acts[..n], s) || (acts[n].Put? && acts[n].slot == s && CanAct(Meanwhile(b, acts[..n]), acts[n]))
  }

  lemma {:induction false} MeanwhileTwice(b: Books, first: seq<Act>, second: seq<Act>)
    ensures Meanwhile(b, first + second) == Meanwhile(Meanwhile(b, first), second)
    decreases |second|
  {
    if second == [] {
      assert first + [] == first;
    } else {
      var n := |second| - 1;
      MeanwhileTwice(b, first, second[..n]);
      assert (first + second)[..|first + second| - 1] == first + second[..n];
    }
  }

  lemma ActOnName(b: State, a: Act, s: Slot)
    ensures var m := Acted(b, a);
      if a.Put? && a.slot == s && CanAct(b, a) then Now(m.tree, s) == Some(b.tree.next)
      else Now(m.tree, s) == Now(b.tree, s) || s !in m.tree.bound || (s !in b.tree.bound && BoundToDir(m.tree, s))
    ensures BoundToDir(b.tree, s) ==> BoundToDir(Acted(b, a).tree, s)
  {
  }

  /** Without such an act a file keeps its name, loses it, or a directory gets it; with one it has lost it for good. */
  lemma {:induction false} KeepsNameUnlessReplaced(b: State, acts: seq<Act>, s: Slot, i: Inode)
    requires Now(b.tree, s) == Some(i) && i in b.tree.nodes && !b.tree.nodes[i].Dir?
    ensures var m := Meanwhile(b, acts);
      && (Replaces(b, acts, s) ==> Now(m.tree, s) != Some(i))
      && (!Replaces(b, acts, s) ==> Now(m.tree, s) == Some(i) || s !in m.tree.bound || BoundToDir(m.tree, s))
  {
    if acts != [] {
      var n := |acts| - 1;
      KeepsNameUnlessReplaced(b, acts[..n], s, i);
      MeanwhileKeeps(b, acts[..n]);
      var mid: State := Meanwhile(b, acts[..n]);
      assert i < b.tree.next <= mid.tree.next;
      ActOnName(mid, acts[n], s);
      hide Acted, Balanced, Onward, Meantime, CanAct;
    }
  }

  /** The file that goes is past its grace period exactly when nobody put another at its name since the lstat. */
  lemma PastGraceUnlessReplaced(b: State, test: Turn, unlink: Turn, s: Slot, seen: Inode)
    requires SeenPast(b, s, seen) && Now(b.tree, s) == Some(seen)
    requires Unlinked(b, test, unlink, s, seen).0.removed != b.removed
    ensures var (r, outcome) := Unlinked(b, test, unlink, s, seen);
      && r.removed != [] && r.removed[..|r.removed| - 1] == b.removed
      && var gone := r.removed[|r.removed| - 1].gone;
      && gone in r.tree.nodes
      && (Collectable(b.orphan, PathOf(b.tree, s), r.tree.nodes[gone], b.now) <==> !Replaces(b, test.acts + unlink.acts, s))
  {
    MeanwhileTwice(b, test.acts, unlink.acts);
    KeepsNameUnlessReplaced(b, test.acts + unlink.acts, s, seen);
    MeanwhileKeeps(b, test.acts);
    MeanwhileKeeps(b, test.acts + unlink.acts);
    var m: State := Meanwhile(b, test.acts + unlink.acts);
    FoundIsSeen(b, m, s, seen);
    NowIsInNodes(m.tree, s);
  }

  /** An upload that comes between the existence test and the unlink is removed at once, however fresh it is. */
  lemma UploadMeanwhileGoes(b: State, s: Slot, seen: Inode, mtime: int)
    requires SeenPast(b, s, seen) && Now(b.tree, s) == Some(seen) && !LooksAbsent(b.tree.nodes[seen])
    requires Within(b.tree, s) && mtime > b.now - GRACE_MS
    ensures var (r, outcome) := Unlinked(b, Turn([], Works), Turn([Put(s, mtime)], Works), s, seen);
      && outcome == Gone && Now(r.tree, s) == None
      && r.removed == b.removed + [Removal(s, seen, b.tree.next, b.now, true)]
      && b.tree.next in r.tree.nodes && r.tree.nodes[b.tree.next] == File(mtime)
  {
    assert [Put(s, mtime)][..0] == [];
    assert Meanwhile(b, [Put(s, mtime)]) == Acted(b, Put(s, mtime));
  }

  /** One old file `a`, unreferenced. */
  function OneOldFile(): Tree {
    Tree(map[ROOT := Dir([]), 1 := File(0)], map[Slot(ROOT, "a") := 1], {}, 2)
  }

  lemma OneOldFileIsFit()
    ensures WellFormed(OneOldFile()) && Shallow(OneOldFile(), MAX_SEGMENTS)
  {
  }

  lemma OneOldFileIsBalanced(b: Books)
    requires b == Books(p => true, n => GRACE_MS, GRACE_MS, OneOldFile(), OneOldFile(), GRACE_MS, [], {}, {}, {})
    ensures Balanced(b)
  {
    assert Extends(b.tree, b.tree);
  }

  /** So a sweep removes, and counts as deleted, a file uploaded that very moment. */
  method FreshUploadGoes() returns (b: State, r: Removal)
    ensures b.removed == [r] && r.told && r.seen != r.gone && r.at == b.start == GRACE_MS
    ensures r.gone in b.tree.nodes && b.tree.nodes[r.gone] == File(GRACE_MS)
  {
    hide Unlinked, Meanwhile, Balanced, Acted;
    var a := Slot(ROOT, "a");
    var books := Books(p => true, n => GRACE_MS, GRACE_MS, OneOldFile(), OneOldFile(), GRACE_MS, [], {}, {}, {});
    OneOldFileIsBalanced(books);
    assert books.now == books.clock(0);
    UploadMeanwhileGoes(books, a, 1, GRACE_MS);
    var sweep := new Sweep(books, [Turn([], Works), Turn([Put(a, GRACE_MS)], Works)]);
    sweep.VisitFile(a, 1);
    b, r := sweep.books, Removal(a, 1, 2, GRACE_MS, true);
  }

  datatype Report = Report(deleted: nat, errors: seq<Path>, kept: nat, scanned: nat)

  /**
   * One request's sweep over a tree that earlier sweeps may have left half-published, and the
   * books at its end.  No report means readdir threw.
   */
  method GarbageCollectOrphanAttachments(referenced: set<string>, clock: nat -> int, start: int, tree: Tree,
                                         rootExists: bool, rootIsDirectory: bool, turns: seq<Turn>, ghost depth: nat)
    returns (report: Option<Report>, b: State)
    requires WellFormed(tree) && (forall n :: start <= clock(n)) && Shallow(tree, depth)
    ensures b.initial == tree && b.clock == clock && b.start == start && forall p :: b.orphan(p) <==> Unreferenced(referenced, p)
    ensures report.Some? && report.value.errors == [] && rootExists ==> ROOT in b.done
    ensures forall s | s in tree.bound && !IsDir(tree, tree.bound[s]) && Now(b.tree, s) != Now(tree, s) && (s, tree.bound[s]) !in b.lost ::
      && IsDir(tree, s.dir) && tree.bound[s] in tree.nodes && !LooksAbsent(tree.nodes[tree.bound[s]])
      && Unreferenced(referenced, PathOf(tree, s)) && exists n :: tree.nodes[tree.bound[s]].mtime <= clock(n) - GRACE_MS
    ensures report.Some? ==> report.value.deleted == Told(b.removed) && report.value.kept + report.value.deleted <= report.value.scanned
    ensures turns == [] && rootIsDirectory ==>
      && report.Some? && report.value.errors == []
      && (forall q | q in b.tree.bound :: q in tree.bound && b.tree.bound[q] == tree.bound[q])
      && b.lost == {} && forall o | o in b.overlooked :: !o.failed
    ensures turns == [] && rootExists && rootIsDirectory ==>
      forall p, i | WalkTo(tree, p) == Some(i) && i in tree.nodes && Collectable(b.orphan, p, tree.nodes[i], start) ::
        WalkTo(b.tree, p) == Some(i) <==> LooksAbsent(tree.nodes[i])
  {
    var orphan := p => Unreferenced(referenced, p);
    assert Extends(tree, tree);
    b := Books(orphan, clock, start, tree, tree, start, [], {}, {}, {});
    if !rootExists { return Some(Report(0, [], 0, 0)), b; }
    var sweep := new Sweep(b, turns);
    var threw := sweep.GarbageCollect(rootIsDirectory, depth);
    b := sweep.books;
    forall s | s in tree.bound && !IsDir(tree, tree.bound[s]) && Now(b.tree, s) != Now(tree, s) && (s, tree.bound[s]) !in b.lost
      ensures IsDir(tree, s.dir) && tree.bound[s] in tree.nodes && !LooksAbsent(tree.nodes[tree.bound[s]])
      ensures Unreferenced(referenced, PathOf(tree, s)) && exists n :: tree.nodes[tree.bound[s]].mtime <= clock(n) - GRACE_MS
    {
      OnlyOrphansGo(b, s);
      var n :| Collectable(b.orphan, PathOf(tree, s), tree.nodes[tree.bound[s]], clock(n));
    }
    if turns == [] && rootIsDirectory {
      forall p, i | WalkTo(tree, p) == Some(i) && i in tree.nodes && Collectable(b.orphan, p, tree.nodes[i], start)
        ensures WalkTo(b.tree, p) == Some(i) <==> LooksAbsent(tree.nodes[i])
      {
        PathStaysExactlyWhenDangling(b, p, i);
      }
    }
    report := if threw then None else Some(Report(sweep.deleted, sweep.errors, sweep.kept, sweep.scanned));
  }

  // ---- clean passes that leave a collectable entry ----

  lemma NameIsPath(orphans: set<string>)
    requires "a" !in orphans
    ensures Unreferenced(orphans, ["a"])
  {
    GoodNamesAreNormal(["a"]);
    assert Slashed("a") == "a" by { assert "a"[1..] == ""; }
  }

  /** One link to nothing `a`, long past its grace period. */
  function OneDeadLink(): Tree {
    Tree(map[ROOT := Dir([]), 1 := Link(0, true)], map[Slot(ROOT, "a") := 1], {}, 2)
  }

  lemma OneDeadLinkIsFit()
    ensures WellFormed(OneDeadLink()) && Shallow(OneDeadLink(), MAX_SEGMENTS)
  {
  }

  /** Nothing disturbs this sweep, it reports a clean pass, and the link it should have collected is there. */
  method DeadLinkStays() returns (report: Option<Report>, b: State)
    ensures report.Some? && report.value.errors == []
    ensures Now(b.tree, Slot(ROOT, "a")) == Some(1) && b.initial == OneDeadLink() && b.start == GRACE_MS
    ensures Collectable(b.orphan, ["a"], OneDeadLink().nodes[1], b.start)
  {
    hide Unreferenced, WellFormed, Shallow, Balanced;
    OneDeadLinkIsFit();
    NameIsPath({});
    report, b := GarbageCollectOrphanAttachments({}, n => GRACE_MS, GRACE_MS, OneDeadLink(), true, true, [], MAX_SEGMENTS);
    DanglingLinksStay(b, Slot(ROOT, "a"));
  }

  /** In every state a failing existence test leaves an entry that is there where it is, and the removal says that it was absent. */
  lemma FailedTestLeaves(b: State, s: Slot, seen: Inode, rest: seq<Turn>)
    requires s in b.tree.bound
    ensures Meanwhile(b, []) == b
    ensures Unlinked(b, Turn([], Fails), TurnAt(rest), s, seen) ==
      (b.(overlooked := b.overlooked + {Oversight(s, b.tree.bound[s], true)}), AlreadyAbsent)
    ensures TurnsLeft(b, [Turn([], Fails)] + rest, s) == rest
  {
  }

  /**
   * The calls a sweep makes for a root that holds one old file, with an existence test that fails:
   * no error is recorded, the root counts as finished, and the file is there.
   */
  /** Whatever the state: no error, nothing deleted, and the collectable file is there. */
  method VisitWithFailingTest(sweep: Sweep, s: Slot, seen: Inode)
    requires sweep.Counted() && sweep.turns == [Turn([], Fails)] && Now(sweep.books.tree, s) == Some(seen)
    requires IsDir(sweep.books.tree, s.dir) && seen in sweep.books.tree.nodes
    requires Collectable(sweep.books.orphan, PathOf(sweep.books.tree, s), sweep.books.tree.nodes[seen], sweep.books.clock(sweep.scanned))
    modifies sweep
    ensures sweep.Counted() && sweep.turns == [] && sweep.errors == old(sweep.errors) && sweep.deleted == old(sweep.deleted)
    ensures sweep.books.tree == old(sweep.books.tree) && Onward(old(sweep.books), sweep.books) && Handled(sweep.books, s)
  {
    ghost var b := sweep.books.(now := sweep.books.clock(sweep.scanned));
    NowKeeps(sweep.books, b.now);
    FailedTestLeaves(b, s, seen, []);
    assert [Turn([], Fails)] + [] == [Turn([], Fails)];
    hide Balanced, Meanwhile, Unlinked, TurnsLeft, Extends, Settled;
    sweep.VisitFile(s, seen);
  }

  /** The calls a sweep makes for a root that holds one old file: the root counts as finished, and the file is there. */
  method FailedTestStays() returns (sweep: Sweep, names: seq<string>)
    ensures fresh(sweep) && sweep.errors == [] && ROOT in sweep.books.done && sweep.deleted == 0 && names == ["a"]
    ensures Now(sweep.books.tree, Slot(ROOT, "a")) == Some(1) && sweep.books.initial == OneOldFile() && sweep.books.start == GRACE_MS
    ensures Collectable(sweep.books.orphan, ["a"], OneOldFile().nodes[1], sweep.books.start)
  {
    var a := Slot(ROOT, "a");
    var books := Books(p => true, n => GRACE_MS, GRACE_MS, OneOldFile(), OneOldFile(), GRACE_MS, [], {}, {}, {});
    OneOldFileIsBalanced(books);
    assert Meanwhile(books, []) == books;
    hide Balanced, Meanwhile, Extends, Settled, Handled;
    sweep := new Sweep(books, [Turn([], Works), Turn([], Works), Turn([], Fails)]);
    var listing := sweep.ReadDir(ROOT);
    names := listing.value;
    OneName(names);
    var found := sweep.Stat(a);
    VisitWithFailingTest(sweep, a, found.value);
    forall s: Slot | s.dir == ROOT && s != a ensures Handled(sweep.books, s) { UnlistedIsHandled(books, sweep.books, s); }
    sweep.PublishDirectory(ROOT, sweep.errors == []);
  }

  lemma OneName(names: seq<string>)
    requires (forall n | n in names :: n == "a") && "a" in names
    requires forall i, j | 0 <= i < j < |names| :: names[i] != names[j]
    ensures names == ["a"]
  {
    var last := |names| - 1;
    assert names[0] in names && names[last] in names;
  }
}
