/** Page tables as they lie in physical memory: entry words, the four-level walk,
    and the ownership invariant that keeps address spaces apart. */
module PageTables {
  import opened Basics

  /** A frame number; the frames that exist are the keys of the memory. */
  type Frame = int
  type Pid = int

  /** A 64-bit word, split without loss at bit 12: the frame number and the low flag bits. */
  datatype Word = Word(frame: Frame, flags: bv12)

  const MM_PRESENT: bv12 := 1
  const MM_READWRITE: bv12 := 2
  const MM_USER: bv12 := 4
  /** Set in an upper entry it ends the processor's walk there: a large page. */
  const MM_2MB: bv12 := 0x80
  const MM_COW: bv12 := 0x200

  const ENTRIES: nat := 512
  /** Slot 511 of a root table is the kernel's own and belongs to no user walk. */
  const USER_ROOT_ENTRIES: nat := 511
  const ZERO_WORD := Word(0, 0)
  const ZERO_PAGE: seq<Word> := seq(ENTRIES, i => ZERO_WORD)

  /** A 4 KB frame: 512 words, read as a table or as user data. */
  type Page = p: seq<Word> | |p| == ENTRIES ghost witness ZERO_PAGE
  type Mem = map<Frame, Page>

  predicate Present(w: Word) { w.flags & MM_PRESENT != 0 }
  predicate Writable(w: Word) { w.flags & MM_READWRITE != 0 }
  predicate User(w: Word) { w.flags & MM_USER != 0 }
  predicate Large(w: Word) { w.flags & MM_2MB != 0 }
  predicate Cow(w: Word) { w.flags & MM_COW != 0 }

  /** What fork leaves in a leaf entry: flags reset, then COW | READONLY | PRESENT | USER. */
  const SHARED_FLAGS: bv12 := MM_COW | MM_PRESENT | MM_USER

  function Limit(depth: nat): nat {
    if depth == 0 then USER_ROOT_ENTRIES else ENTRIES
  }

  /** q is a path of table indices that starts in a table at the given depth. */
  predicate InRange(depth: nat, q: seq<nat>) {
    forall k :: 0 <= k < |q| ==> q[k] < Limit(depth + k)
  }

  /** A user page number: one index for each of the four levels. */
  predicate IsVPage(v: seq<nat>) {
    |v| == 4 && InRange(0, v)
  }

  /** The leaf entry that path q reaches from table f, if every entry on the way is present. */
  function LeafAt(mem: Mem, f: Frame, q: seq<nat>): (r: Option<Word>)
    requires |q| > 0
    decreases |q|
  {
    if f !in mem || q[0] >= ENTRIES || !Present(mem[f][q[0]]) then None
    else if |q| == 1 then Some(mem[f][q[0]])
    else LeafAt(mem, mem[f][q[0]].frame, q[1..])
  }

  /** What each frame in use is for. Tables and private pages also record the table whose
      entry points at them, so at most one entry can claim a frame and the invariant below
      stays local to a table. */
  datatype Owner =
    | Table(pid: Pid, path: seq<nat>, up: Frame)
    | Private(pid: Pid, path: seq<nat>, up: Frame)
    | Shared

  type Owners = map<Frame, Owner>

  /** The present entry w of table f, at path p of space pid, points at a frame owned accordingly. */
  ghost predicate EntryOk(own: Owners, f: Frame, pid: Pid, p: seq<nat>, w: Word) {
    && w.frame in own
    && User(w)
    && if |p| < 4 then own[w.frame] == Table(pid, p, f) && Writable(w) && !Large(w)
       else if Cow(w) then own[w.frame] == Shared && !Writable(w)
       else own[w.frame] == Private(pid, p, f)
  }

  ghost predicate TableOk(mem: Mem, own: Owners, f: Frame)
    requires f in mem && f in own && own[f].Table?
  {
    forall i :: 0 <= i < Limit(|own[f].path|) && Present(mem[f][i])
             ==> EntryOk(own, f, own[f].pid, own[f].path + [i], mem[f][i])
  }

  ghost predicate OwnersInMemory(mem: Mem, own: Owners) {
    && own.Keys <= mem.Keys
    && forall f :: f in own && own[f].Table? ==> |own[f].path| <= 3
  }

  ghost predicate TablesOk(mem: Mem, own: Owners) {
    && OwnersInMemory(mem, own)
    && forall f :: f in own && own[f].Table? ==> TableOk(mem, own, f)
  }

  ghost predicate FreeOk(mem: Mem, own: Owners, free: multiset<Frame>) {
    forall f :: f in free ==> free[f] == 1 && f in mem && f !in own
  }

  /** f is the table of space pid at the given path. */
  ghost predicate IsTable(own: Owners, f: Frame, pid: Pid, path: seq<nat>) {
    f in own && own[f].Table? && own[f].pid == pid && own[f].path == path
  }

  /** Every space has its root, and every frame that is not shared belongs to a space. */
  ghost predicate RootsOk(own: Owners, spaces: map<Pid, Frame>) {
    && (forall pid :: pid in spaces ==> IsTable(own, spaces[pid], pid, []))
    && (forall f :: f in own && !own[f].Shared? ==> own[f].pid in spaces)
  }

  /** The whole-system invariant. */
  ghost predicate Inv(mem: Mem, own: Owners, free: multiset<Frame>, spaces: map<Pid, Frame>) {
    TablesOk(mem, own) && FreeOk(mem, own, free) && RootsOk(own, spaces)
  }

  /** q leads from table f to a leaf. */
  ghost predicate LeafPath(own: Owners, f: Frame, q: seq<nat>) {
    f in own && own[f].Table? && |q| > 0 && |own[f].path| + |q| == 4 && InRange(|own[f].path|, q)
  }

  // ---------------------------------------------------------------- walks

  /** One level down: the entry at q[0] is within the limit, and the rest is a path again. */
  lemma {:induction false} LeafPathStep(mem: Mem, own: Owners, f: Frame, q: seq<nat>)
    requires OwnersInMemory(mem, own) && LeafPath(own, f, q) && TableOk(mem, own, f)
    ensures q[0] < Limit(|own[f].path|) <= ENTRIES
    ensures Present(mem[f][q[0]]) ==> EntryOk(own, f, own[f].pid, own[f].path + [q[0]], mem[f][q[0]])
    ensures Present(mem[f][q[0]]) && |q| > 1 ==> LeafPath(own, mem[f][q[0]].frame, q[1..])
    ensures own[f].path + [q[0]] + q[1..] == own[f].path + q
  {
    assert q[0] < Limit(|own[f].path| + 0);
    forall k | 0 <= k < |q[1..]| ensures q[1..][k] < Limit(|own[f].path| + 1 + k) {
      assert q[1 + k] < Limit(|own[f].path| + (1 + k));
    }
  }

  /** A walk ends at an entry the invariant speaks of, owned by the walking space at that path. */
  lemma {:induction false} LeafIsOwned(mem: Mem, own: Owners, f: Frame, q: seq<nat>) returns (t: Frame)
    requires TablesOk(mem, own) && LeafPath(own, f, q) && LeafAt(mem, f, q).Some?
    ensures Present(LeafAt(mem, f, q).value)
    ensures EntryOk(own, t, own[f].pid, own[f].path + q, LeafAt(mem, f, q).value)
    decreases |q|
  {
    LeafPathStep(mem, own, f, q);
    if |q| == 1 {
      assert q == [q[0]];
      t := f;
    } else {
      t := LeafIsOwned(mem, own, mem[f][q[0]].frame, q[1..]);
    }
  }

  /** The tables of space pid at and below the given path are well formed. */
  ghost predicate SubtreeOk(mem: Mem, own: Owners, pid: Pid, path: seq<nat>) {
    && OwnersInMemory(mem, own)
    && forall g :: g in own && own[g].Table? && own[g].pid == pid && path <= own[g].path ==> TableOk(mem, own, g)
  }

  ghost predicate SubtreeSame(mem: Mem, mem': Mem, own: Owners, pid: Pid, path: seq<nat>) {
    forall g :: g in own && own[g].Table? && own[g].pid == pid && path <= own[g].path
              ==> g in mem && g in mem' && mem'[g] == mem[g]
  }

  /** A walk depends only on the tables of its own subtree. */
  lemma {:induction false} LeafDependsOnSubtree(mem: Mem, mem': Mem, own: Owners, f: Frame, q: seq<nat>)
    requires LeafPath(own, f, q) && SubtreeOk(mem, own, own[f].pid, own[f].path)
    requires SubtreeSame(mem, mem', own, own[f].pid, own[f].path)
    ensures LeafAt(mem', f, q) == LeafAt(mem, f, q)
    decreases |q|
  {
    LeafPathStep(mem, own, f, q);
    if Present(mem[f][q[0]]) && |q| > 1 {
      LeafDependsOnSubtree(mem, mem', own, mem[f][q[0]].frame, q[1..]);
    }
  }

  /** Changing one entry of a bottom table changes no walk but the one through that entry. */
  lemma {:induction false} OtherLeavesKept(mem: Mem, mem': Mem, own: Owners, t: Frame, i: nat, f: Frame, q: seq<nat>)
    requires TablesOk(mem, own) && LeafPath(own, f, q)
    requires t in own && own[t].Table? && |own[t].path| == 3 && i < ENTRIES
    requires forall g :: g in own && own[g].Table? && g != t ==> g in mem' && mem'[g] == mem[g]
    requires t in mem' && forall j :: 0 <= j < ENTRIES && j != i ==> mem'[t][j] == mem[t][j]
    requires own[f].pid != own[t].pid || own[f].path + q != own[t].path + [i]
    ensures LeafAt(mem', f, q) == LeafAt(mem, f, q)
    decreases |q|
  {
    LeafPathStep(mem, own, f, q);
    if |q| == 1 {
      assert q == [q[0]];
    } else {
      assert f != t;
      if Present(mem[f][q[0]]) {
        OtherLeavesKept(mem, mem', own, t, i, mem[f][q[0]].frame, q[1..]);
      }
    }
  }

  /** Linking an empty table where no entry was present changes no walk. */
  lemma {:induction false} EmptyTableKeepsLeaves(mem: Mem, mem': Mem, own: Owners, t: Frame, i: nat, w: Word, f: Frame, q: seq<nat>)
    requires TablesOk(mem, own) && LeafPath(own, f, q)
    requires t in own && own[t].Table? && |own[t].path| < 3 && i < ENTRIES
    requires w.frame !in own && !Present(mem[t][i])
    requires forall g :: g in own && own[g].Table? && g != t ==> g in mem' && mem'[g] == mem[g]
    requires t in mem' && mem'[t] == mem[t][i := w] && w.frame in mem' && mem'[w.frame] == ZERO_PAGE
    ensures LeafAt(mem', f, q) == LeafAt(mem, f, q)
    decreases |q|
  {
    LeafPathStep(mem, own, f, q);
    if |q| > 1 && Present(mem[f][q[0]]) {
      assert mem'[f][q[0]] == mem[f][q[0]];
      EmptyTableKeepsLeaves(mem, mem', own, t, i, w, mem[f][q[0]].frame, q[1..]);
    }
  }

  /** Changing only the flags of an upper entry that stays present changes no walk. */
  lemma {:induction false} UpperFlagsKeepLeaves(mem: Mem, mem': Mem, own: Owners, t: Frame, i: nat, f: Frame, q: seq<nat>)
    requires TablesOk(mem, own) && LeafPath(own, f, q)
    requires t in own && own[t].Table? && |own[t].path| < 3 && i < ENTRIES
    requires forall g :: g in own && own[g].Table? && g != t ==> g in mem' && mem'[g] == mem[g]
    requires t in mem' && Present(mem[t][i]) && Present(mem'[t][i]) && mem'[t][i].frame == mem[t][i].frame
    requires forall j :: 0 <= j < ENTRIES && j != i ==> mem'[t][j] == mem[t][j]
    ensures LeafAt(mem', f, q) == LeafAt(mem, f, q)
    decreases |q|
  {
    LeafPathStep(mem, own, f, q);
    if |q| > 1 && Present(mem[f][q[0]]) {
      UpperFlagsKeepLeaves(mem, mem', own, t, i, mem[f][q[0]].frame, q[1..]);
    }
  }

  // ---------------------------------------------------------------- ownership

  /** The table that path q reaches from table f. */
  ghost function TableAt(mem: Mem, f: Frame, q: seq<nat>): Option<Frame>
    decreases |q|
  {
    if q == [] then Some(f)
    else if f !in mem || q[0] >= ENTRIES || !Present(mem[f][q[0]]) then None
    else TableAt(mem, mem[f][q[0]].frame, q[1..])
  }

  /** q leads from table f to a table. */
  ghost predicate TablePath(own: Owners, f: Frame, q: seq<nat>) {
    f in own && own[f].Table? && |own[f].path| + |q| <= 3 && InRange(|own[f].path|, q)
  }

  lemma {:induction false} TablePathStep(mem: Mem, own: Owners, f: Frame, q: seq<nat>)
    requires OwnersInMemory(mem, own) && TablePath(own, f, q) && TableOk(mem, own, f) && q != []
    ensures q[0] < Limit(|own[f].path|) <= ENTRIES
    ensures Present(mem[f][q[0]]) ==> IsTable(own, mem[f][q[0]].frame, own[f].pid, own[f].path + [q[0]])
    ensures Present(mem[f][q[0]]) ==> TablePath(own, mem[f][q[0]].frame, q[1..])
    ensures own[f].path + [q[0]] + q[1..] == own[f].path + q
  {
    assert q[0] < Limit(|own[f].path| + 0);
    forall k | 0 <= k < |q[1..]| ensures q[1..][k] < Limit(|own[f].path| + 1 + k) {
      assert q[1 + k] < Limit(|own[f].path| + (1 + k));
    }
    if Present(mem[f][q[0]]) {
      assert EntryOk(own, f, own[f].pid, own[f].path + [q[0]], mem[f][q[0]]);
    }
  }

  lemma {:induction false} TableIsOwned(mem: Mem, own: Owners, f: Frame, q: seq<nat>)
    requires TablesOk(mem, own) && TablePath(own, f, q) && TableAt(mem, f, q).Some?
    ensures IsTable(own, TableAt(mem, f, q).value, own[f].pid, own[f].path + q)
    decreases |q|
  {
    if q == [] {
      assert own[f].path + q == own[f].path;
    } else {
      TablePathStep(mem, own, f, q);
      TableIsOwned(mem, own, mem[f][q[0]].frame, q[1..]);
    }
  }

  lemma {:induction false} TableDependsOnSubtree(mem: Mem, mem': Mem, own: Owners, f: Frame, q: seq<nat>)
    requires TablePath(own, f, q) && SubtreeOk(mem, own, own[f].pid, own[f].path)
    requires SubtreeSame(mem, mem', own, own[f].pid, own[f].path)
    ensures TableAt(mem', f, q) == TableAt(mem, f, q)
    decreases |q|
  {
    if q != [] {
      TablePathStep(mem, own, f, q);
      if Present(mem[f][q[0]]) {
        TableDependsOnSubtree(mem, mem', own, mem[f][q[0]].frame, q[1..]);
      }
    }
  }

  lemma {:induction false} TableAtSnoc(mem: Mem, f: Frame, q: seq<nat>, i: nat)
    ensures TableAt(mem, f, q + [i]) ==
      match TableAt(mem, f, q)
      case None => None
      case Some(t) => if t in mem && i < ENTRIES && Present(mem[t][i]) then Some(mem[t][i].frame) else None
    decreases |q|
  {
    if q != [] && f in mem && q[0] < ENTRIES && Present(mem[f][q[0]]) {
      TableAtSnoc(mem, mem[f][q[0]].frame, q[1..], i);
      assert (q + [i])[1..] == q[1..] + [i];
    } else if q == [] {
      assert (q + [i])[1..] == [];
    }
  }

  /** The leaf a walk reaches is an entry of the table it reaches one level above. */
  lemma {:induction false} LeafAtSnoc(mem: Mem, f: Frame, q: seq<nat>, i: nat)
    ensures LeafAt(mem, f, q + [i]) ==
      match TableAt(mem, f, q)
      case None => None
      case Some(t) => if t in mem && i < ENTRIES && Present(mem[t][i]) then Some(mem[t][i]) else None
    decreases |q|
  {
    if q != [] && f in mem && q[0] < ENTRIES && Present(mem[f][q[0]]) {
      LeafAtSnoc(mem, mem[f][q[0]].frame, q[1..], i);
      assert (q + [i])[1..] == q[1..] + [i];
    } else if q == [] {
      assert (q + [i])[1..] == [];
    }
  }

  /** Reaching a table does not read that table. */
  lemma {:induction false} TableAtKept(mem: Mem, mem': Mem, own: Owners, t: Frame, f: Frame, q: seq<nat>)
    requires TablesOk(mem, own) && TablePath(own, f, q) && t in own && own[t].Table?
    requires |own[f].path| + |q| <= |own[t].path|
    requires forall g :: g in own && own[g].Table? && g != t ==> g in mem' && mem'[g] == mem[g]
    ensures TableAt(mem', f, q) == TableAt(mem, f, q)
    decreases |q|
  {
    if q != [] {
      TablePathStep(mem, own, f, q);
      assert f != t;
      if Present(mem[f][q[0]]) {
        TableAtKept(mem, mem', own, t, mem[f][q[0]].frame, q[1..]);
      }
    }
  }

  /** A frame behind a writable-in-place mapping is mapped nowhere else in the system. */
  lemma {:induction false} PrivateFrameMappedOnce(mem: Mem, own: Owners, free: multiset<Frame>, spaces: map<Pid, Frame>,
                               pid: Pid, v: seq<nat>, pid': Pid, v': seq<nat>)
    requires Inv(mem, own, free, spaces)
    requires pid in spaces && pid' in spaces && IsVPage(v) && IsVPage(v')
    requires LeafAt(mem, spaces[pid], v).Some? && LeafAt(mem, spaces[pid'], v').Some?
    requires !Cow(LeafAt(mem, spaces[pid], v).value)
    requires LeafAt(mem, spaces[pid], v).value.frame == LeafAt(mem, spaces[pid'], v').value.frame
    ensures pid == pid' && v == v'
  {
    var t := LeafIsOwned(mem, own, spaces[pid], v);
    var t' := LeafIsOwned(mem, own, spaces[pid'], v');
    assert [] + v == v && [] + v' == v';
  }

  /** Distinct spaces, and distinct paths of one space, never meet in a table. */
  lemma {:induction false} TablesAreTrees(mem: Mem, own: Owners, free: multiset<Frame>, spaces: map<Pid, Frame>,
                       pid: Pid, q: seq<nat>, pid': Pid, q': seq<nat>)
    requires Inv(mem, own, free, spaces)
    requires pid in spaces && pid' in spaces
    requires |q| <= 3 && |q'| <= 3 && InRange(0, q) && InRange(0, q')
    requires TableAt(mem, spaces[pid], q).Some?
    requires TableAt(mem, spaces[pid'], q') == TableAt(mem, spaces[pid], q)
    ensures pid == pid' && q == q'
  {
    TableIsOwned(mem, own, spaces[pid], q);
    TableIsOwned(mem, own, spaces[pid'], q');
    assert [] + q == q && [] + q' == q';
  }

  /** Nothing a live space can reach, table or page, is on the free list, and no page is a table. */
  lemma {:induction false} ReachableIsNotFree(mem: Mem, own: Owners, free: multiset<Frame>, spaces: map<Pid, Frame>,
                           pid: Pid, v: seq<nat>, pid': Pid, q: seq<nat>)
    requires Inv(mem, own, free, spaces)
    requires pid in spaces && pid' in spaces && IsVPage(v) && |q| <= 3 && InRange(0, q)
    requires LeafAt(mem, spaces[pid], v).Some? && TableAt(mem, spaces[pid'], q).Some?
    ensures LeafAt(mem, spaces[pid], v).value.frame !in free
    ensures TableAt(mem, spaces[pid'], q).value !in free
    ensures LeafAt(mem, spaces[pid], v).value.frame != TableAt(mem, spaces[pid'], q).value
  {
    var t := LeafIsOwned(mem, own, spaces[pid], v);
    TableIsOwned(mem, own, spaces[pid'], q);
    assert |[] + v| == 4;
  }

  /** A store to page v has to copy it first: its entry is shared and not writable. */
  predicate NeedsCopy(mem: Mem, root: Frame, v: seq<nat>)
    requires |v| > 0
  {
    var l := LeafAt(mem, root, v); l.Some? && Cow(l.value) && !Writable(l.value)
  }

  // ---------------------------------------------------------------- what a process sees

  /** One page as its process sees it: what it reads, and whether a store goes through. */
  datatype PageView = PageView(data: Page, writable: bool)
  type Space = imap<seq<nat>, PageView>

  ghost function EntryView(mem: Mem, w: Word): PageView
    requires w.frame in mem
  {
    PageView(mem[w.frame], Writable(w) || Cow(w))
  }

  ghost predicate Mapped(mem: Mem, root: Frame, v: seq<nat>) {
    IsVPage(v) && LeafAt(mem, root, v).Some? && LeafAt(mem, root, v).value.frame in mem
  }

  ghost function SpaceView(mem: Mem, root: Frame): Space {
    imap v | Mapped(mem, root, v) :: EntryView(mem, LeafAt(mem, root, v).value)
  }

  ghost function View(mem: Mem, spaces: map<Pid, Frame>): map<Pid, Space> {
    map pid | pid in spaces :: SpaceView(mem, spaces[pid])
  }

  /** Eager fork: the child gets a copy of every page. Both copies come out writable, because
      fork resets the flags of every leaf to copy-on-write. */
  ghost function EagerCopy(s: Space): Space {
    imap v | v in s :: PageView(s[v].data, true)
  }
}
