/** Address spaces over shared physical memory: building, mapping, copy-on-write fork,
    page faults and teardown, proved against the eager model in which fork copies every page. */
module AddressSpaces {
  import opened Basics
  import opened PageTables
  import opened AddressViews
  import opened ForkSharing
  import opened Teardown
  import opened FrameCounts

  /** How an operation ended. Panic is the allocator running dry: the kernel stops there. */
  datatype Outcome = Done | Killed | Panic

  class Mmu {
    var mem: Mem
    var free: multiset<Frame>
    var spaces: map<Pid, Frame>
    const kernelEntry: Word
    ghost var own: Owners

    ghost predicate Valid() reads this { Inv(mem, own, free, spaces) }

    /** All frames free, no address space yet. */
    constructor (frames: set<Frame>, kernel: Word)
      ensures Valid() && spaces == map[] && View(mem, spaces) == map[]
      ensures free == multiset(frames) && own == map[] && Within(own, spaces, map[])
      ensures kernelEntry == kernel
    {
      mem := map f | f in frames :: ZERO_PAGE;
      free := multiset(frames);
      spaces := map[];
      kernelEntry := kernel;
      own := map[];
    }

    method PageAlloc() returns (ok: bool, f: Frame)
      modifies this`free
      ensures ok <==> old(free) != multiset{}
      ensures ok ==> f in old(free) && free == old(free) - multiset{f}
      ensures !ok ==> free == old(free)
    {
      f := 0;
      ok := free != multiset{};
      if ok {
        SomeFrame(free);
        f :| f in free;
        free := free - multiset{f};
      }
    }

    method PageFree(f: Frame)
      modifies this`free
      ensures free == old(free) + multiset{f}
    {
      free := free + multiset{f};
    }

    /** A fresh zeroed table frame, as an entry word. */
    method AllocEntry() returns (ok: bool, w: Word)
      requires Valid()
      modifies this`free, this`mem
      ensures ok <==> old(free) != multiset{}
      ensures !ok ==> free == old(free) && mem == old(mem)
      ensures ok ==> w.flags == MM_PRESENT | MM_READWRITE
      ensures ok ==> w.frame in old(free) && free == old(free) - multiset{w.frame}
      ensures ok ==> mem == old(mem)[w.frame := ZERO_PAGE]
      ensures ok ==> Valid() && w.frame !in own && w.frame !in free && w.frame in mem
      ensures ok ==> LeavesKept(old(mem), own, mem)
    {
      var f;
      ok, f := PageAlloc();
      w := Word(f, MM_PRESENT | MM_READWRITE);
      if ok {
        SetDataOk(mem, own, f, ZERO_PAGE);
        mem := mem[f := ZERO_PAGE];
        forall g, q | LeafPath(own, g, q) ensures LeafAt(mem, g, q) == LeafAt(old(mem), g, q) {
          LeafDependsOnSubtree(old(mem), mem, own, g, q);
        }
      }
    }

    /** Point entry i of table t at the empty table that w names. */
    method LinkTable(t: Frame, i: nat, w: Word, ghost pid: Pid, ghost path: seq<nat>)
      requires Valid() && IsTable(own, t, pid, path) && |path| < 3 && i < Limit(|path|)
      requires !Present(mem[t][i]) && Present(w) && User(w) && Writable(w) && !Large(w)
      requires w.frame in mem && w.frame !in own && w.frame !in free && mem[w.frame] == ZERO_PAGE
      modifies this`mem, this`own
      ensures mem == old(mem)[t := old(mem)[t][i := w]] && own == old(own)[w.frame := Table(pid, path + [i], t)]
      ensures Valid() && LeavesKept(old(mem), old(own), mem)
    {
      NewOwnerOk(mem, own, w.frame, Table(pid, path + [i], t));
      own := own[w.frame := Table(pid, path + [i], t)];
      SetEntryOk(mem, own, t, i, w);
      mem := mem[t := mem[t][i := w]];
      forall f, q | LeafPath(old(own), f, q) ensures LeafAt(mem, f, q) == LeafAt(old(mem), f, q) {
        EmptyTableKeepsLeaves(old(mem), mem, old(own), t, i, w, f, q);
      }
    }

    method AddFlags(t: Frame, i: nat, flags: bv12, ghost pid: Pid, ghost path: seq<nat>)
      requires Valid() && IsTable(own, t, pid, path) && |path| < 3 && i < Limit(|path|)
      requires Present(mem[t][i]) && flags & MM_2MB == 0
      modifies this`mem
      ensures mem == old(mem)[t := old(mem)[t][i := Word(old(mem)[t][i].frame, old(mem)[t][i].flags | flags)]]
      ensures Valid() && LeavesKept(old(mem), own, mem) && Present(mem[t][i])
    {
      var w := Word(mem[t][i].frame, mem[t][i].flags | flags);
      assert EntryOk(own, t, pid, path + [i], mem[t][i]);
      FlagsKeepEntry(own, t, pid, path + [i], mem[t][i], flags);
      SetEntryOk(mem, own, t, i, w);
      mem := mem[t := mem[t][i := w]];
      forall f, q | LeafPath(own, f, q) ensures LeafAt(mem, f, q) == LeafAt(old(mem), f, q) {
        UpperFlagsKeepLeaves(old(mem), mem, own, t, i, f, q);
      }
    }

    /** One level of a mapping: make sure table t has a table behind entry i, and add the flags. */
    method EnsureTable(t: Frame, i: nat, flags: bv12, ghost pid: Pid, ghost path: seq<nat>) returns (ok: bool, child: Frame)
      requires Valid() && IsTable(own, t, pid, path) && |path| < 3 && i < Limit(|path|)
      requires flags & MM_USER != 0 && flags & MM_2MB == 0
      modifies this`free, this`mem, this`own
      ensures !ok ==> old(free) == free == multiset{}
      ensures ok ==> Spent(old(own), old(free), own, free, pid, 1)
      ensures ok ==> Valid() && IsTable(own, child, pid, path + [i])
      ensures ok ==> t in mem && Present(mem[t][i]) && mem[t][i].frame == child
      ensures ok ==> OwnedKept(old(mem), old(own), mem, own) && LeavesKept(old(mem), old(own), mem)
      ensures ok ==> forall g :: g in old(own) && g != t ==> mem[g] == old(mem)[g]
      ensures ok ==> forall g :: g in old(mem) && g !in old(own) && g !in old(free) ==> mem[g] == old(mem)[g] && g !in own && g !in free
    {
      child := 0;
      ok := true;
      if !Present(mem[t][i]) {
        var w;
        ok, w := AddTable(t, i, flags, pid, path);
        if !ok { return; }
      } else {
        assert EntryOk(own, t, pid, path + [i], mem[t][i]);
        AddFlags(t, i, flags, pid, path);
      }
      child := mem[t][i].frame;
    }

    /** Map page v of a space to frame paddr, which the caller holds and nobody else owns. */
    method MapPage(root: Frame, paddr: Frame, v: seq<nat>, flags: bv12, ghost pid: Pid) returns (ok: bool)
      requires Valid() && pid in spaces && spaces[pid] == root && IsVPage(v)
      requires paddr in mem && paddr !in own && paddr !in free
      requires UserFlags(flags)
      modifies this`free, this`mem, this`own
      ensures !ok ==> |old(free)| < 3 && free == multiset{}
      ensures ok ==> SpentAround(old(own), old(free), own, free, paddr, pid, 3)
      ensures ok ==> Valid()
      ensures ok ==> LeafAt(mem, root, v) == Some(Word(paddr, flags | MM_PRESENT))
      ensures ok ==> OtherLeavesSame(old(mem), old(own), mem, pid, v)
      ensures ok ==> OwnedKept(old(mem), old(own), mem, own) && mem[paddr] == old(mem)[paddr]
    {
      var w := Word(paddr, flags | MM_PRESENT);
      OrFlags(Word(paddr, flags), MM_PRESENT);
      SplitVPage(v);
      ghost var path := v[..3];
      var pt;
      ok, pt := EnsureTables(root, paddr, v, flags, pid);
      if !ok { return; }
      ghost var mem1, own1 := mem, own;
      SpentThenOwned(old(own), old(free), own, free, paddr, Private(pid, path + [v[3]], pt), 3);
      SetLeaf(pt, v[3], w, pid, path);
      LeafAfterSet(mem1, own1, root, pt, path, v[3], w);
      MappingTouchesOneWalk(old(mem), old(own), mem1, own1, mem, own, pt, v[3], w, pid, v);
    }

    /** The three upper levels of a mapping. */
    method EnsureTables(root: Frame, ghost paddr: Frame, v: seq<nat>, flags: bv12, ghost pid: Pid) returns (ok: bool, t: Frame)
      requires Valid() && pid in spaces && spaces[pid] == root && IsVPage(v)
      requires paddr in mem && paddr !in own && paddr !in free && flags & MM_USER != 0 && flags & MM_2MB == 0
      modifies this`free, this`mem, this`own
      ensures !ok ==> |old(free)| < 3 && free == multiset{}
      ensures ok ==> Spent(old(own), old(free), own, free, pid, 3)
      ensures ok ==> Valid() && IsTable(own, t, pid, v[..3]) && TableAt(mem, root, v[..3]) == Some(t)
      ensures ok ==> OwnedKept(old(mem), old(own), mem, own) && LeavesKept(old(mem), old(own), mem)
      ensures ok ==> mem[paddr] == old(mem)[paddr] && paddr !in own && paddr !in free
    {
      t := root;
      ok := true;
      assert v[..0] == [];
      SpentNothing(own, free, pid);
      for k := 0 to 3
        invariant Spent(old(own), old(free), own, free, pid, k)
        invariant Valid() && IsTable(own, t, pid, v[..k]) && TableAt(mem, root, v[..k]) == Some(t)
        invariant OwnedKept(old(mem), old(own), mem, own) && LeavesKept(old(mem), old(own), mem)
        invariant mem[paddr] == old(mem)[paddr] && paddr !in own && paddr !in free
      {
        assert v[k] < Limit(0 + k);
        assert v[..k + 1] == v[..k] + [v[k]];
        ghost var mem0, own0, free0, t0 := mem, own, free, t;
        ok, t := EnsureTable(t, v[k], flags, pid, v[..k]);
        if !ok { return; }
        SpentTwice(old(own), old(free), own0, free0, own, free, pid, k, 1);
        TableAtKept(mem0, mem, own0, t0, root, v[..k]);
        TableAtSnoc(mem, root, v[..k], v[k]);
        KeptTrans(old(mem), old(own), mem0, own0, mem, own);
      }
    }

    /** Write the entry of a private page into a bottom table. */
    method SetLeaf(t: Frame, i: nat, w: Word, ghost pid: Pid, ghost path: seq<nat>)
      requires Valid() && IsTable(own, t, pid, path) && |path| == 3 && i < ENTRIES
      requires Present(w) && User(w) && !Cow(w)
      requires w.frame in mem && w.frame !in own && w.frame !in free
      modifies this`mem, this`own
      ensures mem == old(mem)[t := old(mem)[t][i := w]] && own == old(own)[w.frame := Private(pid, path + [i], t)]
      ensures Valid()
      ensures OtherLeavesSame(old(mem), old(own), mem, pid, path + [i])
    {
      NewOwnerOk(mem, own, w.frame, Private(pid, path + [i], t));
      own := own[w.frame := Private(pid, path + [i], t)];
      SetEntryOk(mem, own, t, i, w);
      mem := mem[t := mem[t][i := w]];
      forall f, q | LeafPath(old(own), f, q) && (old(own)[f].pid != pid || old(own)[f].path + q != path + [i])
        ensures LeafAt(mem, f, q) == LeafAt(old(mem), f, q)
      {
        OtherLeavesKept(old(mem), mem, old(own), t, i, f, q);
      }
    }

    method RootTable(page: Page) returns (table: Page)
      ensures forall i :: 0 <= i < 511 ==> table[i] == ZERO_WORD
      ensures table[511] == kernelEntry
    {
      table := page;
      for i := 0 to USER_ROOT_ENTRIES
        invariant forall j :: 0 <= j < i ==> table[j] == ZERO_WORD
      {
        table := table[i := ZERO_WORD];
      }
      table := table[USER_ROOT_ENTRIES := kernelEntry];
    }

    /** A new root: user slots cleared, the last one shared with the kernel. */
    method BuildDir(pid: Pid) returns (ok: bool)
      requires Valid() && pid !in spaces
      modifies this
      ensures ok <==> old(free) != multiset{}
      ensures !ok ==> free == multiset{}
      ensures ok ==> Spent(old(own), old(free), own, free, pid, 1)
      ensures ok ==> forall p, q :: p != pid ==> Below(own, p, q) == Below(old(own), p, q)
      ensures ok ==> Valid() && pid in spaces && spaces == old(spaces)[pid := spaces[pid]]
      ensures ok ==> View(mem, spaces) == old(View(mem, spaces))[pid := imap[]]
      ensures ok ==> forall i :: 0 <= i < 511 ==> !Present(mem[spaces[pid]][i])
      ensures ok ==> mem[spaces[pid]][511] == kernelEntry
    {
      var f;
      ok, f := PageAlloc();
      if !ok { return; }
      var table := RootTable(mem[f]);
      mem := mem[f := table];
      own := own[f := Table(pid, [], f)];
      spaces := spaces[pid := f];
      NewRootOk(old(mem), old(own), old(free), old(spaces), f, table, pid);
      SpentOne(old(own), old(free), f, Table(pid, [], f));
    }

    /** A fault on page v of a space: copy a shared page, or give up. */
    method PageFault(pid: Pid, v: seq<nat>) returns (out: Outcome)
      requires Valid() && pid in spaces && IsVPage(v)
      modifies this`free, this`mem, this`own
      ensures out.Panic? <==> NeedsCopy(old(mem), spaces[pid], v) && old(free) == multiset{}
      ensures forall p :: Tables(own, p) == Tables(old(own), p)
      ensures out.Panic? ==> mem == old(mem) && own == old(own) && free == old(free)
      ensures out.Done? ==> Spent(old(own), old(free), own, free, pid, 1) && |free| == |old(free)| - 1
      ensures out.Done? ==> Valid() && View(mem, spaces) == old(View(mem, spaces))
      ensures out.Done? ==> LeafAt(mem, spaces[pid], v).Some? && Writable(LeafAt(mem, spaces[pid], v).value)
      ensures out.Killed? ==> mem == old(mem) && own == old(own) && free == old(free)
      ensures out.Killed? <==> !NeedsCopy(old(mem), spaces[pid], v)
    {
      var root := spaces[pid];
      SplitVPage(v);
      ghost var path := v[..3];
      var found, t := Walk(root, v);
      LeafAtSnoc(mem, root, path, v[3]);
      if !found { return Killed; }
      TableIsOwned(mem, own, root, path);
      assert [] + path == path;
      var e := mem[t][v[3]];
      if !(Present(e) && Cow(e) && !Writable(e)) { return Killed; }
      assert EntryOk(own, t, pid, path + [v[3]], e);
      out := CopyPage(t, v[3], e, pid, path);
    }

    /** The copy-on-write branch: a private writable copy replaces the shared page. */
    method CopyPage(t: Frame, i: nat, e: Word, ghost pid: Pid, ghost path: seq<nat>) returns (out: Outcome)
      requires Valid() && pid in spaces && IsTable(own, t, pid, path) && |path| == 3 && InRange(0, path)
      requires TableAt(mem, spaces[pid], path) == Some(t)
      requires i < ENTRIES && mem[t][i] == e && Present(e) && Cow(e) && e.frame in mem
      modifies this`free, this`mem, this`own
      ensures out == if old(free) == multiset{} then Panic else Done
      ensures forall p :: Tables(own, p) == Tables(old(own), p)
      ensures out.Panic? ==> mem == old(mem) && own == old(own) && free == old(free)
      ensures out.Done? ==> Spent(old(own), old(free), own, free, pid, 1) && |free| == |old(free)| - 1
      ensures out.Done? ==> Valid() && View(mem, spaces) == old(View(mem, spaces))
      ensures out.Done? ==> LeafAt(mem, spaces[pid], path + [i]).Some? && Writable(LeafAt(mem, spaces[pid], path + [i]).value)
    {
      var ok, copy := PageAlloc();
      if !ok { return Panic; }
      var w := Word(copy, MM_PRESENT | MM_USER | MM_READWRITE);
      CopyKeepsView(mem, own, spaces, spaces[pid], t, path, i, e, w, pid);
      SpentOne(old(own), old(free), copy, Private(pid, path + [i], t));
      SamePrivate(old(own), copy, Private(pid, path + [i], t));
      SetDataOk(mem, own, copy, mem[e.frame]);
      mem := mem[copy := mem[e.frame]];
      SetLeaf(t, i, w, pid, path);
      out := Done;
    }

    /** The walk of the fault handler: the bottom table of page v, if the upper entries are present. */
    method Walk(root: Frame, v: seq<nat>) returns (found: bool, t: Frame)
      requires Valid() && IsVPage(v) && root in own && own[root].Table? && own[root].path == []
      ensures found ==> TableAt(mem, root, v[..3]) == Some(t)
      ensures !found ==> TableAt(mem, root, v[..3]) == None
    {
      t := root;
      found := true;
      assert v[..0] == [];
      for k := 0 to 3
        invariant found ==> TableAt(mem, root, v[..k]) == Some(t) && t in mem
        invariant !found ==> TableAt(mem, root, v[..k]) == None
      {
        assert v[..k + 1] == v[..k] + [v[k]];
        assert v[k] < Limit(0 + k);
        TableAtSnoc(mem, root, v[..k], v[k]);
        if found {
          assert InRange(0, v[..k + 1]);
          if Present(mem[t][v[k]]) {
            t := mem[t][v[k]].frame;
            TableIsOwned(mem, own, root, v[..k + 1]);
          } else {
            found := false;
          }
        }
      }
    }

    /** A user load of word off in page v: the hardware walk, then the frame. */
    method Load(pid: Pid, v: seq<nat>, off: nat) returns (r: Option<Word>)
      requires Valid() && pid in spaces && IsVPage(v) && off < ENTRIES
      ensures var s := View(mem, spaces)[pid];
        r == if v in s then Some(s[v].data[off]) else None
    {
      var e := HwLeaf(mem, spaces[pid], v, false);
      HwLeafAgrees(mem, own, spaces[pid], v, false);
      if e.None? { return None; }
      ghost var t := LeafIsOwned(mem, own, spaces[pid], v);
      r := Some(mem[e.value.frame][off]);
    }

    /** A user store: when the hardware refuses it, the fault handler runs and the store is retried. */
    method Store(pid: Pid, v: seq<nat>, off: nat, word: Word) returns (out: Outcome)
      requires Valid() && pid in spaces && IsVPage(v) && off < ENTRIES
      modifies this`free, this`mem, this`own
      ensures out.Panic? <==> NeedsCopy(old(mem), spaces[pid], v) && old(free) == multiset{}
      ensures out.Panic? ==> free == old(free)
      ensures forall p :: Tables(own, p) == Tables(old(own), p)
      ensures !out.Panic? ==> Spent(old(own), old(free), own, free, pid, 1)
      ensures |free| == |old(free)| - if NeedsCopy(old(mem), spaces[pid], v) && out.Done? then 1 else 0
      ensures !out.Panic? ==> Valid()
      ensures out.Done? ==> StoreAllowed(old(View(mem, spaces)), pid, v)
      ensures out.Done? ==> View(mem, spaces) == EagerStore(old(View(mem, spaces)), pid, v, off, word)
      ensures out.Killed? ==> !StoreAllowed(old(View(mem, spaces)), pid, v) && View(mem, spaces) == old(View(mem, spaces))
    {
      var e := HwLeaf(mem, spaces[pid], v, true);
      HwLeafAgrees(mem, own, spaces[pid], v, true);
      if e.None? {
        out := PageFault(pid, v);
        if !out.Done? {
          if out.Killed? { KilledHasNoWritablePage(mem, own, spaces, pid, v); }
          return;
        }
        e := HwLeaf(mem, spaces[pid], v, true);
        HwLeafAgrees(mem, own, spaces[pid], v, true);
      }
      var g := e.value.frame;
      ViewAfterStore(mem, own, free, spaces, pid, v, e.value, off, word);
      mem := mem[g := mem[g][off := word]];
      out := Done;
    }

    /** The innermost loop of fork: every page of a bottom table becomes shared. */
    method ShareLeaves(src: Frame, dst: Frame, ghost parent: Pid, ghost child: Pid, ghost path: seq<nat>)
      requires Valid() && parent != child && |path| == 3
      requires IsTable(own, src, parent, path) && IsTable(own, dst, child, path)
      requires forall j :: 0 <= j < ENTRIES ==> !Present(mem[dst][j])
      modifies this`mem, this`own
      ensures Valid() && ForkFrame(old(mem), old(own), mem, own, parent, child, path, dst)
      ensures ForkedBelow(old(mem), mem, src, dst, 3, ENTRIES)
    {
      for i := 0 to ENTRIES
        invariant Valid() && ForkFrame(old(mem), old(own), mem, own, parent, child, path, dst)
        invariant IsTable(own, src, parent, path) && IsTable(own, dst, child, path)
        invariant SharedUpTo(old(mem)[src], mem[src], mem[dst], i)
      {
        if Present(mem[src][i]) {
          ghost var memA, ownA := mem, own;
          ShareLeaf(src, dst, i, parent, child, path);
          ForkFrameTrans(old(mem), old(own), memA, ownA, mem, own, parent, child, path, dst, path, dst);
        }
      }
      SharedEntriesAreForked(old(mem), mem, src, dst);
    }

    method ShareLeaf(src: Frame, dst: Frame, i: nat, ghost parent: Pid, ghost child: Pid, ghost path: seq<nat>)
      requires Valid() && parent != child && |path| == 3 && i < ENTRIES
      requires IsTable(own, src, parent, path) && IsTable(own, dst, child, path) && Present(mem[src][i])
      modifies this`mem, this`own
      ensures Valid() && ForkFrame(old(mem), old(own), mem, own, parent, child, path, dst)
      ensures IsTable(own, src, parent, path) && IsTable(own, dst, child, path)
      ensures var w := Word(old(mem)[src][i].frame, SHARED_FLAGS);
        mem[src] == old(mem)[src][i := w] && mem[dst] == old(mem)[dst][i := w]
    {
      var w := Word(mem[src][i].frame, SHARED_FLAGS);
      ShareEntryOk(mem, own, src, dst, i);
      ShareFrame(mem, own, src, dst, i, w, parent, child, path);
      mem := mem[src := mem[src][i := w]];
      mem := mem[dst := mem[dst][i := w]];
      own := own[w.frame := Shared];
    }

    /** Fork at one level: give dst a table for every table of src, and share what lies below. */
    method CopyTable(src: Frame, dst: Frame, depth: nat, ghost parent: Pid, ghost child: Pid, ghost path: seq<nat>) returns (ok: bool)
      requires Valid() && parent != child && depth == |path| <= 3
      requires IsTable(own, src, parent, path) && IsTable(own, dst, child, path)
      requires forall j :: 0 <= j < Limit(depth) ==> !Present(mem[dst][j])
      modifies this`mem, this`own, this`free
      ensures !ok ==> |old(free)| < |Below(old(own), parent, path)| && free == multiset{}
      ensures ok ==> Spent(old(own), old(free), own, free, child, |Below(old(own), parent, path)|)
      ensures ok ==> Valid() && ForkFrame(old(mem), old(own), mem, own, parent, child, path, dst)
      ensures ok ==> ForkedBelow(old(mem), mem, src, dst, depth, ENTRIES)
      decreases 3 - depth, 2
    {
      ok := true;
      if depth == 3 {
        CopyBottom(src, dst, parent, child, path);
        return;
      }
      CopyStart(mem, own, free, src, dst, parent, child, path);
      for i := 0 to Limit(depth)
        invariant Valid() && Copying(old(mem), old(own), old(free), mem, own, free, src, dst, parent, child, path, i)
        invariant forall j :: i <= j < Limit(depth) ==> !Present(mem[dst][j])
      {
        ok := CopyNext(src, dst, i, depth, old(mem), old(own), old(free), parent, child, path);
        if !ok { return; }
      }
      CopyDone(old(mem), old(own), old(free), mem, own, free, src, dst, parent, child, path);
    }

    /** The same for a bottom table, which takes no frame. */
    method CopyBottom(src: Frame, dst: Frame, ghost parent: Pid, ghost child: Pid, ghost path: seq<nat>)
      requires Valid() && parent != child && |path| == 3
      requires IsTable(own, src, parent, path) && IsTable(own, dst, child, path)
      requires forall j :: 0 <= j < ENTRIES ==> !Present(mem[dst][j])
      modifies this`mem, this`own
      ensures Spent(old(own), free, own, free, child, |Below(old(own), parent, path)|)
      ensures Valid() && ForkFrame(old(mem), old(own), mem, own, parent, child, path, dst)
      ensures ForkedBelow(old(mem), mem, src, dst, 3, ENTRIES)
    {
      ShareLeaves(src, dst, parent, child, path);
      SharingIsFree(old(mem), old(own), mem, own, free, parent, child, path, dst);
      SpentMore(old(own), free, own, free, child, 0, |Below(old(own), parent, path)|);
    }

    /** Entry i of a table that is being copied, present or not. */
    method CopyNext(src: Frame, dst: Frame, i: nat, depth: nat, ghost mem0: Mem, ghost own0: Owners, ghost free0: multiset<Frame>,
                    ghost parent: Pid, ghost child: Pid, ghost path: seq<nat>) returns (ok: bool)
      requires Valid() && parent != child && depth == |path| < 3 && i < Limit(depth)
      requires Copying(mem0, own0, free0, mem, own, free, src, dst, parent, child, path, i) && !Present(mem[dst][i])
      modifies this`mem, this`own, this`free
      ensures !ok ==> |free0| < |Below(own0, parent, path)| && free == multiset{}
      ensures ok ==> Valid() && Copying(mem0, own0, free0, mem, own, free, src, dst, parent, child, path, i + 1)
      ensures ok ==> forall j :: 0 <= j < ENTRIES && j != i ==> mem[dst][j] == old(mem)[dst][j]
      decreases 3 - depth, 1
    {
      ok := true;
      if !Present(mem[src][i]) {
        ForkSkip(mem0, mem, src, dst, depth, i);
        CopySkips(own0, free0, own, free, parent, child, path, i);
        return;
      }
      ghost var c := mem[src][i].frame;
      assert EntryOk(own, src, parent, path + [i], mem[src][i]);
      ok := CopyEntry(src, dst, i, depth, mem0, parent, child, path);
      if !ok {
        CopyRunsOut(mem0, own0, free0, old(mem), old(own), old(free), parent, child, path, dst, i, c);
        return;
      }
      CopyStep(mem0, own0, free0, old(mem), old(own), old(free), own, free, parent, child, path, dst, i, c);
      ForkFrameTrans(mem0, own0, old(mem), old(own), mem, own, parent, child, path, dst, path, dst);
    }

    /** A fresh empty table behind an entry. */
    method AddTable(dst: Frame, i: nat, flags: bv12, ghost child: Pid, ghost path: seq<nat>) returns (ok: bool, w: Word)
      requires flags & MM_USER != 0 && flags & MM_2MB == 0
      requires Valid() && IsTable(own, dst, child, path) && |path| < 3 && i < Limit(|path|) && !Present(mem[dst][i])
      modifies this`mem, this`own, this`free
      ensures ok <==> old(free) != multiset{}
      ensures !ok ==> free == old(free)
      ensures ok ==> Valid() && w.frame in old(free) && w.frame !in old(own) && free == old(free) - multiset{w.frame}
      ensures ok ==> Present(w) && User(w) && Writable(w) && !Large(w)
      ensures ok ==> mem == old(mem)[w.frame := ZERO_PAGE][dst := old(mem)[dst][i := w]]
      ensures ok ==> own == old(own)[w.frame := Table(child, path + [i], dst)]
      ensures ok ==> LeavesKept(old(mem), old(own), mem)
      ensures ok ==> Spent(old(own), old(free), own, free, child, 1)
    {
      ok, w := AllocEntry();
      if !ok { return; }
      OrFlags(w, flags);
      SpentOne(old(own), old(free), w.frame, Table(child, path + [i], dst));
      w := Word(w.frame, w.flags | flags);
      LinkTable(dst, i, w, child, path);
    }

    /** Fork at one present entry of an upper table. */
    method CopyEntry(src: Frame, dst: Frame, i: nat, depth: nat, ghost mem0: Mem,
                     ghost parent: Pid, ghost child: Pid, ghost path: seq<nat>) returns (ok: bool)
      requires Valid() && parent != child && depth == |path| < 3
      requires IsTable(own, src, parent, path) && IsTable(own, dst, child, path)
      requires ForkedBelow(mem0, mem, src, dst, depth, i)
      requires i < Limit(depth) && Present(mem[src][i]) && !Present(mem[dst][i])
      modifies this`mem, this`own, this`free
      ensures !ok ==> |old(free)| < 1 + |Below(old(own), parent, path + [i])| && free == multiset{}
      ensures ok ==> Spent(old(own), old(free), own, free, child, 1 + |Below(old(own), parent, path + [i])|)
      ensures ok ==> Valid() && ForkFrame(old(mem), old(own), mem, own, parent, child, path, dst)
      ensures ok ==> ForkedBelow(mem0, mem, src, dst, depth, i + 1)
      ensures ok ==> mem[src] == old(mem)[src] && forall j :: 0 <= j < ENTRIES && j != i ==> mem[dst][j] == old(mem)[dst][j]
      decreases 3 - depth, 0
    {
      var w;
      ok, w := Prepare(src, dst, i, parent, child, path);
      if !ok { return; }
      ghost var memB, ownB := mem, own;
      ok := CopyTable(mem[src][i].frame, w.frame, depth + 1, parent, child, path + [i]);
      if !ok { return; }
      EntryCopied(mem0, old(mem), old(own), old(free), memB, ownB, mem, own, free, src, dst, parent, child, path, i, w);
      EntryRest(old(mem), old(own), memB, ownB, mem, own, src, dst, parent, child, path, i, w);
    }

    /** Give the child a table where the parent has one. */
    method Prepare(src: Frame, dst: Frame, i: nat, ghost parent: Pid, ghost child: Pid, ghost path: seq<nat>) returns (ok: bool, w: Word)
      requires Valid() && parent != child && |path| < 3 && i < Limit(|path|)
      requires IsTable(own, src, parent, path) && IsTable(own, dst, child, path) && Present(mem[src][i]) && !Present(mem[dst][i])
      modifies this`mem, this`own, this`free
      ensures ok <==> old(free) != multiset{}
      ensures !ok ==> free == old(free)
      ensures ok ==> Valid() && Present(w) && w.frame in old(free) && w.frame !in old(own) && free == old(free) - multiset{w.frame}
      ensures ok ==> mem == old(mem)[w.frame := ZERO_PAGE][dst := old(mem)[dst][i := w]]
      ensures ok ==> own == old(own)[w.frame := Table(child, path + [i], dst)]
      ensures ok ==> src in mem && mem[src] == old(mem)[src] && IsTable(own, mem[src][i].frame, parent, path + [i])
      ensures ok ==> w.frame in mem && IsTable(own, w.frame, child, path + [i]) && forall j :: 0 <= j < ENTRIES ==> !Present(mem[w.frame][j])
      ensures ok ==> Below(own, parent, path + [i]) == Below(old(own), parent, path + [i])
    {
      assert EntryOk(own, src, parent, path + [i], mem[src][i]);
      assert (MM_PRESENT | MM_USER) & MM_USER != 0 && (MM_PRESENT | MM_USER) & MM_2MB == 0;
      ok, w := AddTable(dst, i, MM_PRESENT | MM_USER, child, path);
      if ok { BelowOther(old(own), w.frame, Table(child, path + [i], dst), parent, path + [i]); }
    }

    /** Fork: a new root for the child, then the whole tree. */
    method DuplicateDir(parent: Pid, child: Pid) returns (ok: bool)
      requires Valid() && parent in spaces && child !in spaces
      modifies this
      ensures !ok ==> |old(free)| < |Tables(old(own), parent)| && free == multiset{}
      ensures ok ==> Spent(old(own), old(free), own, free, child, |Tables(old(own), parent)|)
      ensures ok ==> Valid() && child in spaces && spaces == old(spaces)[child := spaces[child]]
      ensures ok ==> View(mem, spaces) == EagerFork(old(View(mem, spaces)), parent, child)
    {
      RootAndBelow(own, parent, spaces[parent]);
      ok := BuildDir(child);
      if !ok { return; }
      ghost var mem1, own1, free1 := mem, own, free;
      ok := CopyTable(spaces[parent], spaces[child], 0, parent, child, []);
      if !ok { return; }
      SpentTwice(old(own), old(free), own1, free1, own, free, child, 1, |Below(own1, parent, [])|);
      SpentMore(old(own), old(free), own, free, child, 1 + |Below(own1, parent, [])|, |Tables(old(own), parent)|);
      ForkView(mem1, own1, mem, own, spaces, parent, child);
      ForkIntoEmpty(old(View(mem, spaces)), parent, child);
    }

    /** Wipe a frame in use and give it back. */
    method Release(f: Frame)
      requires f in own && f in mem && FreeOk(mem, own, free)
      modifies this`mem, this`free, this`own
      ensures mem == old(mem)[f := ZERO_PAGE] && free == old(free) + multiset{f} && own == old(own) - {f}
      ensures FreeOk(mem, own, free)
    {
      mem := mem[f := ZERO_PAGE];
      PageFree(f);
      own := own - {f};
    }

    /** The innermost loop of teardown: free the pages a bottom table does not share. */
    method FreeLeaves(f: Frame, ghost pid: Pid, ghost path: seq<nat>)
      requires FreeOk(mem, own, free) && |path| == 3 && IsTable(own, f, pid, path) && SubtreeOk(mem, own, pid, path)
      modifies this`mem, this`own, this`free
      ensures FreeOk(mem, own, free) && f in own
      ensures Torn(old(mem), old(own), old(free), mem, own, free, pid, path, ENTRIES)
      ensures Released(old(mem), old(own), own, f, ENTRIES)
    {
      for i := 0 to ENTRIES
        invariant FreeOk(mem, own, free) && f in own
        invariant Torn(old(mem), old(own), old(free), mem, own, free, pid, path, i)
        invariant Released(old(mem), old(own), own, f, i)
      {
        FreeLeaf(f, i, old(mem), old(own), old(free), pid, path);
      }
    }

    method FreeLeaf(f: Frame, i: nat, ghost mem0: Mem, ghost own0: Owners, ghost free0: multiset<Frame>,
                    ghost pid: Pid, ghost path: seq<nat>)
      requires FreeOk(mem, own, free) && |path| == 3 && i < ENTRIES && f in own
      requires IsTable(own0, f, pid, path) && SubtreeOk(mem0, own0, pid, path)
      requires Torn(mem0, own0, free0, mem, own, free, pid, path, i) && Released(mem0, own0, own, f, i)
      modifies this`mem, this`own, this`free
      ensures FreeOk(mem, own, free) && f in own
      ensures Torn(mem0, own0, free0, mem, own, free, pid, path, i + 1) && Released(mem0, own0, own, f, i + 1)
    {
      var e := mem[f][i];
      LeafFlags(e);
      assert path <= path && TableOk(mem0, own0, f);
      assert Present(e) ==> EntryOk(own0, f, pid, path + [i], e);
      if e.flags & (MM_PRESENT | MM_USER) == MM_PRESENT | MM_USER && !Cow(e) {
        FreeLeafStep(mem0, own0, free0, mem, own, free, f, pid, path, i, e);
        Release(e.frame);
      } else {
        KeepLeafStep(mem0, own0, own, f, pid, path, i, e);
      }
    }

    /** Teardown of everything below table f. */
    method FreeTable(f: Frame, depth: nat, ghost pid: Pid, ghost path: seq<nat>)
      requires FreeOk(mem, own, free) && depth == |path| <= 3 && IsTable(own, f, pid, path) && SubtreeOk(mem, own, pid, path)
      modifies this`mem, this`own, this`free
      ensures FreeOk(mem, own, free) && f in own
      ensures Torn(old(mem), old(own), old(free), mem, own, free, pid, path, ENTRIES)
      ensures Released(old(mem), old(own), own, f, ENTRIES)
      decreases 3 - depth, 1
    {
      if depth == 3 {
        FreeLeaves(f, pid, path);
        return;
      }
      for i := 0 to Limit(depth)
        invariant FreeOk(mem, own, free) && f in own
        invariant Torn(old(mem), old(own), old(free), mem, own, free, pid, path, i)
        invariant Released(old(mem), old(own), own, f, i)
      {
        if Present(mem[f][i]) {
          FreeEntry(f, i, depth, old(mem), old(own), old(free), pid, path);
        } else {
          SkipReleased(old(mem), old(own), own, f, i);
        }
      }
      ReleasedAll(old(mem), old(own), own, f);
    }

    /** Teardown at one present entry of an upper table: what lies below, then the table itself. */
    method FreeEntry(f: Frame, i: nat, depth: nat, ghost mem0: Mem, ghost own0: Owners, ghost free0: multiset<Frame>,
                     ghost pid: Pid, ghost path: seq<nat>)
      requires FreeOk(mem, own, free) && depth == |path| < 3 && i < Limit(depth) && f in own
      requires IsTable(own0, f, pid, path) && SubtreeOk(mem0, own0, pid, path)
      requires Torn(mem0, own0, free0, mem, own, free, pid, path, i) && Released(mem0, own0, own, f, i)
      requires Present(mem[f][i])
      modifies this`mem, this`own, this`free
      ensures FreeOk(mem, own, free) && f in own
      ensures Torn(mem0, own0, free0, mem, own, free, pid, path, i + 1) && Released(mem0, own0, own, f, i + 1)
      decreases 3 - depth, 0
    {
      var c := mem[f][i].frame;
      assert path <= path && TableOk(mem0, own0, f);
      assert EntryOk(own0, f, pid, path + [i], mem[f][i]);
      SubtreeStands(mem0, own0, free0, mem, own, free, pid, path, i);
      FreeTable(c, depth + 1, pid, path + [i]);
      TornStep(mem0, own0, free0, old(mem), old(own), old(free), mem, own, free, f, c, pid, path, i);
      ReleasedStep(mem0, own0, old(mem), old(own), own, own - {c}, f, c, i);
      Release(c);
    }

    /** Teardown of an address space. */
    method DestroyDir(pid: Pid)
      requires Valid() && pid in spaces
      modifies this
      ensures Valid() && spaces == old(spaces) - {pid}
      ensures View(mem, spaces) == old(View(mem, spaces)) - {pid}
      ensures old(free) <= free && forall p :: p != pid ==> Tables(own, p) == Tables(old(own), p)
      ensures forall g :: g in free && g !in old(free) ==> g in old(own) && !old(own)[g].Shared? && old(own)[g].pid == pid
      ensures forall q :: |q| <= 3 && InRange(0, q) && TableAt(old(mem), old(spaces)[pid], q).Some?
                ==> TableAt(old(mem), old(spaces)[pid], q).value in free
      ensures forall v :: IsVPage(v) && LeafAt(old(mem), old(spaces)[pid], v).Some? && !Cow(LeafAt(old(mem), old(spaces)[pid], v).value)
                ==> LeafAt(old(mem), old(spaces)[pid], v).value.frame in free
    {
      var root := spaces[pid];
      FreeTable(root, 0, pid, []);
      TornDownOk(old(mem), old(own), old(free), spaces, mem, own, free, pid);
      EverythingReturned(old(mem), old(own), old(free), mem, own, free, root, pid);
      OthersKeepView(old(mem), old(own), mem, spaces, pid);
      forall p | p != pid ensures Tables(OthersOwners(own, pid), p) == Tables(old(own), p) {
        TornKeepsTables(old(mem), old(own), old(free), mem, own, free, pid, p);
      }
      PageFree(root);
      own := OthersOwners(own, pid);
      spaces := spaces - {pid};
    }

    /** What the program loader does for one page: take a frame, map it, fill it. */
    method LoadPage(pid: Pid, v: seq<nat>, flags: bv12, data: Page) returns (ok: bool)
      requires Valid() && pid in spaces && IsVPage(v) && UserFlags(flags)
      modifies this`free, this`mem, this`own
      ensures !ok ==> |old(free)| < 4 && free == multiset{}
      ensures ok ==> Spent(old(own), old(free), own, free, pid, 4)
      ensures ok ==> Valid()
      ensures ok ==> View(mem, spaces) == EagerLoad(old(View(mem, spaces)), pid, v, flags, data)
    {
      var f;
      ok, f := PageAlloc();
      if !ok { return; }
      ghost var mem0, own0 := mem, own;
      ok := MapPage(spaces[pid], f, v, flags, pid);
      if !ok { return; }
      var w := Word(f, flags | MM_PRESENT);
      OrFlags(Word(f, flags), MM_PRESENT);
      ghost var t := LeafIsOwned(mem, own, spaces[pid], v);
      assert [] + v == v;
      FillView(mem0, own0, mem, own, spaces, pid, v, w, data);
      SpentWith(old(own), old(free), own, free, f, pid, 3);
      SetDataOk(mem, own, f, data);
      mem := mem[f := data];
    }

    /** One operation of a run; ok is false when the allocator ran dry, and never if there are frames enough for
        the operation. tables bounds the tables of each space. */
    method Step(op: Op, ghost tables: map<Pid, nat>) returns (ok: bool)
      requires Valid()
      modifies this
      ensures !ok ==> free == multiset{}
      ensures ok ==> Valid() && View(mem, spaces) == EagerStep(old(View(mem, spaces)), op)
      ensures old(Within(own, spaces, tables)) && Cost(tables, op) <= |old(free)| ==> ok
      ensures old(Within(own, spaces, tables)) && ok ==>
        Within(own, spaces, After(tables, op)) && |old(free)| <= |free| + Cost(tables, op)
    {
      match op
      case Spawn(pid) => ok := SpawnSpace(pid, tables);
      case MapNew(pid, v, flags, data) => ok := MapUser(pid, v, flags, data, tables);
      case Fork(parent, child) => ok := ForkSpace(parent, child, tables);
      case Write(pid, v, off, word) => ok := WriteUser(pid, v, off, word, tables);
      case Exit(pid) => ok := ExitSpace(pid, tables);
    }

    method SpawnSpace(pid: Pid, ghost tables: map<Pid, nat>) returns (ok: bool)
      requires Valid()
      modifies this
      ensures !ok ==> free == multiset{}
      ensures ok ==> Valid() && View(mem, spaces) == EagerStep(old(View(mem, spaces)), Spawn(pid))
      ensures old(Within(own, spaces, tables)) && Cost(tables, Spawn(pid)) <= |old(free)| ==> ok
      ensures old(Within(own, spaces, tables)) && ok ==>
        Within(own, spaces, After(tables, Spawn(pid))) && |old(free)| <= |free| + Cost(tables, Spawn(pid))
    {
      ok := true;
      if pid in spaces { return; }
      ok := BuildDir(pid);
      if ok && old(Within(own, spaces, tables)) {
        WithinMore(old(own), old(free), own, free, old(spaces), spaces, tables, pid, 1, 1);
      }
    }

    method MapUser(pid: Pid, v: seq<nat>, flags: bv12, data: Page, ghost tables: map<Pid, nat>) returns (ok: bool)
      requires Valid()
      modifies this
      ensures !ok ==> free == multiset{}
      ensures ok ==> Valid() && View(mem, spaces) == EagerStep(old(View(mem, spaces)), MapNew(pid, v, flags, data))
      ensures old(Within(own, spaces, tables)) && Cost(tables, MapNew(pid, v, flags, data)) <= |old(free)| ==> ok
      ensures old(Within(own, spaces, tables)) && ok ==>
        Within(own, spaces, After(tables, MapNew(pid, v, flags, data))) && |old(free)| <= |free| + Cost(tables, MapNew(pid, v, flags, data))
    {
      ok := true;
      if pid !in spaces || !IsVPage(v) || !UserFlags(flags) { return; }
      ok := LoadPage(pid, v, flags, data);
      if ok && old(Within(own, spaces, tables)) {
        WithinMore(old(own), old(free), own, free, spaces, spaces, tables, pid, 4, tables[pid] + 4);
      }
    }

    method ForkSpace(parent: Pid, child: Pid, ghost tables: map<Pid, nat>) returns (ok: bool)
      requires Valid()
      modifies this
      ensures !ok ==> free == multiset{}
      ensures ok ==> Valid() && View(mem, spaces) == EagerStep(old(View(mem, spaces)), Fork(parent, child))
      ensures old(Within(own, spaces, tables)) && Cost(tables, Fork(parent, child)) <= |old(free)| ==> ok
      ensures old(Within(own, spaces, tables)) && ok ==>
        Within(own, spaces, After(tables, Fork(parent, child))) && |old(free)| <= |free| + Cost(tables, Fork(parent, child))
    {
      ok := true;
      if parent !in spaces || child in spaces { return; }
      ok := DuplicateDir(parent, child);
      if ok && old(Within(own, spaces, tables)) {
        WithinMore(old(own), old(free), own, free, old(spaces), spaces, tables, child, |Tables(old(own), parent)|, tables[parent]);
      }
    }

    method WriteUser(pid: Pid, v: seq<nat>, off: nat, word: Word, ghost tables: map<Pid, nat>) returns (ok: bool)
      requires Valid()
      modifies this
      ensures !ok ==> free == multiset{}
      ensures ok ==> Valid() && View(mem, spaces) == EagerStep(old(View(mem, spaces)), Write(pid, v, off, word))
      ensures old(Within(own, spaces, tables)) && Cost(tables, Write(pid, v, off, word)) <= |old(free)| ==> ok
      ensures old(Within(own, spaces, tables)) && ok ==>
        Within(own, spaces, After(tables, Write(pid, v, off, word))) && |old(free)| <= |free| + Cost(tables, Write(pid, v, off, word))
    {
      ok := true;
      if pid !in spaces || !IsVPage(v) || off >= ENTRIES { return; }
      var out := Store(pid, v, off, word);
      ok := !out.Panic?;
      if old(Within(own, spaces, tables)) { WithinSame(old(own), own, spaces, tables); }
    }

    method ExitSpace(pid: Pid, ghost tables: map<Pid, nat>) returns (ok: bool)
      requires Valid()
      modifies this
      ensures !ok ==> free == multiset{}
      ensures ok ==> Valid() && View(mem, spaces) == EagerStep(old(View(mem, spaces)), Exit(pid))
      ensures old(Within(own, spaces, tables)) && Cost(tables, Exit(pid)) <= |old(free)| ==> ok
      ensures old(Within(own, spaces, tables)) && ok ==>
        Within(own, spaces, After(tables, Exit(pid))) && |old(free)| <= |free| + Cost(tables, Exit(pid))
    {
      ok := true;
      if pid in spaces {
        DestroyDir(pid);
        assert free == old(free) + (free - old(free));
      }
    }

    /** Copy-on-write refines eager copying over every run, and a run for which there are frames enough does
        not fail. */
    method Run(ops: seq<Op>, ghost tables: map<Pid, nat>) returns (ok: bool)
      requires Valid()
      modifies this
      ensures !ok ==> free == multiset{}
      ensures ok ==> Valid() && View(mem, spaces) == EagerRun(old(View(mem, spaces)), ops)
      ensures old(Within(own, spaces, tables)) && Need(tables, ops) <= |old(free)| ==> ok
    {
      ok := true;
      ghost var bound := tables;
      ghost var enough := Within(own, spaces, tables) && Need(tables, ops) <= |free|;
      assert ops[0..] == ops;
      for i := 0 to |ops|
        invariant Valid() && View(mem, spaces) == EagerRun(old(View(mem, spaces)), ops[..i])
        invariant enough ==> Within(own, spaces, bound) && Need(bound, ops[i..]) <= |free|
      {
        assert ops[i..][1..] == ops[i + 1..];
        ok := Step(ops[i], bound);
        if !ok { return; }
        bound := After(bound, ops[i]);
        assert ops[..i + 1][..i] == ops[..i];
      }
      assert ops[..|ops|] == ops;
    }
  }
}
