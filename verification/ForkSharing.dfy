/** What copy-on-write fork does to the tables: which frames it may touch, and why the
    two trees it leaves behind lead to the same pages. */
module ForkSharing {
  import opened Basics
  import opened PageTables

  /** The frame condition of copying the subtree at path: shared pages change owner, bottom tables
      of the parent change flags, the new tables belong to the child, and nothing else moves. */
  ghost predicate ForkFrame(mem: Mem, own: Owners, mem': Mem, own': Owners,
                            parent: Pid, child: Pid, path: seq<nat>, dst: Frame) {
    && mem'.Keys == mem.Keys && own.Keys <= mem.Keys && own.Keys <= own'.Keys && own'.Keys <= mem.Keys
    && (forall g :: g in own ==>
          || own'[g] == own[g]
          || (own'[g] == Shared && own[g].Private? && own[g].pid == parent && path <= own[g].path))
    && (forall g :: g in own && g != dst && !IsBottomTable(own[g], parent, path) ==> mem'[g] == mem[g])
    && (forall g :: g in own' && g !in own ==> own'[g].Table? && own'[g].pid == child && path < own'[g].path)
  }

  ghost predicate IsBottomTable(o: Owner, pid: Pid, path: seq<nat>) {
    o.Table? && o.pid == pid && |o.path| == 3 && path <= o.path
  }

  lemma {:induction false} ForkFrameTrans(mem0: Mem, own0: Owners, mem1: Mem, own1: Owners, mem2: Mem, own2: Owners,
                       parent: Pid, child: Pid, path: seq<nat>, dst: Frame, path': seq<nat>, dst': Frame)
    requires ForkFrame(mem0, own0, mem1, own1, parent, child, path, dst)
    requires ForkFrame(mem1, own1, mem2, own2, parent, child, path', dst')
    requires path <= path' && (dst' == dst || dst' !in own0)
    ensures ForkFrame(mem0, own0, mem2, own2, parent, child, path, dst)
  {
  }

  /** The leaf fork leaves where it found o: the same frame, shared. */
  ghost predicate Forked(o: Option<Word>, n: Option<Word>) {
    match o
    case None => n == None
    case Some(w) => n == Some(Word(w.frame, SHARED_FLAGS))
  }

  /** Subtrees of src below index i are shared with dst; from i on they are as before. */
  ghost predicate ForkedBelow(mem: Mem, mem': Mem, src: Frame, dst: Frame, depth: nat, i: nat) {
    forall q :: |q| > 0 && |q| + depth == 4 && InRange(depth, q) ==>
      if q[0] < i
      then Forked(LeafAt(mem, src, q), LeafAt(mem', src, q)) && LeafAt(mem', dst, q) == LeafAt(mem', src, q)
      else LeafAt(mem', src, q) == LeafAt(mem, src, q)
  }

  /** Marking one page shared and entering it in both tables keeps all tables well formed. */
  lemma {:induction false} ShareEntryOk(mem: Mem, own: Owners, src: Frame, dst: Frame, i: nat)
    requires TablesOk(mem, own) && src in own && dst in own && src != dst && own[src].Table? && own[dst].Table?
    requires |own[src].path| == 3 && |own[dst].path| == 3 && i < ENTRIES && Present(mem[src][i])
    ensures mem[src][i].frame in own && (own[mem[src][i].frame] == Shared || own[mem[src][i].frame] == Private(own[src].pid, own[src].path + [i], src))
    ensures var w := Word(mem[src][i].frame, SHARED_FLAGS);
      TablesOk(mem[src := mem[src][i := w]][dst := mem[dst][i := w]], own[w.frame := Shared])
  {
    var w := Word(mem[src][i].frame, SHARED_FLAGS);
    assert EntryOk(own, src, own[src].pid, own[src].path + [i], mem[src][i]);
    var mem': Mem := mem[src := mem[src][i := w]][dst := mem[dst][i := w]];
    var own': Owners := own[w.frame := Shared];
    forall f | f in own' && own'[f].Table? ensures TableOk(mem', own', f) {
      assert TableOk(mem, own, f);
      forall j | 0 <= j < Limit(|own'[f].path|) && Present(mem'[f][j])
        ensures EntryOk(own', f, own'[f].pid, own'[f].path + [j], mem'[f][j])
      {
        if j == i && (f == src || f == dst) {
        } else {
          assert EntryOk(own, f, own[f].pid, own[f].path + [j], mem[f][j]);
          assert (own[f].path + [j])[|own[f].path|] == j;
          assert (own[src].path + [i])[3] == i;
        }
      }
    }
  }

  lemma {:induction false} ForkPrefixes(path: seq<nat>, i: nat, j: nat, p: seq<nat>)
    requires path + [i] <= p && path + [j] <= p
    ensures i == j
  {
    assert p[|path|] == (path + [i])[|path|] == (path + [j])[|path|];
  }

  /** Copying the subtree behind one entry extends the shared part by that entry. */
  lemma {:induction false} ForkStepAt(mem0: Mem, memA: Mem, ownA: Owners, memB: Mem, ownB: Owners, memC: Mem, ownC: Owners,
                   src: Frame, dst: Frame, parent: Pid, child: Pid, path: seq<nat>, i: nat, w: Word, q: seq<nat>)
    requires |path| < 3 && parent != child && TablesOk(memA, ownA)
    requires IsTable(ownA, src, parent, path) && IsTable(ownA, dst, child, path)
    requires ForkedBelow(mem0, memA, src, dst, |path|, i)
    requires i < Limit(|path|) && Present(memA[src][i]) && Present(w) && w.frame in memA && w.frame !in ownA
    requires memB == memA[w.frame := ZERO_PAGE][dst := memA[dst][i := w]]
    requires ownB == ownA[w.frame := Table(child, path + [i], dst)]
    requires ForkFrame(memB, ownB, memC, ownC, parent, child, path + [i], w.frame)
    requires ForkedBelow(memB, memC, memA[src][i].frame, w.frame, |path| + 1, ENTRIES)
    requires |q| > 0 && |q| + |path| == 4 && InRange(|path|, q)
    ensures if q[0] < i + 1
      then Forked(LeafAt(mem0, src, q), LeafAt(memC, src, q)) && LeafAt(memC, dst, q) == LeafAt(memC, src, q)
      else LeafAt(memC, src, q) == LeafAt(mem0, src, q)
  {
    LeafPathStep(memA, ownA, src, q);
    LeafPathStep(memA, ownA, dst, q);
    assert memC[src] == memA[src] && memC[dst] == memB[dst];
    if q[0] == i {
      var c := memA[src][i].frame;
      LeafDependsOnSubtree(memA, memB, ownA, c, q[1..]);
      assert LeafPath(ownA, c, q[1..]) && q[1..][0] < ENTRIES;
    } else {
      if Present(memA[src][q[0]]) {
        UntouchedSubtree(memA, ownA, memB, ownB, memC, ownC, dst, parent, child, path, i, w, memA[src][q[0]].frame, q[0], q[1..]);
      }
      if Present(memA[dst][q[0]]) {
        UntouchedSubtree(memA, ownA, memB, ownB, memC, ownC, dst, parent, child, path, i, w, memA[dst][q[0]].frame, q[0], q[1..]);
      }
    }
  }

  lemma {:induction false} UntouchedSubtree(memA: Mem, ownA: Owners, memB: Mem, ownB: Owners, memC: Mem, ownC: Owners,
                         dst: Frame, parent: Pid, child: Pid, path: seq<nat>, i: nat, w: Word, c: Frame, j: nat, q: seq<nat>)
    requires |path| < 3 && parent != child && TablesOk(memA, ownA) && IsTable(ownA, dst, child, path)
    requires w.frame in memA && w.frame !in ownA && i < ENTRIES && i != j
    requires memB == memA[w.frame := ZERO_PAGE][dst := memA[dst][i := w]]
    requires ownB == ownA[w.frame := Table(child, path + [i], dst)]
    requires ForkFrame(memB, ownB, memC, ownC, parent, child, path + [i], w.frame)
    requires LeafPath(ownA, c, q) && ownA[c].path == path + [j]
    ensures LeafAt(memC, c, q) == LeafAt(memA, c, q)
  {
    forall g | g in ownA && ownA[g].Table? && ownA[g].pid == ownA[c].pid && ownA[c].path <= ownA[g].path
      ensures g in memC && memC[g] == memA[g]
    {
      if path + [i] <= ownA[g].path {
        ForkPrefixes(path, i, j, ownA[g].path);
      }
      assert g != dst;
    }
    LeafDependsOnSubtree(memA, memC, ownA, c, q);
  }

  lemma {:induction false} ForkStep(mem0: Mem, memA: Mem, ownA: Owners, memB: Mem, ownB: Owners, memC: Mem, ownC: Owners,
                 src: Frame, dst: Frame, parent: Pid, child: Pid, path: seq<nat>, i: nat, w: Word)
    requires |path| < 3 && parent != child && TablesOk(memA, ownA)
    requires IsTable(ownA, src, parent, path) && IsTable(ownA, dst, child, path)
    requires ForkedBelow(mem0, memA, src, dst, |path|, i)
    requires i < Limit(|path|) && Present(memA[src][i]) && Present(w) && w.frame in memA && w.frame !in ownA
    requires memB == memA[w.frame := ZERO_PAGE][dst := memA[dst][i := w]]
    requires ownB == ownA[w.frame := Table(child, path + [i], dst)]
    requires ForkFrame(memB, ownB, memC, ownC, parent, child, path + [i], w.frame)
    requires ForkedBelow(memB, memC, memA[src][i].frame, w.frame, |path| + 1, ENTRIES)
    ensures ForkedBelow(mem0, memC, src, dst, |path|, i + 1)
  {
    forall q | |q| > 0 && |q| + |path| == 4 && InRange(|path|, q)
      ensures if q[0] < i + 1
        then Forked(LeafAt(mem0, src, q), LeafAt(memC, src, q)) && LeafAt(memC, dst, q) == LeafAt(memC, src, q)
        else LeafAt(memC, src, q) == LeafAt(mem0, src, q)
    {
      ForkStepAt(mem0, memA, ownA, memB, ownB, memC, ownC, src, dst, parent, child, path, i, w, q);
    }
  }

  /** An entry that is not present has nothing to share. */
  lemma {:induction false} ForkSkip(mem0: Mem, mem: Mem, src: Frame, dst: Frame, depth: nat, i: nat)
    requires ForkedBelow(mem0, mem, src, dst, depth, i) && i < ENTRIES
    requires src in mem0 && src in mem && dst in mem
    requires !Present(mem0[src][i]) && !Present(mem[src][i]) && !Present(mem[dst][i])
    ensures ForkedBelow(mem0, mem, src, dst, depth, i + 1)
  {
  }

  lemma {:induction false} ForkedAll(mem0: Mem, mem: Mem, src: Frame, dst: Frame, depth: nat)
    requires ForkedBelow(mem0, mem, src, dst, depth, Limit(depth))
    ensures ForkedBelow(mem0, mem, src, dst, depth, ENTRIES)
  {
    forall q | |q| > 0 && |q| + depth == 4 && InRange(depth, q) ensures q[0] < Limit(depth) {
      assert q[0] < Limit(depth + 0);
    }
  }

  /** Entry j of two bottom tables after fork, against the entry it found. */
  ghost predicate EntryShared(e: Word, src: Word, dst: Word) {
    if Present(e) then src == dst == Word(e.frame, SHARED_FLAGS) else !Present(src) && !Present(dst)
  }

  ghost predicate SharedUpTo(page: Page, src: Page, dst: Page, i: nat) {
    && (forall j :: 0 <= j < i && j < ENTRIES ==> EntryShared(page[j], src[j], dst[j]))
    && (forall j :: i <= j < ENTRIES ==> src[j] == page[j] && !Present(dst[j]))
  }

  lemma {:induction false} SharedEntriesAreForked(mem0: Mem, mem: Mem, src: Frame, dst: Frame)
    requires src in mem0 && src in mem && dst in mem
    requires SharedUpTo(mem0[src], mem[src], mem[dst], ENTRIES)
    ensures ForkedBelow(mem0, mem, src, dst, 3, ENTRIES)
  {
    forall q | |q| > 0 && |q| + 3 == 4 && InRange(3, q)
      ensures Forked(LeafAt(mem0, src, q), LeafAt(mem, src, q)) && LeafAt(mem, dst, q) == LeafAt(mem, src, q)
      ensures q[0] < ENTRIES
    {
      assert q[0] < Limit(3 + 0);
      assert EntryShared(mem0[src][q[0]], mem[src][q[0]], mem[dst][q[0]]);
    }
  }

  lemma {:induction false} ShareFrame(mem: Mem, own: Owners, src: Frame, dst: Frame, i: nat, w: Word, parent: Pid, child: Pid, path: seq<nat>)
    requires OwnersInMemory(mem, own) && IsTable(own, src, parent, path) && IsTable(own, dst, child, path)
    requires |path| == 3 && i < ENTRIES && w.frame in own && src != dst
    requires own[w.frame] == Shared || own[w.frame] == Private(parent, path + [i], src)
    ensures ForkFrame(mem, own, mem[src := mem[src][i := w]][dst := mem[dst][i := w]], own[w.frame := Shared], parent, child, path, dst)
  {
    assert path <= path + [i];
  }
}
