/** What tearing an address space down does: exactly the frames it owns go back to the allocator,
    and the tables still standing are untouched. */
module Teardown {
  import opened Basics
  import opened PageTables

  ghost predicate OwnedBelow(o: Owner, pid: Pid, path: seq<nat>) {
    !o.Shared? && o.pid == pid && path <= o.path
  }

  /** Frames that lost their owner belonged to the subtrees of path before index i, and are free now. */
  ghost predicate Torn(mem: Mem, own: Owners, free: multiset<Frame>, mem': Mem, own': Owners, free': multiset<Frame>,
                       pid: Pid, path: seq<nat>, i: nat) {
    && mem'.Keys == mem.Keys && own.Keys <= mem.Keys && own'.Keys <= own.Keys
    && (forall g :: g in own' ==> own'[g] == own[g] && mem'[g] == mem[g])
    && (forall g :: g in own && g !in own' ==> OwnedBelow(own[g], pid, path) && |path| < |own[g].path| && own[g].path[|path|] < i)
    && free' == free + multiset(own.Keys - own'.Keys)
  }

  /** Everything q leads to, for q[0] < i: the tables, and the pages that are not shared. */
  ghost predicate Released(mem: Mem, own: Owners, own': Owners, f: Frame, i: nat) {
    && (forall q :: TablePath(own, f, q) && q != [] && q[0] < i && TableAt(mem, f, q).Some?
          ==> TableAt(mem, f, q).value in own && TableAt(mem, f, q).value !in own')
    && (forall q :: LeafPath(own, f, q) && q[0] < i && LeafAt(mem, f, q).Some? && !Cow(LeafAt(mem, f, q).value)
          ==> LeafAt(mem, f, q).value.frame in own && LeafAt(mem, f, q).value.frame !in own')
  }

  /** Subtrees not yet reached are as they were. */
  lemma {:induction false} SubtreeStands(mem: Mem, own: Owners, free: multiset<Frame>, mem': Mem, own': Owners, free': multiset<Frame>,
                      pid: Pid, path: seq<nat>, i: nat)
    requires SubtreeOk(mem, own, pid, path) && Torn(mem, own, free, mem', own', free', pid, path, i)
    ensures SubtreeOk(mem', own', pid, path + [i])
    ensures forall g :: g in own && OwnedBelow(own[g], pid, path + [i]) ==> g in own'
    ensures SubtreeSame(mem, mem', own, pid, path + [i])
  {
    forall g | g in own && OwnedBelow(own[g], pid, path + [i]) ensures g in own' {
      assert own[g].path[|path|] == (path + [i])[|path|];
    }
    forall g | g in own' && own'[g].Table? && own'[g].pid == pid && path + [i] <= own'[g].path
      ensures TableOk(mem', own', g)
    {
      assert path <= path + [i] && TableOk(mem, own, g);
      forall j | 0 <= j < Limit(|own'[g].path|) && Present(mem'[g][j])
        ensures EntryOk(own', g, pid, own'[g].path + [j], mem'[g][j])
      {
        assert EntryOk(own, g, pid, own[g].path + [j], mem[g][j]);
        assert path + [i] <= own[g].path + [j];
      }
    }
  }

  /** One more subtree down: the table behind entry i and everything below it. */
  lemma {:induction false} TornStep(mem: Mem, own: Owners, free: multiset<Frame>, memA: Mem, ownA: Owners, freeA: multiset<Frame>,
                 memB: Mem, ownB: Owners, freeB: multiset<Frame>, f: Frame, c: Frame, pid: Pid, path: seq<nat>, i: nat)
    requires Torn(mem, own, free, memA, ownA, freeA, pid, path, i)
    requires Torn(memA, ownA, freeA, memB, ownB, freeB, pid, path + [i], ENTRIES)
    requires IsTable(ownA, c, pid, path + [i]) && c in ownB
    ensures Torn(mem, own, free, memB[c := ZERO_PAGE], ownB - {c}, freeB + multiset{c}, pid, path, i + 1)
  {
    var own' := ownB - {c};
    forall g | g in own && g !in own'
      ensures OwnedBelow(own[g], pid, path) && |path| < |own[g].path| && own[g].path[|path|] < i + 1
    {
      if g in ownA {
        assert path + [i] <= own[g].path;
        assert own[g].path[|path|] == (path + [i])[|path|];
      }
    }
    FreedTogether(own.Keys, ownA.Keys, ownB.Keys, c);
    assert own'.Keys == ownB.Keys - {c};
  }

  lemma {:induction false} FreedTogether(k: set<Frame>, kA: set<Frame>, kB: set<Frame>, c: Frame)
    requires kB <= kA <= k && c in kB
    ensures multiset(k - kA) + multiset(kA - kB) + multiset{c} == multiset(k - (kB - {c}))
  {
    assert k - (kB - {c}) == (k - kA) + (kA - kB) + {c};
  }

  /** ... and with it everything the walks through entry i led to. */
  lemma {:induction false} ReleasedStep(mem: Mem, own: Owners, memA: Mem, ownA: Owners, ownB: Owners, own': Owners,
                     f: Frame, c: Frame, i: nat)
    requires f in own && own[f].Table? && |own[f].path| < 3 && SubtreeOk(mem, own, own[f].pid, own[f].path)
    requires Released(mem, own, ownA, f, i) && own'.Keys <= ownB.Keys <= ownA.Keys <= own.Keys
    requires i < Limit(|own[f].path|) && Present(mem[f][i]) && mem[f][i].frame == c
    requires c in ownA && c in own && ownA[c] == own[c] && c !in own'
    requires Released(memA, ownA, ownB, c, ENTRIES)
    requires SubtreeSame(mem, memA, own, own[f].pid, own[f].path + [i])
    ensures Released(mem, own, own', f, i + 1)
  {
    var path := own[f].path;
    assert path <= path;
    assert EntryOk(own, f, own[f].pid, path + [i], mem[f][i]);
    forall g | g in own && own[g].Table? && own[g].pid == own[f].pid && path + [i] <= own[g].path ensures TableOk(mem, own, g) {
      assert path <= path + [i];
    }
    assert SubtreeOk(mem, own, own[f].pid, path + [i]);
    forall q | TablePath(own, f, q) && q != [] && q[0] < i + 1 && TableAt(mem, f, q).Some?
      ensures TableAt(mem, f, q).value in own && TableAt(mem, f, q).value !in own'
    {
      if q[0] == i {
        TablePathStep(mem, own, f, q);
        TableDependsOnSubtree(mem, memA, own, c, q[1..]);
        if q[1..] != [] {
          assert q[1..][0] < Limit(|path| + 1 + 0);
        }
      }
    }
    forall q | LeafPath(own, f, q) && q[0] < i + 1 && LeafAt(mem, f, q).Some? && !Cow(LeafAt(mem, f, q).value)
      ensures LeafAt(mem, f, q).value.frame in own && LeafAt(mem, f, q).value.frame !in own'
    {
      if q[0] == i {
        LeafPathStep(mem, own, f, q);
        LeafDependsOnSubtree(mem, memA, own, c, q[1..]);
        assert q[1..][0] < Limit(|path| + 1 + 0);
      }
    }
  }

  lemma {:induction false} SkipReleased(mem: Mem, own: Owners, own': Owners, f: Frame, i: nat)
    requires Released(mem, own, own', f, i) && f in mem && i < ENTRIES && !Present(mem[f][i])
    ensures Released(mem, own, own', f, i + 1)
  {
  }

  lemma {:induction false} ReleasedAll(mem: Mem, own: Owners, own': Owners, f: Frame)
    requires f in own && own[f].Table? && Released(mem, own, own', f, Limit(|own[f].path|))
    ensures Released(mem, own, own', f, ENTRIES)
  {
    forall q | q != [] && InRange(|own[f].path|, q) ensures q[0] < Limit(|own[f].path|) {
      assert q[0] < Limit(|own[f].path| + 0);
    }
  }

  lemma {:induction false} LeafFlags(e: Word)
    ensures e.flags & (MM_PRESENT | MM_USER) == MM_PRESENT | MM_USER <==> Present(e) && User(e)
  {
  }

  /** A bottom entry that is private gives its page back. */
  lemma {:induction false} FreeLeafStep(mem: Mem, own: Owners, free: multiset<Frame>, memA: Mem, ownA: Owners, freeA: multiset<Frame>,
                     f: Frame, pid: Pid, path: seq<nat>, i: nat, e: Word)
    requires |path| == 3 && IsTable(own, f, pid, path) && i < ENTRIES && f in mem && f in ownA
    requires Torn(mem, own, free, memA, ownA, freeA, pid, path, i) && Released(mem, own, ownA, f, i)
    requires mem[f][i] == e && e.frame in own && own[e.frame] == Private(pid, path + [i], f)
    ensures e.frame in ownA && e.frame != f && e.frame in memA
    ensures Torn(mem, own, free, memA[e.frame := ZERO_PAGE], ownA - {e.frame}, freeA + multiset{e.frame}, pid, path, i + 1)
    ensures Released(mem, own, ownA - {e.frame}, f, i + 1)
  {
    assert (path + [i])[3] == i;
    assert e.frame in ownA;
    assert path <= path + [i];
    FreedTogether(own.Keys, ownA.Keys, ownA.Keys, e.frame);
    assert ownA.Keys - ownA.Keys == {};
    assert (ownA - {e.frame}).Keys == ownA.Keys - {e.frame};
  }

  lemma {:induction false} KeepLeafStep(mem: Mem, own: Owners, ownA: Owners, f: Frame, pid: Pid, path: seq<nat>, i: nat, e: Word)
    requires |path| == 3 && IsTable(own, f, pid, path) && i < ENTRIES && f in mem
    requires Released(mem, own, ownA, f, i) && mem[f][i] == e && (!Present(e) || Cow(e))
    ensures Released(mem, own, ownA, f, i + 1)
  {
  }

  /** The owners left when space pid and its root are gone. */
  ghost function OthersOwners(own: Owners, pid: Pid): Owners {
    map g | g in own && (own[g].Shared? || own[g].pid != pid) :: own[g]
  }

  /** Once the tree is torn down and the root freed, the invariant holds of the spaces that remain. */
  lemma {:induction false} TornDownOk(mem: Mem, own: Owners, free: multiset<Frame>, spaces: map<Pid, Frame>,
                   mem': Mem, own': Owners, free': multiset<Frame>, pid: Pid)
    requires Inv(mem, own, free, spaces) && pid in spaces && spaces[pid] in own'
    requires Torn(mem, own, free, mem', own', free', pid, [], ENTRIES) && FreeOk(mem', own', free')
    ensures Inv(mem', OthersOwners(own', pid), free' + multiset{spaces[pid]}, spaces - {pid})
    ensures forall g :: g in own && (own[g].Shared? || own[g].pid != pid) ==> g in OthersOwners(own', pid) && mem'[g] == mem[g]
  {
    var own2 := OthersOwners(own', pid);
    forall f | f in own2 && own2[f].Table? ensures TableOk(mem', own2, f) {
      assert TableOk(mem, own, f);
      forall j | 0 <= j < Limit(|own2[f].path|) && Present(mem'[f][j])
        ensures EntryOk(own2, f, own2[f].pid, own2[f].path + [j], mem'[f][j])
      {
        assert EntryOk(own, f, own[f].pid, own[f].path + [j], mem[f][j]);
      }
    }
  }

  /** Every table and every unshared page of the space is on the free list, and nothing else was added. */
  lemma {:induction false} EverythingReturned(mem: Mem, own: Owners, free: multiset<Frame>, mem': Mem, own': Owners, free': multiset<Frame>,
                           root: Frame, pid: Pid)
    requires IsTable(own, root, pid, []) && Torn(mem, own, free, mem', own', free', pid, [], ENTRIES)
    requires Released(mem, own, own', root, ENTRIES)
    ensures var all := free' + multiset{root};
      && (forall g :: g in all && g !in free ==> g in own && !own[g].Shared? && own[g].pid == pid)
      && (forall q :: |q| <= 3 && InRange(0, q) && TableAt(mem, root, q).Some? ==> TableAt(mem, root, q).value in all)
      && (forall v :: IsVPage(v) && LeafAt(mem, root, v).Some? && !Cow(LeafAt(mem, root, v).value)
            ==> LeafAt(mem, root, v).value.frame in all)
  {
    var all := free' + multiset{root};
    forall g | g in own && g !in own' ensures g in all {
      assert g in own.Keys - own'.Keys;
    }
    forall q | |q| <= 3 && InRange(0, q) && TableAt(mem, root, q).Some? ensures TableAt(mem, root, q).value in all {
      if q != [] {
        assert TablePath(own, root, q) && q[0] < Limit(0 + 0);
      }
    }
    forall v | IsVPage(v) && LeafAt(mem, root, v).Some? && !Cow(LeafAt(mem, root, v).value)
      ensures LeafAt(mem, root, v).value.frame in all
    {
      assert LeafPath(own, root, v) && v[0] < Limit(0 + 0);
    }
  }
}
