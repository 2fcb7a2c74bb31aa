/** What processes see, and how single changes to memory show up in it; the eager model
    that copy-on-write is measured against. */
module AddressViews {
  import opened Basics
  import opened PageTables
  import opened ForkSharing

  // ---------------------------------------------------------------- two-state facts

  /** Every frame that had an owner keeps it, and pages that are not tables keep their contents. */
  ghost predicate OwnedKept(mem: Mem, own: Owners, mem': Mem, own': Owners) {
    && mem'.Keys == mem.Keys
    && (forall g :: g in own ==> g in own' && own'[g] == own[g])
    && (forall g :: g in own && g in mem && !own[g].Table? ==> mem'[g] == mem[g])
  }

  ghost predicate LeavesKept(mem: Mem, own: Owners, mem': Mem) {
    forall f, q :: LeafPath(own, f, q) ==> LeafAt(mem', f, q) == LeafAt(mem, f, q)
  }

  /** Every walk but the one to page v of space pid ends as before. */
  ghost predicate OtherLeavesSame(mem: Mem, own: Owners, mem': Mem, pid: Pid, v: seq<nat>) {
    forall f, q :: LeafPath(own, f, q) && (own[f].pid != pid || own[f].path + q != v)
              ==> LeafAt(mem', f, q) == LeafAt(mem, f, q)
  }

  /** A space whose walks and pages are unchanged looks unchanged. */
  lemma {:induction false} SpaceViewKept(mem: Mem, mem': Mem, own: Owners, root: Frame, pid: Pid)
    requires TablesOk(mem, own) && IsTable(own, root, pid, [])
    requires forall v :: IsVPage(v) ==> LeafAt(mem', root, v) == LeafAt(mem, root, v)
    requires forall g :: g in own && (own[g] == Shared || (own[g].Private? && own[g].pid == pid))
               ==> g in mem' && mem'[g] == mem[g]
    ensures SpaceView(mem', root) == SpaceView(mem, root)
  {
    forall v | IsVPage(v) && LeafAt(mem, root, v).Some?
      ensures var g := LeafAt(mem, root, v).value.frame; g in mem && g in mem' && mem'[g] == mem[g]
    {
      var t := LeafIsOwned(mem, own, root, v);
      assert |[] + v| == 4;
    }
    assert forall v :: Mapped(mem', root, v) <==> Mapped(mem, root, v);
  }

  /** Flags of a user mapping of one 4 KB page that is not shared. */
  predicate UserFlags(flags: bv12) { flags & MM_USER != 0 && flags & MM_COW == 0 && flags & MM_2MB == 0 }

  lemma {:induction false} OrFlags(w: Word, flags: bv12)
    ensures var w' := Word(w.frame, w.flags | flags);
      && (Present(w') <==> Present(w) || flags & MM_PRESENT != 0)
      && (Writable(w') <==> Writable(w) || flags & MM_READWRITE != 0)
      && (User(w') <==> User(w) || flags & MM_USER != 0)
      && (Cow(w') <==> Cow(w) || flags & MM_COW != 0)
      && (Large(w') <==> Large(w) || flags & MM_2MB != 0)
  {
  }

  /** Adding flags to an upper entry leaves it one. */
  lemma {:induction false} FlagsKeepEntry(own: Owners, f: Frame, pid: Pid, p: seq<nat>, w: Word, flags: bv12)
    requires EntryOk(own, f, pid, p, w) && |p| < 4 && Present(w) && flags & MM_2MB == 0
    ensures var w' := Word(w.frame, w.flags | flags); EntryOk(own, f, pid, p, w') && Present(w')
  {
    OrFlags(w, flags);
  }

  /** Rewriting one entry keeps every table well formed if the new entry points at its due. */
  lemma {:induction false} SetEntryOk(mem: Mem, own: Owners, t: Frame, i: nat, w: Word)
    requires TablesOk(mem, own) && t in own && own[t].Table? && i < Limit(|own[t].path|)
    requires Present(w) ==> EntryOk(own, t, own[t].pid, own[t].path + [i], w)
    ensures TablesOk(mem[t := mem[t][i := w]], own)
  {
    var mem' := mem[t := mem[t][i := w]];
    forall f | f in own && own[f].Table? ensures TableOk(mem', own, f) {
      assert TableOk(mem, own, f);
    }
  }

  /** Giving an owner to a frame without one keeps every table well formed. */
  lemma {:induction false} NewOwnerOk(mem: Mem, own: Owners, g: Frame, o: Owner)
    requires TablesOk(mem, own) && g in mem && g !in own
    requires o.Table? ==> |o.path| <= 3 && mem[g] == ZERO_PAGE
    ensures TablesOk(mem, own[g := o])
  {
    var own' := own[g := o];
    forall f | f in own' && own'[f].Table? ensures TableOk(mem, own', f) {
      if f != g {
        assert TableOk(mem, own, f);
      }
    }
  }

  /** Contents of a frame that is not a table do not matter to the tables. */
  lemma {:induction false} SetDataOk(mem: Mem, own: Owners, g: Frame, page: Page)
    requires TablesOk(mem, own) && (g in own ==> !own[g].Table?)
    ensures TablesOk(mem[g := page], own)
  {
    forall f | f in own && own[f].Table? ensures TableOk(mem[g := page], own, f) {
      assert TableOk(mem, own, f);
    }
  }

  lemma {:induction false} KeptTrans(mem0: Mem, own0: Owners, mem1: Mem, own1: Owners, mem2: Mem, own2: Owners)
    requires OwnedKept(mem0, own0, mem1, own1) && LeavesKept(mem0, own0, mem1)
    requires OwnedKept(mem1, own1, mem2, own2) && LeavesKept(mem1, own1, mem2)
    ensures OwnedKept(mem0, own0, mem2, own2) && LeavesKept(mem0, own0, mem2)
  {
    forall f, q | LeafPath(own0, f, q) ensures LeafAt(mem2, f, q) == LeafAt(mem0, f, q) {
      assert LeafPath(own1, f, q);
      assert LeafAt(mem1, f, q) == LeafAt(mem0, f, q);
    }
  }

  /** Building the upper levels and then writing one leaf touches one walk only. */
  lemma {:induction false} MappingTouchesOneWalk(mem0: Mem, own0: Owners, mem1: Mem, own1: Owners, mem2: Mem, own2: Owners,
                              t: Frame, i: nat, w: Word, pid: Pid, v: seq<nat>)
    requires OwnedKept(mem0, own0, mem1, own1) && LeavesKept(mem0, own0, mem1)
    requires t in own1 && t in mem1 && own1[t].Table? && i < ENTRIES && w.frame !in own1
    requires mem2 == mem1[t := mem1[t][i := w]]
    requires own2 == own1[w.frame := Private(pid, v, t)]
    requires OtherLeavesSame(mem1, own1, mem2, pid, v)
    ensures OwnedKept(mem0, own0, mem2, own2) && OtherLeavesSame(mem0, own0, mem2, pid, v)
  {
    forall f, q | LeafPath(own0, f, q) && (own0[f].pid != pid || own0[f].path + q != v)
      ensures LeafAt(mem2, f, q) == LeafAt(mem0, f, q)
    {
      assert LeafPath(own1, f, q);
      assert LeafAt(mem1, f, q) == LeafAt(mem0, f, q);
    }
  }

  lemma {:induction false} SplitVPage(v: seq<nat>)
    requires IsVPage(v)
    ensures v == v[..3] + [v[3]] && v[3] < ENTRIES && InRange(0, v[..3])
  {
    assert v[3] < Limit(0 + 3);
  }

  /** Once entry i of the table at the given path is w, that is what the walk finds. */
  lemma {:induction false} LeafAfterSet(mem: Mem, own: Owners, root: Frame, t: Frame, path: seq<nat>, i: nat, w: Word)
    requires TablesOk(mem, own) && root in own && own[root].Table? && own[root].path == []
    requires t in own && own[t].Table? && own[t].path == path && |path| == 3 && InRange(0, path)
    requires TableAt(mem, root, path) == Some(t) && i < ENTRIES && Present(w)
    ensures LeafAt(mem[t := mem[t][i := w]], root, path + [i]) == Some(w)
  {
    var mem' := mem[t := mem[t][i := w]];
    TableAtKept(mem, mem', own, t, root, path);
    LeafAtSnoc(mem', root, path, i);
  }

  /** A fresh root with no user entry adds an empty space and disturbs no other. */
  lemma {:induction false} NewRootOk(mem: Mem, own: Owners, free: multiset<Frame>, spaces: map<Pid, Frame>, f: Frame, table: Page, pid: Pid)
    requires Inv(mem, own, free, spaces) && f in free && pid !in spaces
    requires forall i :: 0 <= i < USER_ROOT_ENTRIES ==> table[i] == ZERO_WORD
    ensures var mem', own' := mem[f := table], own[f := Table(pid, [], f)];
      && Inv(mem', own', free - multiset{f}, spaces[pid := f])
      && View(mem', spaces[pid := f]) == View(mem, spaces)[pid := imap[]]
  {
    var mem', own' := mem[f := table], own[f := Table(pid, [], f)];
    SetDataOk(mem, own, f, table);
    forall g | g in own' && own'[g].Table? ensures TableOk(mem', own', g) {
      if g != f {
        assert TableOk(mem', own, g);
      }
    }
    forall p | p in spaces ensures SpaceView(mem', spaces[p]) == SpaceView(mem, spaces[p]) {
      UntouchedSpaceKept(mem, mem', own, spaces[p], p);
    }
    forall v | IsVPage(v) ensures LeafAt(mem', f, v) == None {
      assert v[0] < Limit(0 + 0);
    }
    assert SpaceView(mem', f) == imap[];
  }

  /** When the other spaces look the same, the system differs in one space only. */
  lemma {:induction false} ViewOneSpace(mem: Mem, mem': Mem, spaces: map<Pid, Frame>, pid: Pid)
    requires pid in spaces
    requires forall p :: p in spaces && p != pid ==> SpaceView(mem', spaces[p]) == SpaceView(mem, spaces[p])
    ensures View(mem', spaces) == View(mem, spaces)[pid := SpaceView(mem', spaces[pid])]
  {
    var views := View(mem, spaces)[pid := SpaceView(mem', spaces[pid])];
    forall r | r in spaces ensures View(mem', spaces)[r] == views[r] {}
  }

  /** What all spaces look like after the leaf of one page has changed. */
  lemma {:induction false} ViewAfterLeafChange(mem: Mem, own: Owners, mem': Mem, spaces: map<Pid, Frame>, pid: Pid, v: seq<nat>, w: Word)
    requires TablesOk(mem, own) && RootsOk(own, spaces) && pid in spaces && IsVPage(v)
    requires OtherLeavesSame(mem, own, mem', pid, v)
    requires LeafAt(mem', spaces[pid], v) == Some(w) && w.frame in mem'
    requires forall g :: g in own && !own[g].Table? ==> g in mem' && mem'[g] == mem[g]
    ensures View(mem', spaces) ==
      View(mem, spaces)[pid := SpaceView(mem, spaces[pid])[v := EntryView(mem', w)]]
  {
    forall p, u | p in spaces && IsVPage(u) && (p != pid || u != v)
      ensures LeafAt(mem', spaces[p], u) == LeafAt(mem, spaces[p], u)
    {
      assert LeafPath(own, spaces[p], u) && own[spaces[p]].path + u == u;
    }
    forall p | p in spaces && p != pid ensures SpaceView(mem', spaces[p]) == SpaceView(mem, spaces[p]) {
      SpaceViewKept(mem, mem', own, spaces[p], p);
    }
    OneLeafChanged(mem, own, mem', spaces[pid], pid, v, w);
    ViewOneSpace(mem, mem', spaces, pid);
  }

  /** One space of which one leaf has changed. */
  lemma {:induction false} OneLeafChanged(mem: Mem, own: Owners, mem': Mem, root: Frame, pid: Pid, v: seq<nat>, w: Word)
    requires TablesOk(mem, own) && IsTable(own, root, pid, []) && IsVPage(v)
    requires forall u :: IsVPage(u) && u != v ==> LeafAt(mem', root, u) == LeafAt(mem, root, u)
    requires LeafAt(mem', root, v) == Some(w) && w.frame in mem'
    requires forall g :: g in own && !own[g].Table? ==> g in mem' && mem'[g] == mem[g]
    ensures SpaceView(mem', root) == SpaceView(mem, root)[v := EntryView(mem', w)]
  {
    forall u | IsVPage(u) && u != v
      ensures Mapped(mem', root, u) == Mapped(mem, root, u)
      ensures Mapped(mem, root, u) ==> SpaceView(mem', root)[u] == SpaceView(mem, root)[u]
    {
      if LeafAt(mem, root, u).Some? {
        var t := LeafIsOwned(mem, own, root, u);
        assert |[] + u| == 4;
      }
    }
  }

  lemma {:induction false} UpdateIsIdentity(views: map<Pid, Space>, pid: Pid, s: Space, v: seq<nat>)
    requires pid in views && views[pid] == s && v in s
    ensures views[pid := s[v := s[v]]] == views
  {
    assert s[v := s[v]] == s;
  }

  /** Replacing a shared page by a private copy of it is invisible to every process. */
  lemma {:induction false} CopyKeepsView(mem: Mem, own: Owners, spaces: map<Pid, Frame>, root: Frame, t: Frame, path: seq<nat>, i: nat,
                      e: Word, w: Word, pid: Pid)
    requires TablesOk(mem, own) && RootsOk(own, spaces) && pid in spaces && spaces[pid] == root
    requires IsTable(own, t, pid, path) && |path| == 3 && InRange(0, path) && TableAt(mem, root, path) == Some(t)
    requires i < ENTRIES && mem[t][i] == e && Present(e) && Cow(e) && e.frame in mem
    requires Present(w) && Writable(w) && w.frame in mem && w.frame !in own
    ensures var m := mem[w.frame := mem[e.frame]]; var mem' := m[t := m[t][i := w]];
      && View(mem', spaces) == View(mem, spaces)
      && LeafAt(mem', root, path + [i]) == Some(w)
  {
    var m := mem[w.frame := mem[e.frame]];
    var mem' := m[t := m[t][i := w]];
    var v := path + [i];
    assert IsVPage(v) by {
      forall k | 0 <= k < 4 ensures v[k] < Limit(0 + k) {}
    }
    SetDataOk(mem, own, w.frame, mem[e.frame]);
    TableAtKept(mem, m, own, t, root, path);
    LeafAtSnoc(mem, root, path, i);
    LeafAfterSet(m, own, root, t, path, i, w);
    forall f, q | LeafPath(own, f, q) && (own[f].pid != pid || own[f].path + q != v)
      ensures LeafAt(mem', f, q) == LeafAt(mem, f, q)
    {
      OtherLeavesKept(mem, mem', own, t, i, f, q);
    }
    ViewAfterLeafChange(mem, own, mem', spaces, pid, v, w);
    var s := SpaceView(mem, root);
    assert Mapped(mem, root, v) && s[v] == EntryView(mem', w);
    UpdateIsIdentity(View(mem, spaces), pid, s, v);
  }

  lemma {:induction false} SomeFrame(free: multiset<Frame>)
    requires free != multiset{}
    ensures exists f :: f in free
  {
    assert (forall f :: f !in free) ==> free == multiset{};
  }

  // ---------------------------------------------------------------- user accesses

  /** The processor's own walk: every level must be present and open to user mode, and open to
      stores when the access is one. A large page ends it, and is no page of this model. */
  function HwLeaf(mem: Mem, f: Frame, q: seq<nat>, write: bool): (r: Option<Word>)
    requires |q| > 0
    decreases |q|
  {
    if f !in mem || q[0] >= ENTRIES then None
    else
      var w := mem[f][q[0]];
      if !Present(w) || !User(w) || (write && !Writable(w)) then None
      else if |q| == 1 then Some(w)
      else if Large(w) then None
      else HwLeaf(mem, w.frame, q[1..], write)
  }

  /** Upper levels never get in the way: an access depends on the leaf alone. */
  lemma {:induction false} HwLeafAgrees(mem: Mem, own: Owners, f: Frame, q: seq<nat>, write: bool)
    requires TablesOk(mem, own) && LeafPath(own, f, q)
    ensures HwLeaf(mem, f, q, write) ==
      (var l := LeafAt(mem, f, q); if l.Some? && (write ==> Writable(l.value)) then l else None)
    decreases |q|
  {
    LeafPathStep(mem, own, f, q);
    if Present(mem[f][q[0]]) && |q| > 1 {
      HwLeafAgrees(mem, own, mem[f][q[0]].frame, q[1..], write);
    }
  }

  ghost predicate StoreAllowed(views: map<Pid, Space>, pid: Pid, v: seq<nat>) {
    pid in views && v in views[pid] && views[pid][v].writable
  }

  /** A store in the eager world: one word of one page of one process. */
  ghost function EagerStore(views: map<Pid, Space>, pid: Pid, v: seq<nat>, off: nat, word: Word): map<Pid, Space>
    requires StoreAllowed(views, pid, v) && off < ENTRIES
  {
    views[pid := views[pid][v := PageView(views[pid][v].data[off := word], true)]]
  }

  /** Writing in place into the frame of a writable entry is seen by its own page alone. */
  lemma {:induction false} ViewAfterStore(mem: Mem, own: Owners, free: multiset<Frame>, spaces: map<Pid, Frame>,
                       pid: Pid, v: seq<nat>, e: Word, off: nat, word: Word)
    requires Inv(mem, own, free, spaces) && pid in spaces && IsVPage(v) && off < ENTRIES
    requires LeafAt(mem, spaces[pid], v) == Some(e) && Writable(e)
    ensures e.frame in mem
    ensures var mem' := mem[e.frame := mem[e.frame][off := word]];
      && Inv(mem', own, free, spaces)
      && StoreAllowed(View(mem, spaces), pid, v)
      && View(mem', spaces) == EagerStore(View(mem, spaces), pid, v, off, word)
  {
    var t := LeafIsOwned(mem, own, spaces[pid], v);
    assert [] + v == v;
    var page: Page := mem[e.frame][off := word];
    var mem': Mem := mem[e.frame := page];
    SetDataOk(mem, own, e.frame, page);
    forall p, u | p in spaces && IsVPage(u) ensures LeafAt(mem', spaces[p], u) == LeafAt(mem, spaces[p], u) {
      assert LeafPath(own, spaces[p], u);
      LeafDependsOnSubtree(mem, mem', own, spaces[p], u);
    }
    forall p | p in spaces && p != pid ensures SpaceView(mem', spaces[p]) == SpaceView(mem, spaces[p]) {
      SpaceViewKept(mem, mem', own, spaces[p], p);
    }
    OwnPageAfterStore(mem, own, spaces[pid], pid, v, e, t, page);
    ViewOneSpace(mem, mem', spaces, pid);
  }

  lemma {:induction false} OwnPageAfterStore(mem: Mem, own: Owners, root: Frame, pid: Pid, v: seq<nat>, e: Word, t: Frame, page: Page)
    requires TablesOk(mem, own) && IsTable(own, root, pid, []) && IsVPage(v)
    requires LeafAt(mem, root, v) == Some(e) && Writable(e) && e.frame in own && own[e.frame] == Private(pid, v, t)
    requires forall u :: IsVPage(u) ==> LeafAt(mem[e.frame := page], root, u) == LeafAt(mem, root, u)
    ensures Mapped(mem, root, v)
    ensures SpaceView(mem[e.frame := page], root) == SpaceView(mem, root)[v := PageView(page, true)]
  {
    forall u | IsVPage(u) && u != v && LeafAt(mem, root, u).Some?
      ensures LeafAt(mem, root, u).value.frame in own && LeafAt(mem, root, u).value.frame != e.frame
    {
      var t' := LeafIsOwned(mem, own, root, u);
      assert [] + u == u;
    }
  }

  lemma {:induction false} KilledHasNoWritablePage(mem: Mem, own: Owners, spaces: map<Pid, Frame>, pid: Pid, v: seq<nat>)
    requires pid in spaces && IsVPage(v)
    requires var l := LeafAt(mem, spaces[pid], v); l.None? || !Writable(l.value)
    requires var l := LeafAt(mem, spaces[pid], v); l.None? || !Cow(l.value) || Writable(l.value)
    ensures !StoreAllowed(View(mem, spaces), pid, v)
  {
  }

  /** A space none of whose frames has changed looks unchanged. */
  lemma {:induction false} UntouchedSpaceKept(mem: Mem, mem': Mem, own: Owners, root: Frame, pid: Pid)
    requires TablesOk(mem, own) && IsTable(own, root, pid, [])
    requires forall g :: g in own && (own[g].Shared? || own[g].pid == pid) ==> g in mem' && mem'[g] == mem[g]
    ensures SpaceView(mem', root) == SpaceView(mem, root)
  {
    forall v | IsVPage(v) ensures LeafAt(mem', root, v) == LeafAt(mem, root, v) {
      LeafDependsOnSubtree(mem, mem', own, root, v);
    }
    SpaceViewKept(mem, mem', own, root, pid);
  }

  /** When everything of space pid is gone and the rest untouched, the others see what they saw. */
  lemma {:induction false} OthersKeepView(mem: Mem, own: Owners, mem': Mem, spaces: map<Pid, Frame>, pid: Pid)
    requires TablesOk(mem, own) && RootsOk(own, spaces)
    requires forall g :: g in own && (own[g].Shared? || own[g].pid != pid) ==> g in mem' && mem'[g] == mem[g]
    ensures View(mem', spaces - {pid}) == View(mem, spaces) - {pid}
  {
    forall p | p in spaces && p != pid ensures SpaceView(mem', spaces[p]) == SpaceView(mem, spaces[p]) {
      UntouchedSpaceKept(mem, mem', own, spaces[p], p);
    }
  }

  // ---------------------------------------------------------------- fork

  ghost function EagerFork(views: map<Pid, Space>, parent: Pid, child: Pid): map<Pid, Space>
    requires parent in views
  {
    views[parent := EagerCopy(views[parent])][child := EagerCopy(views[parent])]
  }

  lemma {:induction false} ForkIntoEmpty(views: map<Pid, Space>, parent: Pid, child: Pid)
    requires parent in views && child !in views
    ensures EagerFork(views[child := imap[]], parent, child) == EagerFork(views, parent, child)
  {
  }

  /** After the copy, parent and child both see an eager copy and nobody else sees a change. */
  lemma {:induction false} ForkView(mem: Mem, own: Owners, mem': Mem, own': Owners, spaces: map<Pid, Frame>, parent: Pid, child: Pid)
    requires TablesOk(mem, own) && RootsOk(own, spaces) && parent in spaces && child in spaces && parent != child
    requires ForkFrame(mem, own, mem', own', parent, child, [], spaces[child])
    requires ForkedBelow(mem, mem', spaces[parent], spaces[child], 0, ENTRIES)
    ensures View(mem', spaces) == EagerFork(View(mem, spaces), parent, child)
  {
    forall p | p in spaces && p != parent && p != child ensures SpaceView(mem', spaces[p]) == SpaceView(mem, spaces[p]) {
      UntouchedSpaceKept(mem, mem', own, spaces[p], p);
    }
    ForkedSpaceView(mem, own, mem', own', spaces[parent], parent, spaces[child], child);
    ViewTwoSpaces(mem, mem', spaces, parent, child);
  }

  lemma {:induction false} ViewTwoSpaces(mem: Mem, mem': Mem, spaces: map<Pid, Frame>, p: Pid, p': Pid)
    requires p in spaces && p' in spaces
    requires forall r :: r in spaces && r != p && r != p' ==> SpaceView(mem', spaces[r]) == SpaceView(mem, spaces[r])
    ensures View(mem', spaces) == View(mem, spaces)[p := SpaceView(mem', spaces[p])][p' := SpaceView(mem', spaces[p'])]
  {
    var views := View(mem, spaces)[p := SpaceView(mem', spaces[p])][p' := SpaceView(mem', spaces[p'])];
    forall r | r in spaces ensures View(mem', spaces)[r] == views[r] {}
  }

  /** The price of resetting the flags: fork leaves a process as it was exactly when it could
      already write all its pages. A read-only page comes out writable. */
  lemma {:induction false} ForkKeepsPermissionsIff(s: Space)
    ensures EagerCopy(s) == s <==> forall v :: v in s ==> s[v].writable
  {
    if EagerCopy(s) == s {
      forall v | v in s ensures s[v].writable {
        assert EagerCopy(s)[v] == PageView(s[v].data, true);
      }
    }
  }

  lemma {:induction false} ForkedSpaceView(mem: Mem, own: Owners, mem': Mem, own': Owners, root: Frame, parent: Pid, root': Frame, child: Pid)
    requires TablesOk(mem, own) && IsTable(own, root, parent, []) && IsTable(own, root', child, [])
    requires ForkFrame(mem, own, mem', own', parent, child, [], root')
    requires ForkedBelow(mem, mem', root, root', 0, ENTRIES)
    ensures SpaceView(mem', root) == EagerCopy(SpaceView(mem, root)) == SpaceView(mem', root')
  {
    forall v | IsVPage(v)
      ensures Forked(LeafAt(mem, root, v), LeafAt(mem', root, v)) && LeafAt(mem', root', v) == LeafAt(mem', root, v)
      ensures LeafAt(mem, root, v).Some? ==>
        var g := LeafAt(mem, root, v).value.frame; g in mem && g in mem' && mem'[g] == mem[g]
    {
      assert v[0] < Limit(0 + 0);
      if LeafAt(mem, root, v).Some? {
        var t := LeafIsOwned(mem, own, root, v);
        assert |[] + v| == 4;
      }
    }
    ForkedLeavesLookCopied(mem, mem', root, root);
    ForkedLeavesLookCopied(mem, mem', root, root');
  }

  lemma {:induction false} ForkedLeavesLookCopied(mem: Mem, mem': Mem, root: Frame, root': Frame)
    requires forall v :: IsVPage(v) ==> Forked(LeafAt(mem, root, v), LeafAt(mem', root', v))
    requires forall v :: IsVPage(v) && LeafAt(mem, root, v).Some? ==>
      var g := LeafAt(mem, root, v).value.frame; g in mem && g in mem' && mem'[g] == mem[g]
    ensures SpaceView(mem', root') == EagerCopy(SpaceView(mem, root))
  {
    forall v | IsVPage(v)
      ensures Mapped(mem', root', v) <==> Mapped(mem, root, v)
      ensures Mapped(mem, root, v) ==> EntryView(mem', LeafAt(mem', root', v).value) == EagerCopy(SpaceView(mem, root))[v]
    {
      ForkedEntryView(mem, mem', LeafAt(mem, root, v), LeafAt(mem', root', v));
    }
  }

  lemma {:induction false} ForkedEntryView(mem: Mem, mem': Mem, o: Option<Word>, n: Option<Word>)
    requires Forked(o, n) && (o.Some? ==> o.value.frame in mem && o.value.frame in mem' && mem'[o.value.frame] == mem[o.value.frame])
    ensures (n.Some? && n.value.frame in mem') <==> (o.Some? && o.value.frame in mem)
    ensures o.Some? ==> EntryView(mem', n.value) == PageView(mem[o.value.frame], true)
  {
  }

  // ---------------------------------------------------------------- runs

  datatype Op =
    | Spawn(pid: Pid)
    | MapNew(pid: Pid, v: seq<nat>, flags: bv12, data: Page)
    | Fork(parent: Pid, child: Pid)
    | Write(pid: Pid, v: seq<nat>, off: nat, word: Word)
    | Exit(pid: Pid)

  ghost function EagerLoad(views: map<Pid, Space>, pid: Pid, v: seq<nat>, flags: bv12, data: Page): map<Pid, Space>
    requires pid in views
  {
    views[pid := views[pid][v := PageView(data, flags & MM_READWRITE != 0)]]
  }

  /** The eager world: no frames, no tables, every process has its own pages. */
  ghost function EagerStep(views: map<Pid, Space>, op: Op): map<Pid, Space> {
    match op
    case Spawn(pid) => if pid !in views then views[pid := imap[]] else views
    case MapNew(pid, v, flags, data) =>
      if pid in views && IsVPage(v) && UserFlags(flags)
      then EagerLoad(views, pid, v, flags, data) else views
    case Fork(parent, child) => if parent in views && child !in views then EagerFork(views, parent, child) else views
    case Write(pid, v, off, word) =>
      if IsVPage(v) && off < ENTRIES && StoreAllowed(views, pid, v) then EagerStore(views, pid, v, off, word) else views
    case Exit(pid) => views - {pid}
  }

  ghost function EagerRun(views: map<Pid, Space>, ops: seq<Op>): map<Pid, Space> {
    if ops == [] then views
    else EagerStep(EagerRun(views, ops[..|ops| - 1]), ops[|ops| - 1])
  }

  lemma {:induction false} EagerRunMore(views: map<Pid, Space>, ops: seq<Op>, op: Op)
    ensures EagerRun(views, ops + [op]) == EagerStep(EagerRun(views, ops), op)
  {
    assert (ops + [op])[..|ops|] == ops;
  }

  /** A read-only page comes out of a fork writable, in parent and child. */
  lemma {:induction false} ForkMakesWritable(v: seq<nat>, data: Page)
    requires IsVPage(v)
    ensures var mapped := [] + [Spawn(1)] + [MapNew(1, v, MM_USER, data)];
      var (before, after) := (EagerRun(map[], mapped), EagerRun(map[], mapped + [Fork(1, 2)]));
      && 1 in before && v in before[1] && before[1][v] == PageView(data, false)
      && 1 in after && v in after[1] && after[1][v] == PageView(data, true)
      && 2 in after && v in after[2] && after[2][v] == PageView(data, true)
  {
    assert MM_USER & MM_COW == 0 && MM_USER & MM_2MB == 0 && MM_USER & MM_READWRITE == 0 && MM_USER & MM_USER != 0;
    EagerRunMore(map[], [], Spawn(1));
    EagerRunMore(map[], [] + [Spawn(1)], MapNew(1, v, MM_USER, data));
    EagerRunMore(map[], [] + [Spawn(1)] + [MapNew(1, v, MM_USER, data)], Fork(1, 2));
  }

  /** Filling the frame just mapped shows up in its own page alone. */
  lemma {:induction false} FillView(mem0: Mem, own0: Owners, mem: Mem, own: Owners, spaces: map<Pid, Frame>,
                 pid: Pid, v: seq<nat>, w: Word, data: Page)
    requires TablesOk(mem0, own0) && RootsOk(own0, spaces) && TablesOk(mem, own) && RootsOk(own, spaces)
    requires pid in spaces && IsVPage(v)
    requires OwnedKept(mem0, own0, mem, own) && OtherLeavesSame(mem0, own0, mem, pid, v)
    requires LeafAt(mem, spaces[pid], v) == Some(w) && !Cow(w)
    requires w.frame in own && own[w.frame].Private? && w.frame !in own0
    ensures View(mem[w.frame := data], spaces) ==
      View(mem0, spaces)[pid := SpaceView(mem0, spaces[pid])[v := PageView(data, Writable(w))]]
  {
    var mem': Mem := mem[w.frame := data];
    forall f, q | LeafPath(own, f, q) ensures LeafAt(mem', f, q) == LeafAt(mem, f, q) {
      LeafDependsOnSubtree(mem, mem', own, f, q);
    }
    forall f, q | LeafPath(own0, f, q) && (own0[f].pid != pid || own0[f].path + q != v)
      ensures LeafAt(mem', f, q) == LeafAt(mem0, f, q)
    {
      assert LeafPath(own, f, q);
      assert LeafAt(mem, f, q) == LeafAt(mem0, f, q);
    }
    assert LeafPath(own, spaces[pid], v);
    ViewAfterLeafChange(mem0, own0, mem', spaces, pid, v, w);
  }
}
