/** Where the frames are: every operation moves frames between the free list and their owners, and takes no
    more of them than it needs. */
module FrameCounts {
  import opened Basics
  import opened PageTables
  import opened ForkSharing
  import opened AddressViews
  import opened Teardown

  /** No frame appears or disappears: free ones and owned ones together are the same. */
  ghost predicate Conserved(own: Owners, free: multiset<Frame>, own': Owners, free': multiset<Frame>) {
    free' + multiset(own'.Keys) == free + multiset(own.Keys)
  }

  /** The tables of one space. */
  ghost function Tables(own: Owners, pid: Pid): set<Frame> {
    set f | f in own && own[f].Table? && own[f].pid == pid
  }

  /** Frames went from the free list to space pid, at most n of them, and no other space got a table. */
  ghost predicate Spent(own: Owners, free: multiset<Frame>, own': Owners, free': multiset<Frame>, pid: Pid, n: nat) {
    && Conserved(own, free, own', free') && |free| <= |free'| + n
    && |Tables(own', pid)| <= |Tables(own, pid)| + n
    && forall p :: p != pid ==> Tables(own', p) == Tables(own, p)
  }

  lemma {:induction false} SpentNothing(own: Owners, free: multiset<Frame>, pid: Pid)
    ensures Spent(own, free, own, free, pid, 0)
  {
  }

  lemma {:induction false} SpentTwice(own: Owners, free: multiset<Frame>, own1: Owners, free1: multiset<Frame>, own2: Owners, free2: multiset<Frame>,
                   pid: Pid, n: nat, m: nat)
    requires Spent(own, free, own1, free1, pid, n) && Spent(own1, free1, own2, free2, pid, m)
    ensures Spent(own, free, own2, free2, pid, n + m)
  {
  }

  lemma {:induction false} SpentMore(own: Owners, free: multiset<Frame>, own': Owners, free': multiset<Frame>, pid: Pid, n: nat, m: nat)
    requires Spent(own, free, own', free', pid, n) && n <= m
    ensures Spent(own, free, own', free', pid, m)
  {
  }

  /** One frame off the list gets an owner in space pid. */
  lemma {:induction false} SpentOne(own: Owners, free: multiset<Frame>, f: Frame, o: Owner)
    requires f in free && f !in own && !o.Shared?
    ensures Spent(own, free, own[f := o], free - multiset{f}, o.pid, 1)
  {
    OwnMore(own, f, o);
    assert free == (free - multiset{f}) + multiset{f};
    TablesMore(own, f, o);
  }

  lemma {:induction false} OwnMore(own: Owners, f: Frame, o: Owner)
    requires f !in own
    ensures multiset(own[f := o].Keys) == multiset(own.Keys) + multiset{f}
  {
    assert own[f := o].Keys == own.Keys + {f};
  }

  lemma {:induction false} TablesMore(own: Owners, f: Frame, o: Owner)
    requires f !in own && !o.Shared?
    ensures |Tables(own[f := o], o.pid)| <= |Tables(own, o.pid)| + 1
    ensures forall p :: p != o.pid ==> Tables(own[f := o], p) == Tables(own, p)
  {
    assert Tables(own[f := o], o.pid) <= Tables(own, o.pid) + {f};
    SubsetCount(Tables(own[f := o], o.pid), Tables(own, o.pid) + {f});
  }

  /** The same when the caller brings frame f, which gets an owner too. */
  ghost predicate SpentAround(own: Owners, free: multiset<Frame>, own': Owners, free': multiset<Frame>, f: Frame, pid: Pid, n: nat) {
    && free' + multiset(own'.Keys) == free + multiset(own.Keys) + multiset{f} && |free| <= |free'| + n
    && |Tables(own', pid)| <= |Tables(own, pid)| + n
    && forall p :: p != pid ==> Tables(own', p) == Tables(own, p)
  }

  lemma {:induction false} SpentThenOwned(own: Owners, free: multiset<Frame>, own': Owners, free': multiset<Frame>, f: Frame, o: Owner, n: nat)
    requires o.Private? && Spent(own, free, own', free', o.pid, n) && f !in own'
    ensures SpentAround(own, free, own'[f := o], free', f, o.pid, n)
  {
    OwnMore(own', f, o);
    forall p ensures Tables(own'[f := o], p) == Tables(own', p) {}
  }

  lemma {:induction false} SpentWith(own: Owners, free: multiset<Frame>, own': Owners, free': multiset<Frame>, f: Frame, pid: Pid, n: nat)
    requires f in free && SpentAround(own, free - multiset{f}, own', free', f, pid, n)
    ensures Spent(own, free, own', free', pid, n + 1)
  {
    assert free == (free - multiset{f}) + multiset{f};
  }

  lemma {:induction false} SubsetCount<T>(a: set<T>, b: set<T>)
    requires a <= b
    ensures |a| <= |b|
  {
    assert b == a + (b - a);
  }

  // ---------------------------------------------------------------- what a fork needs

  /** The tables of a space below a path. */
  ghost function Below(own: Owners, pid: Pid, path: seq<nat>): set<Frame> {
    set f | f in own && own[f].Table? && own[f].pid == pid && path < own[f].path
  }

  /** Those behind the first i entries there. */
  ghost function BelowUpTo(own: Owners, pid: Pid, path: seq<nat>, i: nat): set<Frame> {
    set f | f in Below(own, pid, path) && own[f].path[|path|] < i
  }

  /** A fork leaves the parent's tables where they are. */
  lemma {:induction false} ForkKeepsBelow(mem: Mem, own: Owners, mem': Mem, own': Owners, parent: Pid, child: Pid, path: seq<nat>, dst: Frame,
                       q: seq<nat>)
    requires ForkFrame(mem, own, mem', own', parent, child, path, dst) && parent != child
    ensures Below(own', parent, q) == Below(own, parent, q)
  {
    forall f ensures f in Below(own', parent, q) <==> f in Below(own, parent, q) {
      if f in own { assert own'[f] == own[f] || own'[f] == Shared; }
    }
  }

  /** An entry that leads to a table adds that table and those below it. */
  lemma {:induction false} BelowStep(own: Owners, pid: Pid, path: seq<nat>, i: nat, c: Frame)
    requires c in own && own[c].Table? && own[c].pid == pid && own[c].path == path + [i]
    ensures |BelowUpTo(own, pid, path, i)| + 1 + |Below(own, pid, path + [i])| <= |BelowUpTo(own, pid, path, i + 1)|
  {
    var a, b, all := BelowUpTo(own, pid, path, i), Below(own, pid, path + [i]), BelowUpTo(own, pid, path, i + 1);
    forall f | f in b ensures f in all && f !in a && f != c {
      var q := own[f].path;
      assert path + [i] <= q && q[|path|] == (path + [i])[|path|] == i;
      assert path <= q;
    }
    assert c in all && c !in a;
    assert a + {c} + b <= all;
    SubsetCount(a + {c} + b, all);
  }

  lemma {:induction false} BelowGrows(own: Owners, pid: Pid, path: seq<nat>, i: nat)
    ensures |BelowUpTo(own, pid, path, i)| <= |BelowUpTo(own, pid, path, i + 1)| <= |Below(own, pid, path)|
  {
    SubsetCount(BelowUpTo(own, pid, path, i), BelowUpTo(own, pid, path, i + 1));
    SubsetCount(BelowUpTo(own, pid, path, i + 1), Below(own, pid, path));
  }

  /** The root and what lies below it are tables of the space. */
  lemma {:induction false} RootAndBelow(own: Owners, pid: Pid, root: Frame)
    requires IsTable(own, root, pid, [])
    ensures 1 + |Below(own, pid, [])| <= |Tables(own, pid)|
  {
    assert {root} + Below(own, pid, []) <= Tables(own, pid);
    SubsetCount({root} + Below(own, pid, []), Tables(own, pid));
  }

  /** Sharing the pages of a bottom table takes no frame. */
  lemma {:induction false} SharingIsFree(mem: Mem, own: Owners, mem': Mem, own': Owners, free: multiset<Frame>, parent: Pid, child: Pid, path: seq<nat>, dst: Frame)
    requires ForkFrame(mem, own, mem', own', parent, child, path, dst) && |path| == 3 && OwnersInMemory(mem', own')
    ensures Spent(own, free, own', free, child, 0)
  {
    forall f | f in own' ensures f in own {
      if f !in own { assert false; }
    }
    assert own'.Keys == own.Keys;
    forall p ensures Tables(own', p) == Tables(own, p) {
      forall f ensures f in Tables(own', p) <==> f in Tables(own, p) {
        if f in own { assert own'[f] == own[f] || own'[f] == Shared; }
      }
    }
  }

  lemma {:induction false} BelowOther(own: Owners, f: Frame, o: Owner, pid: Pid, q: seq<nat>)
    requires f !in own && !o.Shared? && o.pid != pid
    ensures Below(own[f := o], pid, q) == Below(own, pid, q)
  {
  }

  /** One entry of a table that is being copied: its own table, then those below. */
  lemma {:induction false} EntrySpent(own: Owners, free: multiset<Frame>, f: Frame, o: Owner, own': Owners, free': multiset<Frame>, parent: Pid, q: seq<nat>)
    requires f in free && f !in own && !o.Shared? && o.pid != parent
    requires Spent(own[f := o], free - multiset{f}, own', free', o.pid, |Below(own[f := o], parent, q)|)
    ensures Spent(own, free, own', free', o.pid, 1 + |Below(own, parent, q)|)
  {
    SpentOne(own, free, f, o);
    BelowOther(own, f, o, parent, q);
    SpentTwice(own, free, own[f := o], free - multiset{f}, own', free', o.pid, 1, |Below(own, parent, q)|);
  }

  /** One more entry is copied, or the frames have run out. */
  lemma {:induction false} CopyStep(mem: Mem, own: Owners, free: multiset<Frame>, memA: Mem, ownA: Owners, freeA: multiset<Frame>, own': Owners, free': multiset<Frame>,
                 parent: Pid, child: Pid, path: seq<nat>, dst: Frame, i: nat, c: Frame)
    requires ForkFrame(mem, own, memA, ownA, parent, child, path, dst) && parent != child
    requires IsTable(ownA, c, parent, path + [i])
    requires Spent(own, free, ownA, freeA, child, |BelowUpTo(own, parent, path, i)|)
    requires Spent(ownA, freeA, own', free', child, 1 + |Below(ownA, parent, path + [i])|)
    ensures Spent(own, free, own', free', child, |BelowUpTo(own, parent, path, i + 1)|)
  {
    var n, m := |BelowUpTo(own, parent, path, i)|, 1 + |Below(own, parent, path + [i])|;
    ForkKeepsBelow(mem, own, memA, ownA, parent, child, path, dst, path + [i]);
    TableWasThere(mem, own, memA, ownA, parent, child, path, dst, c, path + [i]);
    SpentTwice(own, free, ownA, freeA, own', free', child, n, m);
    BelowStep(own, parent, path, i, c);
    SpentMore(own, free, own', free', child, n + m, |BelowUpTo(own, parent, path, i + 1)|);
  }

  lemma {:induction false} CopyRunsOut(mem: Mem, own: Owners, free: multiset<Frame>, memA: Mem, ownA: Owners, freeA: multiset<Frame>,
                    parent: Pid, child: Pid, path: seq<nat>, dst: Frame, i: nat, c: Frame)
    requires ForkFrame(mem, own, memA, ownA, parent, child, path, dst) && parent != child
    requires IsTable(ownA, c, parent, path + [i])
    requires Spent(own, free, ownA, freeA, child, |BelowUpTo(own, parent, path, i)|)
    requires |freeA| < 1 + |Below(ownA, parent, path + [i])|
    ensures |free| < |Below(own, parent, path)|
  {
    ForkKeepsBelow(mem, own, memA, ownA, parent, child, path, dst, path + [i]);
    TableWasThere(mem, own, memA, ownA, parent, child, path, dst, c, path + [i]);
    BelowStep(own, parent, path, i, c);
    BelowGrows(own, parent, path, i);
  }

  /** A table of the parent was there before. */
  lemma {:induction false} TableWasThere(mem: Mem, own: Owners, memA: Mem, ownA: Owners, parent: Pid, child: Pid, path: seq<nat>, dst: Frame, c: Frame, q: seq<nat>)
    requires ForkFrame(mem, own, memA, ownA, parent, child, path, dst) && parent != child && IsTable(ownA, c, parent, q)
    ensures IsTable(own, c, parent, q)
  {
  }

  lemma {:induction false} CopySkips(own: Owners, free: multiset<Frame>, own': Owners, free': multiset<Frame>, parent: Pid, child: Pid, path: seq<nat>, i: nat)
    requires Spent(own, free, own', free', child, |BelowUpTo(own, parent, path, i)|)
    ensures Spent(own, free, own', free', child, |BelowUpTo(own, parent, path, i + 1)|)
    ensures Spent(own, free, own', free', child, |Below(own, parent, path)|)
  {
    BelowGrows(own, parent, path, i);
  }

  /** The entries before i of table src, at path, have been copied to dst. */
  ghost predicate Copying(mem: Mem, own: Owners, free: multiset<Frame>, mem': Mem, own': Owners, free': multiset<Frame>,
                          src: Frame, dst: Frame, parent: Pid, child: Pid, path: seq<nat>, i: nat) {
    && Spent(own, free, own', free', child, |BelowUpTo(own, parent, path, i)|)
    && ForkFrame(mem, own, mem', own', parent, child, path, dst) && ForkedBelow(mem, mem', src, dst, |path|, i)
    && IsTable(own', src, parent, path) && IsTable(own', dst, child, path)
    && src in mem && src in mem' && mem'[src] == mem[src]
  }

  lemma {:induction false} CopyStart(mem: Mem, own: Owners, free: multiset<Frame>, src: Frame, dst: Frame, parent: Pid, child: Pid, path: seq<nat>)
    requires own.Keys <= mem.Keys && IsTable(own, src, parent, path) && IsTable(own, dst, child, path)
    ensures Copying(mem, own, free, mem, own, free, src, dst, parent, child, path, 0)
  {
    SpentNothing(own, free, child);
  }

  lemma {:induction false} CopyDone(mem: Mem, own: Owners, free: multiset<Frame>, mem': Mem, own': Owners, free': multiset<Frame>,
                 src: Frame, dst: Frame, parent: Pid, child: Pid, path: seq<nat>)
    requires Copying(mem, own, free, mem', own', free', src, dst, parent, child, path, Limit(|path|))
    ensures Spent(own, free, own', free', child, |Below(own, parent, path)|)
    ensures ForkFrame(mem, own, mem', own', parent, child, path, dst) && ForkedBelow(mem, mem', src, dst, |path|, ENTRIES)
  {
    CopySkips(own, free, own', free', parent, child, path, Limit(|path|));
    ForkedAll(mem, mem', src, dst, |path|);
  }

  /** Entry i has been copied: a fresh table w, and everything below it. */
  lemma {:induction false} EntryCopied(mem0: Mem, mem: Mem, own: Owners, free: multiset<Frame>, memB: Mem, ownB: Owners,
                    mem': Mem, own': Owners, free': multiset<Frame>,
                    src: Frame, dst: Frame, parent: Pid, child: Pid, path: seq<nat>, i: nat, w: Word)
    requires |path| < 3 && parent != child && TablesOk(mem, own)
    requires IsTable(own, src, parent, path) && IsTable(own, dst, child, path)
    requires ForkedBelow(mem0, mem, src, dst, |path|, i)
    requires i < Limit(|path|) && Present(mem[src][i]) && Present(w) && w.frame in mem && w.frame !in own && w.frame in free
    requires memB == mem[w.frame := ZERO_PAGE][dst := mem[dst][i := w]]
    requires ownB == own[w.frame := Table(child, path + [i], dst)]
    requires ForkFrame(memB, ownB, mem', own', parent, child, path + [i], w.frame)
    requires ForkedBelow(memB, mem', mem[src][i].frame, w.frame, |path| + 1, ENTRIES)
    requires Spent(ownB, free - multiset{w.frame}, own', free', child, |Below(ownB, parent, path + [i])|)
    ensures ForkedBelow(mem0, mem', src, dst, |path|, i + 1)
    ensures ForkFrame(mem, own, mem', own', parent, child, path, dst)
    ensures Spent(own, free, own', free', child, 1 + |Below(own, parent, path + [i])|)
  {
    assert path < path + [i];
    EntrySpent(own, free, w.frame, Table(child, path + [i], dst), own', free', parent, path + [i]);
    ForkStep(mem0, mem, own, memB, ownB, mem', own', src, dst, parent, child, path, i, w);
    ForkFrameTrans(mem, own, memB, ownB, mem', own', parent, child, path, dst, path + [i], w.frame);
  }

  /** Copying below an entry leaves the table src and the other entries of dst alone. */
  lemma {:induction false} EntryRest(mem: Mem, own: Owners, memB: Mem, ownB: Owners, mem': Mem, own': Owners,
                  src: Frame, dst: Frame, parent: Pid, child: Pid, path: seq<nat>, i: nat, w: Word)
    requires |path| < 3 && parent != child && TablesOk(mem, own)
    requires IsTable(own, src, parent, path) && IsTable(own, dst, child, path) && i < ENTRIES && w.frame in mem && w.frame !in own
    requires memB == mem[w.frame := ZERO_PAGE][dst := mem[dst][i := w]]
    requires ownB == own[w.frame := Table(child, path + [i], dst)]
    requires ForkFrame(memB, ownB, mem', own', parent, child, path + [i], w.frame)
    ensures src in mem' && dst in mem' && mem'[src] == mem[src] && mem'[dst] == mem[dst][i := w]
  {
  }

  lemma {:induction false} SamePrivate(own: Owners, f: Frame, o: Owner)
    requires f !in own && o.Private?
    ensures forall p :: Tables(own[f := o], p) == Tables(own, p)
  {
    forall p ensures Tables(own[f := o], p) == Tables(own, p) {}
  }

  // ---------------------------------------------------------------- what a run needs

  /** Frames an operation may need, if space p has at most tables[p] tables: one for a root or a copied page,
      one for a new page and three for its tables, as many as the parent has tables for a fork. */
  ghost function Cost(tables: map<Pid, nat>, op: Op): nat {
    match op
    case Spawn(pid) => 1
    case MapNew(pid, v, flags, data) => 4
    case Fork(parent, child) => if parent in tables then tables[parent] else 0
    case Write(pid, v, off, word) => 1
    case Exit(pid) => 0
  }

  /** How many tables the spaces have at most afterwards. */
  ghost function After(tables: map<Pid, nat>, op: Op): map<Pid, nat> {
    match op
    case Spawn(pid) => if pid in tables then tables else tables[pid := 1]
    case MapNew(pid, v, flags, data) => if pid in tables then tables[pid := tables[pid] + 4] else tables
    case Fork(parent, child) => if parent in tables && child !in tables then tables[child := tables[parent]] else tables
    case Write(pid, v, off, word) => tables
    case Exit(pid) => tables - {pid}
  }

  /** Frames enough for a whole run, whatever is given back meanwhile. */
  ghost function Need(tables: map<Pid, nat>, ops: seq<Op>): nat
    decreases |ops|
  {
    if ops == [] then 0 else Cost(tables, ops[0]) + Need(After(tables, ops[0]), ops[1..])
  }

  ghost predicate Within(own: Owners, spaces: map<Pid, Frame>, tables: map<Pid, nat>) {
    tables.Keys == spaces.Keys && forall p :: p in tables ==> |Tables(own, p)| <= tables[p]
  }

  /** A space that does not exist has no tables. */
  lemma {:induction false} NoTables(own: Owners, spaces: map<Pid, Frame>, pid: Pid)
    requires RootsOk(own, spaces) && pid !in spaces
    ensures Tables(own, pid) == {}
  {
    forall f ensures f !in Tables(own, pid) {}
  }

  /** Tearing one space down leaves the others' tables. */
  lemma {:induction false} TornKeepsTables(mem: Mem, own: Owners, free: multiset<Frame>, mem': Mem, own': Owners, free': multiset<Frame>, pid: Pid, p: Pid)
    requires Torn(mem, own, free, mem', own', free', pid, [], ENTRIES) && p != pid
    ensures Tables(OthersOwners(own', pid), p) == Tables(own, p)
  {
    forall f ensures f in Tables(OthersOwners(own', pid), p) <==> f in Tables(own, p) {
      if f in Tables(own, p) { assert f in own'; }
    }
  }

  /** One space, new or old, has got tables. */
  lemma {:induction false} WithinMore(own: Owners, free: multiset<Frame>, own': Owners, free': multiset<Frame>, spaces: map<Pid, Frame>,
                   spaces': map<Pid, Frame>, tables: map<Pid, nat>, pid: Pid, n: nat, m: nat)
    requires Within(own, spaces, tables) && RootsOk(own, spaces) && Spent(own, free, own', free', pid, n)
    requires spaces'.Keys == spaces.Keys + {pid} && (if pid in tables then tables[pid] else 0) + n <= m
    ensures Within(own', spaces', tables[pid := m])
  {
    if pid !in spaces { NoTables(own, spaces, pid); }
  }

  lemma {:induction false} WithinSame(own: Owners, own': Owners, spaces: map<Pid, Frame>, tables: map<Pid, nat>)
    requires Within(own, spaces, tables) && forall p :: Tables(own', p) == Tables(own, p)
    ensures Within(own', spaces, tables)
  {
  }
}
