/** One arena of the kernel heap: chunk headers linked both ways, split by allocation, joined by the two
    merge routines. */
module HeapChunks {
  import opened Basics

  /** Bytes of a packed chunk header. */
  const HEADER: nat := 25
  /** A chunk is split only if the rest has room for a header and this much more. */
  const THRESHOLD: nat := 8

  datatype Header = Header(size: nat, free: bool, next: Option<nat>, prev: Option<nat>)

  /** A chunk as the layout sees it: where its header is, the bytes behind it, whether they are free. */
  datatype Piece = Piece(addr: nat, size: nat, free: bool)

  type Layout = seq<Piece>

  function EndOf(p: Piece): nat { p.addr + HEADER + p.size }

  /** The chunks follow one another from base to limit with nothing between and nothing left over. */
  ghost predicate Tiled(v: Layout, base: nat, limit: nat) {
    && |v| > 0 && v[0].addr == base && EndOf(v[|v| - 1]) == limit
    && forall i :: 0 < i < |v| ==> v[i].addr == EndOf(v[i - 1])
  }

  function NextOf(v: Layout, i: nat): Option<nat>
    requires i < |v|
  {
    if i + 1 < |v| then Some(v[i + 1].addr) else None
  }

  function PrevOf(v: Layout, i: nat): Option<nat>
    requires i < |v|
  {
    if i > 0 then Some(v[i - 1].addr) else None
  }

  ghost predicate LinkedAt(mem: map<nat, Header>, v: Layout, i: nat)
    requires i < |v|
  {
    v[i].addr in mem && mem[v[i].addr] == Header(v[i].size, v[i].free, NextOf(v, i), PrevOf(v, i))
  }

  /** The headers in memory are those of the layout, linked both ways. */
  ghost predicate Linked(mem: map<nat, Header>, v: Layout) {
    forall i :: 0 <= i < |v| ==> LinkedAt(mem, v, i)
  }

  lemma {:induction false} InOrder(v: Layout, base: nat, limit: nat, i: nat, j: nat)
    requires Tiled(v, base, limit) && i < j < |v|
    ensures EndOf(v[i]) <= v[j].addr
    decreases j
  {
    if i + 1 < j { InOrder(v, base, limit, i, j - 1); }
  }

  lemma {:induction false} Bounds(v: Layout, base: nat, limit: nat, i: nat)
    requires Tiled(v, base, limit) && i < |v|
    ensures base <= v[i].addr && EndOf(v[i]) <= limit
  {
    if i > 0 { InOrder(v, base, limit, 0, i); }
    if i < |v| - 1 { InOrder(v, base, limit, i, |v| - 1); }
  }

  lemma {:induction false} OneAddress(v: Layout, base: nat, limit: nat)
    requires Tiled(v, base, limit)
    ensures forall i, j :: 0 <= i < |v| && 0 <= j < |v| && v[i].addr == v[j].addr ==> i == j
  {
    forall i, j | 0 <= i < |v| && 0 <= j < |v| && v[i].addr == v[j].addr ensures i == j {
      if i < j { InOrder(v, base, limit, i, j); }
      if j < i { InOrder(v, base, limit, j, i); }
    }
  }

  lemma {:induction false} Apart(v: Layout, base: nat, limit: nat, i: nat, j: nat)
    requires Tiled(v, base, limit) && i < |v| && j < |v| && i != j
    ensures v[i].addr != v[j].addr
  {
    if i < j { InOrder(v, base, limit, i, j); } else { InOrder(v, base, limit, j, i); }
  }

  // ---------------------------------------------------------------- what the routines do to the layout

  predicate Fits(p: Piece, size: nat) { p.free && p.size >= size }

  predicate Splits(p: Piece, size: nat) { p.size - size >= HEADER + THRESHOLD }

  /** Chunk i cut down to the size asked for, the rest a free chunk of its own, if it is big enough. */
  function Split(v: Layout, i: nat, size: nat): Layout
    requires i < |v| && v[i].size >= size
  {
    var p := v[i];
    if !Splits(p, size) then v
    else v[..i] + [Piece(p.addr, size, p.free), Piece(p.addr + HEADER + size, p.size - size - HEADER, true)] + v[i + 1..]
  }

  function Flagged(v: Layout, i: nat, free: bool): Layout
    requires i < |v|
  {
    v[i := v[i].(free := free)]
  }

  function Allocated(v: Layout, i: nat, size: nat): Layout
    requires i < |v| && v[i].size >= size
  {
    Flagged(Split(v, i, size), i, false)
  }

  /** Chunks k and k + 1 made one. */
  function Joined(v: Layout, k: nat): Layout
    requires k + 1 < |v|
  {
    v[..k] + [Piece(v[k].addr, v[k].size + v[k + 1].size + HEADER, v[k].free)] + v[k + 2..]
  }

  /** The first chunk that is free and big enough. */
  ghost predicate FirstFit(v: Layout, size: nat, i: nat) {
    i < |v| && Fits(v[i], size) && forall j :: 0 <= j < i ==> !Fits(v[j], size)
  }

  ghost predicate NoFit(v: Layout, size: nat) { forall j :: 0 <= j < |v| ==> !Fits(v[j], size) }

  /** What cutting chunk i to the size asked for makes of the layout, in numbers. If at least 33 bytes are left
      over, the chunk has exactly the bytes asked for and a free one behind it has the rest but for a header of
      25; otherwise the chunk keeps all its bytes. */
  ghost predicate Cut(v: Layout, w: Layout, i: nat, size: nat, free: bool) {
    && i < |v| && i < |w| && (forall k :: 0 <= k < i ==> w[k] == v[k])
    && if v[i].size - size >= 33 then
         && |w| == |v| + 1 && w[i] == Piece(v[i].addr, size, free)
         && w[i + 1] == Piece(v[i].addr + 25 + size, v[i].size - size - 25, true)
         && (forall k :: i < k < |v| ==> w[k + 1] == v[k])
       else
         && |w| == |v| && w[i] == Piece(v[i].addr, v[i].size, free)
         && (forall k :: i < k < |v| ==> w[k] == v[k])
  }

  lemma {:induction false} SplitCuts(v: Layout, i: nat, size: nat)
    requires i < |v| && v[i].size >= size
    ensures Cut(v, Split(v, i, size), i, size, v[i].free)
  {
  }

  lemma {:induction false} AllocatedCuts(v: Layout, i: nat, size: nat)
    requires i < |v| && v[i].size >= size
    ensures Cut(v, Allocated(v, i, size), i, size, false)
  {
  }

  lemma {:induction false} SplitTiled(v: Layout, base: nat, limit: nat, i: nat, size: nat)
    requires Tiled(v, base, limit) && i < |v| && v[i].size >= size
    ensures Tiled(Split(v, i, size), base, limit)
  {
    var w := Split(v, i, size);
    if Splits(v[i], size) {
      forall k | 0 < k < |w| ensures w[k].addr == EndOf(w[k - 1]) {
        if k > i + 1 { assert w[k] == v[k - 1]; }
      }
    }
  }

  lemma {:induction false} JoinedTiled(v: Layout, base: nat, limit: nat, k: nat)
    requires Tiled(v, base, limit) && k + 1 < |v|
    ensures Tiled(Joined(v, k), base, limit)
  {
    var w := Joined(v, k);
    forall i | 0 < i < |w| ensures w[i].addr == EndOf(w[i - 1]) {
      if i > k { assert w[i] == v[i + 1]; }
    }
  }

  lemma {:induction false} SplitAt(v: Layout, i: nat, size: nat, k: nat)
    requires i < |v| && v[i].size >= size && Splits(v[i], size) && k <= |v|
    ensures |Split(v, i, size)| == |v| + 1
    ensures k < i ==> Split(v, i, size)[k] == v[k]
    ensures k > i + 1 ==> Split(v, i, size)[k] == v[k - 1]
  {
  }

  /** A header that a split leaves alone, or of which it changes only the link back. */
  lemma {:induction false} SplitLinkedAt(mem: map<nat, Header>, v: Layout, base: nat, limit: nat, i: nat, size: nat, k: nat)
    requires Tiled(v, base, limit) && Linked(mem, v) && i < |v| && v[i].size >= size && Splits(v[i], size)
    requires k <= |v| && k != i && k != i + 1 && LinkedAt(mem, v, i)
    ensures LinkedAt(SplitMem(mem, v[i].addr, size), Split(v, i, size), k)
  {
    var w := Split(v, i, size);
    SplitTiled(v, base, limit, i, size);
    SplitAt(v, i, size, k);
    Apart(w, base, limit, k, i);
    Apart(w, base, limit, k, i + 1);
    if k < i {
      assert LinkedAt(mem, v, k);
      SplitAt(v, i, size, k + 1);
      if i + 1 < |v| { Apart(w, base, limit, k, i + 2); }
      if k > 0 { SplitAt(v, i, size, k - 1); }
    } else {
      assert LinkedAt(mem, v, k - 1);
      if k < |v| { SplitAt(v, i, size, k + 1); }
      if k > i + 2 {
        Apart(w, base, limit, k, i + 2);
        SplitAt(v, i, size, i + 2);
        SplitAt(v, i, size, k - 1);
      }
    }
  }

  lemma {:induction false} SplitLinked(mem: map<nat, Header>, v: Layout, base: nat, limit: nat, i: nat, size: nat)
    requires Tiled(v, base, limit) && Linked(mem, v) && i < |v| && v[i].size >= size && Splits(v[i], size)
    ensures LinkedAt(mem, v, i) && Linked(SplitMem(mem, v[i].addr, size), Split(v, i, size))
  {
    assert LinkedAt(mem, v, i);
    var w := Split(v, i, size);
    SplitTiled(v, base, limit, i, size);
    if i > 0 { SplitAt(v, i, size, i - 1); }
    if i + 1 < |v| { SplitAt(v, i, size, i + 2); }
    forall k | 0 <= k < |w| ensures LinkedAt(SplitMem(mem, v[i].addr, size), w, k) {
      if k != i && k != i + 1 { SplitLinkedAt(mem, v, base, limit, i, size, k); }
    }
  }

  /** The three headers a split writes. */
  function SplitMem(mem: map<nat, Header>, block: nat, size: nat): map<nat, Header>
    requires block in mem && mem[block].size >= size + HEADER
  {
    var h := mem[block];
    var rest := block + HEADER + size;
    var m1 := if h.next.Some? && h.next.value in mem then mem[h.next.value := mem[h.next.value].(prev := Some(rest))] else mem;
    m1[rest := Header(h.size - size - HEADER, true, h.next, Some(block))][block := Header(size, h.free, Some(rest), h.prev)]
  }

  /** The two headers a join writes. */
  function JoinMem(mem: map<nat, Header>, head: nat, tail: nat): map<nat, Header>
    requires head in mem && tail in mem
  {
    var h, t := mem[head], mem[tail];
    var m1 := mem[head := Header(h.size + t.size + HEADER, h.free, t.next, h.prev)];
    if t.next.Some? && t.next.value in mem then m1[t.next.value := m1[t.next.value].(prev := Some(head))] else m1
  }

  lemma {:induction false} JoinedLinked(mem: map<nat, Header>, v: Layout, base: nat, limit: nat, k: nat)
    requires Tiled(v, base, limit) && Linked(mem, v) && k + 1 < |v|
    ensures v[k].addr in mem && v[k + 1].addr in mem
    ensures Linked(JoinMem(mem, v[k].addr, v[k + 1].addr), Joined(v, k))
  {
    var w := Joined(v, k);
    OneAddress(v, base, limit);
    assert LinkedAt(mem, v, k) && LinkedAt(mem, v, k + 1);
    if k + 2 < |v| { assert LinkedAt(mem, v, k + 2); assert w[k + 1] == v[k + 2]; }
    var mem1 := JoinMem(mem, v[k].addr, v[k + 1].addr);
    forall i | 0 <= i < |w| ensures LinkedAt(mem1, w, i) {
      if i < k {
        assert LinkedAt(mem, v, i);
      } else if i > k {
        assert LinkedAt(mem, v, i + 1);
        assert w[i] == v[i + 1];
      }
    }
  }

  lemma {:induction false} FlaggedOk(mem: map<nat, Header>, v: Layout, base: nat, limit: nat, i: nat, free: bool)
    requires Tiled(v, base, limit) && Linked(mem, v) && i < |v|
    ensures v[i].addr in mem
    ensures Tiled(Flagged(v, i, free), base, limit)
    ensures Linked(mem[v[i].addr := mem[v[i].addr].(free := free)], Flagged(v, i, free))
  {
    assert LinkedAt(mem, v, i);
    var w := Flagged(v, i, free);
    var mem1 := mem[v[i].addr := mem[v[i].addr].(free := free)];
    OneAddress(v, base, limit);
    forall k | 0 <= k < |w| ensures LinkedAt(mem1, w, k) {
      assert LinkedAt(mem, v, k);
    }
  }

  // ---------------------------------------------------------------- merging

  /** The chunks in use. */
  ghost function Live(v: Layout): (r: set<Piece>)
    ensures forall p :: p in r <==> p in v && !p.free
  {
    set p | p in v && !p.free
  }

  /** The first chunk of the row of free chunks that ends at i. */
  function RunStart(v: Layout, i: nat): (lo: nat)
    requires i < |v|
    ensures lo <= i
    decreases i
  {
    if i == 0 || !v[i - 1].free then i else RunStart(v, i - 1)
  }

  lemma {:induction false} RunStartOk(v: Layout, i: nat)
    requires i < |v|
    ensures var lo := RunStart(v, i);
      (lo == 0 || !v[lo - 1].free) && forall k :: lo <= k < i ==> v[k].free
    decreases i
  {
    if i > 0 && v[i - 1].free { RunStartOk(v, i - 1); }
  }

  /** The last chunk of the row of free chunks that starts at i. */
  function RunEnd(v: Layout, i: nat): (hi: nat)
    requires i < |v|
    ensures i <= hi < |v|
    decreases |v| - i
  {
    if i + 1 == |v| || !v[i + 1].free then i else RunEnd(v, i + 1)
  }

  lemma {:induction false} RunEndOk(v: Layout, i: nat)
    requires i < |v|
    ensures var hi := RunEnd(v, i);
      (hi + 1 == |v| || !v[hi + 1].free) && forall k :: i < k <= hi ==> v[k].free
    decreases |v| - i
  {
    if i + 1 < |v| && v[i + 1].free { RunEndOk(v, i + 1); }
  }

  /** The layout w is v with the chunks lo to hi made one. */
  ghost predicate Collapsed(w: Layout, v: Layout, lo: nat, hi: nat) {
    && lo <= hi < |v| && |w| == |v| - (hi - lo)
    && w[lo].addr == v[lo].addr && EndOf(w[lo]) == EndOf(v[hi]) && w[lo].free == v[lo].free
    && (forall k :: 0 <= k < lo ==> w[k] == v[k])
    && (forall k :: lo < k < |w| ==> w[k] == v[k + (hi - lo)])
  }

  ghost predicate FreeRow(v: Layout, lo: nat, hi: nat) {
    lo <= hi < |v| && forall k :: lo <= k <= hi ==> v[k].free
  }

  /** If they were free, every chunk in use stays. */
  lemma {:induction false} CollapsedLive(w: Layout, v: Layout, lo: nat, hi: nat)
    requires Collapsed(w, v, lo, hi) && FreeRow(v, lo, hi)
    ensures Live(w) == Live(v)
  {
    var d := hi - lo;
    forall p: Piece | !p.free ensures p in w <==> p in v {
      if p in v {
        var i :| 0 <= i < |v| && v[i] == p;
        assert i < lo || i > hi;
        assert if i < lo then w[i] == p else w[i - d] == v[i - d + d];
      }
      if p in w {
        var i :| 0 <= i < |w| && w[i] == p;
        assert i != lo;
        assert if i < lo then w[i] == v[i] else w[i] == v[i + d];
      }
    }
  }

  /** Collapsing a row and then a row around it is collapsing the larger row. */
  lemma {:induction false} CollapsedTwice(w: Layout, u: Layout, v: Layout, a: nat, b: nat, c: nat, d: nat)
    requires Collapsed(u, v, a, b) && Collapsed(w, u, c, d) && c <= a <= d
    ensures Collapsed(w, v, c, d + (b - a))
  {
    var e := b - a;
    if d > a { assert u[d] == v[d + e]; }
    if c < a { assert u[c] == v[c]; }
    forall k | c < k < |w| ensures w[k] == v[k + (d + e - c)] {
      assert w[k] == u[k + (d - c)];
      assert u[k + (d - c)] == v[k + (d - c) + e];
    }
  }

  lemma {:induction false} JoinedCollapsed(v: Layout, base: nat, limit: nat, k: nat)
    requires Tiled(v, base, limit) && k + 1 < |v|
    ensures Collapsed(Joined(v, k), v, k, k + 1)
  {
  }

  /** Where the run of free chunks starts depends only on what comes before. */
  lemma {:induction false} RunStartOf(v: Layout, w: Layout, i: nat)
    requires i < |v| && i < |w| && forall k :: 0 <= k < i ==> v[k] == w[k]
    ensures RunStart(v, i) == RunStart(w, i)
    decreases i
  {
    if i > 0 && v[i - 1].free { RunStartOf(v, w, i - 1); }
  }

  /** Where it ends depends only on what comes behind. */
  lemma {:induction false} RunEndOf(w: Layout, v: Layout, i: nat, d: nat)
    requires i < |w| && |w| + d == |v| && forall k :: i < k < |w| ==> w[k] == v[k + d]
    ensures RunEnd(w, i) + d == RunEnd(v, i + d)
    decreases |w| - i
  {
    if i + 1 < |w| {
      assert w[i + 1] == v[i + 1 + d];
      if w[i + 1].free { RunEndOf(w, v, i + 1, d); }
    }
  }

  /** One step of merging backwards: what is left to merge comes to the same. */
  lemma {:induction false} MergePrevStep(w: Layout, u: Layout, v: Layout, i: nat)
    requires 0 < i < |v| && v[i - 1].free
    requires Collapsed(u, v, i - 1, i) && Collapsed(w, u, RunStart(u, i - 1), i - 1)
    ensures RunStart(u, i - 1) == RunStart(v, i) && Collapsed(w, v, RunStart(v, i), i)
  {
    RunStartOf(u, v, i - 1);
    CollapsedTwice(w, u, v, i - 1, i, RunStart(u, i - 1), i - 1);
  }

  /** One step of merging forwards. */
  lemma {:induction false} MergeNextStep(w: Layout, u: Layout, v: Layout, i: nat)
    requires i + 1 < |v| && v[i + 1].free
    requires Collapsed(u, v, i, i + 1) && Collapsed(w, u, i, RunEnd(u, i))
    ensures Collapsed(w, v, i, RunEnd(v, i))
  {
    RunEndOf(u, v, i, 1);
    CollapsedTwice(w, u, v, i, i + 1, i, RunEnd(u, i));
  }

  /** Merging backwards and then forwards makes one chunk of the whole row of free chunks. */
  lemma {:induction false} MergedBothWays(v: Layout, w: Layout, x: Layout, i: nat)
    requires i < |v| && Collapsed(w, v, RunStart(v, i), i)
    requires Collapsed(x, w, RunStart(v, i), RunEnd(w, RunStart(v, i)))
    ensures Collapsed(x, v, RunStart(v, i), RunEnd(v, i))
  {
    var lo := RunStart(v, i);
    RunEndOf(w, v, lo, i - lo);
    CollapsedTwice(x, w, v, lo, i, lo, RunEnd(w, lo));
  }

  lemma {:induction false} RowIsFree(v: Layout, i: nat)
    requires i < |v| && v[i].free
    ensures FreeRow(v, RunStart(v, i), RunEnd(v, i)) && FreeRow(v, RunStart(v, i), i) && FreeRow(v, i, RunEnd(v, i))
  {
    RunStartOk(v, i);
    RunEndOk(v, i);
  }

  /** Flagging a chunk free takes exactly that chunk out of use. */
  lemma {:induction false} FlaggedLive(v: Layout, base: nat, limit: nat, i: nat)
    requires Tiled(v, base, limit) && i < |v|
    ensures Live(Flagged(v, i, true)) == Live(v) - {v[i]}
  {
    var w := Flagged(v, i, true);
    OneAddress(v, base, limit);
    forall p: Piece | !p.free ensures p in w <==> p in v && p != v[i] {
      if p in v && p != v[i] {
        var k :| 0 <= k < |v| && v[k] == p;
        assert w[k] == p;
      }
      if p in w {
        var k :| 0 <= k < |w| && w[k] == p;
        assert k != i && v[k] == p;
      }
    }
  }

  /** No two chunks in a row are free. */
  ghost predicate Coalesced(v: Layout) { forall k :: 0 < k < |v| ==> !(v[k - 1].free && v[k].free) }

  /** Freeing a chunk and merging both ways: if no two free chunks were in a row, none are afterwards. */
  lemma {:induction false} FreeAndMergeCoalesces(v: Layout, u: Layout, w: Layout, i: nat)
    requires Coalesced(v) && i < |v| && u == Flagged(v, i, true)
    requires Collapsed(w, u, RunStart(u, i), RunEnd(u, i))
    ensures Coalesced(w)
  {
    var lo, hi := RunStart(u, i), RunEnd(u, i);
    RunStartOk(u, i);
    RunEndOk(u, i);
    forall k | 0 < k < |w| ensures !(w[k - 1].free && w[k].free) {
      if k < lo {
        assert w[k] == v[k] && w[k - 1] == v[k - 1];
      } else if k > lo {
        assert w[k] == v[k + (hi - lo)];
        if k > lo + 1 { assert w[k - 1] == v[k - 1 + (hi - lo)]; }
      }
    }
  }

  // ---------------------------------------------------------------- the regions in use

  /** A region of n bytes is held in a chunk in use whose header is at a. */
  ghost predicate Held(v: Layout, a: nat, n: nat) {
    exists i :: 0 <= i < |v| && v[i].addr == a && !v[i].free && v[i].size >= n
  }

  /** The chunks in use are exactly those handed out and not given back, each as large as asked for. */
  ghost predicate Books(v: Layout, asked: map<nat, nat>) {
    && (forall a :: a in asked ==> Held(v, a, asked[a]))
    && (forall i :: 0 <= i < |v| && !v[i].free ==> v[i].addr in asked)
  }

  lemma {:induction false} AllocatedAt(v: Layout, i: nat, size: nat)
    requires i < |v| && v[i].size >= size
    ensures var w := Allocated(v, i, size);
      && |w| >= |v| && w[i].addr == v[i].addr && !w[i].free && w[i].size >= size
      && (forall k :: 0 <= k < i ==> w[k] == v[k])
      && (Splits(v[i], size) ==> |w| == |v| + 1 && w[i + 1].free && forall k :: i < k < |v| ==> w[k + 1] == v[k])
      && (!Splits(v[i], size) ==> |w| == |v| && forall k :: i < k < |v| ==> w[k] == v[k])
  {
  }

  lemma {:induction false} AllocatedHeld(v: Layout, i: nat, size: nat, a: nat, n: nat)
    requires i < |v| && Fits(v[i], size) && Held(v, a, n)
    ensures Held(Allocated(v, i, size), a, n)
  {
    AllocatedAt(v, i, size);
    var k :| 0 <= k < |v| && v[k].addr == a && !v[k].free && v[k].size >= n;
    var w := Allocated(v, i, size);
    assert w[if k < i || !Splits(v[i], size) then k else k + 1] == v[k];
  }

  lemma {:induction false} AllocatedBooks(v: Layout, asked: map<nat, nat>, i: nat, size: nat)
    requires Books(v, asked) && i < |v| && Fits(v[i], size)
    ensures Books(Allocated(v, i, size), asked[v[i].addr := size])
  {
    var w, asked1 := Allocated(v, i, size), asked[v[i].addr := size];
    AllocatedAt(v, i, size);
    forall a | a in asked1 ensures Held(w, a, asked1[a]) {
      if a != v[i].addr { AllocatedHeld(v, i, size, a, asked[a]); }
    }
    forall k | 0 <= k < |w| && !w[k].free ensures w[k].addr in asked1 {
      if k > i {
        var j := if Splits(v[i], size) then k - 1 else k;
        if j > i { assert w[k] == v[j]; }
      } else if k < i {
        assert w[k] == v[k];
      }
    }
  }

  /** A chunk that is handed out was not in use before. */
  lemma {:induction false} FreshlyHeld(v: Layout, base: nat, limit: nat, asked: map<nat, nat>, i: nat)
    requires Tiled(v, base, limit) && Books(v, asked) && i < |v| && v[i].free
    ensures v[i].addr !in asked
  {
    if v[i].addr in asked {
      assert Held(v, v[i].addr, asked[v[i].addr]);
      OneAddress(v, base, limit);
      assert false;
    }
  }

  lemma {:induction false} HandedOut(v: Layout, base: nat, limit: nat, asked: map<nat, nat>, i: nat, size: nat)
    requires Tiled(v, base, limit) && Books(v, asked) && FirstFit(v, size, i)
    ensures Books(Allocated(v, i, size), asked[v[i].addr := size]) && v[i].addr !in asked && !NoFit(v, size)
  {
    AllocatedBooks(v, asked, i, size);
    FreshlyHeld(v, base, limit, asked, i);
  }

  lemma {:induction false} FreedBooks(v: Layout, base: nat, limit: nat, asked: map<nat, nat>, i: nat)
    requires Tiled(v, base, limit) && Books(v, asked) && i < |v|
    ensures Books(Flagged(v, i, true), asked - {v[i].addr})
  {
    var w, asked1 := Flagged(v, i, true), asked - {v[i].addr};
    OneAddress(v, base, limit);
    forall a | a in asked1 ensures Held(w, a, asked1[a]) {
      var k :| 0 <= k < |v| && v[k].addr == a && !v[k].free && v[k].size >= asked[a];
      assert w[k] == v[k];
    }
  }

  /** The regions handed out lie in the arena and no two of them overlap. */
  lemma {:induction false} RegionsDisjoint(v: Layout, base: nat, limit: nat, asked: map<nat, nat>, a: nat, b: nat)
    requires Tiled(v, base, limit) && Books(v, asked) && a in asked && b in asked && a < b
    ensures base <= a && a + HEADER + asked[a] <= b && b + HEADER + asked[b] <= limit
  {
    assert Held(v, a, asked[a]) && Held(v, b, asked[b]);
    var i :| 0 <= i < |v| && v[i].addr == a && !v[i].free && v[i].size >= asked[a];
    var j :| 0 <= j < |v| && v[j].addr == b && !v[j].free && v[j].size >= asked[b];
    Bounds(v, base, limit, i);
    Bounds(v, base, limit, j);
    if i < j { InOrder(v, base, limit, i, j); }
    if j < i { InOrder(v, base, limit, j, i); }
  }

  /** A free chunk at the given place with room for n regions of this size. */
  ghost predicate RoomFor(p: Piece, addr: nat, want: nat, n: nat) {
    p.addr == addr && p.free && p.size >= n * (want + 25) - 17
  }

  lemma {:induction false} Times(k: nat, c: nat)
    ensures (k + 1) * c == k * c + c
  {
  }

  lemma {:induction false} RoomAndMore(p: Piece, addr: nat, want: nat, n: nat)
    requires RoomFor(p, addr, want, n) && n > 0
    ensures p.size >= want
    ensures n > 1 ==> p.size - want >= 33
    ensures n > 1 ==> RoomFor(Piece(addr + 25 + want, p.size - want - 25, true), addr + (want + 25), want, n - 1)
  {
    Times(n - 1, want + 25);
    Scaled(1, n, want + 25);
    if n > 1 { Times(n - 2, want + 25); }
  }

  // ---------------------------------------------------------------- the arena

  datatype Op = Malloc(size: nat) | Free(region: nat)

  class Arena {
    const base: nat
    const size: nat
    var mem: map<nat, Header>
    ghost var view: Layout

    ghost predicate Valid()
      reads this
    {
      Tiled(view, base, base + size) && Linked(mem, view)
    }

    constructor (at: nat, bytes: nat)
      requires bytes >= HEADER
      ensures Valid() && base == at && size == bytes && view == [Piece(at, bytes - HEADER, true)]
    {
      base, size := at, bytes;
      mem := map[at := Header(bytes - HEADER, true, None, None)];
      view := [Piece(at, bytes - HEADER, true)];
    }

    method SplitBlock(block: nat, want: nat, ghost i: nat)
      requires Valid() && i < |view| && view[i].addr == block && view[i].size >= want
      modifies this`mem, this`view
      ensures Valid() && view == Split(old(view), i, want) && Cut(old(view), view, i, want, old(view)[i].free)
    {
      SplitCuts(view, i, want);
      assert LinkedAt(mem, view, i);
      if mem[block].size - want < HEADER + THRESHOLD { return; }
      SplitLinked(mem, view, base, base + size, i, want);
      SplitTiled(view, base, base + size, i, want);
      if mem[block].next.Some? { assert LinkedAt(mem, view, i + 1); }
      WriteSplit(block, want);
      view := Split(view, i, want);
    }

    /** Three headers change: the rest becomes a chunk, the one behind points back at it, the first shrinks. */
    method WriteSplit(block: nat, want: nat)
      requires block in mem && mem[block].size >= want + HEADER
      requires mem[block].next.Some? ==> mem[block].next.value in mem
      modifies this`mem
      ensures mem == SplitMem(old(mem), block, want)
    {
      var h := mem[block];
      var rest := block + HEADER + want;
      if h.next.Some? { mem := mem[h.next.value := mem[h.next.value].(prev := Some(rest))]; }
      mem := mem[rest := Header(h.size - want - HEADER, true, h.next, Some(block))];
      mem := mem[block := Header(want, h.free, Some(rest), h.prev)];
    }

    /** First fit, split to size. */
    method FindFree(want: nat) returns (block: Option<nat>, ghost i: nat)
      requires Valid()
      modifies this`mem, this`view
      ensures Valid()
      ensures block.None? ==> NoFit(old(view), want) && view == old(view) && mem == old(mem)
      ensures block.Some? ==> FirstFit(old(view), want, i) && block == Some(old(view)[i].addr)
      ensures block.Some? ==> view == Split(old(view), i, want)
    {
      block, i := Some(base), 0;
      while block.Some?
        invariant i <= |view| && block == if i < |view| then Some(view[i].addr) else None
        invariant forall j :: 0 <= j < i ==> !Fits(view[j], want)
        decreases |view| - i
      {
        assert LinkedAt(mem, view, i);
        if mem[block.value].free && mem[block.value].size >= want {
          SplitBlock(block.value, want, i);
          return;
        }
        block, i := mem[block.value].next, i + 1;
      }
    }

    /** Allocate from the first chunk that fits; none is found exactly when no free chunk is large enough. */
    method Kmalloc(want: nat) returns (region: Option<nat>, ghost i: nat)
      requires Valid()
      modifies this`mem, this`view
      ensures Valid()
      ensures region.None? <==> NoFit(old(view), want)
      ensures region.None? ==> view == old(view) && mem == old(mem)
      ensures region.Some? ==> FirstFit(old(view), want, i) && region == Some(old(view)[i].addr + 25)
      ensures region.Some? ==> view == Allocated(old(view), i, want) && Cut(old(view), view, i, want, false)
    {
      var block;
      block, i := FindFree(want);
      if block.None? { return None, i; }
      AllocatedAt(old(view), i, want);
      AllocatedCuts(old(view), i, want);
      assert view[i].addr == old(view)[i].addr;
      SetFree(block.value, false, i);
      region := Some(block.value + HEADER);
    }

    method SetFree(block: nat, free: bool, ghost i: nat)
      requires Valid() && i < |view| && view[i].addr == block
      modifies this`mem, this`view
      ensures Valid() && view == Flagged(old(view), i, free)
    {
      FlaggedOk(mem, view, base, base + size, i, free);
      mem := mem[block := mem[block].(free := free)];
      view := Flagged(view, i, free);
    }

    method Kfree(region: nat, ghost i: nat)
      requires Valid() && i < |view| && view[i].addr + HEADER == region
      modifies this`mem, this`view
      ensures Valid() && view == Flagged(old(view), i, true)
    {
      SetFree(region - HEADER, true, i);
    }

    method Join(head: nat, tail: nat, ghost k: nat)
      requires Valid() && k + 1 < |view| && view[k].addr == head && view[k + 1].addr == tail
      modifies this`mem, this`view
      ensures Valid() && view == Joined(old(view), k)
    {
      JoinedLinked(mem, view, base, base + size, k);
      JoinedTiled(view, base, base + size, k);
      ghost var mem1 := JoinMem(mem, head, tail);
      assert LinkedAt(mem, view, k) && LinkedAt(mem, view, k + 1);
      var t := mem[tail];
      mem := mem[head := mem[head].(size := mem[head].size + t.size + HEADER, next := t.next)];
      if t.next.Some? {
        assert LinkedAt(old(mem), view, k + 2);
        mem := mem[t.next.value := mem[t.next.value].(prev := Some(head))];
      }
      assert mem == mem1;
      view := Joined(view, k);
    }

    /** Join a free chunk with the free chunks before it. */
    method MergePrev(cur: nat, prev: Option<nat>, ghost i: nat) returns (head: nat)
      requires Valid() && i < |view| && view[i].addr == cur && prev == PrevOf(view, i)
      modifies this`mem, this`view
      ensures Valid() && Collapsed(view, old(view), RunStart(old(view), i), i)
      ensures head == view[RunStart(old(view), i)].addr
      ensures old(view)[i].free ==> Live(view) == Live(old(view)) && view[RunStart(old(view), i)].free
      ensures RunStart(old(view), i) == 0 || !view[RunStart(old(view), i) - 1].free
      decreases i
    {
      head := JoinPrev(cur, prev, i);
      RunStartOk(old(view), i);
      if old(view)[i].free {
        RowIsFree(old(view), i);
        CollapsedLive(view, old(view), RunStart(old(view), i), i);
      }
    }

    method JoinPrev(cur: nat, prev: Option<nat>, ghost i: nat) returns (head: nat)
      requires Valid() && i < |view| && view[i].addr == cur && prev == PrevOf(view, i)
      modifies this`mem, this`view
      ensures Valid() && Collapsed(view, old(view), RunStart(old(view), i), i)
      ensures head == view[RunStart(old(view), i)].addr
      decreases i
    {
      if prev.None? { return cur; }
      assert LinkedAt(mem, view, i - 1);
      if !mem[prev.value].free { return cur; }
      Join(prev.value, cur, i - 1);
      ghost var u := view;
      JoinedCollapsed(old(view), base, base + size, i - 1);
      assert LinkedAt(mem, view, i - 1);
      head := JoinPrev(prev.value, mem[prev.value].prev, i - 1);
      MergePrevStep(view, u, old(view), i);
    }

    /** Join a free chunk with the free chunks behind it. */
    method MergeNext(cur: nat, next: Option<nat>, ghost i: nat)
      requires Valid() && i < |view| && view[i].addr == cur && next == NextOf(view, i)
      modifies this`mem, this`view
      ensures Valid() && Collapsed(view, old(view), i, RunEnd(old(view), i))
      ensures old(view)[i].free ==> Live(view) == Live(old(view)) && view[i].free
      ensures i + 1 == |view| || !view[i + 1].free
    {
      JoinNext(cur, next, i);
      RunEndOk(old(view), i);
      if old(view)[i].free {
        RowIsFree(old(view), i);
        CollapsedLive(view, old(view), i, RunEnd(old(view), i));
      }
    }

    method JoinNext(cur: nat, next: Option<nat>, ghost i: nat)
      requires Valid() && i < |view| && view[i].addr == cur && next == NextOf(view, i)
      modifies this`mem, this`view
      ensures Valid() && Collapsed(view, old(view), i, RunEnd(old(view), i))
      decreases |view|
    {
      if next.None? { return; }
      assert LinkedAt(mem, view, i + 1);
      if !mem[next.value].free { return; }
      Join(cur, next.value, i);
      ghost var u := view;
      JoinedCollapsed(old(view), base, base + size, i);
      assert LinkedAt(mem, view, i);
      JoinNext(cur, mem[cur].next, i);
      MergeNextStep(view, u, old(view), i);
    }

    /** Free a region and merge both ways, as the two calls left out of kfree would: the other chunks in use
        stay, and no two free chunks are in a row if there were none. */
    method FreeAndMerge(region: nat, ghost i: nat)
      requires Valid() && i < |view| && view[i].addr + HEADER == region
      modifies this`mem, this`view
      ensures Valid() && Live(view) == Live(old(view)) - {old(view)[i]}
      ensures Coalesced(old(view)) ==> Coalesced(view)
    {
      Kfree(region, i);
      ghost var u := view;
      FlaggedLive(old(view), base, base + size, i);
      assert LinkedAt(mem, view, i);
      var head := MergePrev(region - HEADER, mem[region - HEADER].prev, i);
      ghost var w, lo := view, RunStart(u, i);
      assert LinkedAt(mem, view, lo);
      MergeNext(head, mem[head].next, lo);
      MergedBothWays(u, w, view, i);
      if Coalesced(old(view)) { FreeAndMergeCoalesces(old(view), u, view, i); }
    }

    /** From one free chunk, n regions of equal size can be had whenever it has room for them, the headers
        between them and 8 bytes more; they come one after the other. */
    method KmallocMany(want: nat, n: nat) returns (regions: seq<nat>)
      requires Valid() && n > 0 && |view| == 1 && view[0].free && view[0].size >= n * (want + 25) - 17
      modifies this`mem, this`view
      ensures Valid() && |regions| == n && regions[0] == base + 25
      ensures forall k :: 0 < k < n ==> regions[k] == regions[k - 1] + want + 25
      ensures forall k :: 0 <= k < n ==> regions[k] >= 25 && Held(view, regions[k] - 25, want)
    {
      regions := [];
      for k := 0 to n
        invariant Valid() && |regions| == k && |view| >= k
        invariant forall j :: 0 <= j < k ==> view[j] == Piece(base + j * (want + 25), view[j].size, false) && view[j].size >= want
        invariant forall j :: 0 <= j < k ==> regions[j] == base + j * (want + 25) + 25
        invariant k < n ==> |view| == k + 1 && RoomFor(view[k], base + k * (want + 25), want, n - k)
      {
        ghost var v := view;
        var region, i := Kmalloc(want);
        RoomAndMore(v[k], base + k * (want + 25), want, n - k);
        assert Fits(v[k], want);
        assert i == k;
        regions := regions + [region.value];
        Times(k, want + 25);
      }
      forall k | 0 < k < n ensures regions[k] == regions[k - 1] + want + 25 { Times(k - 1, want + 25); }
      forall k | 0 <= k < n ensures regions[k] >= 25 && Held(view, regions[k] - 25, want) { assert view[k].addr == regions[k] - 25; }
    }

    /** Any run of allocations and of frees of regions in use. */
    method Run(ops: seq<Op>) returns (asked: map<nat, nat>)
      requires Valid() && Books(view, map[])
      modifies this`mem, this`view
      ensures Valid() && Books(view, asked)
    {
      asked := map[];
      for k := 0 to |ops|
        invariant Valid() && Books(view, asked)
      {
        asked := Step(ops[k], asked);
      }
    }

    method Step(op: Op, asked: map<nat, nat>) returns (asked1: map<nat, nat>)
      requires Valid() && Books(view, asked)
      modifies this`mem, this`view
      ensures Valid() && Books(view, asked1)
    {
      match op
      case Malloc(want) => asked1 := HandOut(want, asked);
      case Free(region) => asked1 := TakeBack(region, asked);
    }

    /** A region that was not in use, or none because no free chunk is large enough. */
    method HandOut(want: nat, asked: map<nat, nat>) returns (asked1: map<nat, nat>)
      requires Valid() && Books(view, asked)
      modifies this`mem, this`view
      ensures Valid() && Books(view, asked1)
      ensures if NoFit(old(view), want) then asked1 == asked
        else exists a: nat :: a !in asked && asked1 == asked[a := want]
    {
      ghost var v := view;
      var region, i := Kmalloc(want);
      if region.None? { return asked; }
      HandedOut(v, base, base + size, asked, i, want);
      asked1 := asked[region.value - HEADER := want];
    }

    method TakeBack(region: nat, asked: map<nat, nat>) returns (asked1: map<nat, nat>)
      requires Valid() && Books(view, asked)
      modifies this`mem, this`view
      ensures Valid() && Books(view, asked1)
      ensures asked1 == if region >= HEADER then asked - {region - HEADER} else asked
    {
      if region < HEADER || region - HEADER !in asked { return asked; }
      assert Held(view, region - HEADER, asked[region - HEADER]);
      ghost var i :| 0 <= i < |view| && view[i].addr == region - HEADER;
      FreedBooks(view, base, base + size, asked, i);
      Kfree(region, i);
      asked1 := asked - {region - HEADER};
    }
  }
}
