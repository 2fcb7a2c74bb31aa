/** The page frame allocator: per-order free lists for two zones and the page array that mirrors them. */
module PageFrames {
  import opened Basics
  import opened BlockRanges

  const ZONE_NORMAL_START: nat := 0x100_0000
  const ULONG_MAX: nat := 0xffff_ffff_ffff_ffff

  datatype Block = Block(start: nat, end: nat)
  /** The free lists of a zone, one per order; the first block of a list is its head. */
  type FreeLists = seq<seq<Block>>

  datatype Zone = Dma | Normal
  datatype Kind = Invalid | Free | InUse
  datatype PageInfo = PageInfo(kind: Kind, order: nat, first: bool)

  datatype Status = Ok | Einval | Enxio
  datatype Op = Alloc(order: nat) | Release(index: nat)

  /** The zone a byte range falls into; a range that straddles the border has none. */
  function GetZone(start: nat, end: nat): (z: Option<Zone>) {
    if end < ZONE_NORMAL_START then Some(Dma)
    else if start >= ZONE_NORMAL_START && end < ULONG_MAX then Some(Normal)
    else None
  }

  /** Below 16 MB throughout, or from 16 MB on and short of the last address. */
  ghost predicate InOneZone(start: nat, end: nat) {
    end < 0x100_0000 || (start >= 0x100_0000 && end < 0xffff_ffff_ffff_ffff)
  }

  // ---------------------------------------------------------------- pages on free lists

  ghost function Extents(l: seq<Block>, order: nat): (r: seq<Extent>)
    ensures |r| == |l| && forall i :: 0 <= i < |l| ==> r[i] == Extent(l[i].start, order)
  {
    seq(|l|, i requires 0 <= i < |l| => Extent(l[i].start, order))
  }

  /** How many blocks of the lists of order below n hold page p. */
  ghost function ListCover(z: FreeLists, n: nat, p: nat): nat
    requires n <= |z|
    decreases n, p
  {
    if n == 0 then 0 else ListCover(z, n - 1, p) + Cover(Extents(z[n - 1], n - 1), p)
  }

  /** Replacing one list changes the count by what that list covers. */
  lemma {:induction false} ListCoverUpdate(z: FreeLists, k: nat, l: seq<Block>, n: nat, p: nat)
    requires k < |z| && n <= |z|
    ensures ListCover(z[k := l], n, p) ==
      if k < n then ListCover(z, n, p) - Cover(Extents(z[k], k), p) + Cover(Extents(l, k), p) else ListCover(z, n, p)
    decreases n
  {
    if n > 0 {
      ListCoverUpdate(z, k, l, n - 1, p);
    }
  }

  lemma {:induction false} CoverPush(b: Block, l: seq<Block>, order: nat, p: nat)
    ensures Cover(Extents([b] + l, order), p) == Held(Extent(b.start, order), p) + Cover(Extents(l, order), p)
  {
    assert Extents([b] + l, order)[1..] == Extents(l, order);
  }

  /** Putting a block at the head of the list of its order. */
  lemma {:induction false} PushCovers(z: FreeLists, k: nat, b: Block, p: nat)
    requires k < |z|
    ensures ListCover(z[k := [b] + z[k]], |z|, p) == ListCover(z, |z|, p) + Held(Extent(b.start, k), p)
  {
    ListCoverUpdate(z, k, [b] + z[k], |z|, p);
    CoverPush(b, z[k], k, p);
  }

  /** Taking the head off a list. */
  lemma {:induction false} PopCovers(z: FreeLists, k: nat, p: nat)
    requires k < |z| && z[k] != []
    ensures ListCover(z, |z|, p) == ListCover(z[k := z[k][1..]], |z|, p) + Held(Extent(z[k][0].start, k), p)
  {
    ListCoverUpdate(z, k, z[k][1..], |z|, p);
    assert z[k] == [z[k][0]] + z[k][1..];
    CoverPush(z[k][0], z[k][1..], k, p);
  }

  /** The pages in the blocks of the lists of order below n. */
  ghost function PageCount(z: FreeLists, n: nat): nat
    requires n <= |z|
  {
    if n == 0 then 0 else PageCount(z, n - 1) + |z[n - 1]| * Pow2(n - 1)
  }

  lemma {:induction false} PageCountUpdate(z: FreeLists, k: nat, l: seq<Block>, n: nat)
    requires k < |z| && n <= |z|
    ensures k < n ==> PageCount(z[k := l], n) + |z[k]| * Pow2(k) == PageCount(z, n) + |l| * Pow2(k)
    ensures k >= n ==> PageCount(z[k := l], n) == PageCount(z, n)
  {
    if n > 0 { PageCountUpdate(z, k, l, n - 1); }
  }

  /** A block more on list k, pages of which go with it. */
  lemma {:induction false} PushCounts(z: FreeLists, k: nat, b: Block)
    requires k < |z|
    ensures CountIs(z, k, z[k := [b] + z[k]])
  {
    PageCountUpdate(z, k, [b] + z[k], |z|);
    OneMore(|z[k]|, Pow2(k));
  }

  lemma {:induction false} PopCounts(z: FreeLists, k: nat)
    requires k < |z| && z[k] != []
    ensures CountIs(z[k := z[k][1..]], k, z)
  {
    PageCountUpdate(z, k, z[k][1..], |z|);
    OneMore(|z[k]| - 1, Pow2(k));
  }

  lemma {:induction false} OneMore(n: nat, m: nat)
    ensures (n + 1) * m == n * m + m
  {
  }

  /** The lists z together with a block of the order have as many pages as the lists z0. */
  ghost predicate CountIs(z: FreeLists, order: nat, z0: FreeLists) {
    PageCount(z, |z|) + Pow2(order) == PageCount(z0, |z0|)
  }

  /** The lists have no page exactly when they have no block. */
  lemma {:induction false} NoPagesIff(z: FreeLists, n: nat)
    requires n <= |z|
    ensures PageCount(z, n) == 0 <==> forall k :: 0 <= k < n ==> z[k] == []
  {
    if n > 0 {
      NoPagesIff(z, n - 1);
      if z[n - 1] != [] { OneMore(|z[n - 1]| - 1, Pow2(n - 1)); }
    }
  }

  ghost predicate BlockOk(b: Block, order: nat) {
    b.start % PAGE_SIZE == 0 && b.end == b.start + Size(order) - 1
  }

  ghost predicate ListsOk(z: FreeLists) {
    |z| == MAX_ORDER && forall k, i :: 0 <= k < |z| && 0 <= i < |z[k]| ==> BlockOk(z[k][i], k)
  }

  /** After splitting the head of list split down to order req: that head is gone, each list from
      split - 1 down to req has one new block, laid out one after the other, and the rest is as it was. */
  ghost predicate Splits(z: FreeLists, z': FreeLists, req: nat, split: nat) {
    && |z| == |z'| && req < split < |z| && z[split] != [] && z'[split] == z[split][1..]
    && (forall j :: req <= j < split ==>
          && z'[j] != [] && z'[j][1..] == z[j]
          && z'[j][0].start + Size(j + 1) == z[split][0].start + Size(split)
          && z'[j][0].end + 1 == z'[j][0].start + Size(j))
    && (forall j :: 0 <= j < |z| && (j < req || j > split) ==> z'[j] == z[j])
  }

  /** The lists z together with block e hold what the lists z0 hold. */
  ghost predicate CoverIs(z: FreeLists, e: Extent, z0: FreeLists) {
    forall p :: ListCover(z, |z|, p) + Held(e, p) == ListCover(z0, |z0|, p)
  }

  /** Splitting the head of list split of z0 has got down to order k, with the block at start in hand. */
  ghost predicate SplitState(z0: FreeLists, z: FreeLists, start: nat, k: nat, split: nat) {
    && ListsOk(z) && split < MAX_ORDER && Splits(z0, z, k, split) && CoverIs(z, Extent(start, k), z0)
    && start % PAGE_SIZE == 0 && start + Size(k) == z0[split][0].start + Size(split) && CountIs(z, k, z0)
  }

  lemma {:induction false} SplitFirst(z: FreeLists, split: nat)
    requires ListsOk(z) && 0 < split < MAX_ORDER && z[split] != []
    ensures var b, k := z[split][0], split - 1;
      var z1 := z[split := z[split][1..]];
      var z' := z1[k := [Block(b.start, b.end - Size(k))] + z1[k]];
      SplitState(z, z', b.start + Size(k), k, split)
  {
    var b, k := z[split][0], split - 1;
    var half := Block(b.start, b.end - Size(k));
    var z1: FreeLists := z[split := z[split][1..]];
    var z': FreeLists := z1[k := [half] + z1[k]];
    assert BlockOk(b, split);
    forall p ensures ListCover(z', |z'|, p) + Held(Extent(b.start + Size(k), k), p) == ListCover(z, |z|, p) {
      PopCovers(z, split, p);
      PushCovers(z1, k, half, p);
      Halves(b.start, k, p);
    }
    Halves(b.start, k, 0);
    PopCounts(z, split);
    PushCounts(z1, k, half);
  }

  lemma {:induction false} SplitMore(z0: FreeLists, z: FreeLists, start: nat, j: nat, split: nat)
    requires SplitState(z0, z, start, j + 1, split)
    ensures SplitState(z0, z[j := [Block(start, start + Size(j) - 1)] + z[j]], start + Size(j), j, split)
  {
    var tmp := Block(start, start + Size(j) - 1);
    NextBlock(start, j);
    PushHalfCover(z0, z, tmp, j);
    PushShape(z0, z, tmp, j, split);
    PushCounts(z, j, tmp);
    PushListsOk(z, j, tmp);
  }

  lemma {:induction false} PushListsOk(z: FreeLists, j: nat, b: Block)
    requires ListsOk(z) && j < MAX_ORDER && BlockOk(b, j)
    ensures ListsOk(z[j := [b] + z[j]])
  {
  }

  lemma {:induction false} PushHalfCover(z0: FreeLists, z: FreeLists, tmp: Block, j: nat)
    requires j < |z| && tmp.start % PAGE_SIZE == 0 && CoverIs(z, Extent(tmp.start, j + 1), z0)
    ensures CoverIs(z[j := [tmp] + z[j]], Extent(tmp.start + Size(j), j), z0)
  {
    var z': FreeLists := z[j := [tmp] + z[j]];
    forall p ensures ListCover(z', |z'|, p) + Held(Extent(tmp.start + Size(j), j), p) == ListCover(z0, |z0|, p) {
      PushCovers(z, j, tmp, p);
      Halves(tmp.start, j, p);
    }
  }

  lemma {:induction false} PushShape(z0: FreeLists, z: FreeLists, tmp: Block, j: nat, split: nat)
    requires |z| == MAX_ORDER && j + 1 < split < MAX_ORDER && Splits(z0, z, j + 1, split)
    requires tmp.start + Size(j + 1) == z0[split][0].start + Size(split) && tmp.end + 1 == tmp.start + Size(j)
    ensures Splits(z0, z[j := [tmp] + z[j]], j, split)
  {
    var z': FreeLists := z[j := [tmp] + z[j]];
    assert z'[j][0] == tmp && z'[j][1..] == z[j] == z0[j];
  }

  ghost predicate InRange(start: nat, end: nat, p: nat) { start / PAGE_SIZE <= p < end / PAGE_SIZE }
  ghost function PagesOf(start: nat, end: nat): iset<nat> { iset p: nat | InRange(start, end, p) }
  ghost function BlockPages(e: Extent): iset<nat> { iset p: nat | Holds(e, p) }

  /** The next block of a tiling lies in the range, after what has been claimed of it. */
  lemma {:induction false} NextTile(s: seq<Extent>, start: nat, at: nat, end: nat)
    requires s != [] && start <= at && at % PAGE_SIZE == 0 && Tiles(s, at, end)
    ensures s[0].start == at && at + Size(s[0].order) <= end && (at + Size(s[0].order)) % PAGE_SIZE == 0
    ensures at / PAGE_SIZE + Pow2(s[0].order) <= end / PAGE_SIZE
    ensures PagesOf(start, at + Size(s[0].order)) == PagesOf(start, at) + BlockPages(s[0])
    ensures forall p: nat :: Holds(s[0], p) ==> p in PagesOf(start, end) && p !in PagesOf(start, at)
  {
    NextBlock(at, s[0].order);
    TilesCover(s[1..], at + Size(s[0].order), end, 0);
    DivMono(at + Size(s[0].order), end);
    DivMono(start, at);
  }

  lemma {:induction false} DivMono(a: nat, b: nat)
    requires a <= b
    ensures a / PAGE_SIZE <= b / PAGE_SIZE
  {
  }

  function RoundDown(a: nat): nat { a - a % PAGE_SIZE }
  function RoundUp(a: nat): nat { if a % PAGE_SIZE == 0 then a else a - a % PAGE_SIZE + PAGE_SIZE }

  // ---------------------------------------------------------------- the invariant

  ghost function FreeCover(dma: FreeLists, normal: FreeLists, p: nat): nat {
    ListCover(dma, |dma|, p) + ListCover(normal, |normal|, p)
  }

  /** Conservation: every claimed page is in exactly one block, free or live; no other page is in any. */
  ghost predicate Balanced(dma: FreeLists, normal: FreeLists, live: seq<Extent>, claimed: iset<nat>) {
    forall p: nat :: FreeCover(dma, normal, p) + Cover(live, p) == if p in claimed then 1 else 0
  }

  /** Page p of live block e is in use, knows its order, and is marked first only at the head. */
  ghost predicate LivePage(pages: seq<PageInfo>, e: Extent, p: nat) {
    p < |pages| && pages[p] == PageInfo(InUse, e.order, p == e.start / PAGE_SIZE)
  }

  /** The page array agrees with the lists and with the live blocks. */
  ghost predicate Mirrored(dma: FreeLists, normal: FreeLists, live: seq<Extent>, pages: seq<PageInfo>) {
    && (forall p :: 0 <= p < |pages| ==> (pages[p].kind == Free <==> FreeCover(dma, normal, p) > 0))
    && (forall i, p: nat :: 0 <= i < |live| && Holds(live[i], p) ==> LivePage(pages, live[i], p))
  }

  ghost predicate InNormalZone(normal: FreeLists, live: seq<Extent>) {
    && (forall k, i :: 0 <= k < |normal| && 0 <= i < |normal[k]| ==> normal[k][i].start >= ZONE_NORMAL_START)
    && (forall i :: 0 <= i < |live| ==>
          live[i].start >= ZONE_NORMAL_START && live[i].start % PAGE_SIZE == 0 && live[i].order < MAX_ORDER)
  }

  function ListsOf(dma: FreeLists, normal: FreeLists, zone: Zone): FreeLists { if zone.Dma? then dma else normal }

  /** The block has become the head of the list of its zone and order; the rest is as it was. */
  ghost predicate PushedOn(d: FreeLists, z: FreeLists, d': FreeLists, z': FreeLists, zone: Zone, e: Extent)
    requires e.order < |ListsOf(d, z, zone)|
  {
    var b := Block(e.start, e.start + Size(e.order) - 1);
    match zone
    case Dma => d' == d[e.order := [b] + d[e.order]] && z' == z
    case Normal => z' == z[e.order := [b] + z[e.order]] && d' == d
  }

  /** The dma lists hold memory below the border only. */
  ghost predicate InDmaZone(dma: FreeLists) {
    forall k, i :: 0 <= k < |dma| && 0 <= i < |dma[k]| ==> dma[k][i].start + Size(k) <= ZONE_NORMAL_START
  }

  /** A block belongs on the lists of the zone. */
  ghost predicate Belongs(zone: Zone, start: nat, end: nat) {
    match zone
    case Dma => end <= ZONE_NORMAL_START
    case Normal => start >= ZONE_NORMAL_START
  }

  /** The lists hold each of the pages once more than before, and every other page as often. */
  ghost predicate Gained(z: FreeLists, z': FreeLists, pages: iset<nat>) {
    forall p: nat :: ListCover(z', |z'|, p) == ListCover(z, |z|, p) + if p in pages then 1 else 0
  }

  lemma {:induction false} GainedMore(z: FreeLists, z1: FreeLists, z2: FreeLists, pages: iset<nat>, e: Extent)
    requires Gained(z, z1, pages) && CoverIs(z1, e, z2) && forall p: nat :: Holds(e, p) ==> p !in pages
    ensures Gained(z, z2, pages + BlockPages(e))
  {
    forall p: nat ensures ListCover(z2, |z2|, p) == ListCover(z, |z|, p) + if p in pages + BlockPages(e) then 1 else 0 {
      assert ListCover(z1, |z1|, p) + Held(e, p) == ListCover(z2, |z2|, p);
    }
  }

  /** What has been claimed is on the lists of its zone: pages below 16 MB (page 0x1000) on the dma
      lists, the others on the normal ones. */
  ghost predicate Sorted(d: FreeLists, d': FreeLists, z: FreeLists, z': FreeLists, claimed: iset<nat>, claimed': iset<nat>) {
    && Gained(d, d', iset p | p in claimed' && p !in claimed && p < 0x1000)
    && Gained(z, z', iset p | p in claimed' && p !in claimed && p >= 0x1000)
  }

  /** The lists have gained the pages from start to end and nothing else. */
  ghost predicate Claimed(z: FreeLists, z': FreeLists, start: nat, end: nat) {
    && Gained(z, z', PagesOf(start, end))
    && PageCount(z', |z'|) + start / PAGE_SIZE == PageCount(z, |z|) + end / PAGE_SIZE
  }

  lemma {:induction false} ClaimedMore(z: FreeLists, z1: FreeLists, z2: FreeLists, start: nat, at: nat, e: Extent)
    requires Claimed(z, z1, start, at) && start <= at && at % PAGE_SIZE == 0 && e.start == at && e.order < |z1|
    requires z2 == z1[e.order := [Block(e.start, e.start + Size(e.order) - 1)] + z1[e.order]]
    ensures Claimed(z, z2, start, at + Size(e.order))
  {
    var b := Block(e.start, e.start + Size(e.order) - 1);
    PushIsCover(z1, e.order, b);
    PushCounts(z1, e.order, b);
    NextBlock(at, e.order);
    DivMono(start, at);
    GainedMore(z, z1, z2, PagesOf(start, at), e);
    assert PagesOf(start, at + Size(e.order)) == PagesOf(start, at) + BlockPages(e);
  }

  /** The lists of the zone have gained the pages from start to end; those of the other are as they were. */
  ghost predicate ClaimedFor(zone: Zone, d: FreeLists, z: FreeLists, d': FreeLists, z': FreeLists, start: nat, end: nat) {
    match zone
    case Dma => z' == z && Claimed(d, d', start, end)
    case Normal => d' == d && Claimed(z, z', start, end)
  }

  lemma {:induction false} ClaimedForMore(zone: Zone, d: FreeLists, z: FreeLists, d1: FreeLists, z1: FreeLists, d2: FreeLists, z2: FreeLists,
                       start: nat, at: nat, e: Extent)
    requires ClaimedFor(zone, d, z, d1, z1, start, at) && start <= at && at % PAGE_SIZE == 0 && e.start == at
    requires e.order < |ListsOf(d1, z1, zone)| && PushedOn(d1, z1, d2, z2, zone, e)
    ensures ClaimedFor(zone, d, z, d2, z2, start, at + Size(e.order))
  {
    ClaimedMore(ListsOf(d, z, zone), ListsOf(d1, z1, zone), ListsOf(d2, z2, zone), start, at, e);
  }

  /** The pages of block e have been rewritten, the others not. */
  ghost predicate PagesSet(pages: seq<PageInfo>, pages': seq<PageInfo>, e: Extent, kind: Kind) {
    && |pages'| == |pages| && e.start / PAGE_SIZE + Pow2(e.order) <= |pages|
    && forall p :: 0 <= p < |pages| ==>
         pages'[p] == if Holds(e, p) then PageInfo(kind, e.order, p == e.start / PAGE_SIZE) else pages[p]
  }

  /** Block e moves from the free lists to the live blocks. */
  lemma {:induction false} AllocKeepsBalance(dma: FreeLists, z: FreeLists, z': FreeLists, live: seq<Extent>, claimed: iset<nat>, e: Extent)
    requires Balanced(dma, z, live, claimed) && CoverIs(z', e, z)
    ensures Balanced(dma, z', live + [e], claimed)
  {
    forall p: nat ensures FreeCover(dma, z', p) + Cover(live + [e], p) == if p in claimed then 1 else 0 {
      assert ListCover(z', |z'|, p) + Held(e, p) == ListCover(z, |z|, p);
      CoverConcat(live, [e], p);
      assert Cover([e], p) == Held(e, p);
      assert FreeCover(dma, z, p) + Cover(live, p) == if p in claimed then 1 else 0;
    }
  }

  lemma {:induction false} AllocKeepsMirror(dma: FreeLists, z: FreeLists, z': FreeLists, live: seq<Extent>, claimed: iset<nat>,
                         pages: seq<PageInfo>, pages': seq<PageInfo>, e: Extent)
    requires Balanced(dma, z, live, claimed) && Mirrored(dma, z, live, pages) && CoverIs(z', e, z)
    requires PagesSet(pages, pages', e, InUse)
    ensures Mirrored(dma, z', live + [e], pages')
  {
    forall p | 0 <= p < |pages'| ensures pages'[p].kind == Free <==> FreeCover(dma, z', p) > 0 {
      assert ListCover(z', |z'|, p) + Held(e, p) == ListCover(z, |z|, p);
      assert FreeCover(dma, z, p) + Cover(live, p) <= 1;
    }
    forall i, p: nat | 0 <= i < |live + [e]| && Holds((live + [e])[i], p) ensures LivePage(pages', (live + [e])[i], p) {
      if i < |live| { assert LivePage(pages, live[i], p); }
      assert ListCover(z', |z'|, p) + Held(e, p) == ListCover(z, |z|, p);
      assert FreeCover(dma, z, p) + Cover(live, p) <= 1;
      CoveredIff(live, p);
    }
  }

  /** Block live[i] moves back to the free lists. */
  lemma {:induction false} FreeKeepsBalance(dma: FreeLists, z: FreeLists, z': FreeLists, live: seq<Extent>, claimed: iset<nat>, i: nat)
    requires i < |live| && Balanced(dma, z, live, claimed) && CoverIs(z, live[i], z')
    ensures Balanced(dma, z', live[..i] + live[i + 1..], claimed)
  {
    forall p: nat ensures FreeCover(dma, z', p) + Cover(live[..i] + live[i + 1..], p) == if p in claimed then 1 else 0 {
      assert ListCover(z, |z|, p) + Held(live[i], p) == ListCover(z', |z'|, p);
      CoverRemove(live, i, p);
      assert FreeCover(dma, z, p) + Cover(live, p) == if p in claimed then 1 else 0;
    }
  }

  lemma {:induction false} FreeKeepsMirror(dma: FreeLists, z: FreeLists, z': FreeLists, live: seq<Extent>, claimed: iset<nat>,
                        pages: seq<PageInfo>, pages': seq<PageInfo>, i: nat)
    requires i < |live| && Balanced(dma, z, live, claimed) && Mirrored(dma, z, live, pages) && CoverIs(z, live[i], z')
    requires PagesSet(pages, pages', live[i], Free)
    ensures Mirrored(dma, z', live[..i] + live[i + 1..], pages')
  {
    var rest := live[..i] + live[i + 1..];
    forall p | 0 <= p < |pages'| ensures pages'[p].kind == Free <==> FreeCover(dma, z', p) > 0 {
      assert ListCover(z, |z|, p) + Held(live[i], p) == ListCover(z', |z'|, p);
    }
    forall j, p: nat | 0 <= j < |rest| && Holds(rest[j], p)
      ensures LivePage(pages', rest[j], p)
    {
      var j' := if j < i then j else j + 1;
      assert live[j'] == rest[j] && LivePage(pages, live[j'], p);
      assert FreeCover(dma, z, p) + Cover(live, p) <= 1;
      if j' < i { CoverOnceIsDisjoint(live, j', i, p); } else { CoverOnceIsDisjoint(live, i, j', p); }
    }
  }

  lemma {:induction false} SizeGrows(j: nat, k: nat)
    requires j <= k
    ensures Pow2(j) <= Pow2(k) && Size(j) <= Size(k)
    decreases k
  {
    if j < k { SizeGrows(j, k - 1); }
  }

  /** What allocation takes: the head of the first non-empty list from order up, cut down to order. */
  ghost predicate Taken(z: FreeLists, z': FreeLists, order: nat, k: nat, start: nat) {
    && order <= k < MAX_ORDER && |z| == MAX_ORDER && z[k] != []
    && (forall j :: order <= j < k ==> z[j] == [])
    && if k == order then start == z[k][0].start && z' == z[k := z[k][1..]]
       else Splits(z, z', order, k) && start + Size(order) == z[k][0].start + Size(k)
  }

  lemma {:induction false} TakenInZone(z: FreeLists, z': FreeLists, order: nat, k: nat, start: nat, live: seq<Extent>)
    requires Taken(z, z', order, k, start) && InNormalZone(z, live) && start % PAGE_SIZE == 0
    ensures InNormalZone(z', live + [Extent(start, order)])
  {
    SizeGrows(order, k);
    forall j, i | 0 <= j < |z'| && 0 <= i < |z'[j]| ensures z'[j][i].start >= ZONE_NORMAL_START {
      if order <= j < k {
        SizeGrows(j + 1, k);
      } else if j == k {
        assert z'[j][i] == z[j][i + 1];
      }
    }
  }

  /** The blocks of a valid allocator lie inside the page array. */
  lemma {:induction false} LastPageClaimed(dma: FreeLists, z: FreeLists, z': FreeLists, live: seq<Extent>, claimed: iset<nat>, e: Extent, n: nat)
    requires Balanced(dma, z, live, claimed) && CoverIs(z', e, z) && forall p :: p in claimed ==> p < n
    ensures e.start / PAGE_SIZE + Pow2(e.order) <= n
  {
    var p: nat := e.start / PAGE_SIZE + Pow2(e.order) - 1;
    assert ListCover(z', |z'|, p) + Held(e, p) == ListCover(z, |z|, p);
    assert FreeCover(dma, z, p) + Cover(live, p) == if p in claimed then 1 else 0;
  }

  lemma {:induction false} LiveInNormalZone(e: Extent, live: seq<Extent>, normal: FreeLists, dma: FreeLists, claimed: iset<nat>, n: nat)
    requires e in live && InNormalZone(normal, live) && Balanced(dma, normal, live, claimed)
    requires (forall p :: p in claimed ==> p < n) && n * PAGE_SIZE < ULONG_MAX
    ensures GetZone(e.start, e.start + Size(e.order)) == Some(Normal)
    ensures e.start / PAGE_SIZE + Pow2(e.order) <= n
  {
    var i :| 0 <= i < |live| && live[i] == e;
    var p: nat := e.start / PAGE_SIZE + Pow2(e.order) - 1;
    CoveredIff(live, p);
    assert Holds(live[i], p);
    assert FreeCover(dma, normal, p) + Cover(live, p) == if p in claimed then 1 else 0;
    assert e.start + Size(e.order) == PAGE_SIZE * (e.start / PAGE_SIZE + Pow2(e.order));
  }

  lemma {:induction false} PushIsCover(z: FreeLists, order: nat, b: Block)
    requires order < |z|
    ensures CoverIs(z, Extent(b.start, order), z[order := [b] + z[order]])
  {
    forall p { PushCovers(z, order, b, p); }
  }

  lemma {:induction false} EmptyCover(z: FreeLists, n: nat, p: nat)
    requires n <= |z| && forall k :: 0 <= k < |z| ==> z[k] == []
    ensures ListCover(z, n, p) == 0
    decreases n
  {
    if n > 0 {
      EmptyCover(z, n - 1, p);
      assert Extents(z[n - 1], n - 1) == [];
    }
  }

  /** A block of unclaimed pages joins the free lists. */
  lemma {:induction false} AddKeepsInvariant(d: FreeLists, z: FreeLists, d': FreeLists, z': FreeLists, live: seq<Extent>, claimed: iset<nat>,
                          pages: seq<PageInfo>, pages': seq<PageInfo>, e: Extent)
    requires Balanced(d, z, live, claimed) && Mirrored(d, z, live, pages) && PagesSet(pages, pages', e, Free)
    requires forall p: nat :: Holds(e, p) ==> p !in claimed
    requires (CoverIs(d, e, d') && z' == z) || (CoverIs(z, e, z') && d' == d)
    ensures Balanced(d', z', live, claimed + BlockPages(e)) && Mirrored(d', z', live, pages')
  {
    forall p: nat ensures FreeCover(d', z', p) == FreeCover(d, z, p) + Held(e, p) {
      if CoverIs(d, e, d') && z' == z {
        assert ListCover(d, |d|, p) + Held(e, p) == ListCover(d', |d'|, p);
      } else {
        assert ListCover(z, |z|, p) + Held(e, p) == ListCover(z', |z'|, p);
      }
    }
    forall i, p: nat | 0 <= i < |live| && Holds(live[i], p) ensures LivePage(pages', live[i], p) {
      assert LivePage(pages, live[i], p);
      CoveredIff(live, p);
      assert FreeCover(d, z, p) + Cover(live, p) == if p in claimed then 1 else 0;
    }
  }

  /** A live block has gone back to the head of the normal list of its order. */
  ghost predicate Returned(d: FreeLists, z: FreeLists, d': FreeLists, z': FreeLists,
                           live: seq<Extent>, live': seq<Extent>, e: Extent) {
    && multiset(live') == multiset(live) - multiset{e}
    && e.order < |z| && PushedOn(d, z, d', z', Normal, e) && CountIs(z, e.order, z')
  }

  lemma {:induction false} ReturnInZone(z: FreeLists, order: nat, b: Block, live: seq<Extent>, i: nat)
    requires InNormalZone(z, live) && order < |z| && i < |live| && b.start == live[i].start
    ensures InNormalZone(z[order := [b] + z[order]], live[..i] + live[i + 1..])
  {
  }

  lemma {:induction false} AddInZone(d: FreeLists, z: FreeLists, d': FreeLists, z': FreeLists, live: seq<Extent>, zone: Zone, e: Extent)
    requires InDmaZone(d) && InNormalZone(z, live) && e.order < |ListsOf(d, z, zone)|
    requires Belongs(zone, e.start, e.start + Size(e.order)) && PushedOn(d, z, d', z', zone, e)
    ensures InDmaZone(d') && InNormalZone(z', live)
  {
  }

  /** Block live[i] goes back to the head of its list. */
  lemma {:induction false} ReturnKeeps(d: FreeLists, z: FreeLists, z': FreeLists, live: seq<Extent>, claimed: iset<nat>,
                    pages: seq<PageInfo>, pages': seq<PageInfo>, i: nat)
    requires i < |live| && Balanced(d, z, live, claimed) && Mirrored(d, z, live, pages) && InNormalZone(z, live)
    requires live[i].order < |z| && PushedOn(d, z, d, z', Normal, live[i]) && PagesSet(pages, pages', live[i], Free)
    ensures Balanced(d, z', live[..i] + live[i + 1..], claimed) && Mirrored(d, z', live[..i] + live[i + 1..], pages')
    ensures InNormalZone(z', live[..i] + live[i + 1..])
    ensures Returned(d, z, d, z', live, live[..i] + live[i + 1..], live[i])
  {
    var e := live[i];
    var b := Block(e.start, e.start + Size(e.order) - 1);
    PushIsCover(z, e.order, b);
    PushCounts(z, e.order, b);
    FreeKeepsBalance(d, z, z', live, claimed, i);
    FreeKeepsMirror(d, z, z', live, claimed, pages, pages', i);
    ReturnInZone(z, e.order, b, live, i);
    RemoveOne(live, i);
  }

  lemma {:induction false} RemoveOne(s: seq<Extent>, i: nat)
    requires i < |s|
    ensures multiset(s[..i] + s[i + 1..]) == multiset(s) - multiset{s[i]}
  {
    assert s == s[..i] + [s[i]] + s[i + 1..];
  }

  // ---------------------------------------------------------------- what balance means for blocks

  lemma {:induction false} ListCoverAtLeast(z: FreeLists, k: nat, k': nat, n: nat, p: nat)
    requires k <= k' < n <= |z|
    ensures Cover(Extents(z[k], k), p) <= ListCover(z, n, p)
    ensures k < k' ==> Cover(Extents(z[k], k), p) + Cover(Extents(z[k'], k'), p) <= ListCover(z, n, p)
    decreases n
  {
    if k' < n - 1 {
      ListCoverAtLeast(z, k, k', n - 1, p);
    } else if k < k' {
      ListCoverAtLeast(z, k, k, n - 1, p);
    }
  }

  /** Within one zone, a page held at most once is in at most one block. */
  lemma {:induction false} BlocksOfZoneDisjoint(z: FreeLists, k: nat, i: nat, k': nat, i': nat, p: nat)
    requires ListCover(z, |z|, p) <= 1
    requires k <= k' < |z| && i < |z[k]| && i' < |z[k']| && (k == k' ==> i < i')
    ensures !(Holds(Extent(z[k][i].start, k), p) && Holds(Extent(z[k'][i'].start, k'), p))
  {
    ListCoverAtLeast(z, k, k', |z|, p);
    var s, s' := Extents(z[k], k), Extents(z[k'], k');
    if k == k' {
      CoverOnceIsDisjoint(s, i, i', p);
    } else {
      CoveredIff(s, p);
      CoveredIff(s', p);
      assert s[i] == Extent(z[k][i].start, k) && s'[i'] == Extent(z[k'][i'].start, k');
    }
  }

  /** A page in a block of the lists is counted. */
  lemma {:induction false} BlockIsCounted(z: FreeLists, k: nat, i: nat, p: nat)
    requires k < |z| && i < |z[k]| && Holds(Extent(z[k][i].start, k), p)
    ensures ListCover(z, |z|, p) >= 1
  {
    ListCoverAtLeast(z, k, k, |z|, p);
    var s := Extents(z[k], k);
    CoveredIff(s, p);
    assert s[i] == Extent(z[k][i].start, k);
  }

  /** Block i of order k of a zone's free lists. */
  ghost predicate IsFree(dma: FreeLists, normal: FreeLists, zone: Zone, k: nat, i: nat) {
    k < |ListsOf(dma, normal, zone)| && i < |ListsOf(dma, normal, zone)[k]|
  }

  ghost function FreeExtent(dma: FreeLists, normal: FreeLists, zone: Zone, k: nat, i: nat): Extent
    requires IsFree(dma, normal, zone, k, i)
  {
    Extent(ListsOf(dma, normal, zone)[k][i].start, k)
  }

  /** No page is in two free blocks, of one zone or of two. */
  lemma {:induction false} FreeBlocksDisjoint(dma: FreeLists, normal: FreeLists, live: seq<Extent>, claimed: iset<nat>,
                           zone: Zone, k: nat, i: nat, zone': Zone, k': nat, i': nat, p: nat)
    requires Balanced(dma, normal, live, claimed)
    requires IsFree(dma, normal, zone, k, i) && IsFree(dma, normal, zone', k', i') && (zone, k, i) != (zone', k', i')
    ensures !(Holds(FreeExtent(dma, normal, zone, k, i), p) && Holds(FreeExtent(dma, normal, zone', k', i'), p))
  {
    assert FreeCover(dma, normal, p) + Cover(live, p) <= 1;
    var z, z' := ListsOf(dma, normal, zone), ListsOf(dma, normal, zone');
    if zone == zone' {
      if k < k' || (k == k' && i < i') {
        BlocksOfZoneDisjoint(z, k, i, k', i', p);
      } else {
        BlocksOfZoneDisjoint(z, k', i', k, i, p);
      }
    } else if Holds(FreeExtent(dma, normal, zone, k, i), p) && Holds(FreeExtent(dma, normal, zone', k', i'), p) {
      BlockIsCounted(z, k, i, p);
      BlockIsCounted(z', k', i', p);
    }
  }

  /** No page is in a live block and a free one of either zone. */
  lemma {:induction false} LiveIsNotFree(dma: FreeLists, normal: FreeLists, live: seq<Extent>, claimed: iset<nat>,
                      j: nat, zone: Zone, k: nat, i: nat, p: nat)
    requires Balanced(dma, normal, live, claimed) && j < |live| && IsFree(dma, normal, zone, k, i)
    ensures !(Holds(live[j], p) && Holds(FreeExtent(dma, normal, zone, k, i), p))
  {
    assert FreeCover(dma, normal, p) + Cover(live, p) <= 1;
    if Holds(live[j], p) && Holds(FreeExtent(dma, normal, zone, k, i), p) {
      CoveredIff(live, p);
      BlockIsCounted(ListsOf(dma, normal, zone), k, i, p);
    }
  }

  /** No page is in two live blocks. */
  lemma {:induction false} LiveBlocksDisjoint(dma: FreeLists, normal: FreeLists, live: seq<Extent>, claimed: iset<nat>, j: nat, j': nat, p: nat)
    requires Balanced(dma, normal, live, claimed) && j < j' < |live|
    ensures !(Holds(live[j], p) && Holds(live[j'], p))
  {
    assert FreeCover(dma, normal, p) + Cover(live, p) <= 1;
    if Holds(live[j], p) && Holds(live[j'], p) { CoverOnceIsDisjoint(live, j, j', p); }
  }

  class Pfa {
    var dma: FreeLists
    var normal: FreeLists
    const pages: array<PageInfo>
    ghost var live: seq<Extent>
    ghost var claimed: iset<nat>

    ghost predicate Valid() reads this, pages {
      && ListsOk(dma) && ListsOk(normal)
      && Balanced(dma, normal, live, claimed)
      && Mirrored(dma, normal, live, pages[..])
      && InNormalZone(normal, live) && InDmaZone(dma)
      && (forall p :: p in claimed ==> p < pages.Length)
      && pages.Length * PAGE_SIZE < ULONG_MAX
    }

    /** Take the head of a non-empty list. */
    method GetFreeEntry(order: nat) returns (b: Block)
      requires order < |normal| && normal[order] != []
      modifies this`normal
      ensures b == old(normal)[order][0] && normal == old(normal)[order := old(normal)[order][1..]]
    {
      b := normal[order][0];
      normal := normal[order := normal[order][1..]];
    }

    /** The first cut: the lower half goes one list down, the upper half stays in hand. */
    method TakeUpperHalf(split: nat) returns (start: nat)
      requires ListsOk(normal) && 0 < split < MAX_ORDER && normal[split] != []
      modifies this`normal
      ensures SplitState(old(normal), normal, start, split - 1, split)
    {
      SplitFirst(normal, split);
      var b := GetFreeEntry(split);
      var size := Size(split - 1);
      normal := normal[split - 1 := [Block(b.start, b.end - size)] + normal[split - 1]];
      start := b.start + size;
    }

    /** One more cut of the block in hand. */
    method HalveOnce(ghost z0: FreeLists, at: nat, k: nat, ghost split: nat) returns (start: nat)
      requires SplitState(z0, normal, at, k + 1, split)
      modifies this`normal
      ensures SplitState(z0, normal, start, k, split)
    {
      SplitMore(z0, normal, at, k, split);
      var size := Size(k);
      normal := normal[k := [Block(at, at + size - 1)] + normal[k]];
      start := at + size;
    }

    /** Halve a block of order split until a half of order req is left over. One block lands on each
        list from split - 1 down to req. */
    method SplitBlock(req: nat, split: nat) returns (start: nat)
      requires ListsOk(normal) && req < split < MAX_ORDER && normal[split] != []
      modifies this`normal
      ensures SplitState(old(normal), normal, start, req, split)
    {
      start := TakeUpperHalf(split);
      var k := split - 1;
      while k != req
        invariant req <= k < split && SplitState(old(normal), normal, start, k, split)
      {
        k := k - 1;
        start := HalveOnce(old(normal), start, k, split);
      }
    }

    /** Allocate from the normal zone: None when no list from order up has a block. */
    method AllocMem(order: nat) returns (r: Option<nat>, ghost k: nat)
      requires ListsOk(normal)
      modifies this`normal
      ensures r.None? ==> normal == old(normal) && forall j :: order <= j < MAX_ORDER ==> normal[j] == []
      ensures r.Some? ==> CountIs(normal, order, old(normal))
      ensures r.Some? ==> ListsOk(normal) && r.value % PAGE_SIZE == 0 && Taken(old(normal), normal, order, k, r.value)
      ensures r.Some? ==> CoverIs(normal, Extent(r.value, order), old(normal))
    {
      k := 0;
      if order > MAX_ORDER { return None, k; }
      for o := order to MAX_ORDER
        invariant normal == old(normal) && forall j :: order <= j < o ==> normal[j] == []
      {
        if normal[o] != [] {
          k := o;
          if o == order {
            assert BlockOk(normal[o][0], o);
            forall p { PopCovers(normal, o, p); }
            PopCounts(normal, o);
            var b := GetFreeEntry(o);
            return Some(b.start), k;
          }
          var start := SplitBlock(order, o);
          return Some(start), k;
        }
      }
      r := None;
    }

    method SetPages(kind: Kind, start: nat, order: nat)
      requires start / PAGE_SIZE + Pow2(order) <= pages.Length
      modifies pages
      ensures PagesSet(old(pages[..]), pages[..], Extent(start, order), kind)
    {
      var pfn := start / PAGE_SIZE;
      pages[pfn] := PageInfo(kind, order, true);
      for i := 1 to Pow2(order)
        invariant forall p :: 0 <= p < pages.Length ==>
          pages[p] == if pfn <= p < pfn + i then PageInfo(kind, order, p == pfn) else old(pages[p])
      {
        pages[pfn + i] := PageInfo(kind, order, false);
      }
    }

    /** Allocate a block of 2^order pages; None is the kernel's out-of-memory panic, which needs
        every list from the order up to have been empty. */
    method BlockAlloc(order: nat) returns (r: Option<nat>, ghost k: nat)
      requires Valid()
      modifies this, pages
      ensures Valid() && claimed == old(claimed) && dma == old(dma)
      ensures r.None? <==> forall j :: order <= j < MAX_ORDER ==> old(normal)[j] == []
      ensures r.None? ==> live == old(live) && normal == old(normal) && pages[..] == old(pages[..])
      ensures r.Some? ==> live == old(live) + [Extent(r.value, order)] && Taken(old(normal), normal, order, k, r.value)
      ensures r.Some? ==> CountIs(normal, order, old(normal))
    {
      ghost var z, ps := normal, pages[..];
      r, k := AllocMem(order);
      if r.None? { return; }
      ghost var e := Extent(r.value, order);
      AllocKeepsBalance(dma, z, normal, live, claimed, e);
      TakenInZone(z, normal, order, k, r.value, live);
      LastPageClaimed(dma, z, normal, live, claimed, e, pages.Length);
      SetPages(InUse, r.value, order);
      AllocKeepsMirror(dma, z, normal, live, claimed, ps, pages[..], e);
      live := live + [e];
    }

    method ZoneAddBlock(zone: Zone, start: nat, order: nat)
      requires ListsOk(dma) && ListsOk(normal) && start % PAGE_SIZE == 0 && order < MAX_ORDER
      modifies this`dma, this`normal
      ensures PushedOn(old(dma), old(normal), dma, normal, zone, Extent(start, order))
      ensures ListsOk(dma) && ListsOk(normal)
    {
      var b := Block(start, start + Size(order) - 1);
      match zone
      case Dma =>
        PushListsOk(dma, order, b);
        dma := dma[order := [b] + dma[order]];
      case Normal =>
        PushListsOk(normal, order, b);
        normal := normal[order := [b] + normal[order]];
    }

    /** Give a block back. A block that is live always goes back; the error codes are for addresses
        that cannot be one. */
    method BlockFree(address: nat, order: nat) returns (r: Status)
      requires Valid()
      requires address % PAGE_SIZE == 0 && InOneZone(address, address + Size(order)) ==> Extent(address, order) in live
      modifies this, pages
      ensures Valid() && claimed == old(claimed)
      ensures r == Einval <==> address % PAGE_SIZE != 0
      ensures r == Enxio <==> address % PAGE_SIZE == 0 && !InOneZone(address, address + Size(order))
      ensures r != Ok ==> live == old(live) && dma == old(dma) && normal == old(normal) && pages[..] == old(pages[..])
      ensures r == Ok ==> Returned(old(dma), old(normal), dma, normal, old(live), live, Extent(address, order))
      ensures Extent(address, order) in old(live) ==> r == Ok
    {
      ghost var e := Extent(address, order);
      if address % PAGE_SIZE != 0 { return Einval; }
      var zone := GetZone(address, address + Size(order));
      if e in live { LiveInNormalZone(e, live, normal, dma, claimed, pages.Length); }
      if zone.None? { return Enxio; }
      ReturnBlock(address, order);
      r := Ok;
    }

    /** A live block leaves the live blocks and becomes the head of its free list. */
    method ReturnBlock(address: nat, order: nat)
      requires Valid() && Extent(address, order) in live
      modifies this, pages
      ensures Valid() && claimed == old(claimed)
      ensures Returned(old(dma), old(normal), dma, normal, old(live), live, Extent(address, order))
    {
      ghost var e := Extent(address, order);
      ghost var i :| 0 <= i < |live| && live[i] == e;
      ghost var z, ps := normal, pages[..];
      LiveInNormalZone(e, live, normal, dma, claimed, pages.Length);
      SetPages(Free, address, order);
      ZoneAddBlock(Normal, address, order);
      ReturnKeeps(dma, z, normal, live, claimed, ps, pages[..], i);
      live := live[..i] + live[i + 1..];
    }

    /** No memory claimed yet. */
    constructor (npages: nat)
      requires npages * PAGE_SIZE < ULONG_MAX
      ensures Valid() && claimed == iset{} && live == [] && pages.Length == npages
    {
      dma := seq(MAX_ORDER, i => []);
      normal := seq(MAX_ORDER, i => []);
      pages := new PageInfo[npages](i => PageInfo(Invalid, 0, false));
      live := [];
      claimed := iset{};
      new;
      forall p: nat ensures FreeCover(dma, normal, p) == 0 {
        EmptyCover(dma, |dma|, p);
        EmptyCover(normal, |normal|, p);
      }
    }

    /** Claim a free range of the memory map for a zone: its blocks go on the free lists of that zone
        and its pages are marked free. */
    method ClaimFree(zone: Zone, start: nat, end: nat)
      requires Valid() && start <= end && start % PAGE_SIZE == 0 && end % PAGE_SIZE == 0
      requires Belongs(zone, start, end) && end <= pages.Length * PAGE_SIZE
      requires end - start <= EXACT_CLAIM
      requires forall p :: p in PagesOf(start, end) ==> p !in claimed
      modifies this, pages
      ensures Valid() && live == old(live) && claimed == old(claimed) + PagesOf(start, end)
      ensures ClaimedFor(zone, old(dma), old(normal), dma, normal, start, end)
    {
      var blocks := ClaimRange(start, end);
      DifferenceAligned(start, end);
      ClaimExactIff(start, end - start);
      ClaimOrdersInRange(start, end - start, MAX_ORDER);
      ClaimBlocks(zone, blocks, start, end);
    }

    method ClaimBlocks(zone: Zone, blocks: seq<Extent>, ghost start: nat, ghost end: nat)
      requires Valid() && start % PAGE_SIZE == 0 && Tiles(blocks, start, end)
      requires Belongs(zone, start, end) && end <= pages.Length * PAGE_SIZE
      requires OrdersBelow(blocks, MAX_ORDER)
      requires forall p :: p in PagesOf(start, end) ==> p !in claimed
      modifies this, pages
      ensures Valid() && live == old(live) && claimed == old(claimed) + PagesOf(start, end)
      ensures ClaimedFor(zone, old(dma), old(normal), dma, normal, start, end)
    {
      ghost var at := start;
      for i := 0 to |blocks|
        invariant Valid() && live == old(live) && start <= at && at % PAGE_SIZE == 0
        invariant Tiles(blocks[i..], at, end)
        invariant claimed == old(claimed) + PagesOf(start, at)
        invariant ClaimedFor(zone, old(dma), old(normal), dma, normal, start, at)
      {
        assert blocks[i..][1..] == blocks[i + 1..];
        NextTile(blocks[i..], start, at, end);
        ghost var d, z := dma, normal;
        AddFree(zone, blocks[i]);
        ClaimedForMore(zone, old(dma), old(normal), d, z, dma, normal, start, at, blocks[i]);
        at := at + Size(blocks[i].order);
      }
    }

    /** A block of unclaimed pages becomes the head of the list of its zone and order. */
    method AddFree(zone: Zone, e: Extent)
      requires Valid() && e.start % PAGE_SIZE == 0 && e.order < MAX_ORDER
      requires Belongs(zone, e.start, e.start + Size(e.order))
      requires e.start / PAGE_SIZE + Pow2(e.order) <= pages.Length
      requires forall p: nat :: Holds(e, p) ==> p !in claimed
      modifies this, pages
      ensures Valid() && live == old(live) && claimed == old(claimed) + BlockPages(e)
      ensures PushedOn(old(dma), old(normal), dma, normal, zone, e)
    {
      ghost var d, z, ps := dma, normal, pages[..];
      SetPages(Free, e.start, e.order);
      ZoneAddBlock(zone, e.start, e.order);
      var b := Block(e.start, e.start + Size(e.order) - 1);
      if zone.Dma? { PushIsCover(d, e.order, b); } else { PushIsCover(z, e.order, b); }
      AddKeepsInvariant(d, z, dma, normal, live, claimed, ps, pages[..], e);
      AddInZone(d, z, dma, normal, live, zone, e);
      claimed := claimed + BlockPages(e);
    }

    /** Claim a range of bytes: its whole pages go to the zone they lie in, and a range across the
        border is claimed in two parts. */
    method ClaimMemory(address: nat, len: nat)
      requires Valid() && address + len <= pages.Length * PAGE_SIZE
      requires RoundUp(address) <= RoundDown(address + len) && RoundDown(address + len) - RoundUp(address) <= EXACT_CLAIM
      requires forall p :: p in PagesOf(RoundUp(address), RoundDown(address + len)) ==> p !in claimed
      modifies this, pages
      ensures Valid() && live == old(live)
      ensures claimed == old(claimed) +
        if address < 0x100_0000 && address + len == 0x100_0000 then iset{} else PagesOf(RoundUp(address), RoundDown(address + len))
      ensures Sorted(old(dma), dma, old(normal), normal, old(claimed), claimed)
    {
      var lo, hi := RoundUp(address), RoundDown(address + len);
      var zone := GetZone(address, address + len);
      if zone.Some? {
        ClaimFree(zone.value, lo, hi);
      }
      if address < ZONE_NORMAL_START && address + len > ZONE_NORMAL_START {
        ClaimAcross(lo, hi);
      }
    }

    /** A range across the border: the part below goes to the dma lists, the rest to the normal ones. */
    method ClaimAcross(lo: nat, hi: nat)
      requires Valid() && lo % PAGE_SIZE == 0 && hi % PAGE_SIZE == 0 && hi <= pages.Length * PAGE_SIZE
      requires lo <= ZONE_NORMAL_START <= hi && hi - lo <= EXACT_CLAIM
      requires forall p :: p in PagesOf(lo, hi) ==> p !in claimed
      modifies this, pages
      ensures Valid() && live == old(live) && claimed == old(claimed) + PagesOf(lo, hi)
      ensures Sorted(old(dma), dma, old(normal), normal, old(claimed), claimed)
    {
      ClaimFree(Dma, lo, ZONE_NORMAL_START);
      ClaimFree(Normal, ZONE_NORMAL_START, hi);
    }

    /** As many single pages can be had, one after another, as the normal lists hold. */
    method AllocPages(n: nat) returns (got: seq<nat>)
      requires Valid() && n <= PageCount(normal, |normal|)
      modifies this, pages
      ensures Valid() && claimed == old(claimed) && dma == old(dma)
      ensures |got| == n && |live| == |old(live)| + n && live[..|old(live)|] == old(live)
      ensures forall i :: 0 <= i < n ==> live[|old(live)| + i] == Extent(got[i], 0)
      ensures PageCount(normal, |normal|) == PageCount(old(normal), |old(normal)|) - n
    {
      got := [];
      for i := 0 to n
        invariant Valid() && claimed == old(claimed) && dma == old(dma)
        invariant |got| == i && |live| == |old(live)| + i && live[..|old(live)|] == old(live)
        invariant forall j :: 0 <= j < i ==> live[|old(live)| + j] == Extent(got[j], 0)
        invariant PageCount(normal, |normal|) == PageCount(old(normal), |old(normal)|) - i
      {
        ghost var z := normal;
        var r;
        ghost var k;
        r, k := BlockAlloc(0);
        assert r.Some? by { NoPagesIff(z, |z|); }
        got := got + [r.value];
      }
    }

    /** Every page of a range claimed for the normal zone can be allocated afterwards. When the lists
        held nothing before, the allocation after those is the first to fail. */
    method ClaimThenAlloc(start: nat, end: nat) returns (got: seq<nat>, next: Option<nat>)
      requires Valid() && 0x100_0000 <= start <= end && start % PAGE_SIZE == 0 && end % PAGE_SIZE == 0
      requires end <= pages.Length * PAGE_SIZE && end - start <= EXACT_CLAIM
      requires forall p :: p in PagesOf(start, end) ==> p !in claimed
      modifies this, pages
      ensures Valid() && |got| == (end - start) / 4096 && dma == old(dma)
      ensures forall i :: 0 <= i < |got| ==> Extent(got[i], 0) in live
      ensures next.None? <==> PageCount(old(normal), |old(normal)|) == 0
    {
      ClaimFree(Normal, start, end);
      got := AllocPages((end - start) / PAGE_SIZE);
      NoPagesIff(normal, |normal|);
      ghost var k;
      next, k := BlockAlloc(0);
    }

    /** Any run of allocations and matching frees by one client keeps every invariant. held is
        the client's own record of the blocks it has. */
    method Run(ops: seq<Op>, held0: seq<Extent>) returns (held: seq<Extent>)
      requires Valid() && multiset(live) == multiset(held0)
      modifies this, pages
      ensures Valid() && claimed == old(claimed) && multiset(live) == multiset(held)
    {
      held := held0;
      for i := 0 to |ops|
        invariant Valid() && claimed == old(claimed) && multiset(live) == multiset(held)
      {
        match ops[i]
        case Alloc(order) =>
          var r;
          ghost var k;
          r, k := BlockAlloc(order);
          if r.None? { return; }
          held := held + [Extent(r.value, order)];
        case Release(j) =>
          if j < |held| { held := ReleaseHeld(held, j); }
      }
    }

    /** The client gives back the block at index j of its record. */
    method ReleaseHeld(held: seq<Extent>, j: nat) returns (rest: seq<Extent>)
      requires Valid() && multiset(live) == multiset(held) && j < |held|
      modifies this, pages
      ensures Valid() && claimed == old(claimed) && multiset(live) == multiset(rest)
      ensures rest == held[..j] + held[j + 1..]
    {
      var e := held[j];
      assert e in multiset(live);
      var r := BlockFree(e.start, e.order);
      RemoveOne(held, j);
      rest := held[..j] + held[j + 1..];
    }
  }
}
