/** Blocks of 2^order pages, how many of a collection cover a page, and the decomposition
    of a claimed range into blocks. */
module BlockRanges {
  import opened Basics

  const PAGE_SIZE: nat := 4096
  const MAX_ORDER: nat := 16
  /** 256 MB, two blocks of the highest order. */
  const EXACT_CLAIM: nat := 0x1000_0000

  /** Bytes in a block of the given order. */
  function Size(order: nat): (r: nat)
    ensures r > 0
  {
    PAGE_SIZE * Pow2(order)
  }

  function Quotient(n: nat, m: nat): (q: nat)
    requires m > 0
    ensures q * m <= n < q * m + m
  {
    n / m
  }
  function Remainder(n: nat, m: nat): (r: nat)
    requires m > 0
    ensures r == n - Quotient(n, m) * m
  {
    n % m
  }
  lemma {:induction false} MulGap(a: nat, b: nat, m: nat)
    requires a > b
    ensures a * m >= b * m + m
  {
    assert a * m == (a - b - 1) * m + b * m + m;
  }

  lemma {:induction false} QuotientUnique(n: nat, m: nat, q: nat)
    requires m > 0 && q * m <= n < q * m + m
    ensures Quotient(n, m) == q && Remainder(n, m) == n - q * m
  {
    var q' := Quotient(n, m);
    if q > q' { MulGap(q, q', m); }
    if q < q' { MulGap(q', q, m); }
  }

  /** A block: its first byte and its order. */
  datatype Extent = Extent(start: nat, order: nat)

  /** Page p lies in block e. */
  ghost predicate Holds(e: Extent, p: nat) {
    e.start / PAGE_SIZE <= p < e.start / PAGE_SIZE + Pow2(e.order)
  }

  ghost function Held(e: Extent, p: nat): nat {
    if Holds(e, p) then 1 else 0
  }

  /** How many of the blocks hold page p. */
  ghost function Cover(s: seq<Extent>, p: nat): nat {
    if s == [] then 0 else Held(s[0], p) + Cover(s[1..], p)
  }

  lemma {:induction false} CoverConcat(s: seq<Extent>, t: seq<Extent>, p: nat)
    ensures Cover(s + t, p) == Cover(s, p) + Cover(t, p)
  {
    if s == [] {
      assert s + t == t;
    } else {
      assert (s + t)[1..] == s[1..] + t;
      CoverConcat(s[1..], t, p);
    }
  }

  /** Taking the block at index i out of a collection takes its pages out of the count. */
  lemma {:induction false} CoverRemove(s: seq<Extent>, i: nat, p: nat)
    requires i < |s|
    ensures Cover(s, p) == Cover(s[..i] + s[i + 1..], p) + Held(s[i], p)
  {
    assert s == s[..i] + ([s[i]] + s[i + 1..]);
    CoverConcat(s[..i], [s[i]] + s[i + 1..], p);
    CoverConcat([s[i]], s[i + 1..], p);
    CoverConcat(s[..i], s[i + 1..], p);
    assert Cover([s[i]], p) == Held(s[i], p);
  }

  /** If no page is covered twice, any two blocks of the collection are disjoint. */
  lemma {:induction false} CoverOnceIsDisjoint(s: seq<Extent>, i: nat, j: nat, p: nat)
    requires i < j < |s| && Cover(s, p) <= 1
    ensures !(Holds(s[i], p) && Holds(s[j], p))
  {
    CoverRemove(s, j, p);
    var t := s[..j] + s[j + 1..];
    assert t[i] == s[i];
    CoverRemove(t, i, p);
  }

  /** A page is covered exactly when some block holds it. */
  lemma {:induction false} CoveredIff(s: seq<Extent>, p: nat)
    ensures Cover(s, p) > 0 <==> exists i :: 0 <= i < |s| && Holds(s[i], p)
  {
    if s != [] {
      CoveredIff(s[1..], p);
      if Cover(s[1..], p) > 0 {
        var i :| 0 <= i < |s[1..]| && Holds(s[1..][i], p);
        assert Holds(s[i + 1], p);
      }
      forall i | 0 <= i < |s| && Holds(s[i], p) ensures Cover(s, p) > 0 {
        if i > 0 { assert Holds(s[1..][i - 1], p); }
      }
    }
  }

  /** A block of order k + 1 is its two halves. */
  lemma {:induction false} Halves(start: nat, k: nat, p: nat)
    requires start % PAGE_SIZE == 0
    ensures Held(Extent(start, k + 1), p) == Held(Extent(start, k), p) + Held(Extent(start + Size(k), k), p)
    ensures (start + Size(k)) % PAGE_SIZE == 0 && Size(k + 1) == 2 * Size(k)
  {
    NextBlock(start, k);
  }

  lemma {:induction false} NextBlock(start: nat, k: nat)
    requires start % PAGE_SIZE == 0
    ensures (start + Size(k)) % PAGE_SIZE == 0
    ensures (start + Size(k)) / PAGE_SIZE == start / PAGE_SIZE + Pow2(k)
  {
    assert start + Size(k) == PAGE_SIZE * (start / PAGE_SIZE + Pow2(k));
  }

  // ---------------------------------------------------------------- claiming a range

  /** The blocks follow one another from start to end without gap or overlap. */
  ghost predicate Tiles(s: seq<Extent>, start: nat, end: nat) {
    if s == [] then start == end
    else s[0].start == start && Tiles(s[1..], start + Size(s[0].order), end)
  }

  ghost predicate StrictlyDecreasing(s: seq<Extent>) {
    forall i, j :: 0 <= i < j < |s| ==> s[i].order > s[j].order
  }

  ghost predicate OrdersBelow(s: seq<Extent>, top: nat) {
    forall i :: 0 <= i < |s| ==> s[i].order < top
  }

  /** The inner loop: n blocks of one order, each start pushed on by the running multiple. */
  function ClaimRun(start: nat, order: nat, b: nat, n: nat): (r: seq<Extent>)
    requires b <= n
    decreases n - b
  {
    if b == n then [] else [Extent(start, order)] + ClaimRun(start + (b + 1) * Size(order), order, b + 1, n)
  }

  function ClaimRunEnd(start: nat, order: nat, b: nat, n: nat): (r: nat)
    requires b <= n
    decreases n - b
  {
    if b == n then start else ClaimRunEnd(start + (b + 1) * Size(order), order, b + 1, n)
  }

  /** The blocks claimed for len bytes at start, from orders below top. */
  function ClaimBelow(start: nat, len: nat, top: nat): (r: seq<Extent>)
    decreases top, start, len
  {
    if top == 0 then []
    else
      var n := Quotient(len, Size(top - 1));
      if n == 0 then ClaimBelow(start, len, top - 1)
      else ClaimRun(start, top - 1, 0, n) + ClaimBelow(ClaimRunEnd(start, top - 1, 0, n), Remainder(len, Size(top - 1)), top - 1)
  }

  lemma {:induction false} TilesConcat(s: seq<Extent>, t: seq<Extent>, a: nat, b: nat, c: nat)
    requires Tiles(s, a, b) && Tiles(t, b, c)
    ensures Tiles(s + t, a, c)
  {
    if s == [] {
      assert s + t == t;
    } else {
      assert (s + t)[1..] == s[1..] + t;
      TilesConcat(s[1..], t, a + Size(s[0].order), b, c);
    }
  }

  /** With room for at most one block of the top order, the decomposition is exact:
      the binary expansion of the page count, one block per set bit. */
  lemma {:induction false} ClaimIsBinaryExpansion(start: nat, len: nat, top: nat)
    requires len % PAGE_SIZE == 0 && len < Size(top)
    ensures var s := ClaimBelow(start, len, top);
      Tiles(s, start, start + len) && StrictlyDecreasing(s) && OrdersBelow(s, top)
    decreases top
  {
    if top > 0 {
      var k := top - 1;
      assert Size(top) == 2 * Size(k);
      if len < Size(k) {
        QuotientUnique(len, Size(k), 0);
        ClaimIsBinaryExpansion(start, len, k);
      } else {
        OneBlock(len, k);
        assert ClaimRun(start, k, 0, 1) == [Extent(start, k)] && ClaimRunEnd(start, k, 0, 1) == start + Size(k);
        ClaimIsBinaryExpansion(start + Size(k), len - Size(k), k);
        var rest := ClaimBelow(start + Size(k), len - Size(k), k);
        TilesConcat([Extent(start, k)], rest, start, start + Size(k), start + len);
      }
    }
  }

  lemma {:induction false} OneBlock(len: nat, k: nat)
    requires len % PAGE_SIZE == 0 && Size(k) <= len < 2 * Size(k)
    ensures Quotient(len, Size(k)) == 1 && Remainder(len, Size(k)) == len - Size(k) && (len - Size(k)) % PAGE_SIZE == 0
  {
    QuotientUnique(len, Size(k), 1);
    assert len - Size(k) == PAGE_SIZE * (len / PAGE_SIZE - Pow2(k));
  }

  lemma {:induction false} ClaimNothing(start: nat, top: nat)
    ensures ClaimBelow(start, 0, top) == []
    decreases top
  {
    if top > 0 {
      QuotientUnique(0, Size(top - 1), 0);
      ClaimNothing(start, top - 1);
    }
  }

  lemma {:induction false} ClaimStartsAtStart(start: nat, len: nat, top: nat)
    requires top > 0 && len >= PAGE_SIZE
    ensures |ClaimBelow(start, len, top)| > 0 && ClaimBelow(start, len, top)[0].start == start
    decreases top
  {
    var n := Quotient(len, Size(top - 1));
    if n > 0 {
      assert ClaimRun(start, top - 1, 0, n)[0] == Extent(start, top - 1);
    } else if top > 1 {
      ClaimStartsAtStart(start, len, top - 1);
    }
  }

  /** The running multiple in the inner loop goes wrong from the second block of an order on: the
      decomposition is exact if and only if the range is at most two blocks of the highest order. */
  lemma {:induction false} ClaimExactIff(start: nat, len: nat)
    requires len % PAGE_SIZE == 0
    ensures Tiles(ClaimBelow(start, len, MAX_ORDER), start, start + len) <==> len <= EXACT_CLAIM
  {
    TopBlocks();
    var k := MAX_ORDER - 1;
    assert Size(MAX_ORDER) == 2 * Size(k);
    if len < 2 * Size(k) {
      ClaimIsBinaryExpansion(start, len, MAX_ORDER);
    } else if len == 2 * Size(k) {
      ClaimTwoTopBlocks(start, k);
    } else {
      ClaimBeyondTwo(start, len, k);
    }
  }

  lemma {:induction false} TopBlocks()
    ensures 2 * Size(MAX_ORDER - 1) == EXACT_CLAIM
  {
    assert Pow2(15) == 0x8000;
  }

  lemma {:induction false} DifferenceAligned(start: nat, end: nat)
    requires start <= end && start % PAGE_SIZE == 0 && end % PAGE_SIZE == 0
    ensures (end - start) % PAGE_SIZE == 0
  {
  }

  /** 384 MB, for one: the third block is claimed where the range has already ended. */
  lemma {:induction false} ClaimOf384MegabytesIsWrong(start: nat)
    ensures !Tiles(ClaimBelow(start, 0x1800_0000, MAX_ORDER), start, start + 0x1800_0000)
  {
    ClaimExactIff(start, 0x1800_0000);
  }

  lemma {:induction false} ClaimTwoTopBlocks(start: nat, k: nat)
    ensures Tiles(ClaimBelow(start, 2 * Size(k), k + 1), start, start + 2 * Size(k))
  {
    QuotientUnique(2 * Size(k), Size(k), 2);
    TwoBlocks(start, k, 2);
    ClaimNothing(start + 3 * Size(k), k);
    var s := ClaimBelow(start, 2 * Size(k), k + 1);
    assert s == [Extent(start, k), Extent(start + Size(k), k)];
    assert s[1..] == [Extent(start + Size(k), k)] && s[1..][1..] == [];
  }

  /** The third block starts one block too far. */
  lemma {:induction false} ClaimBeyondTwo(start: nat, len: nat, k: nat)
    requires len % PAGE_SIZE == 0 && len > 2 * Size(k) && k > 0
    ensures !Tiles(ClaimBelow(start, len, k + 1), start, start + len)
  {
    var n, rem := Quotient(len, Size(k)), Remainder(len, Size(k));
    if n < 2 { MulGap(2, n, Size(k)); }
    TwoBlocks(start, k, n);
    var run, rest := ClaimRun(start, k, 0, n), ClaimBelow(ClaimRunEnd(start, k, 0, n), rem, k);
    if n == 2 {
      RemainderIsPages(len, k, n);
      ClaimStartsAtStart(start + 3 * Size(k), rem, k);
    }
    ThirdBlockOff(run + rest, start, k, start + len);
  }

  lemma {:induction false} ThirdBlockOff(s: seq<Extent>, start: nat, k: nat, end: nat)
    requires |s| >= 3 && s[0] == Extent(start, k) && s[1] == Extent(start + Size(k), k) && s[2].start == start + 3 * Size(k)
    ensures !Tiles(s, start, end)
  {
    var a, b := start + Size(k), start + Size(k) + Size(k);
    assert s[1..][0] == s[1] && s[1..][1..][0] == s[2];
    assert Tiles(s, start, end) ==> Tiles(s[1..], a, end);
    assert Tiles(s[1..], a, end) ==> Tiles(s[1..][1..], b, end);
    assert !Tiles(s[1..][1..], b, end);
  }

  lemma {:induction false} TwoBlocks(start: nat, k: nat, n: nat)
    requires n >= 2
    ensures var r := ClaimRun(start, k, 0, n);
      && |r| >= 2 && r[0] == Extent(start, k) && r[1] == Extent(start + Size(k), k)
      && (n == 2 ==> |r| == 2 && ClaimRunEnd(start, k, 0, n) == start + 3 * Size(k))
      && (n > 2 ==> |r| > 2 && r[2].start == start + 3 * Size(k))
  {
    var b := Size(k);
    assert ClaimRun(start, k, 0, n) == [Extent(start, k)] + ClaimRun(start + b, k, 1, n);
    assert ClaimRun(start + b, k, 1, n) == [Extent(start + b, k)] + ClaimRun(start + b + 2 * b, k, 2, n);
    assert ClaimRunEnd(start, k, 0, n) == ClaimRunEnd(start + b, k, 1, n) == ClaimRunEnd(start + b + 2 * b, k, 2, n);
    if n > 2 {
      assert ClaimRun(start + b + 2 * b, k, 2, n)[0] == Extent(start + b + 2 * b, k);
    }
  }

  lemma {:induction false} RemainderIsPages(len: nat, k: nat, n: nat)
    requires len % PAGE_SIZE == 0 && n == Quotient(len, Size(k)) && n * Size(k) < len
    ensures Remainder(len, Size(k)) >= PAGE_SIZE
  {
    var rem := len - n * Size(k);
    assert rem == PAGE_SIZE * (len / PAGE_SIZE - n * Pow2(k));
  }

  /** Blocks that tile a range hold each of its pages once and no other page. */
  lemma {:induction false} TilesCover(s: seq<Extent>, start: nat, end: nat, p: nat)
    requires start % PAGE_SIZE == 0 && Tiles(s, start, end)
    ensures start <= end && end % PAGE_SIZE == 0
    ensures Cover(s, p) == if start / PAGE_SIZE <= p < end / PAGE_SIZE then 1 else 0
  {
    if s != [] {
      NextBlock(start, s[0].order);
      TilesCover(s[1..], start + Size(s[0].order), end, p);
    }
  }

  /** Break a page-aligned range into blocks, highest order first. */
  method ClaimRange(start: nat, end: nat) returns (blocks: seq<Extent>)
    requires start <= end
    ensures blocks == ClaimBelow(start, end - start, MAX_ORDER)
  {
    if end - start < PAGE_SIZE {
      ClaimTooShort(start, end - start, MAX_ORDER);
      return [];
    }
    blocks := ClaimOrders(start, end - start, MAX_ORDER);
  }

  method ClaimOrders(start: nat, len: nat, top: nat) returns (blocks: seq<Extent>)
    ensures blocks == ClaimBelow(start, len, top)
  {
    var at, left := start, len;
    blocks := [];
    for order := top downto 0
      invariant blocks + ClaimBelow(at, left, order) == ClaimBelow(start, len, top)
    {
      var n, rem := Quotient(left, Size(order)), Remainder(left, Size(order));
      if n > 0 {
        ghost var done, at0, left0 := blocks, at, left;
        var run;
        run, at := ClaimOrder(at, order, n);
        blocks := blocks + run;
        left := rem;
        assert ClaimBelow(at0, left0, order + 1) == run + ClaimBelow(at, left, order);
      }
    }
  }

  method ClaimOrder(start: nat, order: nat, n: nat) returns (run: seq<Extent>, at: nat)
    ensures run == ClaimRun(start, order, 0, n) && at == ClaimRunEnd(start, order, 0, n)
  {
    at := start;
    run := [];
    for b := 0 to n
      invariant run + ClaimRun(at, order, b, n) == ClaimRun(start, order, 0, n)
      invariant ClaimRunEnd(at, order, b, n) == ClaimRunEnd(start, order, 0, n)
    {
      run := run + [Extent(at, order)];
      at := at + (b + 1) * Size(order);
    }
  }

  lemma {:induction false} ClaimTooShort(start: nat, len: nat, top: nat)
    requires len < PAGE_SIZE
    ensures ClaimBelow(start, len, top) == []
    decreases top
  {
    if top > 0 {
      QuotientUnique(len, Size(top - 1), 0);
      ClaimTooShort(start, len, top - 1);
    }
  }

  lemma {:induction false} ClaimOrdersInRange(start: nat, len: nat, top: nat)
    ensures OrdersBelow(ClaimBelow(start, len, top), top)
    decreases top
  {
    if top > 0 {
      var n := Quotient(len, Size(top - 1));
      if n == 0 {
        ClaimOrdersInRange(start, len, top - 1);
      } else {
        ClaimRunOrder(start, top - 1, 0, n);
        ClaimOrdersInRange(ClaimRunEnd(start, top - 1, 0, n), Remainder(len, Size(top - 1)), top - 1);
      }
    }
  }

  lemma {:induction false} ClaimRunOrder(start: nat, order: nat, b: nat, n: nat)
    requires b <= n
    ensures forall i :: 0 <= i < |ClaimRun(start, order, b, n)| ==> ClaimRun(start, order, b, n)[i].order == order
    decreases n - b
  {
    if b < n { ClaimRunOrder(start + (b + 1) * Size(order), order, b + 1, n); }
  }
}
