/** A slab cache: pages cut into entries of one size, entries given back reused first. */
module Slab {
  import opened Basics

  const PAGE: nat := 4096

  /** The page entries are cut from: where it starts, the next entry, how many will be left after it. */
  datatype Current = Current(mem: nat, nextFree: nat, numFree: nat)

  /** The fields of a cache. */
  datatype State = State(item: nat, capacity: nat, page: Option<Current>, chunks: seq<nat>)

  function PerPage(item: nat): nat
    requires item > 0
  {
    PAGE / item
  }

  /** Entry k of the page at p. */
  function Entry(item: nat, p: nat, k: nat): nat { p + k * item }

  // ---------------------------------------------------------------- what is kept

  /** No two pages overlap. */
  ghost predicate Apart(pages: seq<nat>) {
    forall i, j :: 0 <= i < j < |pages| ==> pages[i] + PAGE <= pages[j] || pages[j] + PAGE <= pages[i]
  }

  ghost predicate ApartFrom(pages: seq<nat>, p: nat) {
    forall i :: 0 <= i < |pages| ==> pages[i] + PAGE <= p || p + PAGE <= pages[i]
  }

  /** How many entries of page i have been handed out: all, unless it is the page being cut. */
  function Used(s: State, pages: seq<nat>, i: nat): int
    requires s.item > 0
  {
    if s.page.Some? && i == |pages| - 1 then PerPage(s.item) - 1 - s.page.value.numFree else PerPage(s.item)
  }

  /** Address a is entry k of page i, and was cut. */
  ghost predicate IsCut(s: State, pages: seq<nat>, a: nat, i: nat, k: nat)
    requires s.item > 0
  {
    i < |pages| && k < Used(s, pages, i) && a == Entry(s.item, pages[i], k)
  }

  ghost predicate Cut(s: State, pages: seq<nat>, a: nat)
    requires s.item > 0
  {
    exists i: nat, k: nat :: IsCut(s, pages, a, i, k)
  }

  /** The page being cut is the last one, and the next entry is where the cut ones end. */
  ghost predicate PageOk(s: State, pages: seq<nat>)
    requires s.item > 0
  {
    s.page.Some? ==>
      && |pages| > 0 && s.page.value.mem == pages[|pages| - 1] && s.page.value.numFree < PerPage(s.item)
      && s.page.value.nextFree == Entry(s.item, s.page.value.mem, Used(s, pages, |pages| - 1))
  }

  ghost predicate Distinct(c: seq<nat>) { forall i, j :: 0 <= i < j < |c| ==> c[i] != c[j] }

  ghost predicate Inv(s: State, pages: seq<nat>, live: set<nat>) {
    && 0 < s.item <= PAGE && Apart(pages) && PageOk(s, pages) && Distinct(s.chunks)
    && (forall a :: a in live ==> Cut(s, pages, a) && a !in s.chunks)
    && (forall a :: a in s.chunks ==> Cut(s, pages, a))
    && s.capacity == PerPage(s.item) * |pages|
    && |live| + |s.chunks| + (if s.page.Some? then s.page.value.numFree + 1 else 0) == s.capacity
  }

  // ---------------------------------------------------------------- entries do not overlap

  lemma {:induction false} EntryInPage(item: nat, p: nat, k: nat)
    requires item > 0 && k < PerPage(item)
    ensures p <= Entry(item, p, k) && Entry(item, p, k) + item <= p + PAGE
  {
    Scaled(k + 1, PerPage(item), item);
    assert (k + 1) * item == k * item + item;
    assert PerPage(item) * item <= PAGE;
  }

  /** A page is cut into as many entries as fit. */
  lemma {:induction false} PageIsUsedUp(item: nat)
    requires item > 0
    ensures PerPage(item) * item <= 4096 < (PerPage(item) + 1) * item
  {
    var q, r := 4096 / item, 4096 % item;
    assert 4096 == q * item + r && r < item;
    assert (q + 1) * item == q * item + item;
  }

  lemma {:induction false} InOnePage(item: nat, p: nat, k: nat, l: nat)
    requires k < l
    ensures Entry(item, p, k) + item <= Entry(item, p, l)
  {
    Scaled(k + 1, l, item);
    assert (k + 1) * item == k * item + item;
  }

  lemma {:induction false} CutAt(s: State, pages: seq<nat>, a: nat) returns (i: nat, k: nat)
    requires s.item > 0 && Cut(s, pages, a)
    ensures i < |pages| && k < Used(s, pages, i) <= PerPage(s.item) && a == Entry(s.item, pages[i], k)
    ensures pages[i] <= a && a + s.item <= pages[i] + PAGE
  {
    i, k :| IsCut(s, pages, a, i, k);
    EntryInPage(s.item, pages[i], k);
  }

  /** Two entries that were cut are the same or do not overlap. */
  lemma {:induction false} CutsDisjoint(s: State, pages: seq<nat>, a: nat, b: nat)
    requires s.item > 0 && Apart(pages) && Cut(s, pages, a) && Cut(s, pages, b) && a != b
    ensures a + s.item <= b || b + s.item <= a
  {
    var i, k := CutAt(s, pages, a);
    var j, l := CutAt(s, pages, b);
    if i == j {
      if k < l { InOnePage(s.item, pages[i], k, l); }
      if l < k { InOnePage(s.item, pages[i], l, k); }
    }
  }

  /** The entries in use lie wholly in pages of the cache, and no two of them overlap. */
  lemma {:induction false} LiveDisjoint(s: State, pages: seq<nat>, live: set<nat>, a: nat, b: nat)
    requires Inv(s, pages, live) && a in live && b in live
    ensures exists i :: 0 <= i < |pages| && pages[i] <= a && a + s.item <= pages[i] + PAGE
    ensures a != b ==> a + s.item <= b || b + s.item <= a
  {
    var i, k := CutAt(s, pages, a);
    if a != b { CutsDisjoint(s, pages, a, b); }
  }

  /** The next entry of the page being cut was never handed out. */
  lemma {:induction false} NextIsNew(s: State, pages: seq<nat>)
    requires s.item > 0 && Apart(pages) && PageOk(s, pages) && s.page.Some?
    ensures !Cut(s, pages, s.page.value.nextFree)
  {
    var n, m := s.page.value.nextFree, |pages| - 1;
    var u := Used(s, pages, m);
    if Cut(s, pages, n) {
      var i, k := CutAt(s, pages, n);
      EntryInPage(s.item, pages[m], u);
      if i == m { InOnePage(s.item, pages[m], k, u); }
      assert false;
    }
  }

  // ---------------------------------------------------------------- the operations on values

  /** A new page to cut from. */
  function WithPage(s: State, p: nat): State
    requires 0 < s.item <= PAGE
  {
    OneFits(s.item);
    s.(page := Some(Current(p, p, PerPage(s.item) - 1)), capacity := s.capacity + PerPage(s.item))
  }

  /** The next entry cut off. */
  function Sliced(s: State): State
    requires s.page.Some?
  {
    var c := s.page.value;
    s.(page := if c.numFree == 0 then None else Some(Current(c.mem, c.nextFree + s.item, c.numFree - 1)))
  }

  lemma {:induction false} CutKept(s: State, pages: seq<nat>, t: State, more: seq<nat>, a: nat)
    requires 0 < s.item == t.item && Cut(s, pages, a)
    requires forall i :: 0 <= i < |pages| ==> Used(s, pages, i) <= Used(t, pages + more, i)
    ensures Cut(t, pages + more, a)
  {
    var i: nat, k: nat :| IsCut(s, pages, a, i, k);
    assert IsCut(t, pages + more, a, i, k);
  }

  lemma {:induction false} WithPageOk(s: State, pages: seq<nat>, live: set<nat>, p: nat)
    requires Inv(s, pages, live) && s.page.None? && ApartFrom(pages, p)
    ensures Inv(WithPage(s, p), pages + [p], live)
  {
    var t := WithPage(s, p);
    assert PerPage(s.item) * (|pages| + 1) == PerPage(s.item) * |pages| + PerPage(s.item);
    OneFits(s.item);
    forall a | Cut(s, pages, a) ensures Cut(t, pages + [p], a) { CutKept(s, pages, t, [p], a); }
    assert Entry(s.item, p, 0) == p;
  }

  lemma {:induction false} OneFits(item: nat)
    requires 0 < item <= PAGE
    ensures PerPage(item) >= 1
  {
    assert PAGE == PerPage(item) * item + PAGE % item;
  }

  lemma {:induction false} SlicedOk(s: State, pages: seq<nat>, live: set<nat>)
    requires Inv(s, pages, live) && s.page.Some? && s.chunks == []
    ensures s.page.value.nextFree !in live
    ensures Inv(Sliced(s), pages, live + {s.page.value.nextFree})
  {
    var c, m, t := s.page.value, |pages| - 1, Sliced(s);
    var u := Used(s, pages, m);
    NextIsNew(s, pages);
    assert IsCut(t, pages, c.nextFree, m, u);
    assert Entry(s.item, c.mem, u + 1) == c.nextFree + s.item by { assert (u + 1) * s.item == u * s.item + s.item; }
    assert pages + [] == pages;
    forall a | Cut(s, pages, a) ensures Cut(t, pages, a) { CutKept(s, pages, t, [], a); }
  }

  /** A free entry taken up again. */
  lemma {:induction false} ReusedOk(s: State, pages: seq<nat>, live: set<nat>)
    requires Inv(s, pages, live) && s.chunks != []
    ensures s.chunks[0] !in live
    ensures Inv(s.(chunks := s.chunks[1..]), pages, live + {s.chunks[0]})
  {
    SameCuts(s, s.(chunks := s.chunks[1..]), pages);
  }

  lemma {:induction false} SameCuts(s: State, t: State, pages: seq<nat>)
    requires 0 < s.item == t.item && s.page == t.page
    ensures forall a :: Cut(s, pages, a) <==> Cut(t, pages, a)
  {
    forall a ensures Cut(s, pages, a) <==> Cut(t, pages, a) {
      if Cut(s, pages, a) { var i: nat, k: nat :| IsCut(s, pages, a, i, k); assert IsCut(t, pages, a, i, k); }
      if Cut(t, pages, a) { var i: nat, k: nat :| IsCut(t, pages, a, i, k); assert IsCut(s, pages, a, i, k); }
    }
  }

  /** The free chunks with one more: behind the first. */
  function WithChunk(c: seq<nat>, a: nat): seq<nat> {
    if c == [] then [a] else [c[0], a] + c[1..]
  }

  lemma {:induction false} FreedOk(s: State, pages: seq<nat>, live: set<nat>, a: nat)
    requires Inv(s, pages, live) && a in live
    ensures Inv(s.(chunks := WithChunk(s.chunks, a)), pages, live - {a})
  {
    var t := s.(chunks := WithChunk(s.chunks, a));
    SameCuts(s, t, pages);
    assert forall b :: b in t.chunks <==> b == a || b in s.chunks;
  }

  // ---------------------------------------------------------------- the cache

  class Cache {
    var state: State
    ghost var pages: seq<nat>
    ghost var live: set<nat>

    ghost predicate Valid()
      reads this
    {
      Inv(state, pages, live)
    }

    /** The size is rounded up to a multiple of two; the first page is taken at once. */
    constructor (size: nat, page: nat)
      requires 0 < size <= PAGE
      ensures Valid() && state.item == (size + 1) / 2 * 2 && pages == [page] && live == {} && state.chunks == []
    {
      var item := (size + 1) / 2 * 2;
      OneFits(item);
      state := State(item, PerPage(item), Some(Current(page, page, PerPage(item) - 1)), []);
      pages, live := [page], {};
    }

    /** An entry that is not in use: one that was given back if there is any, else the next of the page,
        a new page being taken only when the last one is used up. */
    method AllocEntry(fresh_: nat) returns (a: nat)
      requires Valid() && ApartFrom(pages, fresh_)
      modifies this
      ensures Valid() && a !in old(live) && live == old(live) + {a} && state.item == old(state.item)
      ensures old(state.chunks) != [] ==> a == old(state.chunks)[0] && state.chunks == old(state.chunks)[1..]
      ensures old(state.chunks) == [] ==> state.chunks == []
      ensures old(state.chunks) == [] ==> a == if old(state.page) == None then fresh_ else old(state.page).value.nextFree
      ensures pages == if old(state.chunks) == [] && old(state.page) == None then old(pages) + [fresh_] else old(pages)
      ensures pages != old(pages) ==> |old(live)| == PerPage(state.item) * |old(pages)|
    {
      if state.chunks != [] {
        a := Reuse();
        return;
      }
      if state.page == None { TakePage(fresh_); }
      a := CutEntry();
    }

    /** The first entry given back. */
    method Reuse() returns (a: nat)
      requires Valid() && state.chunks != []
      modifies this
      ensures Valid() && a !in old(live) && live == old(live) + {a} && pages == old(pages)
      ensures a == old(state.chunks)[0] && state == old(state).(chunks := old(state.chunks)[1..])
    {
      ReusedOk(state, pages, live);
      a := state.chunks[0];
      state := state.(chunks := state.chunks[1..]);
      live := live + {a};
    }

    method TakePage(p: nat)
      requires Valid() && ApartFrom(pages, p) && state.page == None
      modifies this
      ensures Valid() && pages == old(pages) + [p] && live == old(live) && state == WithPage(old(state), p)
    {
      WithPageOk(state, pages, live, p);
      var n := PAGE / state.item;
      state := state.(page := Some(Current(p, p, n - 1)), capacity := state.capacity + n);
      pages := pages + [p];
    }

    method CutEntry() returns (a: nat)
      requires Valid() && state.page.Some? && state.chunks == []
      modifies this
      ensures Valid() && a !in old(live) && live == old(live) + {a} && pages == old(pages)
      ensures state == Sliced(old(state)) && a == old(state).page.value.nextFree
    {
      SlicedOk(state, pages, live);
      var c := state.page.value;
      a := c.nextFree;
      if c.numFree == 0 {
        state := state.(page := None);
      } else {
        state := state.(page := Some(Current(c.mem, c.nextFree + state.item, c.numFree - 1)));
      }
      live := live + {a};
    }

    /** Give an entry back; the null pointer is refused. */
    method FreeEntry(a: nat) returns (ok: bool)
      requires Valid() && (a == 0 || a in live)
      modifies this
      ensures Valid() && pages == old(pages) && (ok <==> a != 0)
      ensures ok ==> live == old(live) - {a} && state == old(state).(chunks := WithChunk(old(state.chunks), a))
      ensures ok && old(state.chunks) == [] ==> state.chunks == [a]
      ensures ok && old(state.chunks) != [] ==> state.chunks == [old(state.chunks)[0], a] + old(state.chunks)[1..]
      ensures !ok ==> live == old(live) && state == old(state)
    {
      if a == 0 { return false; }
      FreedOk(state, pages, live, a);
      if state.chunks == [] {
        state := state.(chunks := [a]);
      } else {
        state := state.(chunks := [state.chunks[0], a] + state.chunks[1..]);
      }
      live := live - {a};
      ok := true;
    }
  }

  /** An allocation, with the page the page allocator would hand out if asked, or a free. */
  datatype Op = Alloc(page: nat) | Free(entry: nat)

  /** The pages on offer in a run. */
  ghost function Offered(ops: seq<Op>): seq<nat> {
    if ops == [] then [] else (if ops[0].Alloc? then [ops[0].page] else []) + Offered(ops[1..])
  }

  lemma {:induction false} ApartWithout(a: seq<nat>, p: nat, b: seq<nat>)
    requires Apart(a + ([p] + b))
    ensures ApartFrom(a, p) && Apart(a + b) && Apart((a + [p]) + b)
  {
    var s := a + ([p] + b);
    assert s == (a + [p]) + b;
    forall i | 0 <= i < |a| ensures a[i] + PAGE <= p || p + PAGE <= a[i] {
      assert s[i] == a[i] && s[|a|] == p;
    }
    forall i, j | 0 <= i < j < |a + b|
      ensures (a + b)[i] + PAGE <= (a + b)[j] || (a + b)[j] + PAGE <= (a + b)[i]
    {
      var i1, j1 := if i < |a| then i else i + 1, if j < |a| then j else j + 1;
      assert s[i1] == (a + b)[i] && s[j1] == (a + b)[j];
    }
  }

  /** Any run of allocations and of frees of entries in use, as long as the page allocator offers pages
      that do not overlap. held is the client's own record. */
  method Run(c: Cache, ops: seq<Op>) returns (held: set<nat>)
    requires c.Valid() && c.live == {} && Apart(c.pages + Offered(ops))
    modifies c
    ensures c.Valid() && c.live == held
  {
    held := {};
    assert ops[0..] == ops;
    for i := 0 to |ops|
      invariant c.Valid() && c.live == held && Apart(c.pages + Offered(ops[i..]))
    {
      assert ops[i..][1..] == ops[i + 1..];
      match ops[i]
      case Alloc(page) =>
        ApartWithout(c.pages, page, Offered(ops[i + 1..]));
        var a := c.AllocEntry(page);
        held := held + {a};
      case Free(entry) =>
        assert Offered(ops[i..]) == Offered(ops[i + 1..]);
        if entry in held {
          var ok := c.FreeEntry(entry);
          if ok { held := held - {entry}; }
        }
    }
  }

  /** A new cache; sizes of zero or more than a page are refused. */
  method Create(size: nat, page: nat) returns (c: Cache?)
    ensures c == null <==> size == 0 || size > PAGE
    ensures c != null ==> fresh(c) && c.Valid() && c.pages == [page] && c.live == {}
    ensures c != null ==> size <= c.state.item <= size + 1 && c.state.item % 2 == 0
  {
    if size > PAGE || size == 0 { return null; }
    c := new Cache(size, page);
  }
}
