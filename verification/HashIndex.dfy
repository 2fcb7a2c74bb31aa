/** The hash index: the hash of numeric keys, and open addressing with at most twelve probes. */
module HashIndex {
  import opened Basics

  // ---------------------------------------------------------------- the hash

  const HALF: nat := 0x1_0000
  const WORD: nat := 0x1_0000_0000
  /** The hash of a missing key; no key is stored under it. */
  const NONE: nat := 0xffff_ffff
  const FACTOR: nat := 0x045d_9f3b
  /** The inverse of FACTOR in 32 bits. */
  const INVERSE: nat := 0x119d_e1f3

  type U32 = x: nat | x < WORD

  /** Exclusive or of two n-bit numbers. */
  function Xor(n: nat, a: nat, b: nat): (r: nat)
    ensures r < Pow2(n)
  {
    if n == 0 then 0 else (a + b) % 2 + 2 * Xor(n - 1, a / 2, b / 2)
  }

  lemma {:induction false} BitTwice(a: nat, b: nat, c: nat, r: nat)
    requires c == (a + b) % 2 + 2 * r
    ensures c / 2 == r && (a + c) % 2 == b % 2
  {
  }

  lemma {:induction false} XorTwice(n: nat, a: nat, b: nat)
    requires b < Pow2(n)
    ensures Xor(n, a, Xor(n, a, b)) == b
  {
    if n > 0 {
      var r := Xor(n - 1, a / 2, b / 2);
      XorTwice(n - 1, a / 2, b / 2);
      BitTwice(a, b, (a + b) % 2 + 2 * r, r);
    }
  }

  ghost function Bit(x: nat, i: nat): nat { if i == 0 then x % 2 else Bit(x / 2, i - 1) }

  /** A bit is set exactly when it is set in one of the two and not in the other. */
  lemma {:induction false} XorBits(n: nat, a: nat, b: nat, i: nat)
    requires i < n
    ensures Bit(Xor(n, a, b), i) == 1 <==> Bit(a, i) != Bit(b, i)
  {
    var r := Xor(n - 1, a / 2, b / 2);
    BitTwice(a, b, (a + b) % 2 + 2 * r, r);
    if i > 0 { XorBits(n - 1, a / 2, b / 2, i - 1); }
  }

  /** x ^ (x >> 16): the upper half stays, the lower half is mixed with it. */
  function Fold(x: U32): U32 {
    HalfWord();
    x / HALF * HALF + Xor(16, x / HALF, x % HALF)
  }

  lemma {:induction false} HalfWord()
    ensures Pow2(16) == HALF
  {
    assert Pow2(4) == 16;
    assert Pow2(8) == 256;
    assert Pow2(12) == 4096;
  }

  lemma {:induction false} FoldTwice(x: U32)
    ensures Fold(Fold(x)) == x
  {
    HalfWord();
    var hi, lo := x / HALF, x % HALF;
    var y := Xor(16, hi, lo);
    assert (hi * HALF + y) / HALF == hi && (hi * HALF + y) % HALF == y;
    XorTwice(16, hi, lo);
  }

  function Times(x: U32, f: nat): U32 { x * f % WORD }

  lemma {:induction false} TimesTwice(x: U32, f: nat, g: nat)
    requires f * g % WORD == 1
    ensures Times(Times(x, f), g) == x
  {
    var q, k := x * f / WORD, f * g / WORD;
    assert Times(x, f) == x * f - q * WORD;
    assert Times(x, f) * g == x * (f * g) - q * g * WORD;
    assert x * (f * g) == x * (k * WORD + 1);
    assert Times(x, f) * g == x + (x * k - q * g) * WORD;
  }

  /** The hash of a numeric key. */
  function Hash(key: Option<U32>): U32 {
    match key
    case None => NONE
    case Some(k) => Fold(Times(Fold(Times(Fold(k), FACTOR)), FACTOR))
  }

  function Unhash(h: U32): U32 {
    Fold(Times(Fold(Times(Fold(h), INVERSE)), INVERSE))
  }

  /** The hash is one to one and onto: numeric keys never collide, and exactly one cannot be stored. */
  lemma {:induction false} HashIsBijective(k: U32)
    ensures Unhash(Hash(Some(k))) == k
    ensures Hash(Some(Unhash(k))) == k
  {
    Unmixed(k, FACTOR, INVERSE);
    Unmixed(k, INVERSE, FACTOR);
  }

  lemma {:induction false} Unmixed(k: U32, f: nat, g: nat)
    requires f * g % WORD == 1
    ensures Fold(Times(Fold(Times(Fold(Fold(Times(Fold(Times(Fold(k), f)), f))), g)), g)) == k
  {
    var a := Fold(k);
    var b := Fold(Times(a, f));
    FoldTwice(Times(b, f));
    TimesTwice(b, f, g);
    FoldTwice(Times(a, f));
    TimesTwice(a, f, g);
    FoldTwice(k);
  }

  // ---------------------------------------------------------------- the table

  const PROBES: nat := 12

  datatype Item = Item(data: nat, key: U32, occupied: bool)

  type Slots = seq<Option<Item>>

  /** The i-th slot looked at for a hash. */
  function Probe(cap: nat, key: U32, i: nat): (s: nat)
    requires cap > 0
    ensures s < cap
  {
    if i == 0 then key % cap else (Probe(cap, key, i - 1) + 1) % cap
  }

  /** The i-th slot from the one the hash falls on, round the end of the table. */
  ghost function Nth(cap: nat, key: nat, i: nat): nat
    requires cap > 0
  {
    (key + i) % cap
  }

  lemma {:induction false} Unique(a: nat, q: nat, m: nat, r: nat)
    requires m > 0 && a == q * m + r && r < m
    ensures a % m == r
  {
    var d := a / m - q;
    assert a == (a / m) * m + a % m;
    assert d * m == r - a % m;
    if d > 0 { Scaled(1, d, m); }
    if d < 0 { Scaled(d, -1, m); }
  }

  lemma {:induction false} OneFurther(a: nat, m: nat)
    requires m > 0
    ensures (a + 1) % m == if a % m + 1 == m then 0 else a % m + 1
  {
    var q, r := a / m, a % m;
    assert a == q * m + r;
    if r + 1 == m {
      assert (q + 1) * m == q * m + m;
      Unique(a + 1, q + 1, m, 0);
    } else {
      Unique(a + 1, q, m, r + 1);
    }
  }

  lemma {:induction false} NextNth(cap: nat, key: nat, i: nat)
    requires cap > 0
    ensures Nth(cap, key, i) < cap
    ensures Nth(cap, key, i + 1) == (Nth(cap, key, i) + 1) % cap
  {
    OneFurther(key + i, cap);
    var s := (key + i) % cap;
    if s + 1 == cap { Unique(s + 1, 1, cap, 0); } else { Unique(s + 1, 0, cap, s + 1); }
  }

  /** The slots looked at are consecutive, round the end of the table. */
  lemma {:induction false} ProbeIs(cap: nat, key: U32, i: nat)
    requires cap > 0
    ensures Probe(cap, key, i) == Nth(cap, key, i)
  {
    if i > 0 {
      ProbeIs(cap, key, i - 1);
      NextNth(cap, key, i - 1);
      NextProbe(cap, key, i, Nth(cap, key, i - 1), Nth(cap, key, i));
    }
  }

  lemma {:induction false} NextProbe(cap: nat, key: U32, i: nat, s: nat, s1: nat)
    requires cap > 0 && i > 0 && Probe(cap, key, i - 1) == s && s1 == (s + 1) % cap
    ensures Probe(cap, key, i) == s1
  {
  }

  predicate Occupied(t: Slots, s: nat)
    requires s < |t|
  {
    t[s].Some? && t[s].value.occupied
  }

  /** What a lookup finds from the i-th probe on. */
  function Lookup(t: Slots, key: U32, i: nat): Option<nat>
    requires |t| > 0 && i <= PROBES
    decreases PROBES - i
  {
    if i == PROBES then None
    else
      var s := Probe(|t|, key, i);
      if !Occupied(t, s) then None
      else if t[s].value.key == key then Some(t[s].value.data)
      else Lookup(t, key, i + 1)
  }

  /** The first i slots looked at are occupied. */
  predicate Crowded(t: Slots, key: U32, i: nat)
    requires |t| > 0
  {
    forall j :: 0 <= j < i ==> Occupied(t, Probe(|t|, key, j))
  }

  /** Slot s is looked at for this hash, with no free slot before it. */
  ghost predicate Reached(t: Slots, key: U32, s: nat)
    requires |t| > 0
  {
    exists i: nat :: i < PROBES && Probe(|t|, key, i) == s && Crowded(t, key, i)
  }

  /** Every item can be reached from the start of its own probe path. */
  ghost predicate Reachable(t: Slots)
    requires |t| > 0
  {
    forall s: nat :: s < |t| && Occupied(t, s) ==> Reached(t, t[s].value.key, s)
  }

  /** The table gives for every hash what the map has for it. */
  ghost predicate Agrees(t: Slots, m: map<U32, nat>)
    requires |t| > 0
  {
    forall key: U32 :: Lookup(t, key, 0) == if key in m then Some(m[key]) else None
  }

  // ---------------------------------------------------------------- what an insertion does to lookups

  /** The slot where a new item goes: the first free one that is looked at, after i occupied ones. */
  ghost predicate GoesTo(t: Slots, key: U32, i: nat, s: nat)
    requires |t| > 0
  {
    i < PROBES && Probe(|t|, key, i) == s && !Occupied(t, s) && Crowded(t, key, i)
  }

  /** A lookup that reaches an item is not changed by filling a free slot. */
  lemma {:induction false} FoundStays(t: Slots, key: U32, s: nat, it: Item, i: nat)
    requires |t| > 0 && s < |t| && !Occupied(t, s) && i <= PROBES
    requires Lookup(t, key, i).Some?
    ensures Lookup(t[s := Some(it)], key, i) == Lookup(t, key, i)
    decreases PROBES - i
  {
    var p := Probe(|t|, key, i);
    if t[p].value.key != key { FoundStays(t, key, s, it, i + 1); }
  }

  /** If no item of this hash is stored, a lookup finds none. */
  lemma {:induction false} AbsentIsNone(t: Slots, key: U32, i: nat)
    requires |t| > 0 && i <= PROBES
    requires forall s: nat :: s < |t| && Occupied(t, s) ==> t[s].value.key != key
    ensures Lookup(t, key, i) == None
    decreases PROBES - i
  {
    if i < PROBES { AbsentIsNone(t, key, i + 1); }
  }

  /** A lookup gets to any item of its hash that lies on a crowded path. */
  lemma {:induction false} PresentIsFound(t: Slots, key: U32, n: nat, i: nat)
    requires |t| > 0 && i <= n < PROBES && Crowded(t, key, n)
    requires var s := Probe(|t|, key, n); Occupied(t, s) && t[s].value.key == key
    ensures Lookup(t, key, i).Some?
    decreases n - i
  {
    assert Occupied(t, Probe(|t|, key, i));
    if i < n { PresentIsFound(t, key, n, i + 1); }
  }

  lemma {:induction false} NoneIsAbsent(t: Slots, key: U32, s: nat)
    requires |t| > 0 && Reachable(t) && Lookup(t, key, 0) == None
    requires s < |t| && Occupied(t, s)
    ensures t[s].value.key != key
  {
    if t[s].value.key == key {
      assert Reached(t, key, s);
      var n: nat :| n < PROBES && Probe(|t|, key, n) == s && Crowded(t, key, n);
      PresentIsFound(t, key, n, 0);
    }
  }

  /** A new item of a hash that was not there is found, at the end of its crowded path. */
  lemma {:induction false} NewIsFound(t: Slots, key: U32, n: nat, data: nat, i: nat)
    requires |t| > 0 && i <= n && GoesTo(t, key, n, Probe(|t|, key, n))
    requires forall s: nat :: s < |t| && Occupied(t, s) ==> t[s].value.key != key
    ensures Lookup(t[Probe(|t|, key, n) := Some(Item(data, key, true))], key, i) == Some(data)
    decreases n - i
  {
    if i < n {
      assert Occupied(t, Probe(|t|, key, i));
      NewIsFound(t, key, n, data, i + 1);
    }
  }

  lemma {:induction false} InsertReachable(t: Slots, key: U32, n: nat, s: nat, data: nat)
    requires |t| > 0 && Reachable(t) && GoesTo(t, key, n, s)
    ensures Reachable(t[s := Some(Item(data, key, true))])
  {
    var t1 := t[s := Some(Item(data, key, true))];
    forall r: nat | r < |t1| && Occupied(t1, r) ensures Reached(t1, t1[r].value.key, r) {
      var k := t1[r].value.key;
      if r == s {
        assert Crowded(t1, key, n);
      } else {
        assert Occupied(t, r) && Reached(t, k, r);
        var i: nat :| i < PROBES && Probe(|t|, k, i) == r && Crowded(t, k, i);
        assert Crowded(t1, k, i);
      }
    }
  }

  /** The first insertion under a hash is the one that counts. */
  function Noted(m: map<U32, nat>, key: U32, data: nat): map<U32, nat> {
    if key in m then m else m[key := data]
  }

  lemma {:induction false} InsertAgrees(t: Slots, m: map<U32, nat>, key: U32, n: nat, s: nat, data: nat)
    requires |t| > 0 && Reachable(t) && Agrees(t, m) && GoesTo(t, key, n, s)
    ensures Agrees(t[s := Some(Item(data, key, true))], Noted(m, key, data))
  {
    var t1 := t[s := Some(Item(data, key, true))];
    forall k: U32 ensures Lookup(t1, k, 0) == var m1 := Noted(m, key, data); if k in m1 then Some(m1[k]) else None {
      if k in m {
        FoundStays(t, k, s, Item(data, key, true), 0);
      } else {
        assert Lookup(t, k, 0) == None;
        forall r: nat | r < |t| && Occupied(t, r) ensures t[r].value.key != k { NoneIsAbsent(t, k, r); }
        if k == key { NewIsFound(t, key, n, data, 0); } else { AbsentIsNone(t1, k, 0); }
      }
    }
  }

  // ---------------------------------------------------------------- how full it is

  function Count(t: Slots, n: nat): (r: nat)
    requires n <= |t|
    ensures r <= n
  {
    if n == 0 then 0 else Count(t, n - 1) + if Occupied(t, n - 1) then 1 else 0
  }

  lemma {:induction false} CountInsert(t: Slots, s: nat, it: Item, n: nat)
    requires s < |t| && n <= |t| && !Occupied(t, s) && it.occupied
    ensures Count(t[s := Some(it)], n) == Count(t, n) + if s < n then 1 else 0
  {
    if n > 0 { CountInsert(t, s, it, n - 1); }
  }

  lemma {:induction false} CountFull(t: Slots, s: nat, n: nat)
    requires s < n <= |t| && Count(t, n) == n
    ensures Occupied(t, s)
  {
    if s < n - 1 { CountFull(t, s, n - 1); }
  }

  lemma {:induction false} FullIsCrowded(t: Slots, key: U32)
    requires |t| > 0 && Count(t, |t|) == |t|
    ensures Crowded(t, key, PROBES)
  {
    forall j | 0 <= j < PROBES ensures Occupied(t, Probe(|t|, key, j)) { CountFull(t, Probe(|t|, key, j), |t|); }
  }

  // ---------------------------------------------------------------- the index

  datatype Change = Add(key: Option<U32>, data: nat) | Delete(key: Option<U32>)

  datatype Op = Insert(key: Option<U32>, data: nat) | Get(key: Option<U32>)

  /** What an operation answers; the null pointer is 0. */
  datatype Reply = Done | Invalid | NoSpace | NotFound | Value(data: Option<nat>)

  /** What an insertion answers. */
  ghost function PutReply(t: Slots, len: nat, key: U32, data: nat): Reply
    requires |t| > 0
  {
    if data == 0 then Invalid
    else if len == |t| then NoSpace
    else if key == NONE then Invalid
    else if Crowded(t, key, PROBES) then NoSpace
    else Done
  }

  /** There is no room for a hash exactly when all the slots it may use are taken. */
  lemma {:induction false} NoSpaceIff(t: Slots, len: nat, first: map<U32, nat>, key: U32, data: nat)
    requires Consistent(t, len, first) && data != 0 && key != NONE
    ensures PutReply(t, len, key, data) == NoSpace <==> Crowded(t, key, PROBES)
  {
    if len == |t| { FullIsCrowded(t, key); }
  }

  /** The same in numbers: the twelve slots from the hash on are taken. */
  lemma {:induction false} NoSpaceMeans(t: Slots, len: nat, first: map<U32, nat>, key: U32, data: nat)
    requires Consistent(t, len, first) && data != 0 && key != NONE
    ensures PutReply(t, len, key, data) == NoSpace <==> forall i :: 0 <= i < 12 ==> Occupied(t, Nth(|t|, key, i))
  {
    NoSpaceIff(t, len, first, key, data);
    forall i | 0 <= i < 12 ensures Probe(|t|, key, i) == Nth(|t|, key, i) { ProbeIs(|t|, key, i); }
  }

  ghost predicate Consistent(t: Slots, len: nat, first: map<U32, nat>) {
    && |t| > 0 && Reachable(t) && Agrees(t, first) && len == Count(t, |t|) && NONE !in first
  }

  lemma {:induction false} InsertConsistent(t: Slots, len: nat, first: map<U32, nat>, key: U32, n: nat, s: nat, data: nat)
    requires Consistent(t, len, first) && GoesTo(t, key, n, s) && key != NONE
    ensures Consistent(t[s := Some(Item(data, key, true))], len + 1, Noted(first, key, data))
  {
    InsertReachable(t, key, n, s, data);
    InsertAgrees(t, first, key, n, s, data);
    CountInsert(t, s, Item(data, key, true), |t|);
  }

  lemma {:induction false} EmptyCount(t: Slots, n: nat)
    requires n <= |t| && forall i :: 0 <= i < |t| ==> t[i] == None
    ensures Count(t, n) == 0
  {
    if n > 0 { EmptyCount(t, n - 1); }
  }

  lemma {:induction false} EmptyConsistent(t: Slots)
    requires |t| > 0 && forall i :: 0 <= i < |t| ==> t[i] == None
    ensures Consistent(t, 0, map[])
  {
    EmptyCount(t, |t|);
    forall key: U32 ensures Lookup(t, key, 0) == None { AbsentIsNone(t, key, 0); }
  }

  // ---------------------------------------------------------------- removal

  /** Where a removal ends: at a slot of that hash, at none in twelve, or at a slot never used, whose missing
      item the kernel would read. */
  datatype Removal = At(s: nat) | Missing | Fault

  /** What a removal finds from the i-th probe on. Items already removed count. */
  function Sought(t: Slots, key: U32, i: nat): (r: Removal)
    requires |t| > 0 && i <= PROBES
    ensures r.At? ==> r.s < |t| && t[r.s].Some?
    decreases PROBES - i
  {
    if i == PROBES then Missing
    else
      var s := Probe(|t|, key, i);
      if t[s].None? then Fault
      else if t[s].value.key == key then At(s)
      else Sought(t, key, i + 1)
  }

  function Vacated(t: Slots, s: nat): Slots
    requires s < |t| && t[s].Some?
  {
    t[s := Some(t[s].value.(occupied := false))]
  }

  /** A removed hash is no longer found, even if it was stored twice. */
  lemma {:induction false} RemovedIsGone(t: Slots, key: U32, i: nat)
    requires |t| > 0 && i <= PROBES && Sought(t, key, i).At?
    ensures Lookup(Vacated(t, Sought(t, key, i).s), key, i) == None
    decreases PROBES - i
  {
    var s := Probe(|t|, key, i);
    if t[s].value.key != key { RemovedIsGone(t, key, i + 1); }
  }

  /** From the i-th probe on, a lookup of this hash comes past slot s before it ends. */
  predicate Passes(t: Slots, key: U32, s: nat, i: nat)
    requires |t| > 0 && i <= PROBES
    decreases PROBES - i
  {
    i < PROBES && var r := Probe(|t|, key, i);
    Occupied(t, r) && (r == s || (t[r].value.key != key && Passes(t, key, s, i + 1)))
  }

  lemma {:induction false} LookupVacated(t: Slots, key: U32, s: nat, i: nat)
    requires |t| > 0 && i <= PROBES && s < |t| && Occupied(t, s)
    ensures Lookup(Vacated(t, s), key, i) == if Passes(t, key, s, i) then None else Lookup(t, key, i)
    decreases PROBES - i
  {
    if i < PROBES { LookupVacated(t, key, s, i + 1); }
  }

  /** Removal marks no grave: another hash is still found after it if and only if its lookup did not come past
      the slot. */
  lemma {:induction false} StillFoundIff(t: Slots, key: U32, s: nat)
    requires |t| > 0 && s < |t| && Occupied(t, s) && Lookup(t, key, 0).Some?
    ensures Lookup(Vacated(t, s), key, 0) == Lookup(t, key, 0) <==> !Passes(t, key, s, 0)
    ensures Passes(t, key, s, 0) ==> Lookup(Vacated(t, s), key, 0) == None
  {
    LookupVacated(t, key, s, 0);
  }

  /** Two hashes that fall on the same slot: once the first is removed, the second is stored and not found. */
  lemma {:induction false} HiddenByRemoval(data: nat, data': nat)
    ensures var t := [Some(Item(data, 0, true)), Some(Item(data', 2, true))];
      && Reachable(t) && Lookup(t, 2, 0) == Some(data') && Sought(t, 0, 0) == At(0)
      && Lookup(Vacated(t, 0), 2, 0) == None && Occupied(Vacated(t, 0), 1)
  {
    var t := [Some(Item(data, 0, true)), Some(Item(data', 2, true))];
    assert Probe(2, 0, 0) == 0 && Probe(2, 2, 0) == 0 && Probe(2, 2, 1) == 1;
    assert Crowded(t, 0, 0) && Crowded(t, 2, 1);
    assert Lookup(t, 2, 1) == Some(data');
  }

  /** The first i slots looked at have been used, for other hashes. */
  ghost predicate OthersUpTo(t: Slots, key: U32, i: nat)
    requires |t| > 0
  {
    forall j :: 0 <= j < i ==> var s := Probe(|t|, key, j); t[s].Some? && t[s].value.key != key
  }

  /** The kernel goes wrong exactly when a slot never used comes before one of that hash and within twelve. */
  lemma {:induction false} FaultIff(t: Slots, key: U32)
    requires |t| > 0
    ensures Sought(t, key, 0) == Fault <==>
      exists i :: 0 <= i < PROBES && t[Probe(|t|, key, i)] == None && OthersUpTo(t, key, i)
  {
    if Sought(t, key, 0) == Fault { FaultAt(t, key, 0); }
    if i :| 0 <= i < PROBES && t[Probe(|t|, key, i)] == None && OthersUpTo(t, key, i) { SoughtUpTo(t, key, 0, i); }
  }

  lemma {:induction false} FaultAt(t: Slots, key: U32, i: nat)
    requires |t| > 0 && i <= PROBES && OthersUpTo(t, key, i) && Sought(t, key, i) == Fault
    ensures exists j :: 0 <= j < PROBES && t[Probe(|t|, key, j)] == None && OthersUpTo(t, key, j)
    decreases PROBES - i
  {
    if t[Probe(|t|, key, i)].Some? { FaultAt(t, key, i + 1); }
  }

  lemma {:induction false} SoughtUpTo(t: Slots, key: U32, i: nat, n: nat)
    requires |t| > 0 && i <= n < PROBES && OthersUpTo(t, key, n) && t[Probe(|t|, key, n)] == None
    ensures Sought(t, key, i) == Fault
    decreases n - i
  {
    if i < n {
      assert t[Probe(|t|, key, i)].Some?;
      SoughtUpTo(t, key, i + 1, n);
    }
  }

  class HashMap {
    const elem: array<Option<Item>>
    var len: nat
    /** What was inserted first under each hash. */
    ghost var first: map<U32, nat>

    ghost predicate Valid()
      reads this, elem
    {
      Consistent(elem[..], len, first)
    }

    constructor (size: nat)
      requires size > 0
      ensures Valid() && fresh(elem) && elem.Length == size && first == map[]
    {
      elem := new Option<Item>[size](_ => None);
      len := 0;
      first := map[];
      new;
      EmptyConsistent(elem[..]);
    }

    /** The first slot looked at that is free. */
    method FindFreeBucket(key: U32) returns (s: Option<nat>, ghost n: nat)
      requires elem.Length > 0
      ensures s.None? <==> Crowded(elem[..], key, PROBES)
      ensures s.Some? ==> s.value < elem.Length && GoesTo(elem[..], key, n, s.value)
    {
      ghost var t := elem[..];
      var i, index := 0, key % elem.Length;
      while i < PROBES
        invariant i <= PROBES && index == Probe(|t|, key, i) && Crowded(t, key, i)
      {
        assert elem[index] == t[index];
        if elem[index] == None || !elem[index].value.occupied { return Some(index), i; }
        index := (index + 1) % elem.Length;
        i := i + 1;
      }
      s, n := None, i;
    }

    method Put(ukey: Option<U32>, data: nat) returns (r: Reply)
      requires Valid()
      modifies this, elem
      ensures Valid()
      ensures r == PutReply(old(elem[..]), old(len), Hash(ukey), data)
      ensures first == if r == Done then Noted(old(first), Hash(ukey), data) else old(first)
      ensures len == old(len) + if r == Done then 1 else 0
      ensures Hash(ukey) != NONE && data != 0 ==>
        (r == NoSpace <==> forall i :: 0 <= i < 12 ==> Occupied(old(elem[..]), Nth(elem.Length, Hash(ukey), i)))
    {
      ghost var n, s;
      if Hash(ukey) != NONE && data != 0 { NoSpaceMeans(elem[..], len, first, Hash(ukey), data); }
      r, n, s := Store(ukey, data);
      if r == Done {
        InsertConsistent(old(elem[..]), old(len), first, Hash(ukey), n, s, data);
        first := Noted(first, Hash(ukey), data);
      }
    }

    /** The insertion itself, whatever the table holds. */
    method Store(ukey: Option<U32>, data: nat) returns (r: Reply, ghost n: nat, ghost s: nat)
      requires elem.Length > 0
      modifies this`len, elem
      ensures r == PutReply(old(elem[..]), old(len), Hash(ukey), data)
      ensures r != Done ==> elem[..] == old(elem[..]) && len == old(len)
      ensures r == Done ==>
        && GoesTo(old(elem[..]), Hash(ukey), n, s) && len == old(len) + 1
        && elem[..] == old(elem[..])[s := Some(Item(data, Hash(ukey), true))]
    {
      n, s := 0, 0;
      if data == 0 { return Invalid, n, s; }
      if len == elem.Length { return NoSpace, n, s; }
      var key := Hash(ukey);
      if key == NONE { return Invalid, n, s; }
      var index;
      index, n := FindFreeBucket(key);
      if index == None { return NoSpace, n, s; }
      s := index.value;
      elem[index.value] := Some(Item(data, key, true));
      len := len + 1;
      r := Done;
    }

    method Find(ukey: Option<U32>) returns (data: Option<nat>)
      requires Valid()
      ensures data == if Hash(ukey) in first then Some(first[Hash(ukey)]) else None
    {
      var key := Hash(ukey);
      if key == NONE { return None; }
      data := Search(key);
    }

    method Search(key: U32) returns (data: Option<nat>)
      requires elem.Length > 0
      ensures data == Lookup(elem[..], key, 0)
    {
      ghost var t := elem[..];
      var i, index := 0, key % elem.Length;
      while i < PROBES
        invariant i <= PROBES && index == Probe(|t|, key, i)
        invariant Lookup(t, key, 0) == Lookup(t, key, i)
      {
        assert elem[index] == t[index];
        if elem[index] == None || !elem[index].value.occupied { return None; }
        if elem[index].value.key == key { return Some(elem[index].value.data); }
        index := (index + 1) % elem.Length;
        i := i + 1;
      }
      data := None;
    }

    /** Remove what the key stands for. The count of items stays as it is. None is the kernel reading an item
        that does not exist. */
    method Remove(ukey: Option<U32>) returns (r: Option<Reply>)
      requires elem.Length > 0
      modifies elem
      ensures r == Some(Invalid) <==> Hash(ukey) == NONE
      ensures r != Some(Done) ==> elem[..] == old(elem[..])
      ensures Hash(ukey) != NONE ==> r == match Sought(old(elem[..]), Hash(ukey), 0)
        case At(_) => Some(Done)
        case Missing => Some(NotFound)
        case Fault => None
      ensures r == Some(Done) ==>
        && elem[..] == Vacated(old(elem[..]), Sought(old(elem[..]), Hash(ukey), 0).s)
        && Lookup(elem[..], Hash(ukey), 0) == None
    {
      var key := Hash(ukey);
      if key == NONE { return Some(Invalid); }
      ghost var t := elem[..];
      var i, index := 0, key % elem.Length;
      while i < PROBES
        invariant i <= PROBES && index == Probe(|t|, key, i) && elem[..] == t
        invariant Sought(t, key, 0) == Sought(t, key, i)
      {
        assert elem[index] == t[index];
        if elem[index] == None { return None; }
        if elem[index].value.key == key {
          RemovedIsGone(t, key, 0);
          elem[index] := Some(elem[index].value.(occupied := false));
          assert elem[..] == Vacated(t, index);
          return Some(Done);
        }
        index := (index + 1) % elem.Length;
        i := i + 1;
      }
      r := Some(NotFound);
    }

    /** Over any run of insertions and removals, the insertions that succeed are at most as many as there are
        slots, however many items were removed: a slot freed is never counted as free again. */
    method Churn(changes: seq<Change>) returns (stored: nat)
      requires elem.Length > 0 && len <= elem.Length
      modifies this`len, elem
      ensures len == old(len) + stored <= elem.Length
    {
      stored := 0;
      for i := 0 to |changes|
        invariant len == old(len) + stored <= elem.Length
      {
        match changes[i]
        case Add(key, data) =>
          var r, _, _ := Store(key, data);
          if r == Done { stored := stored + 1; }
        case Delete(key) =>
          var r := Remove(key);
          if r == None { return; }
      }
    }

    method Perform(op: Op) returns (r: Reply)
      requires Valid()
      modifies this, elem
      ensures Valid()
      ensures op.Insert? ==> first == if r == Done then Noted(old(first), Hash(op.key), op.data) else old(first)
      ensures op.Insert? && r == Done ==> Hash(op.key) != NONE
      ensures op.Get? ==> first == old(first)
      ensures op.Get? ==> r == Value(if Hash(op.key) in first then Some(first[Hash(op.key)]) else None)
    {
      match op
      case Insert(key, data) => r := Put(key, data);
      case Get(key) =>
        var data := Find(key);
        r := Value(data);
    }

    /** Over any run of insertions and lookups, every lookup gives what was first inserted with success
        under that very key. */
    method Run(ops: seq<Op>) returns (outs: seq<Reply>)
      requires Valid() && first == map[]
      modifies this, elem
      ensures |outs| == |ops| && Answered(ops, outs)
    {
      outs := [];
      for i := 0 to |ops|
        invariant Valid() && |outs| == i && Remembers(first, ops[..i], outs) && Answered(ops[..i], outs)
      {
        ghost var first0 := first;
        var r := Perform(ops[i]);
        RemembersNext(first0, first, ops[..i], outs, ops[i], r);
        outs := outs + [r];
        assert ops[..i + 1] == ops[..i] + [ops[i]];
      }
      assert ops[..|ops|] == ops;
    }
  }

  /** The data of the first insertion under this key that succeeded. */
  ghost function Earliest(ops: seq<Op>, outs: seq<Reply>, key: Option<U32>): Option<nat>
    requires |ops| == |outs|
    decreases |ops|
  {
    if ops == [] then None
    else
      var m := |ops| - 1;
      var e := Earliest(ops[..m], outs[..m], key);
      if e.Some? then e
      else if ops[m].Insert? && outs[m] == Done && ops[m].key == key then Some(ops[m].data) else None
  }

  ghost predicate Remembers(first: map<U32, nat>, ops: seq<Op>, outs: seq<Reply>)
    requires |ops| == |outs|
  {
    forall key: Option<U32> :: Earliest(ops, outs, key) == if Hash(key) in first then Some(first[Hash(key)]) else None
  }

  /** Two keys have the same hash only if they are the same, or stand for nothing. */
  lemma {:induction false} SameHash(k: Option<U32>, l: Option<U32>)
    requires Hash(k) == Hash(l) && Hash(k) != NONE
    ensures k == l
  {
    HashIsBijective(k.value);
    HashIsBijective(l.value);
  }

  /** Every lookup in a run was answered with what was first inserted under its key. */
  ghost predicate Answered(ops: seq<Op>, outs: seq<Reply>)
    requires |ops| == |outs|
  {
    forall i :: 0 <= i < |ops| && ops[i].Get? ==> outs[i] == Value(Earliest(ops[..i], outs[..i], ops[i].key))
  }

  lemma {:induction false} AnsweredNext(ops: seq<Op>, outs: seq<Reply>, op: Op, r: Reply)
    requires |ops| == |outs| && Answered(ops, outs)
    requires op.Get? ==> r == Value(Earliest(ops, outs, op.key))
    ensures Answered(ops + [op], outs + [r])
  {
    var ops1, outs1 := ops + [op], outs + [r];
    forall i | 0 <= i < |ops1| && ops1[i].Get?
      ensures outs1[i] == Value(Earliest(ops1[..i], outs1[..i], ops1[i].key))
    {
      assert ops1[..i] == ops[..i] && outs1[..i] == outs[..i];
      if i == |ops| { assert ops[..i] == ops && outs[..i] == outs; }
    }
  }

  lemma {:induction false} RemembersNext(first: map<U32, nat>, first1: map<U32, nat>, ops: seq<Op>, outs: seq<Reply>, op: Op, r: Reply)
    requires |ops| == |outs| && Remembers(first, ops, outs) && Answered(ops, outs)
    requires op.Insert? && r == Done ==> Hash(op.key) != NONE
    requires first1 == if op.Insert? && r == Done then Noted(first, Hash(op.key), op.data) else first
    requires op.Get? ==> r == Value(if Hash(op.key) in first then Some(first[Hash(op.key)]) else None)
    ensures Remembers(first1, ops + [op], outs + [r]) && Answered(ops + [op], outs + [r])
  {
    assert (ops + [op])[..|ops|] == ops && (outs + [r])[..|ops|] == outs;
    AnsweredNext(ops, outs, op, r);
    forall key: Option<U32> | op.Insert? && r == Done && Hash(key) == Hash(op.key) ensures key == op.key {
      SameHash(op.key, key);
    }
  }
}
