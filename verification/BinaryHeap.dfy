/** The array-backed max heap behind the scheduler's run queue, proved to be a priority bag. */
module BinaryHeap {
  import opened Basics

  const INT_MAX: int := 0x7fff_ffff
  const INT_MIN: int := -0x8000_0000

  /** Payloads are pointers; 0 is the null pointer. */
  type Payload = nat
  /** Keys are C ints. */
  type Key = k: int | INT_MIN <= k <= INT_MAX
  datatype Elem = Elem(key: Key, payload: Payload)
  datatype InsertStatus = Inserted | Einval | Enospc

  function Parent(i: nat): nat requires i > 0 { (i - 1) / 2 }
  function Left(i: nat): nat { 2 * i + 1 }
  function Right(i: nat): nat { 2 * i + 2 }

  ghost predicate OrderedAt(s: seq<Elem>, j: nat)
    requires 0 < j < |s|
  {
    s[Parent(j)].key >= s[j].key
  }

  ghost predicate IsHeap(s: seq<Elem>) {
    forall j :: 0 < j < |s| ==> OrderedAt(s, j)
  }

  /** Heap order holds except perhaps between i and its parent; what hangs below i fits above it. */
  ghost predicate HeapButUp(s: seq<Elem>, i: nat) {
    && i < |s|
    && (forall j :: 0 < j < |s| && j != i ==> OrderedAt(s, j))
    && (forall j :: 0 < j < |s| && Parent(j) == i && i > 0 ==> s[Parent(i)].key >= s[j].key)
  }

  /** Heap order holds except perhaps between i and its children; they fit under its parent. */
  ghost predicate HeapButDown(s: seq<Elem>, i: nat) {
    && i < |s|
    && (forall j :: 0 < j < |s| && Parent(j) != i ==> OrderedAt(s, j))
    && (forall j :: 0 < j < |s| && Parent(j) == i && i > 0 ==> s[Parent(i)].key >= s[j].key)
  }

  function Swapped(s: seq<Elem>, i: nat, p: nat): seq<Elem>
    requires i < |s| && p < |s|
  {
    s[i := s[p]][p := s[i]]
  }

  lemma {:induction false} SwapKeepsBag(s: seq<Elem>, i: nat, p: nat)
    requires i < |s| && p < |s|
    ensures multiset(Swapped(s, i, p)) == multiset(s)
  {
  }

  /** The root carries a greatest key. */
  lemma {:induction false} RootIsMax(s: seq<Elem>, j: nat)
    requires IsHeap(s) && j < |s|
    ensures s[0].key >= s[j].key
    decreases j
  {
    if j > 0 {
      assert OrderedAt(s, j);
      RootIsMax(s, Parent(j));
    }
  }

  lemma {:induction false} SiftUpStep(s: seq<Elem>, i: nat)
    requires HeapButUp(s, i) && i > 0 && s[i].key > s[Parent(i)].key
    ensures HeapButUp(Swapped(s, i, Parent(i)), Parent(i))
  {
    var p := Parent(i);
    var t := Swapped(s, i, p);
    forall j | 0 < j < |t| && j != p ensures OrderedAt(t, j) {
      if j != i { assert OrderedAt(s, j); }
    }
    forall j | 0 < j < |t| && Parent(j) == p && p > 0 ensures t[Parent(p)].key >= t[j].key {
      assert OrderedAt(s, p);
      if j != i { assert OrderedAt(s, j); }
    }
  }

  /** What sifting up makes of the array. */
  function SiftedUp(s: seq<Elem>, i: nat): seq<Elem>
    requires i < |s|
    decreases i
  {
    if i != 0 && s[i].key > s[Parent(i)].key then SiftedUp(Swapped(s, i, Parent(i)), Parent(i)) else s
  }

  /** Sifting up restores heap order and keeps the bag. The element reaches the root exactly when
      it is there already or its key beats the root's. */
  lemma {:induction false} SiftUpRestores(s: seq<Elem>, i: nat)
    requires HeapButUp(s, i)
    ensures var t := SiftedUp(s, i);
      && |t| == |s| && IsHeap(t) && multiset(t) == multiset(s)
      && t[0] == if i == 0 || s[i].key > s[0].key then s[i] else s[0]
    decreases i
  {
    if i != 0 && s[i].key > s[Parent(i)].key {
      SiftUpStep(s, i);
      SwapKeepsBag(s, i, Parent(i));
      SiftUpRestores(Swapped(s, i, Parent(i)), Parent(i));
    } else {
      forall j | 0 < j < |s| ensures OrderedAt(s, j) {}
      RootIsMax(s, i);
    }
  }

  /** The index of the greatest key among i and its children, i on a tie. */
  function Greatest(s: seq<Elem>, i: nat): nat
    requires i < |s|
  {
    var b := if Left(i) < |s| && s[Left(i)].key > s[i].key then Left(i) else i;
    if Right(i) < |s| && s[Right(i)].key > s[b].key then Right(i) else b
  }

  function SiftedDown(s: seq<Elem>, i: nat): seq<Elem>
    requires i < |s|
    decreases |s| - i
  {
    var b := Greatest(s, i);
    if b == i then s else SiftedDown(Swapped(s, i, b), b)
  }

  lemma {:induction false} SiftDownRestores(s: seq<Elem>, i: nat)
    requires HeapButDown(s, i)
    ensures var t := SiftedDown(s, i); |t| == |s| && IsHeap(t) && multiset(t) == multiset(s)
    decreases |s| - i
  {
    var b := Greatest(s, i);
    if b != i {
      SiftDownStep(s, i, b);
      SwapKeepsBag(s, i, b);
      SiftDownRestores(Swapped(s, i, b), b);
    } else {
      forall j | 0 < j < |s| ensures OrderedAt(s, j) {
        if Parent(j) == i { assert j == Left(i) || j == Right(i); }
      }
    }
  }

  /** Raising a key can only upset the order towards the parent. */
  lemma {:induction false} RaiseKey(s: seq<Elem>, i: nat)
    requires IsHeap(s) && i < |s|
    ensures var s' := s[i := Elem(INT_MAX, s[i].payload)];
      HeapButUp(s', i) && multiset(s') == multiset(s) - multiset{s[i]} + multiset{s'[i]}
  {
    var s' := s[i := Elem(INT_MAX, s[i].payload)];
    forall j | 0 < j < |s'| && j != i ensures OrderedAt(s', j) { assert OrderedAt(s, j); }
    forall j | 0 < j < |s'| && Parent(j) == i && i > 0 ensures s'[Parent(i)].key >= s'[j].key {
      assert OrderedAt(s, j) && OrderedAt(s, i);
    }
  }

  /** Raise, sift up, pop: what is popped and what is left. */
  lemma {:induction false} RaiseAndPop(s: seq<Elem>, i: nat)
    requires IsHeap(s) && i < |s|
    ensures var s' := s[i := Elem(INT_MAX, s[i].payload)];
      var t := SiftedUp(s', i);
      && HeapButUp(s', i) && |t| == |s| && IsHeap(t)
      && if i == 0 || s[0].key < INT_MAX
         then t[0] == s'[i] && multiset(t) - multiset{t[0]} == multiset(s) - multiset{s[i]}
         else t[0] == s[0] && multiset(t) - multiset{t[0]} == multiset(s) - multiset{s[i]} + multiset{s'[i]} - multiset{s[0]}
  {
    RaiseKey(s, i);
    SiftUpRestores(s[i := Elem(INT_MAX, s[i].payload)], i);
  }

  lemma {:induction false} SiftDownStep(s: seq<Elem>, i: nat, b: nat)
    requires HeapButDown(s, i) && (b == Left(i) || b == Right(i)) && b < |s|
    requires s[b].key > s[i].key
    requires Left(i) < |s| ==> s[Left(i)].key <= s[b].key
    requires Right(i) < |s| ==> s[Right(i)].key <= s[b].key
    ensures HeapButDown(Swapped(s, i, b), b)
  {
    var t := Swapped(s, i, b);
    assert Parent(b) == i;
    forall j | 0 < j < |t| && Parent(j) != b ensures OrderedAt(t, j) {
      if Parent(j) == i {
        assert j == Left(i) || j == Right(i);
      } else {
        assert OrderedAt(s, j);
      }
    }
    forall j | 0 < j < |t| && Parent(j) == b && b > 0 ensures t[Parent(b)].key >= t[j].key {
      assert j != i && j != b && OrderedAt(s, j);
    }
  }

  class BHeap {
    const elems: array<Elem>
    var size: nat

    ghost predicate Shape() reads this { size <= elems.Length }
    ghost function Items(): seq<Elem> reads this, elems requires Shape() { elems[..size] }
    ghost function Bag(): multiset<Elem> reads this, elems requires Shape() { multiset(Items()) }
    ghost predicate Valid() reads this, elems { Shape() && IsHeap(Items()) }

    constructor (capacity: nat)
      ensures Valid() && fresh(elems) && elems.Length == capacity && Bag() == multiset{}
    {
      elems := new Elem[capacity](i => Elem(0, 0));
      size := 0;
    }

    method Swap(i: nat, p: nat)
      requires Shape() && i < size && p < size
      modifies elems
      ensures Items() == Swapped(old(Items()), i, p)
    {
      var tmp := elems[p];
      elems[p] := elems[i];
      elems[i] := tmp;
    }

    /** Move the element at i up while it is greater than its parent. */
    method SiftUp(i: nat)
      requires Shape() && i < size
      modifies elems
      ensures Items() == SiftedUp(old(Items()), i)
    {
      var r: nat := i;
      while r != 0 && elems[r].key > elems[Parent(r)].key
        invariant r < size && SiftedUp(Items(), r) == SiftedUp(old(Items()), i)
      {
        assert elems[r] == Items()[r] && elems[Parent(r)] == Items()[Parent(r)];
        Swap(r, Parent(r));
        r := Parent(r);
      }
      assert elems[r] == Items()[r] && (r > 0 ==> elems[Parent(r)] == Items()[Parent(r)]);
    }

    /** Move the element at i down past its greater child, as long as that child is greater. */
    method MaxHeapify(i: nat)
      requires Shape() && i < size
      modifies elems
      ensures Items() == SiftedDown(old(Items()), i)
      decreases size - i
    {
      var l, r, b := Left(i), Right(i), i;
      if l < size && elems[l].key > elems[i].key { b := l; }
      if r < size && elems[r].key > elems[b].key { b := r; }
      assert b == Greatest(Items(), i);
      if b != i {
        Swap(i, b);
        MaxHeapify(b);
      }
    }

    method Insert(key: Key, payload: Payload) returns (st: InsertStatus)
      requires Valid()
      modifies this`size, elems
      ensures Valid()
      ensures st == Einval <==> payload == 0
      ensures st == Enospc <==> payload != 0 && old(size) == elems.Length
      ensures Bag() == if st == Inserted then old(Bag()) + multiset{Elem(key, payload)} else old(Bag())
    {
      if payload == 0 { return Einval; }
      if size == elems.Length { return Enospc; }
      elems[size] := Elem(key, payload);
      size := size + 1;
      assert Items() == old(Items()) + [Elem(key, payload)];
      forall j | 0 < j < size && j != size - 1 ensures OrderedAt(Items(), j) {
        assert OrderedAt(old(Items()), j);
      }
      SiftUpRestores(Items(), size - 1);
      SiftUp(size - 1);
      st := Inserted;
    }

    /** Take an element with a greatest key. */
    method RemoveMax() returns (r: Option<Payload>)
      requires Valid()
      modifies this`size, elems
      ensures Valid() && (r.None? <==> old(size) == 0)
      ensures r.None? ==> Bag() == old(Bag())
      ensures r.Some? ==> r.value == old(elems[0]).payload && Bag() == old(Bag()) - multiset{old(elems[0])}
      ensures r.Some? ==> forall e :: e in old(Bag()) ==> e.key <= old(elems[0]).key
    {
      if size == 0 { return None; }
      MaxOfBag(Items());
      var payload := elems[0].payload;
      if size == 1 {
        size := 0;
        assert old(Items()) == [old(elems[0])];
        return Some(payload);
      }
      PopRoot(Items());
      elems[0] := elems[size - 1];
      size := size - 1;
      assert Items() == old(Items())[0 := old(elems[size - 1])][..size];
      SiftDownRestores(Items(), 0);
      MaxHeapify(0);
      r := Some(payload);
    }

    /** Remove the element at i by raising it to the top and popping. That removes element i exactly
        when no key of INT_MAX was in its way; otherwise the old root goes and element i stays, raised. */
    method RemoveElem(i: nat) returns (r: Payload)
      requires Valid() && i < size
      modifies this`size, elems
      ensures Valid()
      ensures i == 0 || old(elems[0]).key < INT_MAX ==>
        r == old(elems[i]).payload && Bag() == old(Bag()) - multiset{old(elems[i])}
      ensures i != 0 && old(elems[0]).key == INT_MAX ==>
        && r == old(elems[0]).payload
        && Bag() == old(Bag()) - multiset{old(elems[i])} + multiset{Elem(INT_MAX, old(elems[i]).payload)} - multiset{old(elems[0])}
    {
      RaiseAndPop(Items(), i);
      elems[i] := Elem(INT_MAX, elems[i].payload);
      assert Items() == old(Items())[i := Elem(INT_MAX, old(elems[i]).payload)];
      SiftUp(i);
      assert elems[0] == Items()[0];
      var top := RemoveMax();
      r := top.value;
    }

    /** Remove the first element in array order with the given key. */
    method Remove(key: Key) returns (r: Option<Payload>, ghost at: nat)
      requires Valid()
      modifies this`size, elems
      ensures Valid()
      ensures r.None? ==> Bag() == old(Bag()) && forall e :: e in old(Bag()) ==> e.key != key
      ensures r.Some? ==> at < old(size) && old(elems[at]).key == key && forall j :: 0 <= j < at ==> old(elems[j]).key != key
      ensures r.Some? && (at == 0 || old(elems[0]).key < INT_MAX) ==>
        r.value == old(elems[at]).payload && Bag() == old(Bag()) - multiset{old(elems[at])}
      ensures r.Some? && at != 0 && old(elems[0]).key == INT_MAX ==>
        && r.value == old(elems[0]).payload
        && Bag() == old(Bag()) - multiset{old(elems[at])} + multiset{Elem(INT_MAX, old(elems[at]).payload)} - multiset{old(elems[0])}
    {
      at := 0;
      for i := 0 to size
        invariant Valid() && Items() == old(Items()) && forall j :: 0 <= j < i ==> elems[j].key != key
      {
        if elems[i].key == key {
          at := i;
          var p := RemoveElem(i);
          return Some(p), at;
        }
      }
      NoMatch(Items(), (e: Elem) => e.key == key);
      r := None;
    }

    /** Remove the first element in array order whose payload matches. */
    method RemovePayload(matches: Payload -> bool) returns (r: Option<Payload>, ghost at: nat)
      requires Valid()
      modifies this`size, elems
      ensures Valid()
      ensures r.None? ==> Bag() == old(Bag()) && forall e :: e in old(Bag()) ==> !matches(e.payload)
      ensures r.Some? ==> at < old(size) && matches(old(elems[at]).payload) && forall j :: 0 <= j < at ==> !matches(old(elems[j]).payload)
      ensures r.Some? && (at == 0 || old(elems[0]).key < INT_MAX) ==>
        r.value == old(elems[at]).payload && Bag() == old(Bag()) - multiset{old(elems[at])}
      ensures r.Some? && at != 0 && old(elems[0]).key == INT_MAX ==>
        && r.value == old(elems[0]).payload
        && Bag() == old(Bag()) - multiset{old(elems[at])} + multiset{Elem(INT_MAX, old(elems[at]).payload)} - multiset{old(elems[0])}
    {
      at := 0;
      for i := 0 to size
        invariant Valid() && Items() == old(Items()) && forall j :: 0 <= j < i ==> !matches(elems[j].payload)
      {
        if matches(elems[i].payload) {
          at := i;
          var p := RemoveElem(i);
          return Some(p), at;
        }
      }
      NoMatch(Items(), (e: Elem) => matches(e.payload));
      r := None;
    }

    /** The greatest key, or INT_MIN when there is none. */
    method PeekMax() returns (key: Key)
      requires Valid()
      ensures size == 0 ==> key == INT_MIN
      ensures size != 0 ==> key == elems[0].key
      ensures forall e :: e in Bag() ==> e.key <= key
    {
      if size == 0 { return INT_MIN; }
      MaxOfBag(Items());
      key := elems[0].key;
    }

    /** Any run of operations with keys below INT_MAX does to the bag what a priority bag does. */
    method Run(ops: seq<HeapOp>) returns (outs: seq<HeapOut>, ghost bags: seq<multiset<Elem>>)
      requires Valid() && SmallKeys(Bag()) && forall i :: 0 <= i < |ops| && ops[i].Add? ==> ops[i].key < INT_MAX
      modifies this`size, elems
      ensures Valid() && |outs| == |ops| && |bags| == |ops| + 1 && bags[0] == old(Bag()) && bags[|ops|] == Bag()
      ensures forall i :: 0 <= i < |ops| ==> BagStep(bags[i], ops[i], outs[i], bags[i + 1], elems.Length)
    {
      outs, bags := [], [Bag()];
      for i := 0 to |ops|
        invariant Valid() && SmallKeys(Bag()) && |outs| == i && |bags| == i + 1 && bags[0] == old(Bag()) && bags[i] == Bag()
        invariant forall j :: 0 <= j < i ==> BagStep(bags[j], ops[j], outs[j], bags[j + 1], elems.Length)
      {
        var out := Perform(ops[i]);
        outs, bags := outs + [out], bags + [Bag()];
      }
    }

    method Perform(op: HeapOp) returns (out: HeapOut)
      requires Valid() && SmallKeys(Bag()) && (op.Add? ==> op.key < INT_MAX)
      modifies this`size, elems
      ensures Valid() && SmallKeys(Bag()) && BagStep(old(Bag()), op, out, Bag(), elems.Length)
    {
      match op
      case Add(key, payload) => out := AddOne(key, payload);
      case PopMax => out := PopOne();
      case DropKey(key) => out := DropByKey(key);
      case DropPayload(p) => out := DropByPayload(p);
      case Peek => out := PeekOne();
    }

    method AddOne(key: Key, payload: Payload) returns (out: HeapOut)
      requires Valid() && SmallKeys(Bag()) && key < INT_MAX
      modifies this`size, elems
      ensures Valid() && SmallKeys(Bag()) && BagStep(old(Bag()), Add(key, payload), out, Bag(), elems.Length)
    {
      BagSize(Items());
      var st := Insert(key, payload);
      out := Answered(st);
    }

    method PopOne() returns (out: HeapOut)
      requires Valid() && SmallKeys(Bag())
      modifies this`size, elems
      ensures Valid() && SmallKeys(Bag()) && BagStep(old(Bag()), PopMax, out, Bag(), elems.Length)
    {
      ghost var s := Items();
      BagSize(s);
      var r := RemoveMax();
      out := Removed(r);
      if r.Some? {
        InBag(s, 0);
        StepTakes(multiset(s), PopMax, s[0], out, Bag(), elems.Length);
      }
    }

    method DropByKey(key: Key) returns (out: HeapOut)
      requires Valid() && SmallKeys(Bag())
      modifies this`size, elems
      ensures Valid() && SmallKeys(Bag()) && BagStep(old(Bag()), DropKey(key), out, Bag(), elems.Length)
    {
      ghost var s := Items();
      if size > 0 { InBag(s, 0); }
      var r, at := Remove(key);
      out := Removed(r);
      if r.Some? {
        InBag(s, at);
        StepTakes(multiset(s), DropKey(key), s[at], out, Bag(), elems.Length);
      }
    }

    method DropByPayload(p: Payload) returns (out: HeapOut)
      requires Valid() && SmallKeys(Bag())
      modifies this`size, elems
      ensures Valid() && SmallKeys(Bag()) && BagStep(old(Bag()), DropPayload(p), out, Bag(), elems.Length)
    {
      ghost var s := Items();
      if size > 0 { InBag(s, 0); }
      var r, at := RemovePayload(q => q == p);
      out := Removed(r);
      if r.Some? {
        InBag(s, at);
        StepTakes(multiset(s), DropPayload(p), s[at], out, Bag(), elems.Length);
      }
    }

    method PeekOne() returns (out: HeapOut)
      requires Valid() && SmallKeys(Bag())
      modifies this`size, elems
      ensures Valid() && SmallKeys(Bag()) && BagStep(old(Bag()), Peek, out, Bag(), elems.Length)
    {
      ghost var s := Items();
      BagSize(s);
      if size > 0 { InBag(s, 0); }
      var key := PeekMax();
      out := Seen(key);
    }
  }

  // ---------------------------------------------------------------- the bag as its users see it

  datatype HeapOp = Add(key: Key, payload: Payload) | PopMax | DropKey(key: Key) | DropPayload(p: Payload) | Peek

  datatype HeapOut = Answered(st: InsertStatus) | Removed(r: Option<Payload>) | Seen(key: Key)

  ghost predicate SmallKeys(bag: multiset<Elem>) { forall e :: e in bag ==> e.key < INT_MAX }

  /** Element e is one the operation may take. */
  ghost predicate Matches(op: HeapOp, bag: multiset<Elem>, e: Elem) {
    match op
    case PopMax => forall x :: x in bag ==> x.key <= e.key
    case DropKey(key) => e.key == key
    case DropPayload(p) => e.payload == p
    case _ => false
  }

  /** What each operation does to the bag: a matching element leaves, or there is none. */
  ghost predicate BagStep(bag: multiset<Elem>, op: HeapOp, out: HeapOut, bag': multiset<Elem>, capacity: nat) {
    match op
    case Add(key, payload) =>
      && out == Answered(if payload == 0 then Einval else if |bag| == capacity then Enospc else Inserted)
      && bag' == if out.st == Inserted then bag + multiset{Elem(key, payload)} else bag
    case Peek =>
      && bag' == bag && out.Seen? && (forall e :: e in bag ==> e.key <= out.key)
      && if bag == multiset{} then out.key == INT_MIN else exists e :: e in bag && e.key == out.key
    case _ =>
      && out.Removed?
      && if out.r.None? then bag' == bag && forall e :: e in bag ==> !Matches(op, bag, e)
         else exists e :: e in bag && Matches(op, bag, e) && out.r == Some(e.payload) && bag' == bag - multiset{e}
  }

  lemma {:induction false} StepTakes(bag: multiset<Elem>, op: HeapOp, e: Elem, out: HeapOut, bag': multiset<Elem>, capacity: nat)
    requires SmallKeys(bag) && e in bag && Matches(op, bag, e) && out == Removed(Some(e.payload)) && bag' == bag - multiset{e}
    ensures BagStep(bag, op, out, bag', capacity) && SmallKeys(bag')
  {
  }

  lemma {:induction false} BagSize(s: seq<Elem>)
    ensures |multiset(s)| == |s|
  {
  }

  lemma {:induction false} InBag(s: seq<Elem>, i: nat)
    requires i < |s|
    ensures s[i] in multiset(s)
  {
  }

  lemma {:induction false} NoMatch(s: seq<Elem>, f: Elem -> bool)
    requires forall j :: 0 <= j < |s| ==> !f(s[j])
    ensures forall e :: e in multiset(s) ==> !f(e)
  {
  }

  lemma {:induction false} MaxOfBag(s: seq<Elem>)
    requires IsHeap(s)
    ensures |s| > 0 ==> forall e :: e in multiset(s) ==> e.key <= s[0].key
  {
    forall j | 0 <= j < |s| ensures s[j].key <= s[0].key { RootIsMax(s, j); }
  }

  lemma {:induction false} PopRoot(s: seq<Elem>)
    requires IsHeap(s) && |s| > 1
    ensures var t := s[0 := s[|s| - 1]][..|s| - 1];
      HeapButDown(t, 0) && multiset(t) == multiset(s) - multiset{s[0]}
  {
    var n := |s| - 1;
    var t := s[0 := s[n]][..n];
    assert s == [s[0]] + s[1..n] + [s[n]];
    assert t == [s[n]] + s[1..n];
    forall j | 0 < j < |t| && Parent(j) != 0 ensures OrderedAt(t, j) {
      assert OrderedAt(s, j);
    }
  }
}
