/** When reassembly gives back what was sent: over every arrival order, with any other traffic between. */
module Reassembly {
  import opened Basics
  import opened Fragmentation

  // ---------------------------------------------------------------- arrival orders

  /** The fragments 0 to n - 1, each once, in some order. */
  ghost predicate IsOrder(order: seq<nat>, n: nat) {
    && |order| == n
    && (forall j :: 0 <= j < n ==> order[j] < n)
    && (forall j, l :: 0 <= j < l < n ==> order[j] != order[l])
  }

  ghost function Range(n: nat): (s: set<nat>)
    ensures |s| == n && forall i: nat :: i in s <==> i < n
    decreases n
  {
    if n == 0 then {} else Range(n - 1) + {n - 1}
  }

  ghost function Elements(s: seq<nat>): (r: set<nat>)
    ensures forall i :: i in r <==> i in s
  {
    if s == [] then {} else {s[0]} + Elements(s[1..])
  }

  lemma {:induction false} DistinctCount(s: seq<nat>)
    requires forall j, l :: 0 <= j < l < |s| ==> s[j] != s[l]
    ensures |Elements(s)| == |s|
  {
    if s != [] {
      DistinctCount(s[1..]);
      assert s[0] !in s[1..];
    }
  }

  /** In an order of n fragments every fragment comes up. */
  lemma {:induction false} EveryFragmentArrives(order: seq<nat>, n: nat, i: nat)
    requires IsOrder(order, n) && i < n
    ensures i in order
  {
    DistinctCount(order);
    var s := Elements(order);
    assert s <= Range(n);
    SubsetFull(s, Range(n));
  }

  lemma {:induction false} AllArrive(order: seq<nat>, n: nat)
    requires IsOrder(order, n)
    ensures forall i :: 0 <= i < n ==> i in order
  {
    forall i | 0 <= i < n ensures i in order { EveryFragmentArrives(order, n, i); }
  }

  lemma {:induction false} SubsetFull(s: set<nat>, t: set<nat>)
    requires s <= t && |s| == |t|
    ensures s == t
  {
    assert |t - s| == |t| - |s|;
    assert t == s + (t - s);
  }

  // ---------------------------------------------------------------- one datagram

  /** Feed packets to one identifier's buffer; a fault ends the run. */
  ghost function Feed(fb: Option<FragBuf>, s: seq<Packet>): (Option<FragBuf>, seq<Outcome>)
    decreases |s|
  {
    if s == [] then (fb, [])
    else
      var (fb0, outs) := Feed(fb, s[..|s| - 1]);
      if Faulted(outs) then (fb0, outs)
      else
        var (fb1, o) := Accept(fb0, s[|s| - 1]);
        (fb1, outs + [o])
  }

  lemma {:induction false} FeedSnoc(fb: Option<FragBuf>, s: seq<Packet>, p: Packet)
    ensures var (fb0, outs) := Feed(fb, s);
      Feed(fb, s + [p])
        == if Faulted(outs) then (fb0, outs) else (Accept(fb0, p).0, outs + [Accept(fb0, p).1])
  {
    assert (s + [p])[..|s|] == s;
  }

  ghost function Arrivals(frags: seq<Packet>, order: seq<nat>): (r: seq<Packet>)
    requires forall j :: 0 <= j < |order| ==> order[j] < |frags|
    ensures |r| == |order| && forall j :: 0 <= j < |order| ==> r[j] == frags[order[j]]
  {
    seq(|order|, j requires 0 <= j < |order| => frags[order[j]])
  }

  lemma {:induction false} ArrivalsSnoc(frags: seq<Packet>, order: seq<nat>, j: nat)
    requires j < |order| && forall i :: 0 <= i < |order| ==> order[i] < |frags|
    ensures var (fb, outs) := Feed(None, Arrivals(frags, order)[..j]);
      Feed(None, Arrivals(frags, order)[..j + 1]) == if Faulted(outs) then (fb, outs)
        else (Accept(fb, frags[order[j]]).0, outs + [Accept(fb, frags[order[j]]).1])
  {
    var s := Arrivals(frags, order);
    assert s[..j + 1] == s[..j] + [frags[order[j]]];
    FeedSnoc(None, s[..j], frags[order[j]]);
  }

  /** The fragments of one datagram as any sender may cut it: all but the last of one length, which is a
      multiple of eight, and the last one whatever is left. */
  ghost predicate FragmentShape(frags: seq<Packet>) {
    && 2 <= |frags| && |frags[0].payload| % 8 == 0
    && (forall i :: 0 <= i < |frags| ==> frags[i].off8 * 8 == Unit(frags) * i && |frags[i].payload| > 0)
    && (forall i :: 0 <= i < |frags| ==> (frags[i].more <==> i < |frags| - 1))
    && (forall i :: 0 <= i < |frags| - 1 ==> |frags[i].payload| == Unit(frags))
    && |frags[|frags| - 1].payload| <= Unit(frags)
  }

  /** The length of a full fragment. */
  function Unit(frags: seq<Packet>): nat
    requires frags != []
  {
    |frags[0].payload|
  }

  lemma {:induction false} SentShape(iden: nat, data: Bytes)
    requires MTU < |data| && |data| + HEADER <= PAYLOAD_MAX
    ensures var frags := FragmentsFrom(iden, data, 0); FragmentShape(frags) && Unit(frags) == MTU && |frags| <= SLOTS
  {
    var frags := FragmentsFrom(iden, data, 0);
    FragmentCount(iden, data, 0);
    forall i | 0 <= i < |frags|
      ensures frags[i].off8 * 8 == MTU * i && |frags[i].payload| > 0 && (frags[i].more <==> i < |frags| - 1)
      ensures if frags[i].more then |frags[i].payload| == MTU else |frags[i].payload| <= MTU
    {
      FragmentAt(iden, data, 0, 0, i);
    }
  }

  /** The length of the fragment that comes first is long enough for the last fragment to be put in its
      own slot. A full fragment always is; a last fragment that comes first may be too short. */
  predicate FirstFits(n: nat, fsize: nat, unit: nat) { unit * (n - 1) < n * fsize }

  /** Integer division, from its two defining inequalities. */
  lemma {:induction false} Quotient(a: nat, d: nat, q: int)
    requires d > 0
    ensures q * d <= a ==> q <= a / d
    ensures a < q * d ==> a / d < q
  {
    var r := a / d;
    assert r * d <= a < (r + 1) * d;
    if r + 1 <= q { Scaled(r + 1, q, d); } else { Scaled(q, r, d); }
  }

  lemma {:induction false} OwnSlot(n: nat, fsize: nat, unit: nat, a: nat)
    requires 1 <= n && 0 < fsize <= unit && a == unit * (n - 1)
    ensures a / fsize >= n - 1
    ensures FirstFits(n, fsize, unit) ==> a / fsize == n - 1
    ensures !FirstFits(n, fsize, unit) ==> a / fsize >= n
  {
    Quotient(a, fsize, n);
    Quotient(a, fsize, n - 1);
    Scaled(fsize, unit, n - 1);
  }

  /** Where a fragment goes. */
  lemma {:induction false} SlotOf(frags: seq<Packet>, fsize: nat, i: nat)
    requires FragmentShape(frags) && 0 < fsize <= Unit(frags) && i < |frags|
    ensures i < SLOTS && (i < |frags| - 1 || FirstFits(|frags|, fsize, Unit(frags))) ==> Slot(fsize, frags[i]) == Some(i)
    ensures i >= SLOTS ==> Slot(fsize, frags[i]).None?
    ensures i == |frags| - 1 && !FirstFits(|frags|, fsize, Unit(frags)) ==>
      Slot(fsize, frags[i]).None? || Slot(fsize, frags[i]).value >= |frags|
  {
    if frags[i].more { Times(Unit(frags), i); } else { OwnSlot(|frags|, fsize, Unit(frags), Unit(frags) * i); }
  }

  lemma {:induction false} Times(u: nat, i: nat)
    requires u > 0
    ensures u * i / u == i
  {
    Quotient(u * i, u, i);
    Quotient(u * i, u, i + 1);
  }

  // ---------------------------------------------------------------- one buffer fills

  /** Bytes in the first k slots. */
  function BytesIn(pkts: seq<Option<Packet>>, k: nat): nat
    requires k <= |pkts|
  {
    if k == 0 then 0 else BytesIn(pkts, k - 1) + if pkts[k - 1].Some? then |pkts[k - 1].value.payload| else 0
  }

  lemma {:induction false} BytesPut(pkts: seq<Option<Packet>>, p: Packet, i: nat, k: nat)
    requires i < |pkts| && k <= |pkts| && pkts[i] == None
    ensures BytesIn(pkts[i := Some(p)], k) == BytesIn(pkts, k) + if i < k then |p.payload| else 0
  {
    if k > 0 { BytesPut(pkts, p, i, k - 1); }
  }

  lemma {:induction false} BytesNone(pkts: seq<Option<Packet>>, n: nat, k: nat)
    requires n <= k <= |pkts| && forall i :: n <= i < k ==> pkts[i] == None
    ensures BytesIn(pkts, k) == BytesIn(pkts, n)
  {
    if k > n { BytesNone(pkts, n, k - 1); }
  }

  lemma {:induction false} BytesMerged(pkts: seq<Option<Packet>>, n: nat)
    requires AllThere(pkts, n)
    ensures BytesIn(pkts, n) == |Merged(pkts, n)|
  {
    if n > 0 { BytesMerged(pkts, n - 1); }
  }

  /** The buffer after the first j arrivals: each fragment in its own slot, its bytes counted. */
  ghost predicate Filled(fb: FragBuf, frags: seq<Packet>, order: seq<nat>, j: nat)
    requires j <= |order|
  {
    && fb.npkts == j && |fb.pkts| == SLOTS && fb.tsize == BytesIn(fb.pkts, SLOTS)
    && fb.eidx == (if |frags| - 1 in order[..j] then |frags| - 1 else -1)
    && forall i :: 0 <= i < SLOTS ==> fb.pkts[i] == if i in order[..j] && i < |frags| then Some(frags[i]) else None
  }

  lemma {:induction false} FilledNext(fb: FragBuf, frags: seq<Packet>, order: seq<nat>, j: nat)
    requires FragmentShape(frags) && |frags| <= SLOTS && IsOrder(order, |frags|) && j < |frags| && Filled(fb, frags, order, j)
    ensures Filled(PutIn(fb, frags[order[j]], order[j]), frags, order, j + 1)
  {
    assert order[..j + 1] == order[..j] + [order[j]];
    BytesPut(fb.pkts, frags[order[j]], order[j], SLOTS);
  }

  lemma {:induction false} NotYetComplete(fb: FragBuf, frags: seq<Packet>, order: seq<nat>, j: nat)
    requires FragmentShape(frags) && |frags| <= SLOTS && IsOrder(order, |frags|) && j < |frags| && Filled(fb, frags, order, j)
    ensures Completed(fb) == (Some(fb), Pending)
  {
  }

  lemma {:induction false} FullBuffer(fb: FragBuf, frags: seq<Packet>, order: seq<nat>)
    requires FragmentShape(frags) && |frags| <= SLOTS && IsOrder(order, |frags|) && Filled(fb, frags, order, |frags|)
    ensures AllThere(fb.pkts, |frags|) && Merged(fb.pkts, |frags|) == Joined(frags)
    ensures fb.npkts == |frags| && fb.eidx == |frags| - 1 && fb.tsize == |Joined(frags)|
  {
    var n := |frags|;
    assert order[..n] == order;
    AllArrive(order, n);
    MergedInOrder(fb.pkts, frags, n);
    assert frags[..n] == frags;
    BytesNone(fb.pkts, n, SLOTS);
    BytesMerged(fb.pkts, n);
  }

  lemma {:induction false} CompleteBuffer(fb: FragBuf, frags: seq<Packet>, order: seq<nat>)
    requires FragmentShape(frags) && |frags| <= SLOTS && IsOrder(order, |frags|) && Filled(fb, frags, order, |frags|)
    ensures Completed(fb) == (None, Delivered(|Joined(frags)|, Joined(frags)))
  {
    FullBuffer(fb, frags, order);
  }

  // ---------------------------------------------------------------- a datagram arrives

  lemma {:induction false} FreshIsFilled(frags: seq<Packet>, order: seq<nat>, p: Packet)
    ensures Filled(FreshBuf(p), frags, order, 0)
  {
    BytesNone(EmptySlots(), 0, SLOTS);
  }

  lemma {:induction false} AcceptNext(fb: FragBuf, frags: seq<Packet>, order: seq<nat>, j: nat)
    requires FragmentShape(frags) && IsOrder(order, |frags|) && j < |frags| && Filled(fb, frags, order, j)
    requires |frags| <= SLOTS && 0 < fb.fsize <= Unit(frags) && FirstFits(|frags|, fb.fsize, Unit(frags))
    ensures Accept(Some(fb), frags[order[j]]) == Completed(PutIn(fb, frags[order[j]], order[j]))
    ensures Filled(PutIn(fb, frags[order[j]], order[j]), frags, order, j + 1)
  {
    SlotOf(frags, fb.fsize, order[j]);
    FilledNext(fb, frags, order, j);
  }

  ghost function Pendings(n: nat): (r: seq<Outcome>)
    ensures n > 0 ==> r == Pendings(n - 1) + [Pending]
    ensures !Faulted(r)
  {
    seq(n, _ => Pending)
  }

  /** The buffer the j-th arrival finds: a new one for the first. */
  ghost predicate Awaiting(fb: Option<FragBuf>, frags: seq<Packet>, order: seq<nat>, j: nat)
    requires IsOrder(order, |frags|) && j < |frags|
  {
    var b := if fb.Some? then fb.value else FreshBuf(frags[order[j]]);
    && (fb.None? <==> j == 0)
    && b.fsize == |frags[order[0]].payload| && Filled(b, frags, order, j)
  }

  ghost predicate OnTheWay(r: (Option<FragBuf>, seq<Outcome>), frags: seq<Packet>, order: seq<nat>, j: nat)
    requires IsOrder(order, |frags|) && j < |frags|
  {
    Awaiting(r.0, frags, order, j) && r.1 == Pendings(j)
  }

  lemma {:induction false} OnTheWayNext(r: (Option<FragBuf>, seq<Outcome>), frags: seq<Packet>, order: seq<nat>, j: nat)
    requires FragmentShape(frags) && |frags| <= SLOTS && IsOrder(order, |frags|) && j < |frags| - 1
    requires FirstFits(|frags|, |frags[order[0]].payload|, Unit(frags)) && OnTheWay(r, frags, order, j)
    ensures var (fb, o) := Accept(r.0, frags[order[j]]); OnTheWay((fb, r.1 + [o]), frags, order, j + 1)
  {
    NextArrival(r.0, frags, order, j);
    assert Pendings(j + 1) == Pendings(j) + [Pending];
  }

  lemma {:induction false} FirstArrivals(frags: seq<Packet>, order: seq<nat>, j: nat)
    requires FragmentShape(frags) && |frags| <= SLOTS && IsOrder(order, |frags|) && j < |frags|
    requires FirstFits(|frags|, |frags[order[0]].payload|, Unit(frags))
    ensures OnTheWay(Feed(None, Arrivals(frags, order)[..j]), frags, order, j)
    decreases j
  {
    if j == 0 {
      FreshIsFilled(frags, order, frags[order[0]]);
    } else {
      FirstArrivals(frags, order, j - 1);
      ArrivalsSnoc(frags, order, j - 1);
      OnTheWayNext(Feed(None, Arrivals(frags, order)[..j - 1]), frags, order, j - 1);
    }
  }

  lemma {:induction false} NextArrival(fb: Option<FragBuf>, frags: seq<Packet>, order: seq<nat>, j: nat)
    requires FragmentShape(frags) && |frags| <= SLOTS && IsOrder(order, |frags|) && j < |frags| && Awaiting(fb, frags, order, j)
    requires FirstFits(|frags|, |frags[order[0]].payload|, Unit(frags))
    ensures var r := Accept(fb, frags[order[j]]);
      if j < |frags| - 1 then Awaiting(r.0, frags, order, j + 1) && r.1 == Pending
      else r == (None, Delivered(|Joined(frags)|, Joined(frags)))
  {
    var p := frags[order[j]];
    var b := if fb.Some? then fb.value else FreshBuf(p);
    AcceptNext(b, frags, order, j);
    var b1 := PutIn(b, p, order[j]);
    if j < |frags| - 1 {
      NotYetComplete(b1, frags, order, j + 1);
    } else {
      CompleteBuffer(b1, frags, order);
    }
  }

  lemma {:induction false} InAnyOrder(frags: seq<Packet>, order: seq<nat>)
    requires FragmentShape(frags) && |frags| <= SLOTS && IsOrder(order, |frags|)
    requires FirstFits(|frags|, |frags[order[0]].payload|, Unit(frags))
    ensures Feed(None, Arrivals(frags, order))
      == (None, Pendings(|frags| - 1) + [Delivered(|Joined(frags)|, Joined(frags))])
  {
    var n, s := |frags|, Arrivals(frags, order);
    FirstArrivals(frags, order, n - 1);
    assert s[..n - 1] == s[..|s| - 1];
    NextArrival(Feed(None, s[..n - 1]).0, frags, order, n - 1);
  }

  /** A run that will never deliver: nothing delivered yet, and the last fragment was put so far up that
      the buffer waits for more fragments than there are. */
  ghost predicate Stuck(r: (Option<FragBuf>, seq<Outcome>), n: nat, j: nat) {
    && (forall k :: 0 <= k < |r.1| ==> !r.1[k].Delivered?)
    && (Faulted(r.1) || (r.0.Some? && r.0.value.eidx >= n && r.0.value.npkts == j))
  }

  lemma {:induction false} StuckFirst(frags: seq<Packet>)
    requires FragmentShape(frags) && !FirstFits(|frags|, |frags[|frags| - 1].payload|, Unit(frags))
    ensures var (fb, o) := Accept(None, frags[|frags| - 1]); Stuck((fb, [o]), |frags|, 1)
  {
    SlotOf(frags, |frags[|frags| - 1].payload|, |frags| - 1);
  }

  lemma {:induction false} StuckNext(r: (Option<FragBuf>, seq<Outcome>), n: nat, j: nat, p: Packet)
    requires Stuck(r, n, j) && !Faulted(r.1) && j < n && p.more
    ensures var (fb, o) := Accept(r.0, p); Stuck((fb, r.1 + [o]), n, j + 1)
  {
  }

  lemma {:induction false} ShortFirst(frags: seq<Packet>, order: seq<nat>, j: nat)
    requires FragmentShape(frags) && IsOrder(order, |frags|) && 0 < j <= |frags|
    requires !FirstFits(|frags|, |frags[order[0]].payload|, Unit(frags))
    ensures Stuck(Feed(None, Arrivals(frags, order)[..j]), |frags|, j)
    decreases j
  {
    var n, s := |frags|, Arrivals(frags, order);
    assert order[0] == n - 1;
    ArrivalsSnoc(frags, order, j - 1);
    if j == 1 {
      StuckFirst(frags);
    } else {
      ShortFirst(frags, order, j - 1);
      var r := Feed(None, s[..j - 1]);
      if !Faulted(r.1) {
        assert order[0] != order[j - 1];
        StuckNext(r, n, j - 1, frags[order[j - 1]]);
      }
    }
  }

  /** What becomes of a datagram's fragments: if it is a single one or the first to come is long enough,
      the datagram is handed over once, on the last arrival, and no buffer stays; otherwise nothing is
      ever handed over. */
  ghost predicate Fate(fb: Option<FragBuf>, outs: seq<Outcome>, data: Bytes, frags: seq<Packet>, first: nat)
    requires first < |frags|
  {
    if |frags| == 1 || (|frags| <= 45 && FirstFits(|frags|, |frags[first].payload|, Unit(frags)))
    then fb == None && outs == Pendings(|frags| - 1) + [Delivered(|data|, data)]
    else forall k :: 0 <= k < |outs| ==> !outs[k].Delivered?
  }

  /** Reassembly undoes fragmentation, whatever order the fragments come in, exactly when the fragment
      that comes first is long enough; otherwise nothing is ever delivered. */
  lemma {:induction false} Reassembled(iden: nat, data: Bytes, order: seq<nat>)
    requires |data| + HEADER <= PAYLOAD_MAX
    requires IsOrder(order, |FragmentsFrom(iden, data, 0)|)
    ensures var frags := FragmentsFrom(iden, data, 0);
      var (fb, outs) := Feed(None, Arrivals(frags, order));
      Fate(fb, outs, data, frags, order[0])
  {
    var frags := FragmentsFrom(iden, data, 0);
    var n, s := |frags|, Arrivals(frags, order);
    JoinedFragments(iden, data, 0);
    assert Joined(frags) == data;
    assert s[..n] == s;
    if |data| <= MTU {
      assert Feed(None, s[..0]) == (None, []);
    } else {
      SentShape(iden, data);
      AnySender(frags, order);
    }
  }

  /** Whatever length a sender cuts a datagram into: it is delivered, whole and once, exactly when there are at
      most 45 fragments and the one that comes first is long enough. */
  lemma {:induction false} AnySender(frags: seq<Packet>, order: seq<nat>)
    requires FragmentShape(frags) && IsOrder(order, |frags|)
    ensures var (fb, outs) := Feed(None, Arrivals(frags, order));
      Fate(fb, outs, Joined(frags), frags, order[0])
  {
    var n, s := |frags|, Arrivals(frags, order);
    assert s[..n] == s;
    if n > SLOTS {
      TooMany(frags, order, n);
    } else if FirstFits(n, |frags[order[0]].payload|, Unit(frags)) {
      InAnyOrder(frags, order);
    } else {
      ShortFirst(frags, order, n);
    }
  }

  /** The last of more than 45 fragments has no slot. */
  lemma {:induction false} TooMany(frags: seq<Packet>, order: seq<nat>, j: nat)
    requires FragmentShape(frags) && |frags| > SLOTS && IsOrder(order, |frags|) && j <= |frags|
    ensures Endless(Feed(None, Arrivals(frags, order)[..j]), Unit(frags))
    decreases j
  {
    if j > 0 {
      TooMany(frags, order, j - 1);
      ArrivalsSnoc(frags, order, j - 1);
      var r := Feed(None, Arrivals(frags, order)[..j - 1]);
      if !Faulted(r.1) { EndlessNext(r, frags, order[j - 1]); }
    }
  }

  /** Nothing delivered, and the last fragment has not come. */
  ghost predicate Endless(r: (Option<FragBuf>, seq<Outcome>), unit: nat) {
    && (forall k :: 0 <= k < |r.1| ==> !r.1[k].Delivered?)
    && (Faulted(r.1) || r.0.None? || (r.0.value.eidx == -1 && 0 < r.0.value.fsize <= unit))
  }

  lemma {:induction false} EndlessNext(r: (Option<FragBuf>, seq<Outcome>), frags: seq<Packet>, i: nat)
    requires FragmentShape(frags) && |frags| > SLOTS && i < |frags| && Endless(r, Unit(frags)) && !Faulted(r.1)
    ensures var (fb, o) := Accept(r.0, frags[i]); Endless((fb, r.1 + [o]), Unit(frags))
  {
    var fb := if r.0.Some? then r.0.value else FreshBuf(frags[i]);
    SlotOf(frags, fb.fsize, i);
  }

  /** Any order that starts with a full fragment will do. */
  lemma {:induction false} FullFirstFits(iden: nat, data: Bytes, i: nat)
    requires i < |FragmentsFrom(iden, data, 0)| - 1
    ensures FirstFits(|FragmentsFrom(iden, data, 0)|, |FragmentsFrom(iden, data, 0)[i].payload|, MTU)
  {
    FragmentAt(iden, data, 0, 0, i);
  }

  // ---------------------------------------------------------------- other traffic

  /** The packets of one identifier. */
  function Only(s: seq<Packet>, iden: nat): seq<Packet>
    decreases |s|
  {
    if s == [] then []
    else
      var p := s[|s| - 1];
      Only(s[..|s| - 1], iden) + if p.iden == iden then [p] else []
  }

  /** What those packets led to. */
  function OutcomesOf(s: seq<Packet>, outs: seq<Outcome>, iden: nat): seq<Outcome>
    requires |outs| <= |s|
    decreases |outs|
  {
    if outs == [] then []
    else
      var j := |outs| - 1;
      OutcomesOf(s, outs[..j], iden) + if s[j].iden == iden then [outs[j]] else []
  }

  lemma {:induction false} OutcomesOfPrefix(s: seq<Packet>, m: nat, outs: seq<Outcome>, iden: nat)
    requires |outs| <= m <= |s|
    ensures OutcomesOf(s[..m], outs, iden) == OutcomesOf(s, outs, iden)
    decreases |outs|
  {
    if outs != [] { OutcomesOfPrefix(s, m, outs[..|outs| - 1], iden); }
  }

  /** No packet of another identifier faults. */
  ghost predicate OthersFaultless(s: seq<Packet>, outs: seq<Outcome>, iden: nat)
    requires |outs| <= |s|
  {
    Faulted(outs) ==> s[|outs| - 1].iden == iden
  }

  lemma {:induction false} OutcomesOfSnoc(s: seq<Packet>, outs: seq<Outcome>, o: Outcome, iden: nat)
    requires |outs| < |s|
    ensures OutcomesOf(s, outs + [o], iden)
      == OutcomesOf(s, outs, iden) + if s[|outs|].iden == iden then [o] else []
  {
    assert (outs + [o])[..|outs|] == outs;
  }

  lemma {:induction false} OnlySnoc(s: seq<Packet>, iden: nat)
    requires s != []
    ensures s[|s| - 1].iden == iden ==> Only(s, iden) == Only(s[..|s| - 1], iden) + [s[|s| - 1]]
    ensures s[|s| - 1].iden != iden ==> Only(s, iden) == Only(s[..|s| - 1], iden)
  {
  }

  lemma {:induction false} HandledOther(bufs: map<nat, FragBuf>, p: Packet, iden: nat)
    ensures Find(Handled(bufs, p).0, iden)
      == if p.iden == iden then Accept(Find(bufs, iden), p).0 else Find(bufs, iden)
    ensures p.iden == iden ==> Handled(bufs, p).1 == Accept(Find(bufs, iden), p).1
  {
  }

  /** One identifier's own run stands where the whole run has it. */
  ghost predicate Agrees(own: (Option<FragBuf>, seq<Outcome>), bufs: map<nat, FragBuf>, outs: seq<Outcome>,
    s: seq<Packet>, iden: nat)
    requires |outs| <= |s|
  {
    && own.0 == Find(bufs, iden) && own.1 == OutcomesOf(s, outs, iden)
    && (Faulted(own.1) <==> Faulted(outs))
  }

  lemma {:induction false} AgreesNext(own: (Option<FragBuf>, seq<Outcome>), bufs: map<nat, FragBuf>, outs: seq<Outcome>,
    s: seq<Packet>, iden: nat)
    requires |outs| < |s| && !Faulted(outs) && Agrees(own, bufs, outs, s, iden)
    requires var p := s[|outs|]; Handled(bufs, p).1 == Fault ==> p.iden == iden
    ensures var p := s[|outs|];
      var own1 := if p.iden == iden then (Accept(own.0, p).0, own.1 + [Accept(own.0, p).1]) else own;
      Agrees(own1, Handled(bufs, p).0, outs + [Handled(bufs, p).1], s, iden)
  {
    OutcomesOfSnoc(s, outs, Handled(bufs, s[|outs|]).1, iden);
    HandledOther(bufs, s[|outs|], iden);
  }

  lemma {:induction false} HandledAllNext(bufs: map<nat, FragBuf>, s: seq<Packet>)
    requires s != []
    ensures var (bufs0, outs0) := HandledAll(bufs, s[..|s| - 1]);
      HandledAll(bufs, s) == if Faulted(outs0) then (bufs0, outs0)
        else (Handled(bufs0, s[|s| - 1]).0, outs0 + [Handled(bufs0, s[|s| - 1]).1])
  {
  }

  lemma {:induction false} FeedNext(fb: Option<FragBuf>, s: seq<Packet>, iden: nat)
    requires s != []
    ensures var (fb0, outs) := Feed(fb, Only(s[..|s| - 1], iden));
      Feed(fb, Only(s, iden)) == if Faulted(outs) || s[|s| - 1].iden != iden then (fb0, outs)
        else (Accept(fb0, s[|s| - 1]).0, outs + [Accept(fb0, s[|s| - 1]).1])
  {
    OnlySnoc(s, iden);
    FeedSnoc(fb, Only(s[..|s| - 1], iden), s[|s| - 1]);
  }

  /** What one identifier's packets lead to does not depend on the packets of the others. */
  lemma {:induction false} Independent(bufs: map<nat, FragBuf>, s: seq<Packet>, iden: nat)
    requires OthersFaultless(s, HandledAll(bufs, s).1, iden)
    ensures var (bufs1, outs) := HandledAll(bufs, s);
      Agrees(Feed(Find(bufs, iden), Only(s, iden)), bufs1, outs, s, iden)
    decreases |s|
  {
    if s != [] {
      var m := |s| - 1;
      HandledAllNext(bufs, s);
      Independent(bufs, s[..m], iden);
      OutcomesOfPrefix(s, m, HandledAll(bufs, s[..m]).1, iden);
      IndependentNext(bufs, s, iden);
    }
  }

  lemma {:induction false} IndependentNext(bufs: map<nat, FragBuf>, s: seq<Packet>, iden: nat)
    requires s != [] && OthersFaultless(s, HandledAll(bufs, s).1, iden)
    requires var (bufs0, outs0) := HandledAll(bufs, s[..|s| - 1]);
      Agrees(Feed(Find(bufs, iden), Only(s[..|s| - 1], iden)), bufs0, outs0, s, iden)
    ensures var (bufs1, outs) := HandledAll(bufs, s);
      Agrees(Feed(Find(bufs, iden), Only(s, iden)), bufs1, outs, s, iden)
  {
    var m := |s| - 1;
    var (bufs0, outs0) := HandledAll(bufs, s[..m]);
    HandledAllNext(bufs, s);
    FeedNext(Find(bufs, iden), s, iden);
    if !Faulted(outs0) {
      AgreesNext(Feed(Find(bufs, iden), Only(s[..m], iden)), bufs0, outs0, s, iden);
    }
  }

  /** The round trip: a datagram of any size the sender takes, fragmented, its fragments arriving in any
      order with anything else in between, comes out whole on the last arrival and nowhere else, its
      buffer gone. That is so exactly when the first arrival is long enough. */
  lemma {:induction false} RoundTrip(bufs: map<nat, FragBuf>, iden: nat, data: Bytes, order: seq<nat>, s: seq<Packet>)
    requires |data| + HEADER <= PAYLOAD_MAX && iden !in bufs
    requires IsOrder(order, |FragmentsFrom(iden, data, 0)|)
    requires Only(s, iden) == Arrivals(FragmentsFrom(iden, data, 0), order)
    requires OthersFaultless(s, HandledAll(bufs, s).1, iden)
    ensures var (bufs1, outs) := HandledAll(bufs, s);
      Fate(Find(bufs1, iden), OutcomesOf(s, outs, iden), data, FragmentsFrom(iden, data, 0), order[0])
  {
    Independent(bufs, s, iden);
    Reassembled(iden, data, order);
  }

  /** The case that fails: two fragments, the second with half a fragment's bytes or less and first. */
  lemma {:induction false} ShortTailFirstIsLost(iden: nat, data: Bytes)
    requires MTU < |data| <= MTU + MTU / 2
    ensures IsOrder([1, 0], |FragmentsFrom(iden, data, 0)|)
    ensures var outs := Feed(None, Arrivals(FragmentsFrom(iden, data, 0), [1, 0])).1;
      forall k :: 0 <= k < |outs| ==> !outs[k].Delivered?
  {
    FragmentCount(iden, data, 0);
    FragmentAt(iden, data, 0, 0, 1);
    Reassembled(iden, data, [1, 0]);
  }
}
