/** The sliding sampler: per class a ring of the last samples and their running total, each full turn of
    the first class passing averages up through the others. */
module Sampler {
  import opened Basics

  type Byte = x: nat | x < 256
  type History = seq<Byte>

  function Sum(s: History): (r: nat)
    ensures r <= 255 * |s|
  {
    if s == [] then 0 else Sum(s[..|s| - 1]) + s[|s| - 1]
  }

  /** The last w samples, or all if there are fewer. */
  function Window(h: History, w: nat): History { if |h| <= w then h else h[|h| - w..] }

  function Average(h: History, w: nat): (r: Byte)
    requires w > 0
  {
    AverageIsByte(Sum(Window(h, w)), w);
    Sum(Window(h, w)) / w
  }

  lemma {:induction false} AverageIsByte(t: nat, w: nat)
    requires w > 0 && t <= 255 * w
    ensures t / w < 256
  {
    Divided(t, w);
    if t / w >= 256 { Scaled(256, t / w, w); }
  }

  lemma {:induction false} SumJoined(s: History, t: History)
    ensures Sum(s + t) == Sum(s) + Sum(t)
  {
    if t == [] {
      assert s + t == s;
    } else {
      SumJoined(s, t[..|t| - 1]);
      assert (s + t)[..|s + t| - 1] == s + t[..|t| - 1];
    }
  }

  /** The average of the last w samples is their sum divided by w and rounded down. */
  lemma {:induction false} AverageBounds(older: History, last: History, w: nat)
    requires 0 < w == |last|
    ensures Average(older + last, w) * w <= Sum(last) < (Average(older + last, w) + 1) * w
  {
    assert Window(older + last, w) == last;
    Divided(Sum(last), w);
    NextMultiple(Sum(last) / w, w);
  }

  // ---------------------------------------------------------------- one class

  /** One class: samples ever received, the total of the window, and the ring. */
  datatype Sample = Sample(sPtr: nat, wTotal: nat, data: History)

  function Added(s: Sample, x: Byte, w: nat): Sample
    requires 0 < w == |s.data|
  {
    var i := s.sPtr % w;
    var old_ := if s.sPtr >= w then s.data[i] else 0;
    Sample(s.sPtr + 1, if s.wTotal >= old_ then s.wTotal - old_ + x else 0, s.data[i := x])
  }

  /** The ring holds the last samples, the total is theirs. */
  ghost predicate Holds(s: Sample, h: History, w: nat)
    requires w > 0
  {
    && |s.data| == w && s.sPtr == |h| && s.wTotal == Sum(Window(h, w))
    && forall k :: 0 <= k < |h| && |h| - w <= k ==> s.data[k % w] == h[k]
  }

  lemma {:induction false} SumTail(s: History)
    requires s != []
    ensures Sum(s) == s[0] + Sum(s[1..])
  {
    if |s| > 1 {
      SumTail(s[..|s| - 1]);
      assert s[..|s| - 1][1..] == s[1..][..|s| - 2];
    } else {
      assert s[1..] == [] && s[..0] == [];
    }
  }

  lemma {:induction false} WindowMoves(h: History, x: Byte, w: nat)
    requires w > 0
    ensures Sum(Window(h + [x], w)) == Sum(Window(h, w)) + x - if |h| >= w then h[|h| - w] else 0
  {
    if |h| < w {
      assert (h + [x])[..|h|] == h;
    } else {
      var v := h[|h| - w..];
      assert Window(h, w) == v;
      SumTail(v);
      assert Window(h + [x], w) == v[1..] + [x];
      assert (v[1..] + [x])[..w - 1] == v[1..];
    }
  }

  lemma {:induction false} Divided(a: nat, w: nat)
    requires w > 0
    ensures a == a / w * w + a % w
  {
  }

  /** Quotient and remainder are the only ones. */
  lemma {:induction false} OnlyRemainder(a: nat, w: nat, q: nat, r: nat)
    requires r < w && a == q * w + r
    ensures a / w == q && a % w == r
  {
    Divided(a, w);
    var p := a / w;
    if p < q { Scaled(p + 1, q, w); }
    if q < p { Scaled(q + 1, p, w); }
  }

  /** Positions less than a turn apart are different. */
  lemma {:induction false} SameCell(a: nat, b: nat, w: nat)
    requires w > 0 && a < b < a + w
    ensures a % w != b % w
  {
    Divided(a, w);
    Divided(b, w);
    var p, q := a / w, b / w;
    if q <= p { Scaled(q, p, w); } else { Scaled(p + 1, q, w); }
  }

  lemma {:induction false} OneTurn(a: nat, w: nat)
    requires w > 0
    ensures (a + w) % w == a % w && (a + w) / w == a / w + 1
  {
    Divided(a, w);
    OnlyRemainder(a + w, w, a / w + 1, a % w);
  }

  lemma {:induction false} AddHolds(s: Sample, h: History, x: Byte, w: nat)
    requires w > 0 && Holds(s, h, w)
    ensures Holds(Added(s, x, w), h + [x], w)
  {
    var n := |h|;
    WindowMoves(h, x, w);
    if n >= w { OneTurn(n - w, w); assert s.data[(n - w) % w] == h[n - w]; }
    var t := Added(s, x, w);
    forall k | 0 <= k < n + 1 && n + 1 - w <= k ensures t.data[k % w] == (h + [x])[k] {
      if k < n { SameCell(k, n, w); }
    }
  }

  // ---------------------------------------------------------------- all classes

  /** After n samples the ring is at the end of a turn: n is a multiple of w. */
  predicate EndsTurn(n: nat, w: nat)
    requires w > 0
  {
    n == 0 || (n >= w && EndsTurn(n - w, w))
  }

  lemma {:induction false} EndsTurnIff(n: nat, w: nat)
    requires w > 0
    ensures EndsTurn(n, w) <==> n % w == 0
  {
    if n < w { OnlyRemainder(n, w, 0, n); } else { EndsTurnIff(n - w, w); OneTurn(n - w, w); }
  }

  /** Every sample class c has received after xs: the first class gets the samples themselves; whenever the
      first class completes a turn, each other class gets the average of the one below it. */
  function ClassOf(xs: History, c: nat, w: nat): History
    requires w > 0
    decreases |xs|, c
  {
    if c == 0 then xs
    else if xs == [] then []
    else
      var before := ClassOf(xs[..|xs| - 1], c, w);
      if EndsTurn(|xs|, w) then before + [Average(ClassOf(xs, c - 1, w), w)] else before
  }

  /** A class above the first has received one sample for every full turn of the first. */
  lemma {:induction false} ReceivedOf(xs: History, c: nat, w: nat)
    requires w > 0 && c > 0
    ensures |ClassOf(xs, c, w)| == |xs| / w
  {
    if xs != [] {
      var m := |xs| - 1;
      ReceivedOf(xs[..m], c, w);
      NextTurn(m, w);
    } else {
      OnlyRemainder(0, w, 0, 0);
    }
  }

  lemma {:induction false} NextTurn(m: nat, w: nat)
    requires w > 0
    ensures (m + 1) / w == m / w + if EndsTurn(m + 1, w) then 1 else 0
  {
    EndsTurnIff(m + 1, w);
    NextQuotient(m, w, m / w, m % w);
  }

  lemma {:induction false} NextQuotient(m: nat, w: nat, q: nat, r: nat)
    requires w > 0 && q == m / w && r == m % w
    ensures (m + 1) / w == q + (if r + 1 == w then 1 else 0) && (m + 1) % w == if r + 1 == w then 0 else r + 1
  {
    Divided(m, w);
    if r + 1 < w {
      OnlyRemainder(m + 1, w, q, r + 1);
    } else {
      NextMultiple(q, w);
      OnlyRemainder(m + 1, w, q + 1, 0);
    }
  }

  lemma {:induction false} NextMultiple(q: nat, w: nat)
    ensures (q + 1) * w == q * w + w
  {
  }

  lemma {:induction false} LastTurn(xs: History, w: nat, k: nat)
    requires w > 0 && xs != [] && (|xs| - 1) / w <= k < |xs| / w
    ensures EndsTurn(|xs|, w) && k + 1 == |xs| / w && (k + 1) * w == |xs|
  {
    NextTurn(|xs| - 1, w);
    Divided(|xs|, w);
    EndsTurnIff(|xs|, w);
  }

  lemma {:induction false} ClassStep(xs: History, c: nat, w: nat)
    requires w > 0 && c > 0 && xs != []
    ensures var before := ClassOf(xs[..|xs| - 1], c, w);
      ClassOf(xs, c, w) == if EndsTurn(|xs|, w) then before + [Average(ClassOf(xs, c - 1, w), w)] else before
  {
  }

  /** Sample k of the second class is the average of the k-th full turn of the first. */
  lemma {:induction false} SecondClass(xs: History, w: nat, k: nat, e: nat)
    requires w > 0 && k < |xs| / w && e == (k + 1) * w
    ensures |ClassOf(xs, 1, w)| == |xs| / w && e <= |xs|
    ensures ClassOf(xs, 1, w)[k] == Average(xs[..e], w)
    decreases |xs|
  {
    ReceivedOf(xs, 1, w);
    OnlyRemainder(0, w, 0, 0);
    var m := |xs| - 1;
    ClassStep(xs, 1, w);
    ReceivedOf(xs[..m], 1, w);
    if k < m / w {
      SecondClass(xs[..m], w, k, e);
      assert xs[..m][..e] == xs[..e];
    } else {
      LastTurn(xs, w, k);
      assert xs[..e] == xs;
    }
  }

  /** Sample k of a higher class is the windowed average of the first k + 1 samples of the class below. */
  lemma {:induction false} HigherClass(xs: History, c: nat, w: nat, k: nat)
    requires w > 0 && c > 1 && k < |xs| / w
    ensures |ClassOf(xs, c, w)| == |xs| / w == |ClassOf(xs, c - 1, w)|
    ensures ClassOf(xs, c, w)[k] == Average(ClassOf(xs, c - 1, w)[..k + 1], w)
    decreases |xs|
  {
    ReceivedOf(xs, c, w);
    ReceivedOf(xs, c - 1, w);
    OnlyRemainder(0, w, 0, 0);
    var m := |xs| - 1;
    ClassStep(xs, c, w);
    ClassStep(xs, c - 1, w);
    ReceivedOf(xs[..m], c, w);
    ReceivedOf(xs[..m], c - 1, w);
    var low := ClassOf(xs, c - 1, w);
    if k < m / w {
      HigherClass(xs[..m], c, w, k);
      assert low[..k + 1] == ClassOf(xs[..m], c - 1, w)[..k + 1];
    } else {
      LastTurn(xs, w, k);
      assert low[..k + 1] == low;
    }
  }

  /** A class holds what it has received after xs. */
  ghost predicate ClassHolds(s: Sample, xs: History, c: nat, w: nat) { w > 0 && Holds(s, ClassOf(xs, c, w), w) }

  /** The sample that class c receives with the last of xs. */
  ghost predicate IsNext(x: Byte, xs: History, c: nat, w: nat)
    requires w > 0 && xs != []
  {
    if c == 0 then x == xs[|xs| - 1] else EndsTurn(|xs|, w) && x == Average(ClassOf(xs, c - 1, w), w)
  }

  lemma {:induction false} ClassAdds(s: Sample, xs: History, c: nat, w: nat, x: Byte)
    requires w > 0 && xs != [] && ClassHolds(s, xs[..|xs| - 1], c, w) && IsNext(x, xs, c, w)
    ensures ClassHolds(Added(s, x, w), xs, c, w)
  {
    AddHolds(s, ClassOf(xs[..|xs| - 1], c, w), x, w);
    if c == 0 {
      assert xs == xs[..|xs| - 1] + [x];
    } else {
      ClassStep(xs, c, w);
    }
  }

  lemma {:induction false} ClassRests(s: Sample, xs: History, c: nat, w: nat)
    requires w > 0 && xs != [] && c > 0 && ClassHolds(s, xs[..|xs| - 1], c, w) && !EndsTurn(|xs|, w)
    ensures ClassHolds(s, xs, c, w)
  {
    ClassStep(xs, c, w);
  }

  lemma {:induction false} ClassAverage(s: Sample, xs: History, c: nat, w: nat)
    requires ClassHolds(s, xs, c, w)
    ensures s.sPtr == |ClassOf(xs, c, w)| && s.wTotal / w == Average(ClassOf(xs, c, w), w)
  {
  }

  predicate IsClass(ss: seq<Sample>, d: nat) { d < |ss| }

  /** The last sample of xs has got to the classes below c. */
  ghost predicate Spread(ss: seq<Sample>, xs: History, c: nat, w: nat)
    requires xs != []
  {
    c <= |ss| && forall d: nat {:trigger IsClass(ss, d)} ::
      IsClass(ss, d) ==> ClassHolds(ss[d], if d < c then xs else xs[..|xs| - 1], d, w)
  }

  lemma {:induction false} SpreadNext(ss: seq<Sample>, xs: History, c: nat, w: nat, x: Byte, ss1: seq<Sample>)
    requires w > 0 && xs != [] && c < |ss| && Spread(ss, xs, c, w) && IsNext(x, xs, c, w)
    requires |ss[c].data| == w && ss1 == ss[c := Added(ss[c], x, w)]
    ensures Spread(ss1, xs, c + 1, w) && ss1[0].sPtr == |xs|
    ensures ss1[c].wTotal / w == Average(ClassOf(xs, c, w), w)
  {
    assert IsClass(ss, c) && IsClass(ss, 0);
    ClassAdds(ss[c], xs, c, w, x);
    assert ClassHolds(ss1[c], xs, c, w) && ClassHolds(ss1[0], xs, 0, w);
    ClassAverage(ss1[c], xs, c, w);
    ClassAverage(ss1[0], xs, 0, w);
    forall d: nat | IsClass(ss1, d) ensures ClassHolds(ss1[d], if d < c + 1 then xs else xs[..|xs| - 1], d, w) {
      assert IsClass(ss, d);
    }
  }

  lemma {:induction false} SpreadRests(ss: seq<Sample>, xs: History, c: nat, w: nat)
    requires w > 0 && xs != [] && 0 < c && Spread(ss, xs, c, w) && !EndsTurn(|xs|, w)
    ensures Spread(ss, xs, |ss|, w)
  {
    forall d: nat | IsClass(ss, d) ensures ClassHolds(ss[d], xs, d, w) {
      if d >= c { ClassRests(ss[d], xs, d, w); }
    }
  }

  class SlidingSampler {
    const wSize: nat
    var samples: seq<Sample>
    /** Every sample added so far. */
    ghost var xs: History

    ghost predicate Valid()
      reads this
    {
      wSize > 0 && forall c :: 0 <= c < |samples| ==> ClassHolds(samples[c], xs, c, wSize)
    }

    constructor (w: nat, nclasses: nat)
      requires w > 0 && nclasses > 0
      ensures Valid() && wSize == w && |samples| == nclasses && xs == []
    {
      wSize := w;
      samples := seq(nclasses, _ => Sample(0, 0, seq(w, _ => 0)));
      xs := [];
    }

    method AddSample(x: Byte)
      requires Valid() && |samples| > 0
      modifies this
      ensures Valid() && xs == old(xs) + [x] && |samples| == |old(samples)|
    {
      ghost var xs1 := xs + [x];
      assert xs1[..|xs1| - 1] == xs;
      AddFrom(x, 0, xs1);
      xs := xs1;
      forall c | 0 <= c < |samples| ensures ClassHolds(samples[c], xs, c, wSize) { assert IsClass(samples, c); }
    }

    /** Add to class c and, if the first class is at the end of a turn, to those above. */
    method AddFrom(x: Byte, c: nat, ghost xs1: History)
      requires wSize > 0 && |samples| > 0 && xs1 != []
      requires Spread(samples, xs1, c, wSize) && IsNext(x, xs1, c, wSize)
      modifies this`samples
      ensures |samples| == |old(samples)| && Spread(samples, xs1, |samples|, wSize)
      decreases |samples| - c
    {
      if c == |samples| { return; }
      var turn, up := Put(x, c, xs1);
      if turn { AddFrom(up, c + 1, xs1); }
    }

    /** Add to class c alone: whether the first class is at the end of a turn, and what then goes up. */
    method Put(x: Byte, c: nat, ghost xs1: History) returns (turn: bool, up: Byte)
      requires wSize > 0 && xs1 != [] && c < |samples|
      requires Spread(samples, xs1, c, wSize) && IsNext(x, xs1, c, wSize)
      modifies this`samples
      ensures |samples| == |old(samples)|
      ensures if turn then Spread(samples, xs1, c + 1, wSize) && IsNext(up, xs1, c + 1, wSize)
        else Spread(samples, xs1, |samples|, wSize)
    {
      assert IsClass(samples, c);
      var s := Advance(samples[c], x, ClassOf(xs1[..|xs1| - 1], c, wSize));
      SpreadNext(samples, xs1, c, wSize, x, samples[c := s]);
      samples := samples[c := s];
      EndsTurnIff(|xs1|, wSize);
      turn, up := samples[0].sPtr % wSize == 0, samples[c].wTotal / wSize;
      if !turn { SpreadRests(samples, xs1, c + 1, wSize); }
    }

    /** Let the oldest value decay and put the new one in its place. */
    method Advance(s0: Sample, x: Byte, ghost h: History) returns (s: Sample)
      requires wSize > 0 && Holds(s0, h, wSize)
      ensures s == Added(s0, x, wSize)
    {
      s := s0;
      var index := s.sPtr;
      if index >= wSize {
        index := s.sPtr % wSize;
        WindowHolds(s, h, wSize);
        s := s.(wTotal := s.wTotal - s.data[index]);
      } else {
        OnlyRemainder(index, wSize, 0, index);
      }
      s := s.(data := s.data[index := x], wTotal := s.wTotal + x, sPtr := s.sPtr + 1);
    }

    /** The average of the last wSize samples of a class, once it has that many. */
    method GetAvg(c: nat) returns (r: Avg)
      requires Valid()
      ensures r == if c >= |samples| then Invalid
        else if |ClassOf(xs, c, wSize)| < wSize then InProgress
        else Value(Average(ClassOf(xs, c, wSize), wSize))
    {
      if |samples| <= c { return Invalid; }
      ClassAverage(samples[c], xs, c, wSize);
      if samples[c].sPtr < wSize { return InProgress; }
      r := Value(samples[c].wTotal / wSize);
    }

    method Run(more: History)
      requires Valid() && |samples| > 0 && xs == []
      modifies this
      ensures Valid() && xs == more && |samples| == |old(samples)|
    {
      for i := 0 to |more|
        invariant Valid() && |samples| == |old(samples)| && xs == more[..i]
      {
        AddSample(more[i]);
        assert more[..i] + [more[i]] == more[..i + 1];
      }
      assert more[..|more|] == more;
    }
  }

  /** A new sampler; an empty window or no class is refused. */
  method Init(w: nat, nclasses: nat) returns (ss: SlidingSampler?)
    ensures ss == null <==> w == 0 || nclasses == 0
    ensures ss != null ==> fresh(ss) && ss.Valid() && ss.wSize == w && |ss.samples| == nclasses && ss.xs == []
  {
    if w == 0 || nclasses < 1 { return null; }
    ss := new SlidingSampler(w, nclasses);
  }

  datatype Avg = Invalid | InProgress | Value(avg: nat)

  /** The oldest sample is still in the total. */
  lemma {:induction false} WindowHolds(s: Sample, h: History, w: nat)
    requires w > 0 && Holds(s, h, w) && |h| >= w
    ensures s.wTotal >= s.data[|h| % w]
  {
    OneTurn(|h| - w, w);
    assert s.data[(|h| - w) % w] == h[|h| - w];
    SumTail(h[|h| - w..]);
  }
}
