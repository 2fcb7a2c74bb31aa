/** An established TCP connection (section 3.4 of RFC 9293) as the kernel runs it: in-order acceptance,
    cumulative acknowledgements and a retransmission queue, over a network that drops, repeats and
    reorders. */
module TcpStream {
  import opened Basics

  type Bytes = seq<bv8>

  const WRAP: nat := 0x1_0000_0000
  /** Bytes of link trailer that arrive behind every payload. */
  const TRAILER: nat := 4

  type Seq = x: nat | x < WRAP

  /** The flags of a segment: push and acknowledge, acknowledge alone, anything else. */
  datatype Kind = Data | Ack | Other

  datatype Segment = Segment(kind: Kind, sqn: Seq, aseq: Seq, payload: Bytes)

  /** A segment as it arrives: what follows the header is the payload and the trailer. */
  datatype Frame = Frame(seg: Segment, tail: Bytes)

  /** A segment that waits for its acknowledgement, under the number that acknowledges it. */
  datatype Unacked = Unacked(key: Seq, seg: Segment)

  /** One side: next number to send, next number expected, unacknowledged segments, and the packets
      put in the socket buffer, trailer and all. */
  datatype End = End(sqn: Seq, aseq: Seq, queue: seq<Unacked>, put: seq<Frame>)

  function Plus(a: Seq, n: int): (r: Seq) { (a + n) % WRAP }

  // ---------------------------------------------------------------- one side

  function Written(e: End, data: Bytes): (End, Segment) {
    var seg := Segment(Data, e.sqn, e.aseq, data);
    var next := Plus(e.sqn, |data|);
    (e.(sqn := next, queue := e.queue + [Unacked(next, seg)]), seg)
  }

  /** The queue without the first entry of this number. */
  function Dropped(q: seq<Unacked>, key: Seq): seq<Unacked> {
    if q == [] then [] else if q[0].key == key then q[1..] else [q[0]] + Dropped(q[1..], key)
  }

  /** What the receiver takes to be the payload. */
  function Body(f: Frame): (r: Bytes) {
    var all := f.seg.payload + f.tail;
    if |all| < TRAILER then [] else all[..|all| - TRAILER]
  }

  /** What a segment does to the side it arrives at, and the acknowledgement that goes back. None at the
      end means the kernel stops. */
  function Handled(e: End, f: Frame): Option<(End, Option<Segment>)> {
    match f.seg.kind
    case Data =>
      if f.seg.sqn != e.aseq then Some((e, None))
      else
        var next := Plus(e.aseq, |f.seg.payload| + |f.tail| - TRAILER);
        Some((e.(aseq := next, put := e.put + [f]), Some(Segment(Ack, e.sqn, next, []))))
    case Ack => Some((e.(queue := Dropped(e.queue, f.seg.aseq)), None))
    case Other => None
  }

  /** The first entry of this number is gone, if there is one; the others stay in their order. */
  ghost predicate FirstRemoved(q: seq<Unacked>, q': seq<Unacked>, key: Seq) {
    if exists u :: u in q && u.key == key then
      exists i :: 0 <= i < |q| && q[i].key == key && (forall j :: 0 <= j < i ==> q[j].key != key) && q' == q[..i] + q[i + 1..]
    else q' == q
  }

  class Endpoint {
    var sqn: Seq
    var aseq: Seq
    var queue: seq<Unacked>
    var put: seq<Frame>

    function Contents(): End reads this { End(sqn, aseq, queue, put) }

    /** The handshake is over; the peer's opening segment had this number. */
    constructor (syn: Seq)
      ensures Contents() == End(1, Plus(syn, 1), [], [])
    {
      sqn, aseq, queue, put := 1, Plus(syn, 1), [], [];
    }

    method Write(data: Bytes) returns (seg: Segment)
      modifies this
      ensures (Contents(), seg) == Written(old(Contents()), data)
    {
      seg := Segment(Data, sqn, aseq, data);
      sqn := Plus(sqn, |data|);
      queue := queue + [Unacked(sqn, seg)];
    }

    method HandleConnected(f: Frame) returns (ok: bool, reply: Option<Segment>)
      modifies this
      ensures var h := Handled(old(Contents()), f);
        if ok then h == Some((Contents(), reply)) else h == None && Contents() == old(Contents())
      ensures ok <==> f.seg.kind != Other
      ensures f.seg.kind == Data && f.seg.sqn != old(aseq) ==> Contents() == old(Contents()) && reply == None
      ensures f.seg.kind == Data && f.seg.sqn == old(aseq) ==>
        && sqn == old(sqn) && queue == old(queue) && put == old(put) + [f]
        && aseq == (old(aseq) + |f.seg.payload| + |f.tail| - 4) % 0x1_0000_0000
        && reply == Some(Segment(Ack, sqn, aseq, []))
      ensures f.seg.kind == Ack ==> Contents() == old(Contents()).(queue := queue) && reply == None
      ensures f.seg.kind == Ack ==> FirstRemoved(old(queue), queue, f.seg.aseq)
    {
      ok, reply := true, None;
      if f.seg.kind == Data {
        if f.seg.sqn != aseq { return; }
        put := put + [f];
        var size := |f.seg.payload| + |f.tail|;
        reply := Some(Segment(Ack, sqn, Plus(aseq, size - TRAILER), []));
        aseq := Plus(aseq, size - TRAILER);
      } else if f.seg.kind == Ack {
        RemoveUnacked(f.seg.aseq);
      } else {
        ok := false;
      }
    }

    method RemoveUnacked(key: Seq)
      modifies this`queue
      ensures queue == Dropped(old(queue), key) && FirstRemoved(old(queue), queue, key)
    {
      var i := 0;
      while i < |queue| && queue[i].key != key
        invariant i <= |queue| && queue == old(queue)
        invariant forall j :: 0 <= j < i ==> queue[j].key != key
      {
        i := i + 1;
      }
      DroppedAt(queue, key, i);
      if i < |queue| { queue := queue[..i] + queue[i + 1..]; }
    }
  }

  /** Only the first entry of that number goes. */
  lemma {:induction false} DroppedAt(q: seq<Unacked>, key: Seq, i: nat)
    requires i <= |q| && forall j :: 0 <= j < i ==> q[j].key != key
    requires i < |q| ==> q[i].key == key
    ensures Dropped(q, key) == if i < |q| then q[..i] + q[i + 1..] else q
  {
    if q != [] && i > 0 { DroppedAt(q[1..], key, i - 1); }
  }

  // ---------------------------------------------------------------- both sides and the network

  /** Both sides, what each has written so far, and every segment ever sent each way: the network may
      deliver any of these at any time, any number of times or never. */
  datatype Conn = Conn(a: End, b: End, wroteA: Bytes, wroteB: Bytes, toA: set<Segment>, toB: set<Segment>)

  datatype Event =
    | WriteA(data: Bytes)
    | WriteB(data: Bytes)
    | ArriveA(f: Frame)
    | ArriveB(f: Frame)
    | GiveUpA(key: Seq)
    | GiveUpB(key: Seq)

  function Sending(net: set<Segment>, reply: Option<Segment>): set<Segment> {
    if reply.Some? then net + {reply.value} else net
  }

  /** One event. Only segments that were sent arrive. A side may give a segment up once its tries run out. */
  function Step(c: Conn, ev: Event): Conn {
    match ev
    case WriteA(data) =>
      var (e, seg) := Written(c.a, data);
      c.(a := e, wroteA := c.wroteA + data, toB := c.toB + {seg})
    case WriteB(data) =>
      var (e, seg) := Written(c.b, data);
      c.(b := e, wroteB := c.wroteB + data, toA := c.toA + {seg})
    case ArriveA(f) =>
      if f.seg !in c.toA then c
      else (match Handled(c.a, f)
            case None => c
            case Some((e, reply)) => c.(a := e, toB := Sending(c.toB, reply)))
    case ArriveB(f) =>
      if f.seg !in c.toB then c
      else (match Handled(c.b, f)
            case None => c
            case Some((e, reply)) => c.(b := e, toA := Sending(c.toA, reply)))
    case GiveUpA(key) => c.(a := c.a.(queue := Dropped(c.a.queue, key)))
    case GiveUpB(key) => c.(b := c.b.(queue := Dropped(c.b.queue, key)))
  }

  function RunAll(c: Conn, evs: seq<Event>): Conn
    decreases |evs|
  {
    if evs == [] then c else Step(RunAll(c, evs[..|evs| - 1]), evs[|evs| - 1])
  }

  /** The peer's answer to the opening segment, and the acknowledgement that ends the handshake. */
  const SYN_ACK := Segment(Other, 0, 1, [])
  const LAST_ACK := Segment(Ack, 1, 1, [])

  /** Both sides after the handshake that A began: its last two segments may still come, or come again. */
  function Opened(): Conn {
    Conn(End(1, 1, [], []), End(1, 1, [], []), [], [], {SYN_ACK}, {LAST_ACK})
  }

  /** The two endpoints and the segments sent each way. */
  class Connection {
    const a: Endpoint
    const b: Endpoint
    var toA: set<Segment>
    var toB: set<Segment>
    ghost var wroteA: Bytes
    ghost var wroteB: Bytes

    ghost predicate Valid() reads this { a != b }

    ghost function Contents(): Conn
      reads this, a, b
    {
      Conn(a.Contents(), b.Contents(), wroteA, wroteB, toA, toB)
    }

    /** Both sides opened with number 0. */
    constructor ()
      ensures Valid() && fresh(a) && fresh(b) && Contents() == Opened()
    {
      a := new Endpoint(0);
      b := new Endpoint(0);
      toA, toB, wroteA, wroteB := {SYN_ACK}, {LAST_ACK}, [], [];
    }

    method Perform(ev: Event)
      requires Valid()
      modifies this, a, b
      ensures Valid() && Contents() == Step(old(Contents()), ev)
    {
      match ev
      case WriteA(data) =>
        var seg := a.Write(data);
        toB, wroteA := toB + {seg}, wroteA + data;
      case WriteB(data) =>
        var seg := b.Write(data);
        toA, wroteB := toA + {seg}, wroteB + data;
      case ArriveA(f) =>
        if f.seg in toA {
          var ok, reply := a.HandleConnected(f);
          if ok { toB := Sending(toB, reply); }
        }
      case ArriveB(f) =>
        if f.seg in toB {
          var ok, reply := b.HandleConnected(f);
          if ok { toA := Sending(toA, reply); }
        }
      case GiveUpA(key) => a.RemoveUnacked(key);
      case GiveUpB(key) => b.RemoveUnacked(key);
    }

    method Run(evs: seq<Event>)
      requires Valid()
      modifies this, a, b
      ensures Valid() && Contents() == RunAll(old(Contents()), evs)
    {
      for i := 0 to |evs|
        invariant Valid() && Contents() == RunAll(old(Contents()), evs[..i])
      {
        Perform(evs[i]);
        assert evs[..i + 1][..i] == evs[..i];
      }
      assert evs[..|evs|] == evs;
    }
  }

  // ---------------------------------------------------------------- one direction

  /** The number of the byte at offset n of a stream. */
  function At(n: nat): Seq { (1 + n) % WRAP }

  /** The payloads of the packets in the socket buffer, one after the other. */
  function Stream(put: seq<Frame>): Bytes {
    if put == [] then [] else Stream(put[..|put| - 1]) + Body(put[|put| - 1])
  }

  lemma {:induction false} StreamPut(put: seq<Frame>, f: Frame)
    ensures Stream(put + [f]) == Stream(put) + Body(f)
  {
    assert (put + [f])[..|put|] == put;
  }

  /** The segment carries the bytes of the stream from offset n on. */
  ghost predicate Carries(seg: Segment, w: Bytes, n: nat) {
    n + |seg.payload| <= |w| && seg.sqn == At(n) && seg.payload == w[n..n + |seg.payload|]
  }

  ghost predicate IsPiece(seg: Segment, w: Bytes) { exists n: nat :: Carries(seg, w, n) }

  /** The number acknowledges no more than was taken. */
  ghost predicate Earned(aseq: Seq, taken: nat) { exists n: nat :: n <= taken && aseq == At(n) }

  /** Still waiting for its acknowledgement, or taken by the other side. */
  ghost predicate Safe(seg: Segment, queue: seq<Unacked>, taken: Bytes) {
    Unacked(Plus(seg.sqn, |seg.payload|), seg) in queue || IsPiece(seg, taken)
  }

  /** Some segment sent carries the byte at offset k. */
  ghost predicate Sent(net: set<Segment>, w: Bytes, k: nat) {
    exists g, n: nat :: g in net && g.kind == Data && Carries(g, w, n) && n <= k < n + |g.payload|
  }

  ghost predicate Queued(u: Unacked, w: Bytes) {
    IsPiece(u.seg, w) && u.key == Plus(u.seg.sqn, |u.seg.payload|)
  }

  /** The sender's side of a direction: what is under way, and what still waits, are pieces of the
      stream, and all of the stream was sent. */
  ghost predicate Outgoing(w: Bytes, s: End, net: set<Segment>) {
    && s.sqn == At(|w|)
    && (forall g :: g in net && g.kind == Data ==> IsPiece(g, w))
    && (forall i :: 0 <= i < |s.queue| ==> Queued(s.queue[i], w))
    && (forall k :: 0 <= k < |w| ==> Sent(net, w, k))
  }

  /** The receiver's side: a prefix was taken, the next number expected and the acknowledgements sent
      back say how much. */
  ghost predicate Incoming(w: Bytes, r: End, back: set<Segment>) {
    && r.aseq == At(|Stream(r.put)|) && Stream(r.put) <= w
    && (forall g :: g in back && g.kind == Ack ==> Earned(g.aseq, |Stream(r.put)|))
  }

  ghost predicate NothingLost(queue: seq<Unacked>, taken: Bytes, net: set<Segment>) {
    forall g :: g in net && g.kind == Data ==> Safe(g, queue, taken)
  }

  /** Offset k is the end of the stream, or a segment that carries something starts there. */
  ghost predicate Starts(net: set<Segment>, w: Bytes, k: nat) {
    k == |w| || exists g :: g in net && g.kind == Data && g.payload != [] && Carries(g, w, k)
  }

  function EndOf(g: Segment, n: nat): nat { n + |g.payload| }

  /** Segments follow one another: where one ends, and where the receiver stands, another starts. */
  ghost predicate Chained(net: set<Segment>, w: Bytes, taken: nat) {
    && Starts(net, w, taken)
    && forall g, n: nat {:trigger EndOf(g, n)} ::
         g in net && g.kind == Data && Carries(g, w, n) ==> Starts(net, w, EndOf(g, n))
  }

  /** One direction is sound. */
  ghost predicate Flow(w: Bytes, s: End, r: End, net: set<Segment>, back: set<Segment>) {
    && Outgoing(w, s, net) && Incoming(w, r, back)
    && NothingLost(s.queue, Stream(r.put), net) && Chained(net, w, |Stream(r.put)|)
  }

  /** The direction from A to B is sound. */
  ghost predicate Forward(c: Conn) { Flow(c.wroteA, c.a, c.b, c.toB, c.toA) }

  /** The two sides swapped: what holds of one direction holds of the other. */
  function Mirrored(c: Conn): Conn { Conn(c.b, c.a, c.wroteB, c.wroteA, c.toB, c.toA) }

  // ---------------------------------------------------------------- numbers and offsets

  lemma {:induction false} AtPlus(n: nat, k: nat)
    ensures Plus(At(n), k) == At(n + k)
  {
  }

  lemma {:induction false} OneOffset(n: nat, m: nat)
    requires At(n) == At(m) && n < WRAP && m < WRAP
    ensures n == m
  {
  }

  lemma {:induction false} PieceGrows(g: Segment, w: Bytes, more: Bytes)
    requires IsPiece(g, w)
    ensures IsPiece(g, w + more)
  {
    var n: nat :| Carries(g, w, n);
    assert Carries(g, w + more, n);
  }

  lemma {:induction false} SentGrows(net: set<Segment>, w: Bytes, k: nat, net1: set<Segment>, more: Bytes)
    requires Sent(net, w, k) && net <= net1
    ensures Sent(net1, w + more, k)
  {
    var g, n: nat :| g in net && g.kind == Data && Carries(g, w, n) && n <= k < n + |g.payload|;
    assert Carries(g, w + more, n);
  }

  lemma {:induction false} SafeGrows(g: Segment, queue: seq<Unacked>, taken: Bytes, q: seq<Unacked>, more: Bytes)
    requires Safe(g, queue, taken)
    ensures Safe(g, queue + q, taken + more)
  {
    if IsPiece(g, taken) { PieceGrows(g, taken, more); }
  }

  // ---------------------------------------------------------------- what each event keeps

  lemma {:induction false} WriteKeepsOutgoing(w: Bytes, s: End, net: set<Segment>, data: Bytes)
    requires Outgoing(w, s, net)
    ensures var (s1, g) := Written(s, data); Outgoing(w + data, s1, net + {g})
  {
    var (s1, g) := Written(s, data);
    AtPlus(|w|, |data|);
    assert Carries(g, w + data, |w|);
    forall h | h in net + {g} && h.kind == Data ensures IsPiece(h, w + data) {
      if h != g { PieceGrows(h, w, data); }
    }
    forall i | 0 <= i < |s1.queue| ensures Queued(s1.queue[i], w + data) {
      if i < |s.queue| { assert Queued(s.queue[i], w); PieceGrows(s.queue[i].seg, w, data); }
    }
    forall k | 0 <= k < |w + data| ensures Sent(net + {g}, w + data, k) {
      if k < |w| { SentGrows(net, w, k, net + {g}, data); }
    }
  }

  lemma {:induction false} StartsGrows(net: set<Segment>, w: Bytes, k: nat, g: Segment, data: Bytes)
    requires Starts(net, w, k) && g.kind == Data && g.payload == data && Carries(g, w + data, |w|)
    ensures Starts(net + {g}, w + data, k)
  {
    if k != |w| {
      var h :| h in net && h.kind == Data && h.payload != [] && Carries(h, w, k);
      assert Carries(h, w + data, k);
    } else if data == [] {
      assert w + data == w;
    }
  }

  lemma {:induction false} WriteKeepsChained(net: set<Segment>, w: Bytes, taken: nat, g: Segment, data: Bytes)
    requires |w + data| < WRAP && Chained(net, w, taken)
    requires forall h :: h in net && h.kind == Data ==> IsPiece(h, w)
    requires g.kind == Data && g.payload == data && Carries(g, w + data, |w|)
    ensures Chained(net + {g}, w + data, taken)
  {
    StartsGrows(net, w, taken, g, data);
    forall h, n: nat | h in net + {g} && h.kind == Data && Carries(h, w + data, n)
      ensures Starts(net + {g}, w + data, EndOf(h, n))
    {
      if h in net {
        var m: nat :| Carries(h, w, m);
        OneOffset(n, m);
        StartsGrows(net, w, EndOf(h, n), g, data);
      } else {
        OneOffset(n, |w|);
      }
    }
  }

  lemma {:induction false} WriteKeeps(w: Bytes, s: End, r: End, net: set<Segment>, back: set<Segment>, data: Bytes)
    requires Flow(w, s, r, net, back) && |w + data| < WRAP
    ensures var (s1, g) := Written(s, data); Flow(w + data, s1, r, net + {g}, back)
  {
    var (s1, g) := Written(s, data);
    WriteKeepsOutgoing(w, s, net, data);
    AtPlus(|w|, |data|);
    assert Carries(g, w + data, |w|);
    WriteKeepsChained(net, w, |Stream(r.put)|, g, data);
    var taken := Stream(r.put);
    forall h | h in net + {g} && h.kind == Data ensures Safe(h, s1.queue, taken) {
      if h != g { SafeGrows(h, s.queue, taken, [Unacked(s1.sqn, g)], []); assert taken + [] == taken; }
    }
  }

  lemma {:induction false} BodyIs(f: Frame)
    requires |f.tail| == TRAILER
    ensures Body(f) == f.seg.payload
  {
  }

  /** A piece whose number is that of the end of a prefix is what comes next. */
  lemma {:induction false} NextPiece(w: Bytes, t: Bytes, g: Segment)
    requires |w| < WRAP && t <= w && IsPiece(g, w) && g.sqn == At(|t|)
    ensures Carries(g, w, |t|) && t + g.payload <= w
  {
    var n: nat :| Carries(g, w, n);
    OneOffset(n, |t|);
    assert w[..n] + w[n..n + |g.payload|] == w[..n + |g.payload|];
  }

  /** A segment is accepted only if it carries what comes next. */
  lemma {:induction false} TakesNext(w: Bytes, r: End, f: Frame)
    requires |w| < WRAP && r.aseq == At(|Stream(r.put)|) && Stream(r.put) <= w
    requires IsPiece(f.seg, w) && |f.tail| == TRAILER && f.seg.sqn == r.aseq
    ensures Body(f) == f.seg.payload && Stream(r.put) + f.seg.payload <= w
    ensures Carries(f.seg, w, |Stream(r.put)|)
  {
    BodyIs(f);
    NextPiece(w, Stream(r.put), f.seg);
  }

  lemma {:induction false} HandledTakes(r: End, f: Frame, n: nat)
    requires f.seg.kind == Data && f.seg.sqn == r.aseq == At(n) && |f.tail| == TRAILER
    ensures var (r1, reply) := Handled(r, f).value;
      && r1.put == r.put + [f] && r1.aseq == At(n + |f.seg.payload|)
      && reply == Some(Segment(Ack, r.sqn, r1.aseq, []))
  {
    AtPlus(n, |f.seg.payload|);
  }

  lemma {:induction false} EarnedGrows(aseq: Seq, n: nat, n1: nat)
    requires Earned(aseq, n) && n <= n1
    ensures Earned(aseq, n1)
  {
    var m: nat :| m <= n && aseq == At(m);
  }

  lemma {:induction false} IncomingTakes(w: Bytes, r: End, r1: End, back: set<Segment>, ack: Segment, more: Bytes)
    requires Incoming(w, r, back) && Stream(r1.put) == Stream(r.put) + more <= w
    requires r1.aseq == At(|Stream(r.put)| + |more|) == ack.aseq
    ensures Incoming(w, r1, back + {ack})
  {
    var n, n1 := |Stream(r.put)|, |Stream(r1.put)|;
    forall g | g in back + {ack} && g.kind == Ack ensures Earned(g.aseq, n1) {
      if g in back { EarnedGrows(g.aseq, n, n1); }
    }
  }

  lemma {:induction false} Accepts(w: Bytes, r: End, r1: End, back: set<Segment>, f: Frame, ack: Segment)
    requires Incoming(w, r, back) && Body(f) == f.seg.payload && Stream(r.put) + f.seg.payload <= w
    requires r1.put == r.put + [f] && r1.aseq == At(|Stream(r.put)| + |f.seg.payload|) == ack.aseq
    ensures Incoming(w, r1, back + {ack})
  {
    StreamPut(r.put, f);
    IncomingTakes(w, r, r1, back, ack, f.seg.payload);
  }

  lemma {:induction false} ArriveKeepsIncoming(w: Bytes, r: End, back: set<Segment>, f: Frame)
    requires |w| < WRAP && Incoming(w, r, back)
    requires f.seg.kind == Data && IsPiece(f.seg, w) && |f.tail| == TRAILER
    ensures var (r1, reply) := Handled(r, f).value; Incoming(w, r1, Sending(back, reply))
  {
    if f.seg.sqn == r.aseq {
      TakesNext(w, r, f);
      HandledTakes(r, f, |Stream(r.put)|);
      var h := Handled(r, f).value;
      Accepts(w, r, h.0, back, f, h.1.value);
    }
  }

  lemma {:induction false} TakenKeepsSafe(queue: seq<Unacked>, taken: Bytes, more: Bytes, net: set<Segment>)
    requires NothingLost(queue, taken, net)
    ensures NothingLost(queue, taken + more, net)
  {
    forall g | g in net && g.kind == Data ensures Safe(g, queue, taken + more) {
      SafeGrows(g, queue, taken, [], more);
      assert queue + [] == queue;
    }
  }

  /** The receiver has taken the segment that came next. */
  lemma {:induction false} FlowTakes(w: Bytes, s: End, r: End, r1: End, net: set<Segment>, back: set<Segment>, back1: set<Segment>, g: Segment)
    requires Flow(w, s, r, net, back) && Incoming(w, r1, back1) && g in net && g.kind == Data
    requires Carries(g, w, |Stream(r.put)|) && Stream(r1.put) == Stream(r.put) + g.payload
    ensures Flow(w, s, r1, net, back1)
  {
    TakenKeepsSafe(s.queue, Stream(r.put), g.payload, net);
    assert Starts(net, w, EndOf(g, |Stream(r.put)|));
  }

  lemma {:induction false} DataKeeps(w: Bytes, s: End, r: End, net: set<Segment>, back: set<Segment>, f: Frame)
    requires |w| < WRAP && Flow(w, s, r, net, back)
    requires f.seg in net && f.seg.kind == Data && |f.tail| == TRAILER
    ensures var (r1, reply) := Handled(r, f).value; Flow(w, s, r1, net, Sending(back, reply))
  {
    ArriveKeepsIncoming(w, r, back, f);
    if f.seg.sqn == r.aseq {
      TakesNext(w, r, f);
      StreamPut(r.put, f);
      var (r1, reply) := Handled(r, f).value;
      FlowTakes(w, s, r, r1, net, back, Sending(back, reply), f.seg);
    }
  }

  lemma {:induction false} DroppedFrom(q: seq<Unacked>, key: Seq)
    ensures forall u :: u in Dropped(q, key) ==> u in q
    ensures forall u :: u in q && u.key != key ==> u in Dropped(q, key)
  {
    if q != [] { DroppedFrom(q[1..], key); }
  }

  /** A segment leaves the retransmission queue only when the peer has taken it. */
  lemma {:induction false} AckedIsTaken(w: Bytes, g: Segment, aseq: Seq, taken: Bytes)
    requires |w| < WRAP && taken <= w && IsPiece(g, w)
    requires aseq == Plus(g.sqn, |g.payload|) && Earned(aseq, |taken|)
    ensures IsPiece(g, taken)
  {
    var n: nat :| n <= |taken| && aseq == At(n);
    var m: nat :| Carries(g, w, m);
    AtPlus(m, |g.payload|);
    OneOffset(n, m + |g.payload|);
    assert Carries(g, taken, m);
  }

  lemma {:induction false} AckKeeps(w: Bytes, s: End, r: End, net: set<Segment>, back: set<Segment>, f: Frame)
    requires |w| < WRAP && Flow(w, s, r, net, back)
    requires f.seg in back && f.seg.kind == Ack
    ensures Handled(s, f).Some? && Flow(w, Handled(s, f).value.0, r, net, back)
  {
    var s1 := Handled(s, f).value.0;
    DroppedFrom(s.queue, f.seg.aseq);
    forall i | 0 <= i < |s1.queue| ensures Queued(s1.queue[i], w) {
      assert s1.queue[i] in s1.queue;
    }
    forall g | g in net && g.kind == Data ensures Safe(g, s1.queue, Stream(r.put)) {
      assert Safe(g, s.queue, Stream(r.put));
      if !IsPiece(g, Stream(r.put)) && f.seg.aseq == Plus(g.sqn, |g.payload|) {
        AckedIsTaken(w, g, f.seg.aseq, Stream(r.put));
      }
    }
  }

  /** The other direction's numbers and segments do not matter to this one. */
  lemma {:induction false} OtherKeeps(w: Bytes, s: End, r: End, net: set<Segment>, back: set<Segment>,
    s1: End, r1: End, net1: set<Segment>, back1: set<Segment>)
    requires Flow(w, s, r, net, back)
    requires s1.sqn == s.sqn && s1.queue == s.queue && r1.aseq == r.aseq && r1.put == r.put
    requires net <= net1 && forall g :: g in net1 && g.kind == Data ==> g in net
    requires forall g :: g in back1 && g.kind == Ack ==> g in back
    ensures Flow(w, s1, r1, net1, back1)
  {
    forall k | 0 <= k < |w| ensures Sent(net1, w, k) {
      SentGrows(net, w, k, net1, []);
      assert w + [] == w;
    }
    forall k: nat | Starts(net, w, k) ensures Starts(net1, w, k) {
    }
  }

  // ---------------------------------------------------------------- whole runs

  /** The four trailing bytes are there. */
  predicate TrailerOk(ev: Event) {
    match ev
    case ArriveA(f) => |f.tail| == TRAILER
    case ArriveB(f) => |f.tail| == TRAILER
    case _ => true
  }

  ghost predicate TrailersOk(evs: seq<Event>) { forall i :: 0 <= i < |evs| ==> TrailerOk(evs[i]) }

  ghost predicate NoGiveUpA(evs: seq<Event>) { forall i :: 0 <= i < |evs| ==> !evs[i].GiveUpA? }
  ghost predicate NoGiveUpB(evs: seq<Event>) { forall i :: 0 <= i < |evs| ==> !evs[i].GiveUpB? }

  lemma {:induction false} ForwardWrites(c: Conn, data: Bytes)
    requires Forward(c)
    ensures |c.wroteA + data| < WRAP ==> Forward(Step(c, WriteA(data)))
    ensures Forward(Step(c, WriteB(data)))
  {
    var (ea, ga) := Written(c.a, data);
    var (eb, gb) := Written(c.b, data);
    if |c.wroteA + data| < WRAP { WriteKeeps(c.wroteA, c.a, c.b, c.toB, c.toA, data); }
    OtherKeeps(c.wroteA, c.a, c.b, c.toB, c.toA, c.a, eb, c.toB, c.toA + {gb});
  }

  lemma {:induction false} ForwardArriveB(c: Conn, f: Frame)
    requires Forward(c) && |c.wroteA| < WRAP && |f.tail| == TRAILER
    ensures Forward(Step(c, ArriveB(f)))
  {
    if f.seg in c.toB {
      if f.seg.kind == Data {
        DataKeeps(c.wroteA, c.a, c.b, c.toB, c.toA, f);
      } else if f.seg.kind == Ack {
        OtherKeeps(c.wroteA, c.a, c.b, c.toB, c.toA, c.a, Handled(c.b, f).value.0, c.toB, c.toA);
      }
    }
  }

  lemma {:induction false} ForwardArriveA(c: Conn, f: Frame)
    requires Forward(c) && |c.wroteA| < WRAP
    ensures Forward(Step(c, ArriveA(f)))
  {
    if f.seg in c.toA {
      if f.seg.kind == Ack {
        AckKeeps(c.wroteA, c.a, c.b, c.toB, c.toA, f);
      } else if f.seg.kind == Data {
        var (e, reply) := Handled(c.a, f).value;
        OtherKeeps(c.wroteA, c.a, c.b, c.toB, c.toA, e, c.b, Sending(c.toB, reply), c.toA);
      }
    }
  }

  lemma {:induction false} ForwardGiveUpB(c: Conn, key: Seq)
    requires Forward(c)
    ensures Forward(Step(c, GiveUpB(key)))
  {
    OtherKeeps(c.wroteA, c.a, c.b, c.toB, c.toA, c.a, c.b.(queue := Dropped(c.b.queue, key)), c.toB, c.toA);
  }

  /** Every event keeps a direction sound that has carried fewer than 2^32 bytes and in which nothing is given
      up, whatever the other does. */
  lemma {:induction false} StepForward(c: Conn, ev: Event)
    requires Forward(c) && |Step(c, ev).wroteA| < WRAP && TrailerOk(ev) && !ev.GiveUpA?
    ensures Forward(Step(c, ev))
  {
    match ev
    case WriteA(data) => ForwardWrites(c, data);
    case WriteB(data) => ForwardWrites(c, data);
    case ArriveA(f) => ForwardArriveA(c, f);
    case ArriveB(f) => ForwardArriveB(c, f);
    case GiveUpB(key) => ForwardGiveUpB(c, key);
  }

  /** The same event seen from the other side. */
  function Swapped(ev: Event): Event {
    match ev
    case WriteA(data) => WriteB(data)
    case WriteB(data) => WriteA(data)
    case ArriveA(f) => ArriveB(f)
    case ArriveB(f) => ArriveA(f)
    case GiveUpA(key) => GiveUpB(key)
    case GiveUpB(key) => GiveUpA(key)
  }

  lemma {:induction false} StepMirrored(c: Conn, ev: Event)
    ensures Mirrored(Step(c, ev)) == Step(Mirrored(c), Swapped(ev))
  {
  }

  lemma {:induction false} OpenedOk()
    ensures Forward(Opened()) && Forward(Mirrored(Opened()))
  {
    assert At(0) == 1;
    assert Earned(1, 0);
  }

  /** Over every run in which A writes fewer than 2^32 bytes, gives nothing up, and every frame has its
      trailer. */
  lemma {:induction false} RunForward(evs: seq<Event>)
    requires |RunAll(Opened(), evs).wroteA| < WRAP && TrailersOk(evs) && NoGiveUpA(evs)
    ensures Forward(RunAll(Opened(), evs))
    decreases |evs|
  {
    if evs == [] {
      OpenedOk();
    } else {
      RunForward(evs[..|evs| - 1]);
      StepForward(RunAll(Opened(), evs[..|evs| - 1]), evs[|evs| - 1]);
    }
  }

  /** And likewise for B. */
  lemma {:induction false} RunBackward(evs: seq<Event>)
    requires |RunAll(Opened(), evs).wroteB| < WRAP && TrailersOk(evs) && NoGiveUpB(evs)
    ensures Forward(Mirrored(RunAll(Opened(), evs)))
    decreases |evs|
  {
    if evs == [] {
      OpenedOk();
    } else {
      var c, ev := RunAll(Opened(), evs[..|evs| - 1]), evs[|evs| - 1];
      RunBackward(evs[..|evs| - 1]);
      StepMirrored(c, ev);
      StepForward(Mirrored(c), Swapped(ev));
    }
  }

  // ---------------------------------------------------------------- safety alone

  /** No more than four bytes behind the payload, and four in all: what safety needs of a data frame. */
  predicate FrameSafe(f: Frame) { f.seg.kind == Data ==> |f.tail| <= TRAILER <= |f.seg.payload| + |f.tail| }

  predicate SafeEvent(ev: Event) {
    match ev
    case ArriveA(f) => FrameSafe(f)
    case ArriveB(f) => FrameSafe(f)
    case _ => true
  }

  ghost predicate FramesSafe(evs: seq<Event>) { forall i :: 0 <= i < |evs| ==> SafeEvent(evs[i]) }

  /** B has taken a prefix and expects what comes next; the data under way to it are pieces of the stream. */
  ghost predicate Prefixed(c: Conn) {
    && c.a.sqn == At(|c.wroteA|)
    && c.b.aseq == At(|Stream(c.b.put)|) && Stream(c.b.put) <= c.wroteA
    && forall g :: g in c.toB && g.kind == Data ==> IsPiece(g, c.wroteA)
  }

  lemma {:induction false} PrefixedWrite(c: Conn, data: Bytes)
    requires Prefixed(c)
    ensures Prefixed(Step(c, WriteA(data)))
  {
    var (s, g) := Written(c.a, data);
    AtPlus(|c.wroteA|, |data|);
    assert Carries(g, c.wroteA + data, |c.wroteA|);
    forall h | h in c.toB + {g} && h.kind == Data ensures IsPiece(h, c.wroteA + data) {
      if h != g { PieceGrows(h, c.wroteA, data); }
    }
  }

  /** The part of the payload that a short trailer leaves. */
  lemma {:induction false} BodyIsPart(f: Frame)
    requires f.seg.kind == Data && FrameSafe(f)
    ensures |Body(f)| == |f.seg.payload| + |f.tail| - TRAILER && Body(f) <= f.seg.payload
  {
  }

  lemma {:induction false} PartOfPrefix(w: Bytes, t: Bytes, p: Bytes, b: Bytes)
    requires t + p <= w && b <= p
    ensures t + b <= w
  {
    assert t + b == (t + p)[..|t| + |b|];
  }

  lemma {:induction false} HandledTakesPart(r: End, f: Frame, n: nat)
    requires f.seg.kind == Data && FrameSafe(f) && f.seg.sqn == r.aseq == At(n)
    ensures var r1 := Handled(r, f).value.0; r1.put == r.put + [f] && r1.aseq == At(n + |Body(f)|)
  {
    BodyIsPart(f);
    AtPlus(n, |Body(f)|);
  }

  lemma {:induction false} PrefixedArrival(c: Conn, f: Frame)
    requires Prefixed(c) && |c.wroteA| < WRAP && FrameSafe(f)
    ensures Prefixed(Step(c, ArriveB(f)))
  {
    if f.seg in c.toB && f.seg.kind == Data && f.seg.sqn == c.b.aseq {
      var t := Stream(c.b.put);
      NextPiece(c.wroteA, t, f.seg);
      BodyIsPart(f);
      PartOfPrefix(c.wroteA, t, f.seg.payload, Body(f));
      HandledTakesPart(c.b, f, |t|);
      PrefixedTakes(c, Step(c, ArriveB(f)), f);
    }
  }

  lemma {:induction false} PrefixedTakes(c: Conn, c1: Conn, f: Frame)
    requires Prefixed(c) && c1.a.sqn == c.a.sqn && c1.wroteA == c.wroteA && c1.toB == c.toB
    requires c1.b.put == c.b.put + [f] && c1.b.aseq == At(|Stream(c.b.put)| + |Body(f)|)
    requires Stream(c.b.put) + Body(f) <= c.wroteA
    ensures Prefixed(c1)
  {
    StreamPut(c.b.put, f);
  }

  lemma {:induction false} StepPrefixed(c: Conn, ev: Event)
    requires Prefixed(c) && |Step(c, ev).wroteA| < WRAP && SafeEvent(ev)
    ensures Prefixed(Step(c, ev))
  {
    match ev
    case WriteA(data) => PrefixedWrite(c, data);
    case ArriveB(f) => PrefixedArrival(c, f);
    case WriteB(data) =>
    case ArriveA(f) =>
    case GiveUpA(key) =>
    case GiveUpB(key) =>
  }

  lemma {:induction false} RunPrefixed(evs: seq<Event>)
    requires |RunAll(Opened(), evs).wroteA| < WRAP && FramesSafe(evs)
    ensures Prefixed(RunAll(Opened(), evs))
    decreases |evs|
  {
    if evs == [] {
      assert At(0) == 1;
    } else {
      RunPrefixed(evs[..|evs| - 1]);
      StepPrefixed(RunAll(Opened(), evs[..|evs| - 1]), evs[|evs| - 1]);
    }
  }

  lemma {:induction false} RunPrefixedBack(evs: seq<Event>)
    requires |RunAll(Opened(), evs).wroteB| < WRAP && FramesSafe(evs)
    ensures Prefixed(Mirrored(RunAll(Opened(), evs)))
    decreases |evs|
  {
    if evs == [] {
      assert At(0) == 1;
    } else {
      var c, ev := RunAll(Opened(), evs[..|evs| - 1]), evs[|evs| - 1];
      RunPrefixedBack(evs[..|evs| - 1]);
      StepMirrored(c, ev);
      StepPrefixed(Mirrored(c), Swapped(ev));
    }
  }

  // ---------------------------------------------------------------- what follows

  /** Whatever the network drops, repeats or reorders and whatever is given up: each side has taken a prefix
      of what the other wrote. */
  lemma {:induction false} PrefixSafety(evs: seq<Event>)
    requires FramesSafe(evs)
    ensures var c := RunAll(Opened(), evs);
      && (|c.wroteA| < WRAP ==> Stream(c.b.put) <= c.wroteA)
      && (|c.wroteB| < WRAP ==> Stream(c.a.put) <= c.wroteB)
  {
    var c := RunAll(Opened(), evs);
    if |c.wroteA| < WRAP { RunPrefixed(evs); }
    if |c.wroteB| < WRAP { RunPrefixedBack(evs); }
  }

  /** An arrival stops A exactly when it is the answer to its opening segment once more; none stops B. */
  lemma {:induction false} StopsIff(evs: seq<Event>)
    ensures var c := RunAll(Opened(), evs);
      && SYN_ACK in c.toA
      && (forall g :: g in c.toA ==> (g.kind == Other <==> g == SYN_ACK)) && (forall g :: g in c.toB ==> g.kind != Other)
      && (forall f: Frame :: f.seg in c.toA ==> (Handled(c.a, f).None? <==> f.seg == SYN_ACK))
      && (forall f: Frame :: f.seg in c.toB ==> Handled(c.b, f).Some?)
    decreases |evs|
  {
    if evs != [] { StopsIff(evs[..|evs| - 1]); }
  }

  /** As long as the peer has not taken everything, a segment that still waits for its acknowledgement
      is exactly what the peer expects next. */
  lemma {:induction false} NextIsWaiting(w: Bytes, s: End, r: End, net: set<Segment>, back: set<Segment>)
    requires |w| < WRAP && Flow(w, s, r, net, back) && Stream(r.put) != w
    ensures exists u :: u in s.queue && u.seg.sqn == r.aseq && u.seg.payload != [] && Carries(u.seg, w, |Stream(r.put)|)
  {
    var k := |Stream(r.put)|;
    assert w[..|w|] == w;
    assert k < |w|;
    var g :| g in net && g.kind == Data && g.payload != [] && Carries(g, w, k);
    assert Safe(g, s.queue, Stream(r.put));
    if IsPiece(g, Stream(r.put)) {
      var m: nat :| Carries(g, Stream(r.put), m);
      OneOffset(m, k);
      assert false;
    }
    var u := Unacked(Plus(g.sqn, |g.payload|), g);
    assert u in s.queue && u.seg == g;
  }

  /** Sending that segment once more, over a network that delivers it, gets the peer further. */
  lemma {:induction false} NextIsTaken(w: Bytes, r: End, back: set<Segment>, f: Frame)
    requires |w| < WRAP && Incoming(w, r, back) && |f.tail| == TRAILER
    requires f.seg.kind == Data && Carries(f.seg, w, |Stream(r.put)|)
    ensures Handled(r, f).Some? && Stream(Handled(r, f).value.0.put) == Stream(r.put) + f.seg.payload
  {
    TakesNext(w, r, f);
    StreamPut(r.put, f);
  }

  /** Once nothing waits for an acknowledgement, and nothing was given up, the peer has taken everything. */
  lemma {:induction false} AllAcked(evs: seq<Event>)
    requires TrailersOk(evs)
    ensures var c := RunAll(Opened(), evs);
      && (|c.wroteA| < WRAP && NoGiveUpA(evs) && c.a.queue == [] ==> Stream(c.b.put) == c.wroteA)
      && (|c.wroteB| < WRAP && NoGiveUpB(evs) && c.b.queue == [] ==> Stream(c.a.put) == c.wroteB)
  {
    var c := RunAll(Opened(), evs);
    if |c.wroteA| < WRAP && NoGiveUpA(evs) && c.a.queue == [] {
      RunForward(evs);
      if Stream(c.b.put) != c.wroteA { NextIsWaiting(c.wroteA, c.a, c.b, c.toB, c.toA); }
    }
    if |c.wroteB| < WRAP && NoGiveUpB(evs) && c.b.queue == [] {
      RunBackward(evs);
      if Stream(c.a.put) != c.wroteB { NextIsWaiting(c.wroteB, c.b, c.a, c.toA, c.toB); }
    }
  }

  /** A segment given up is gone although the peer never got it. */
  lemma {:induction false} GivenUpIsLost()
    ensures var c := RunAll(Opened(), [WriteA([0]), GiveUpA(2)]);
      c.a.queue == [] && c.wroteA == [0] && Stream(c.b.put) == []
  {
    TwoEvents(Opened(), WriteA([0]), GiveUpA(2));
    assert Written(End(1, 1, [], []), [0]).0.queue == [Unacked(2, Segment(Data, 1, 1, [0]))];
  }

  /** A segment is dropped from the retransmission queue only after the peer has taken its bytes. */
  lemma {:induction false} DroppedWasTaken(w: Bytes, s: End, r: End, net: set<Segment>, back: set<Segment>, f: Frame, u: Unacked)
    requires |w| < WRAP && Flow(w, s, r, net, back)
    requires f.seg in back && f.seg.kind == Ack
    requires u in s.queue && u !in Handled(s, f).value.0.queue
    ensures IsPiece(u.seg, Stream(r.put))
  {
    DroppedFrom(s.queue, f.seg.aseq);
    var i :| 0 <= i < |s.queue| && s.queue[i] == u;
    assert Queued(s.queue[i], w);
    AckedIsTaken(w, u.seg, f.seg.aseq, Stream(r.put));
  }

  // ---------------------------------------------------------------- the limits

  /** The four trailing bytes matter: after a segment is accepted the next number expected is that of the byte
      behind it exactly when it came with four bytes more, up to the wrap. */
  lemma {:induction false} TrailerIff(w: Bytes, r: End, back: set<Segment>, f: Frame)
    requires |w| < WRAP && Incoming(w, r, back) && f.seg.kind == Data && Carries(f.seg, w, |Stream(r.put)|)
    ensures var r1 := Handled(r, f).value.0;
      r1.aseq == At(|Stream(r.put)| + |f.seg.payload|) <==> (|f.tail| - TRAILER) % WRAP == 0
  {
    var n, k, d := |Stream(r.put)|, |f.seg.payload|, |f.tail| - TRAILER;
    AtPlus(n, k);
    assert Handled(r, f).value.0.aseq == (1 + n + k + d) % WRAP by { PlusMod(1 + n, k + d); }
    SameResidue(1 + n + k, d);
  }

  lemma {:induction false} PlusMod(a: nat, b: int)
    ensures (a % WRAP + b) % WRAP == (a + b) % WRAP
  {
  }

  lemma {:induction false} SameResidue(a: nat, d: int)
    ensures (a + d) % WRAP == a % WRAP <==> d % WRAP == 0
  {
  }

  /** More than four trailing bytes end up in the stream. */
  lemma {:induction false} LongTrailerIsTaken(tail: Bytes)
    requires |tail| > TRAILER
    ensures var c := RunAll(Opened(), [WriteA([0]), ArriveB(Frame(Segment(Data, 1, 1, [0]), tail))]);
      !(Stream(c.b.put) <= c.wroteA)
  {
    var f := Frame(Segment(Data, 1, 1, [0]), tail);
    TwoEvents(Opened(), WriteA([0]), ArriveB(f));
    var c := Step(Opened(), WriteA([0]));
    assert f.seg in c.toB && c.b == End(1, 1, [], []);
    StreamPut([], f);
    assert [] + [f] == [f] && Stream([]) == [];
  }

  lemma {:induction false} TwoEvents(c: Conn, ev: Event, ev1: Event)
    ensures RunAll(c, [ev, ev1]) == Step(Step(c, ev), ev1)
  {
    RunMore(c, [], ev);
    RunMore(c, [ev], ev1);
    assert [] + [ev] == [ev] && [ev] + [ev1] == [ev, ev1];
  }

  lemma {:induction false} RunMore(c: Conn, evs: seq<Event>, ev: Event)
    ensures RunAll(c, evs + [ev]) == Step(RunAll(c, evs), ev)
  {
    assert (evs + [ev])[..|evs|] == evs;
  }

  // ---------------------------------------------------------------- why fewer than 2^32 bytes

  function Zeros(n: nat): (r: Bytes)
    ensures |r| == n
  {
    seq(n, _ => 0)
  }

  /** The segment of one zero byte at offset n, and the frame it arrives in. */
  function ZeroAt(n: nat): Frame { Frame(Segment(Data, At(n), 1, [0]), [0, 0, 0, 0]) }

  /** n zero bytes written one by one, each delivered at once. */
  function OneByOne(n: nat): seq<Event> {
    if n == 0 then [] else OneByOne(n - 1) + [WriteA([0])] + [ArriveB(ZeroAt(n - 1))]
  }

  ghost predicate AllTaken(c: Conn, n: nat) {
    && c.a.sqn == At(n) && c.a.aseq == 1 && c.b.aseq == At(n)
    && c.wroteA == Zeros(n) && Stream(c.b.put) == Zeros(n) && (n > 0 ==> ZeroAt(0).seg in c.toB)
  }

  lemma {:induction false} OneMore(c: Conn, n: nat)
    requires AllTaken(c, n)
    ensures AllTaken(Step(Step(c, WriteA([0])), ArriveB(ZeroAt(n))), n + 1)
  {
    AtPlus(n, 1);
    StreamPut(c.b.put, ZeroAt(n));
    BodyIs(ZeroAt(n));
    assert Zeros(n) + [0] == Zeros(n + 1);
  }

  lemma {:induction false} OneByOneTaken(n: nat)
    ensures AllTaken(RunAll(Opened(), OneByOne(n)), n) && TrailersOk(OneByOne(n))
  {
    if n > 0 {
      OneByOneTaken(n - 1);
      var evs := OneByOne(n - 1);
      RunMore(Opened(), evs, WriteA([0]));
      RunMore(Opened(), evs + [WriteA([0])], ArriveB(ZeroAt(n - 1)));
      OneMore(RunAll(Opened(), evs), n - 1);
    }
  }

  /** One byte without a trailer: less than four bytes in all. */
  function Bare(): Frame { Frame(Segment(Data, At(3), 1, [1]), []) }

  /** Such a frame moves the number expected back by three. */
  lemma {:induction false} BareRewinds(c: Conn, n: nat)
    requires n == 3 && AllTaken(c, n)
    ensures var c1 := Step(Step(c, WriteA([1])), ArriveB(Bare()));
      && c1.b.aseq == At(0) && Stream(c1.b.put) == Zeros(n) && c1.wroteA == Zeros(n) + [1] && ZeroAt(0).seg in c1.toB
  {
    StreamPut(c.b.put, Bare());
    assert Body(Bare()) == [];
  }

  lemma {:induction false} OldIsTaken(c: Conn, n: nat)
    requires c.b.aseq == At(0) && Stream(c.b.put) == Zeros(n) && c.wroteA == Zeros(n) + [1] && ZeroAt(0).seg in c.toB
    ensures var c1 := Step(c, ArriveB(ZeroAt(0))); !(Stream(c1.b.put) <= c1.wroteA)
  {
    HandledTakes(c.b, ZeroAt(0), 0);
    StreamPut(c.b.put, ZeroAt(0));
    BodyIs(ZeroAt(0));
    assert (Zeros(n) + [0])[n] == 0;
  }

  lemma {:induction false} ThreeMore(c: Conn, s: seq<Event>, x: Event, y: Event, z: Event)
    ensures RunAll(c, s + [x] + [y] + [z]) == Step(Step(Step(RunAll(c, s), x), y), z)
  {
    RunMore(c, s, x);
    RunMore(c, s + [x], y);
    RunMore(c, s + [x] + [y], z);
  }

  /** An old segment is then taken again: less than four bytes in all is not safe. */
  lemma {:induction false} ShortFrameIsUnsafe(n: nat)
    requires n == 3
    ensures var c := RunAll(Opened(), OneByOne(n) + [WriteA([1])] + [ArriveB(Bare())] + [ArriveB(ZeroAt(0))]);
      !(Stream(c.b.put) <= c.wroteA)
  {
    OneByOneTaken(n);
    ThreeMore(Opened(), OneByOne(n), WriteA([1]), ArriveB(Bare()), ArriveB(ZeroAt(0)));
    var c := RunAll(Opened(), OneByOne(n));
    BareRewinds(c, n);
    OldIsTaken(Step(Step(c, WriteA([1])), ArriveB(Bare())), n);
  }

  /** The very first segment comes once more. */
  function Stale(n: nat): seq<Event> { OneByOne(n) + [ArriveB(ZeroAt(0))] }

  /** After 2^32 bytes the number expected is that of the first byte again, and the segment is taken. */
  lemma {:induction false} StaleIsTaken(n: nat)
    requires n == WRAP
    ensures Overrun(RunAll(Opened(), Stale(n)), n, 0) && TrailersOk(Stale(n))
  {
    OneByOneTaken(n);
    RunMore(Opened(), OneByOne(n), ArriveB(ZeroAt(0)));
    TakesStale(RunAll(Opened(), OneByOne(n)), n);
  }

  lemma {:induction false} TakesStale(c: Conn, n: nat)
    requires n == WRAP && AllTaken(c, n)
    ensures Overrun(Step(c, ArriveB(ZeroAt(0))), n, 0)
  {
    assert At(n) == At(0);
    HandledTakes(c.b, ZeroAt(0), n);
    StreamPut(c.b.put, ZeroAt(0));
    BodyIs(ZeroAt(0));
    assert Zeros(n) + [0] == Zeros(n + 1);
  }

  /** B has taken one zero more than the n that A wrote; the m bytes A wrote since are ones. */
  ghost predicate Overrun(c: Conn, n: nat, m: nat) {
    |c.wroteA| == n + m && (m > 0 ==> c.wroteA[n] == 1) && Stream(c.b.put) == Zeros(n + 1)
  }

  function StaleAndMore(n: nat, m: nat): seq<Event> {
    if m == 0 then Stale(n) else StaleAndMore(n, m - 1) + [WriteA([1])]
  }

  lemma {:induction false} OverrunStays(c: Conn, n: nat, m: nat)
    requires Overrun(c, n, m)
    ensures Overrun(Step(c, WriteA([1])), n, m + 1)
  {
  }

  lemma {:induction false} StaleStays(n: nat, m: nat)
    requires n == WRAP
    ensures Overrun(RunAll(Opened(), StaleAndMore(n, m)), n, m) && TrailersOk(StaleAndMore(n, m))
    decreases m
  {
    if m == 0 {
      StaleIsTaken(n);
    } else {
      StaleStays(n, m - 1);
      RunMore(Opened(), StaleAndMore(n, m - 1), WriteA([1]));
      OverrunStays(RunAll(Opened(), StaleAndMore(n, m - 1)), n, m - 1);
    }
  }

  lemma {:induction false} UnsafeRun(n: nat, w: nat) returns (evs: seq<Event>)
    requires w == WRAP <= n
    ensures FramesSafe(evs) && |RunAll(Opened(), evs).wroteA| == n
    ensures !(Stream(RunAll(Opened(), evs).b.put) <= RunAll(Opened(), evs).wroteA)
  {
    evs := StaleAndMore(w, n - w);
    StaleStays(w, n - w);
    var c := RunAll(Opened(), evs);
    assert Stream(c.b.put)[w] == 0;
  }

  /** All runs in which A writes n bytes are prefix-safe if and only if n is below 2^32. */
  lemma {:induction false} SafeIff(n: nat)
    ensures n < WRAP <==> forall evs: seq<Event> ::
      FramesSafe(evs) && |RunAll(Opened(), evs).wroteA| == n
      ==> Stream(RunAll(Opened(), evs).b.put) <= RunAll(Opened(), evs).wroteA
  {
    if n < WRAP {
      forall evs: seq<Event> | FramesSafe(evs) && |RunAll(Opened(), evs).wroteA| == n
        ensures Stream(RunAll(Opened(), evs).b.put) <= RunAll(Opened(), evs).wroteA
      {
        PrefixSafety(evs);
      }
    } else {
      var evs := UnsafeRun(n, WRAP);
    }
  }
}
