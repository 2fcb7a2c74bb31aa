/** What acknowledgements do to the retransmission queue: each takes its segment off, every segment taken is
    acknowledged, and from every state a run can reach, arrivals alone can finish the job. */
module TcpDelivery {
  import opened Basics
  import opened TcpStream

  // ---------------------------------------------------------------- one acknowledgement

  /** An acknowledgement takes the first segment that waits under its number off the queue. */
  lemma {:induction false} AckRemovesFirst(e: End, f: Frame, i: nat)
    requires f.seg.kind == Ack && i < |e.queue| && e.queue[i].key == f.seg.aseq
    requires forall j :: 0 <= j < i ==> e.queue[j].key != f.seg.aseq
    ensures Handled(e, f) == Some((e.(queue := e.queue[..i] + e.queue[i + 1..]), None))
  {
    DroppedAt(e.queue, f.seg.aseq, i);
  }

  /** One that nobody waits for changes nothing. */
  lemma {:induction false} AckOfNothing(e: End, f: Frame)
    requires f.seg.kind == Ack && forall u :: u in e.queue ==> u.key != f.seg.aseq
    ensures Handled(e, f) == Some((e, None))
  {
    DroppedAt(e.queue, f.seg.aseq, |e.queue|);
  }

  // ---------------------------------------------------------------- one segment after another

  lemma {:induction false} RunFrom(c: Conn, evs: seq<Event>, more: seq<Event>)
    ensures RunAll(c, evs + more) == RunAll(RunAll(c, evs), more)
    decreases |more|
  {
    if more == [] {
      assert evs + more == evs;
    } else {
      var (init, last) := (more[..|more| - 1], more[|more| - 1]);
      RunFrom(c, evs, init);
      assert more == init + [last] && evs + more == (evs + init) + [last];
      RunMore(c, evs + init, last);
    }
  }

  lemma {:induction false} FirstThen(c: Conn, ev: Event, rest: seq<Event>)
    ensures RunAll(c, [ev] + rest) == RunAll(Step(c, ev), rest)
  {
    RunFrom(c, [ev], rest);
    RunMore(c, [], ev);
    assert [] + [ev] == [ev];
  }

  function Joined(ds: seq<Bytes>): Bytes {
    if ds == [] then [] else Joined(ds[..|ds| - 1]) + ds[|ds| - 1]
  }

  /** Data written at offset n, delivered at once with its trailer, and the reply to it. */
  function Turn(n: nat, data: Bytes, tail: Bytes): seq<Event> {
    [WriteA(data), ArriveB(Frame(Segment(Data, At(n), 1, data), tail)), ArriveA(Frame(Segment(Ack, 1, At(n + |data|), []), tail))]
  }

  function InTurn(ds: seq<Bytes>, tail: Bytes): seq<Event> {
    if ds == [] then []
    else InTurn(ds[..|ds| - 1], tail) + Turn(|Joined(ds[..|ds| - 1])|, ds[|ds| - 1], tail)
  }

  /** All of w written and taken, nothing waiting. */
  ghost predicate Settled(c: Conn, w: Bytes) {
    && c.wroteA == w && Stream(c.b.put) == w && c.a.queue == []
    && c.a.sqn == At(|w|) && c.a.aseq == 1 && c.b.sqn == 1 && c.b.aseq == At(|w|)
  }

  /** B has taken the segment at offset n. */
  function TakenBy(c: Conn, f: Frame, n: nat): Conn {
    var next := At(n + |f.seg.payload|);
    c.(b := c.b.(aseq := next, put := c.b.put + [f]), toA := c.toA + {Segment(Ack, c.b.sqn, next, [])})
  }

  lemma {:induction false} StepTakes(c: Conn, f: Frame, n: nat)
    requires f.seg in c.toB && f.seg.kind == Data && |f.tail| == 4 && f.seg.sqn == c.b.aseq == At(n)
    ensures Step(c, ArriveB(f)) == TakenBy(c, f, n)
  {
    HandledTakes(c.b, f, n);
  }

  lemma {:induction false} StepWrites(c: Conn, n: nat, data: Bytes)
    requires c.a.sqn == At(n)
    ensures var (seg, next) := (Segment(Data, At(n), c.a.aseq, data), At(n + |data|));
      Step(c, WriteA(data)) ==
        c.(a := c.a.(sqn := next, queue := c.a.queue + [Unacked(next, seg)]), wroteA := c.wroteA + data, toB := c.toB + {seg})
  {
    AtPlus(n, |data|);
  }

  lemma {:induction false} StepAcks(c: Conn, f: Frame, u: Unacked)
    requires f.seg in c.toA && f.seg.kind == Ack && c.a.queue == [u] && u.key == f.seg.aseq
    ensures Step(c, ArriveA(f)) == c.(a := c.a.(queue := []))
  {
    AckRemovesFirst(c.a, f, 0);
  }

  lemma {:induction false} TurnSettles(c: Conn, w: Bytes, data: Bytes, tail: Bytes)
    requires Settled(c, w) && |tail| == 4
    ensures Settled(RunAll(c, Turn(|w|, data, tail)), w + data)
  {
    var evs := Turn(|w|, data, tail);
    var (seg, ack) := (Segment(Data, At(|w|), 1, data), Segment(Ack, 1, At(|w| + |data|), []));
    StepWrites(c, |w|, data);
    var c1 := Step(c, evs[0]);
    assert c1.a.queue == [Unacked(ack.aseq, seg)];
    StepTakes(c1, evs[1].f, |w|);
    var c2 := Step(c1, evs[1]);
    StepAcks(c2, evs[2].f, Unacked(ack.aseq, seg));
    StreamPut(c.b.put, evs[1].f);
    BodyIs(evs[1].f);
    ThreeEvents(c, evs);
  }

  lemma {:induction false} ThreeEvents(c: Conn, evs: seq<Event>)
    requires |evs| == 3
    ensures RunAll(c, evs) == Step(Step(Step(c, evs[0]), evs[1]), evs[2])
  {
    TwoEvents(c, evs[0], evs[1]);
    RunMore(c, [evs[0], evs[1]], evs[2]);
    assert [evs[0], evs[1]] + [evs[2]] == evs;
  }

  /** Whatever is written in turn, however long, is taken whole, and nothing is left waiting. */
  lemma {:induction false} InTurnSettles(ds: seq<Bytes>, tail: Bytes)
    requires |tail| == 4
    ensures Settled(RunAll(Opened(), InTurn(ds, tail)), Joined(ds))
  {
    if ds == [] {
      assert At(0) == 1;
    } else {
      var (init, last) := (ds[..|ds| - 1], ds[|ds| - 1]);
      InTurnSettles(init, tail);
      RunFrom(Opened(), InTurn(init, tail), Turn(|Joined(init)|, last, tail));
      TurnSettles(RunAll(Opened(), InTurn(init, tail)), Joined(init), last, tail);
    }
  }

  // ---------------------------------------------------------------- everything taken is acknowledged

  ghost predicate AckSent(back: set<Segment>, key: Seq) {
    exists g :: g in back && g.kind == Ack && g.aseq == key
  }

  /** No segment ends inside another. */
  ghost predicate Apart(net: set<Segment>, w: Bytes) {
    forall g, n: nat, h, m: nat {:trigger EndOf(g, n), EndOf(h, m)} ::
      g in net && g.kind == Data && Carries(g, w, n) && h in net && h.kind == Data && Carries(h, w, m) ==>
        EndOf(g, n) <= m || EndOf(g, n) >= EndOf(h, m)
  }

  /** Each place up to which something was taken has been acknowledged. */
  ghost predicate Answered(w: Bytes, net: set<Segment>, back: set<Segment>, taken: nat) {
    && (taken > 0 ==> AckSent(back, At(taken)))
    && forall g, n: nat {:trigger EndOf(g, n)} ::
         g in net && g.kind == Data && Carries(g, w, n) && 0 < EndOf(g, n) <= taken ==> AckSent(back, At(EndOf(g, n)))
  }

  ghost predicate Acknowledged(c: Conn) {
    Apart(c.toB, c.wroteA) && Answered(c.wroteA, c.toB, c.toA, |Stream(c.b.put)|)
  }

  lemma {:induction false} OldOffset(g: Segment, w: Bytes, more: Bytes, n: nat)
    requires IsPiece(g, w) && Carries(g, w + more, n) && |w + more| < WRAP
    ensures Carries(g, w, n)
  {
    var m: nat :| Carries(g, w, m);
    OneOffset(n, m);
  }

  lemma {:induction false} WriteApart(c: Conn, data: Bytes)
    requires Forward(c) && Acknowledged(c) && |c.wroteA + data| < WRAP
    ensures Apart(Step(c, WriteA(data)).toB, c.wroteA + data)
  {
    var (s, g0) := Written(c.a, data);
    var w := c.wroteA;
    forall g, n: nat, h, m: nat |
      g in c.toB + {g0} && g.kind == Data && Carries(g, w + data, n) && h in c.toB + {g0} && h.kind == Data && Carries(h, w + data, m)
      ensures EndOf(g, n) <= m || EndOf(g, n) >= EndOf(h, m)
    {
      if g in c.toB { OldOffset(g, w, data, n); } else { OneOffset(n, |w|); }
      if h in c.toB { OldOffset(h, w, data, m); } else { OneOffset(m, |w|); }
    }
  }

  lemma {:induction false} WriteAnswered(c: Conn, data: Bytes)
    requires Forward(c) && Acknowledged(c) && |c.wroteA + data| < WRAP
    ensures Answered(c.wroteA + data, Step(c, WriteA(data)).toB, c.toA, |Stream(c.b.put)|)
  {
    var (s, g0) := Written(c.a, data);
    var (w, taken) := (c.wroteA, |Stream(c.b.put)|);
    forall g, n: nat | g in c.toB + {g0} && g.kind == Data && Carries(g, w + data, n) && 0 < EndOf(g, n) <= taken
      ensures AckSent(c.toA, At(EndOf(g, n)))
    {
      if g in c.toB { OldOffset(g, w, data, n); } else { OneOffset(n, |w|); }
    }
  }

  lemma {:induction false} AnsweredMore(w: Bytes, net: set<Segment>, net1: set<Segment>, back: set<Segment>, back1: set<Segment>, taken: nat)
    requires Answered(w, net, back, taken) && back <= back1 && forall g :: g in net1 && g.kind == Data ==> g in net
    ensures Answered(w, net1, back1, taken)
  {
    forall key: Seq | AckSent(back, key) ensures AckSent(back1, key) {
      var g :| g in back && g.kind == Ack && g.aseq == key;
    }
  }

  lemma {:induction false} TakingAnswers(w: Bytes, net: set<Segment>, back: set<Segment>, taken: nat, h: Segment, ack: Segment)
    requires Apart(net, w) && Answered(w, net, back, taken) && h in net && h.kind == Data && Carries(h, w, taken)
    requires ack.kind == Ack && ack.aseq == At(taken + |h.payload|)
    ensures Answered(w, net, back + {ack}, taken + |h.payload|)
  {
    AnsweredMore(w, net, net, back, back + {ack}, taken);
    assert AckSent(back + {ack}, At(EndOf(h, taken)));
    forall g, n: nat | g in net && g.kind == Data && Carries(g, w, n) && 0 < EndOf(g, n) <= taken + |h.payload|
      ensures AckSent(back + {ack}, At(EndOf(g, n)))
    {
      assert EndOf(g, n) <= taken || EndOf(g, n) >= EndOf(h, taken);
    }
  }

  lemma {:induction false} ArrivalAcknowledged(c: Conn, f: Frame)
    requires Forward(c) && Acknowledged(c) && |c.wroteA| < WRAP && |f.tail| == TRAILER
    ensures Acknowledged(Step(c, ArriveB(f)))
  {
    if f.seg in c.toB && f.seg.kind == Data && f.seg.sqn == c.b.aseq {
      StepTakes(c, f, |Stream(c.b.put)|);
      TakingAcknowledged(c, f);
    }
  }

  lemma {:induction false} TakingAcknowledged(c: Conn, f: Frame)
    requires Forward(c) && Acknowledged(c) && |c.wroteA| < WRAP && |f.tail| == TRAILER
    requires f.seg in c.toB && f.seg.kind == Data && f.seg.sqn == c.b.aseq
    ensures Acknowledged(TakenBy(c, f, |Stream(c.b.put)|))
  {
    var taken := |Stream(c.b.put)|;
    TakesNext(c.wroteA, c.b, f);
    StreamPut(c.b.put, f);
    TakingAnswers(c.wroteA, c.toB, c.toA, taken, f.seg, Segment(Ack, c.b.sqn, At(taken + |f.seg.payload|), []));
  }

  lemma {:induction false} StepAcknowledged(c: Conn, ev: Event)
    requires Forward(c) && Acknowledged(c) && |Step(c, ev).wroteA| < WRAP && TrailerOk(ev)
    ensures Acknowledged(Step(c, ev))
  {
    var c1 := Step(c, ev);
    match ev
    case WriteA(data) =>
      WriteApart(c, data);
      WriteAnswered(c, data);
    case WriteB(data) => AnsweredMore(c.wroteA, c.toB, c1.toB, c.toA, c1.toA, |Stream(c.b.put)|);
    case ArriveA(f) => AnsweredMore(c.wroteA, c.toB, c1.toB, c.toA, c1.toA, |Stream(c.b.put)|);
    case ArriveB(f) => ArrivalAcknowledged(c, f);
    case GiveUpA(key) =>
    case GiveUpB(key) =>
  }

  /** Over every run. */
  lemma {:induction false} RunAcknowledged(evs: seq<Event>)
    requires |RunAll(Opened(), evs).wroteA| < WRAP && TrailersOk(evs) && NoGiveUpA(evs)
    ensures Acknowledged(RunAll(Opened(), evs))
    decreases |evs|
  {
    if evs != [] {
      RunForward(evs[..|evs| - 1]);
      RunAcknowledged(evs[..|evs| - 1]);
      StepAcknowledged(RunAll(Opened(), evs[..|evs| - 1]), evs[|evs| - 1]);
    }
  }

  ghost predicate WritesSomething(evs: seq<Event>) { forall i :: 0 <= i < |evs| ==> evs[i].WriteA? ==> evs[i].data != [] }

  /** Over every run, what waits in A's queue is under way to B. */
  lemma {:induction false} QueuedWasSent(evs: seq<Event>)
    ensures var c := RunAll(Opened(), evs); forall u :: u in c.a.queue ==> u.seg in c.toB && u.seg.kind == Data
    ensures WritesSomething(evs) ==> forall u :: u in RunAll(Opened(), evs).a.queue ==> u.seg.payload != []
    decreases |evs|
  {
    if evs != [] {
      var (init, ev) := (evs[..|evs| - 1], evs[|evs| - 1]);
      QueuedWasSent(init);
      match ev
      case ArriveA(f) => DroppedFrom(RunAll(Opened(), init).a.queue, f.seg.aseq);
      case GiveUpA(key) => DroppedFrom(RunAll(Opened(), init).a.queue, key);
      case _ =>
    }
  }

  /** A segment that carries something is acknowledged exactly when the peer has taken it. */
  lemma {:induction false} AckedIffTaken(evs: seq<Event>, u: Unacked)
    requires |RunAll(Opened(), evs).wroteA| < WRAP && TrailersOk(evs) && NoGiveUpA(evs)
    requires u in RunAll(Opened(), evs).a.queue && u.seg.payload != []
    ensures var c := RunAll(Opened(), evs); AckSent(c.toA, u.key) <==> IsPiece(u.seg, Stream(c.b.put))
  {
    RunForward(evs);
    RunAcknowledged(evs);
    QueuedWasSent(evs);
    var c := RunAll(Opened(), evs);
    var i :| 0 <= i < |c.a.queue| && c.a.queue[i] == u;
    assert Queued(c.a.queue[i], c.wroteA);
    if AckSent(c.toA, u.key) {
      var g :| g in c.toA && g.kind == Ack && g.aseq == u.key;
      AckedIsTaken(c.wroteA, u.seg, u.key, Stream(c.b.put));
    }
    if IsPiece(u.seg, Stream(c.b.put)) { TakenIsAcked(c, u); }
  }

  lemma {:induction false} TakenIsAcked(c: Conn, u: Unacked)
    requires Forward(c) && Acknowledged(c) && u.seg in c.toB && u.seg.kind == Data
    requires Queued(u, c.wroteA) && IsPiece(u.seg, Stream(c.b.put)) && (u.seg.payload != [] || u.key != At(0))
    ensures AckSent(c.toA, u.key)
  {
    var taken := Stream(c.b.put);
    var n: nat :| Carries(u.seg, taken, n);
    assert c.wroteA == taken + c.wroteA[|taken|..];
    assert Carries(u.seg, c.wroteA, n);
    AtPlus(n, |u.seg.payload|);
    assert AckSent(c.toA, At(EndOf(u.seg, n)));
  }

  // ---------------------------------------------------------------- draining the queue

  /** The entries whose number no acknowledgement sent carries, in their order. */
  ghost function Waiting(q: seq<Unacked>, back: set<Segment>): seq<Unacked> {
    if q == [] then []
    else (if AckSent(back, q[0].key) then [] else [q[0]]) + Waiting(q[1..], back)
  }

  lemma {:induction false} DroppingKeepsWaiting(q: seq<Unacked>, key: Seq, back: set<Segment>)
    requires AckSent(back, key)
    ensures Waiting(Dropped(q, key), back) == Waiting(q, back)
    ensures |Dropped(q, key)| == |q| - if exists u :: u in q && u.key == key then 1 else 0
  {
    if q != [] && q[0].key != key {
      DroppingKeepsWaiting(q[1..], key, back);
      assert ([q[0]] + Dropped(q[1..], key))[1..] == Dropped(q[1..], key);
      assert q == [q[0]] + q[1..];
    } else if q != [] {
      assert q[0] in q;
    }
  }

  lemma {:induction false} AllWaiting(q: seq<Unacked>, back: set<Segment>)
    requires forall u :: u in q ==> !AckSent(back, u.key)
    ensures Waiting(q, back) == q
  {
    if q != [] {
      assert q[0] in q;
      AllWaiting(q[1..], back);
    }
  }

  lemma {:induction false} WaitingIff(q: seq<Unacked>, back: set<Segment>)
    ensures forall u :: u in Waiting(q, back) <==> u in q && !AckSent(back, u.key)
  {
    if q != [] { WaitingIff(q[1..], back); }
  }

  ghost predicate AcksOnly(evs: seq<Event>, back: set<Segment>, tail: Bytes) {
    forall i :: 0 <= i < |evs| ==> evs[i].ArriveA? && evs[i].f.seg in back && evs[i].f.seg.kind == Ack && evs[i].f.tail == tail
  }

  /** Once the acknowledgements under way have arrived, the queue is what none of them acknowledges, in its
      order; nothing else has changed. */
  lemma {:induction false} Drain(c: Conn, tail: Bytes) returns (more: seq<Event>)
    ensures AcksOnly(more, c.toA, tail)
    ensures RunAll(c, more) == c.(a := c.a.(queue := Waiting(c.a.queue, c.toA)))
    decreases |c.a.queue|
  {
    if u :| u in c.a.queue && AckSent(c.toA, u.key) {
      var g :| g in c.toA && g.kind == Ack && g.aseq == u.key;
      var ev := ArriveA(Frame(g, tail));
      DroppingKeepsWaiting(c.a.queue, u.key, c.toA);
      var rest := Drain(Step(c, ev), tail);
      more := [ev] + rest;
      FirstThen(c, ev, rest);
    } else {
      AllWaiting(c.a.queue, c.toA);
      more := [];
    }
  }

  // ---------------------------------------------------------------- finishing the job

  ghost predicate DataOnly(evs: seq<Event>, net: set<Segment>, tail: Bytes) {
    forall i :: 0 <= i < |evs| ==> evs[i].ArriveB? && evs[i].f.seg in net && evs[i].f.seg.kind == Data && evs[i].f.tail == tail
  }

  lemma {:induction false} DeliverOne(c: Conn, tail: Bytes) returns (ev: Event)
    requires Forward(c) && Acknowledged(c) && |c.wroteA| < WRAP && |tail| == 4 && Stream(c.b.put) != c.wroteA
    ensures ev.ArriveB? && ev.f.seg in c.toB && ev.f.seg.kind == Data && ev.f.tail == tail
    ensures var c1 := Step(c, ev);
      && Forward(c1) && Acknowledged(c1) && c1.a == c.a && c1.wroteA == c.wroteA && c1.toB == c.toB && c.toA <= c1.toA
      && |Stream(c.b.put)| < |Stream(c1.b.put)| <= |c.wroteA|
  {
    var k := |Stream(c.b.put)|;
    assert c.wroteA[..|c.wroteA|] == c.wroteA;
    var g :| g in c.toB && g.kind == Data && g.payload != [] && Carries(g, c.wroteA, k);
    var f := Frame(g, tail);
    ev := ArriveB(f);
    NextIsTaken(c.wroteA, c.b, c.toA, f);
    StepForward(c, ev);
    StepAcknowledged(c, ev);
  }

  /** Segments already sent, delivered once more, get the peer to the end of the stream. */
  lemma {:induction false} Deliver(c: Conn, tail: Bytes) returns (more: seq<Event>)
    requires Forward(c) && Acknowledged(c) && |c.wroteA| < WRAP && |tail| == 4
    ensures DataOnly(more, c.toB, tail)
    ensures var c1 := RunAll(c, more);
      && Forward(c1) && Acknowledged(c1) && c1.a == c.a && c1.wroteA == c.wroteA && c1.toB == c.toB && c.toA <= c1.toA
      && Stream(c1.b.put) == c.wroteA
    decreases |c.wroteA| - |Stream(c.b.put)|
  {
    if Stream(c.b.put) == c.wroteA {
      more := [];
    } else {
      var ev := DeliverOne(c, tail);
      var rest := Deliver(Step(c, ev), tail);
      more := [ev] + rest;
      FirstThen(c, ev, rest);
    }
  }

  /** Arrivals of segments that were sent, each with its trailer. */
  ghost predicate ArrivalsOnly(evs: seq<Event>) {
    forall i :: 0 <= i < |evs| ==> (evs[i].ArriveA? || evs[i].ArriveB?) && |evs[i].f.tail| == 4
  }

  lemma {:induction false} FinishFrom(c: Conn, tail: Bytes) returns (more: seq<Event>)
    requires Forward(c) && Acknowledged(c) && |c.wroteA| < WRAP && |tail| == 4
    requires forall u :: u in c.a.queue ==> u.seg in c.toB && u.seg.kind == Data
    ensures ArrivalsOnly(more)
    ensures var c1 := RunAll(c, more);
      && c1.wroteA == c.wroteA && Stream(c1.b.put) == c.wroteA
      && forall u :: u in c1.a.queue ==> u in c.a.queue && u.seg.payload == [] && u.key == 1 && !AckSent(c.toA, 1)
  {
    var data := Deliver(c, tail);
    var c1 := RunAll(c, data);
    var acks := Drain(c1, tail);
    more := data + acks;
    RunFrom(c, data, acks);
    var c2 := RunAll(c, more);
    WaitingIff(c1.a.queue, c1.toA);
    forall u | u in c2.a.queue ensures u in c.a.queue && u.seg.payload == [] && u.key == 1 && !AckSent(c.toA, 1) {
      var i :| 0 <= i < |c1.a.queue| && c1.a.queue[i] == u;
      assert Queued(c1.a.queue[i], c1.wroteA);
      if u.seg.payload != [] || u.key != At(0) { TakenIsAcked(c1, u); }
    }
  }

  /** From every state that a run without giving up can reach, arrivals alone lead to one in which B has taken
      everything A wrote. What A then still waits for is at most an empty segment at the very start; if
      nothing empty was written, it waits for nothing. */
  lemma {:induction false} Finish(evs: seq<Event>, tail: Bytes) returns (more: seq<Event>)
    requires |RunAll(Opened(), evs).wroteA| < WRAP && TrailersOk(evs) && NoGiveUpA(evs) && |tail| == 4
    ensures ArrivalsOnly(more)
    ensures var (c, c1) := (RunAll(Opened(), evs), RunAll(Opened(), evs + more));
      && c1.wroteA == c.wroteA && Stream(c1.b.put) == c.wroteA
      && (forall u :: u in c1.a.queue ==> u.seg.payload == [] && u.key == 1)
      && (WritesSomething(evs) ==> c1.a.queue == [])
  {
    RunForward(evs);
    RunAcknowledged(evs);
    QueuedWasSent(evs);
    more := FinishFrom(RunAll(Opened(), evs), tail);
    RunFrom(Opened(), evs, more);
    var c1 := RunAll(Opened(), evs + more);
    assert c1.a.queue != [] ==> c1.a.queue[0] in c1.a.queue;
  }

  // ---------------------------------------------------------------- the empty segment at the start

  /** An empty segment from the start of the stream waits, B has gone past it, and nothing acknowledges it. */
  ghost predicate Stuck(c: Conn) {
    && (exists u :: u in c.a.queue && u.seg.payload == [] && u.key == 1)
    && Stream(c.b.put) != [] && !AckSent(c.toA, 1)
  }

  lemma {:induction false} StuckStays(c: Conn, ev: Event)
    requires Stuck(c) && Forward(c) && |Step(c, ev).wroteA| < WRAP && TrailerOk(ev) && !ev.GiveUpA?
    ensures Stuck(Step(c, ev))
  {
    var u :| u in c.a.queue && u.seg.payload == [] && u.key == 1;
    var c1 := Step(c, ev);
    match ev
    case ArriveA(f) =>
      DroppedFrom(c.a.queue, f.seg.aseq);
      assert u in c1.a.queue;
    case ArriveB(f) =>
      if f.seg in c.toB && f.seg.kind == Data && f.seg.sqn == c.b.aseq {
        StepTakes(c, f, |Stream(c.b.put)|);
        TakesNext(c.wroteA, c.b, f);
        TakingStuck(c, f);
      } else {
        assert u in c1.a.queue;
      }
    case WriteA(data) => assert u in c1.a.queue;
    case WriteB(data) => assert u in c1.a.queue;
    case GiveUpB(key) => assert u in c1.a.queue;
  }

  lemma {:induction false} TakingStuck(c: Conn, f: Frame)
    requires Stuck(c) && Stream(c.b.put) + Body(f) <= c.wroteA && |c.wroteA| < WRAP && |f.tail| == TRAILER
    ensures Stuck(TakenBy(c, f, |Stream(c.b.put)|))
  {
    BodyIs(f);
    StreamPut(c.b.put, f);
    assert |Stream(c.b.put) + Body(f)| == |Stream(c.b.put)| + |f.seg.payload|;
    OneOffsetOnly(|Stream(c.b.put)| + |f.seg.payload|);
  }

  lemma {:induction false} OneOffsetOnly(n: nat)
    requires 0 < n < WRAP
    ensures At(n) != 1
  {
  }

  /** Such a segment waits for as long as it is not given up, whatever arrives. */
  lemma {:induction false} StuckForGood(evs: seq<Event>, more: seq<Event>)
    requires Stuck(RunAll(Opened(), evs))
    requires |RunAll(Opened(), evs + more).wroteA| < WRAP && TrailersOk(evs + more) && NoGiveUpA(evs + more)
    ensures Stuck(RunAll(Opened(), evs + more))
    decreases |more|
  {
    if more == [] {
      assert evs + more == evs;
    } else {
      var (init, ev) := (more[..|more| - 1], more[|more| - 1]);
      assert evs + more == (evs + init) + [ev];
      RunMore(Opened(), evs + init, ev);
      assert ev == (evs + more)[|evs + init|];
      StuckForGood(evs, init);
      RunForward(evs + init);
      StuckStays(RunAll(Opened(), evs + init), ev);
    }
  }

  /** It happens: an empty write, then a byte, and only the byte's segment arrives. */
  lemma {:induction false} EmptyWriteIsStuck(tail: Bytes)
    requires |tail| == 4
    ensures var evs := [WriteA([]), WriteA([0]), ArriveB(Frame(Segment(Data, 1, 1, [0]), tail))];
      Stuck(RunAll(Opened(), evs)) && TrailersOk(evs) && NoGiveUpA(evs)
  {
    var f := Frame(Segment(Data, 1, 1, [0]), tail);
    var evs := [WriteA([]), WriteA([0]), ArriveB(f)];
    var u := Unacked(1, Segment(Data, 1, 1, []));
    assert At(0) == 1 && At(1) == 2;
    ThreeEvents(Opened(), evs);
    StepWrites(Opened(), 0, []);
    var c1 := Step(Opened(), evs[0]);
    assert c1.a == End(1, 1, [u], []);
    StepWrites(c1, 0, [0]);
    var c2 := Step(c1, evs[1]);
    assert u in c2.a.queue;
    StepTakes(c2, f, 0);
    StreamPut([], f);
    BodyIs(f);
    assert Step(c2, evs[2]).toA == {SYN_ACK, Segment(Ack, 1, 2, [])};
  }

  /** B has taken everything and A waits for nothing. */
  ghost predicate Done(c: Conn) { Stream(c.b.put) == c.wroteA && c.a.queue == [] }

  /** Before B has taken anything, an empty segment from the start that still arrives is acknowledged. */
  lemma {:induction false} EmptyArrives(c: Conn, u: Unacked, tail: Bytes)
    requires Forward(c) && |tail| == 4 && Stream(c.b.put) == []
    requires u in c.a.queue && u.seg in c.toB && u.seg.kind == Data && u.seg.payload == [] && u.key == 1
    ensures var c1 := Step(c, ArriveB(Frame(u.seg, tail)));
      c1.a == c.a && c1.wroteA == c.wroteA && c1.toB == c.toB && AckSent(c1.toA, 1)
  {
    var i :| 0 <= i < |c.a.queue| && c.a.queue[i] == u;
    assert Queued(c.a.queue[i], c.wroteA);
    HandledTakes(c.b, Frame(u.seg, tail), 0);
    var ack := Handled(c.b, Frame(u.seg, tail)).value.1.value;
    assert ack.kind == Ack && ack.aseq == 1;
  }

  lemma {:induction false} HasOne(q: seq<Unacked>)
    ensures q == [] || exists u :: u in q
  {
    if q != [] { assert q[0] in q; }
  }

  /** Once the empty segment has been acknowledged, nothing is in the way. */
  lemma {:induction false} FinishAnswered(c: Conn, tail: Bytes) returns (more: seq<Event>)
    requires Forward(c) && Acknowledged(c) && |c.wroteA| < WRAP && |tail| == 4
    requires forall u :: u in c.a.queue ==> u.seg in c.toB && u.seg.kind == Data
    requires AckSent(c.toA, 1) || forall u :: u in c.a.queue && u.seg.payload == [] ==> u.key != 1
    ensures ArrivalsOnly(more) && Done(RunAll(c, more))
  {
    more := FinishFrom(c, tail);
    HasOne(RunAll(c, more).a.queue);
  }

  lemma {:induction false} FinishUnstuck(c: Conn, tail: Bytes) returns (more: seq<Event>)
    requires Forward(c) && Acknowledged(c) && |c.wroteA| < WRAP && |tail| == 4 && !Stuck(c)
    requires forall u :: u in c.a.queue ==> u.seg in c.toB && u.seg.kind == Data
    ensures ArrivalsOnly(more) && Done(RunAll(c, more))
  {
    if u :| u in c.a.queue && u.seg.payload == [] && u.key == 1 && Stream(c.b.put) == [] {
      var ev := ArriveB(Frame(u.seg, tail));
      EmptyArrives(c, u, tail);
      StepForward(c, ev);
      StepAcknowledged(c, ev);
      var rest := FinishAnswered(Step(c, ev), tail);
      more := [ev] + rest;
      FirstThen(c, ev, rest);
    } else {
      more := FinishAnswered(c, tail);
    }
  }

  lemma {:induction false} StuckIsNotDone(evs: seq<Event>, more: seq<Event>)
    requires |RunAll(Opened(), evs).wroteA| < WRAP && TrailersOk(evs) && NoGiveUpA(evs)
    requires Stuck(RunAll(Opened(), evs)) && ArrivalsOnly(more)
    ensures !Done(RunAll(Opened(), evs + more))
  {
    RunFrom(Opened(), evs, more);
    ArrivalsWriteNothing(RunAll(Opened(), evs), more);
    StuckForGood(evs, more);
  }

  lemma {:induction false} ArrivalsWriteNothing(c: Conn, evs: seq<Event>)
    requires ArrivalsOnly(evs)
    ensures RunAll(c, evs).wroteA == c.wroteA
    decreases |evs|
  {
    if evs != [] { ArrivalsWriteNothing(c, evs[..|evs| - 1]); }
  }

  /** From a state that a run without giving up can reach, arrivals alone can finish the job if and only if no
      empty segment is stuck. */
  lemma {:induction false} CanFinishIff(evs: seq<Event>)
    requires |RunAll(Opened(), evs).wroteA| < WRAP && TrailersOk(evs) && NoGiveUpA(evs)
    ensures (exists more: seq<Event> :: ArrivalsOnly(more) && Done(RunAll(Opened(), evs + more))) <==> !Stuck(RunAll(Opened(), evs))
  {
    var c := RunAll(Opened(), evs);
    if Stuck(c) {
      forall more: seq<Event> | ArrivalsOnly(more) ensures !Done(RunAll(Opened(), evs + more)) {
        StuckIsNotDone(evs, more);
      }
    } else {
      RunForward(evs);
      RunAcknowledged(evs);
      QueuedWasSent(evs);
      var more := FinishUnstuck(c, [0, 0, 0, 0]);
      RunFrom(Opened(), evs, more);
      assert ArrivalsOnly(more) && Done(RunAll(Opened(), evs + more));
    }
  }
}
