/** IPv4 fragmentation and reassembly (section 3.2 of RFC 791) as the kernel does it: the sender's loop,
    the receiver's slot buffer, and when the one undoes the other. */
module Fragmentation {
  import opened Basics

  type Byte = bv8
  type Bytes = seq<Byte>

  const HEADER: nat := 20
  /** Payload bytes per fragment: an MTU of 1500 less the header. */
  const MTU: nat := 1480
  /** What the sender accepts, headers included. */
  const PAYLOAD_MAX: nat := 65515
  const SLOTS: nat := 45

  /** A datagram as far as fragmentation goes: identifier, more-fragments flag, offset in units of
      eight bytes, payload. */
  datatype Packet = Packet(iden: nat, more: bool, off8: nat, payload: Bytes)

  // ---------------------------------------------------------------- sending

  /** The fragments of a payload from byte ptr on. */
  function FragmentsFrom(iden: nat, data: Bytes, ptr: nat): (r: seq<Packet>)
    requires ptr <= |data|
    ensures |r| > 0
    decreases |data| - ptr
  {
    if |data| - ptr > MTU
    then [Packet(iden, true, ptr / 8, data[ptr..ptr + MTU])] + FragmentsFrom(iden, data, ptr + MTU)
    else [Packet(iden, false, ptr / 8, data[ptr..])]
  }

  /** The sender: short datagrams go out whole, longer ones in fragments. */
  method Send(iden: nat, data: Bytes) returns (out: seq<Packet>)
    requires |data| + HEADER <= PAYLOAD_MAX
    ensures out == FragmentsFrom(iden, data, 0)
  {
    if |data| + HEADER < MTU - HEADER {
      return [Packet(iden, false, 0, data)];
    }
    out := [];
    var left, ptr := |data|, 0;
    while left > MTU
      invariant ptr + left == |data| && ptr <= |data|
      invariant out + FragmentsFrom(iden, data, ptr) == FragmentsFrom(iden, data, 0)
    {
      out := out + [Packet(iden, true, ptr / 8, data[ptr..ptr + MTU])];
      ptr, left := ptr + MTU, left - MTU;
    }
    out := out + [Packet(iden, false, ptr / 8, data[ptr..ptr + left])];
    assert data[ptr..ptr + left] == data[ptr..];
  }

  ghost predicate IsFragment(p: Packet, iden: nat, data: Bytes, i: nat)
    requires MTU * i <= |data|
  {
    && p.iden == iden && p.off8 == 185 * i
    && (p.more <==> MTU * (i + 1) < |data|)
    && p.payload == if p.more then data[MTU * i..MTU * (i + 1)] else data[MTU * i..]
  }

  /** Fragment i carries the i-th stretch of 1480 bytes and says where it belongs. */
  lemma {:induction false} FragmentAt(iden: nat, data: Bytes, ptr: nat, m: nat, i: nat)
    requires ptr == MTU * m <= |data| && i < |FragmentsFrom(iden, data, ptr)|
    ensures MTU * (m + i) <= |data| && IsFragment(FragmentsFrom(iden, data, ptr)[i], iden, data, m + i)
    ensures i < |FragmentsFrom(iden, data, ptr)| - 1 <==> MTU * (m + i + 1) < |data|
    decreases |data| - ptr
  {
    if |data| - ptr > MTU {
      if i > 0 { FragmentAt(iden, data, ptr + MTU, m + 1, i - 1); }
    }
  }

  /** Nothing is cut off by the 13-bit offset and 16-bit length fields, and no fragment is above the MTU. */
  lemma {:induction false} FieldsFit(iden: nat, data: Bytes, i: nat)
    requires |data| + HEADER <= PAYLOAD_MAX && i < |FragmentsFrom(iden, data, 0)|
    ensures var p := FragmentsFrom(iden, data, 0)[i];
      p.off8 < 0x2000 && |p.payload| <= MTU && |p.payload| + HEADER < 0x1_0000
  {
    FragmentAt(iden, data, 0, 0, i);
  }

  lemma {:induction false} FragmentCount(iden: nat, data: Bytes, ptr: nat)
    requires ptr <= |data|
    ensures var n := |FragmentsFrom(iden, data, ptr)|;
      n == 1 || MTU * (n - 1) < |data| - ptr
    ensures |data| - ptr <= MTU * |FragmentsFrom(iden, data, ptr)|
    decreases |data| - ptr
  {
    if |data| - ptr > MTU { FragmentCount(iden, data, ptr + MTU); }
  }

  /** The payloads in order are the datagram. */
  function Joined(s: seq<Packet>): Bytes {
    if s == [] then [] else s[0].payload + Joined(s[1..])
  }

  lemma {:induction false} JoinedFragments(iden: nat, data: Bytes, ptr: nat)
    requires ptr <= |data|
    ensures Joined(FragmentsFrom(iden, data, ptr)) == data[ptr..]
    decreases |data| - ptr
  {
    var s := FragmentsFrom(iden, data, ptr);
    if |data| - ptr > MTU {
      assert s[1..] == FragmentsFrom(iden, data, ptr + MTU);
      JoinedFragments(iden, data, ptr + MTU);
    } else {
      assert s[1..] == [];
    }
  }

  // ---------------------------------------------------------------- receiving

  datatype FragBuf = FragBuf(fsize: nat, tsize: nat, npkts: nat, eidx: int, pkts: seq<Option<Packet>>)

  /** What one arrival leads to: nothing yet, a datagram (the size reserved for it and the bytes copied
      there), or a fault: a division by zero, a slot outside the buffer or an empty slot at the merge.
      Nothing is promised after a fault. */
  datatype Outcome = Pending | Delivered(size: nat, data: Bytes) | Fault

  function EmptySlots(): seq<Option<Packet>> { seq(SLOTS, i => None) }

  function FreshBuf(p: Packet): FragBuf { FragBuf(|p.payload|, 0, 0, -1, EmptySlots()) }

  predicate Whole(p: Packet) { !p.more && p.off8 == 0 }

  /** The slot a fragment is put in: by its own length, except the last one, which goes by the length of
      the fragment that arrived first. */
  function Slot(fsize: nat, p: Packet): Option<nat> {
    var len := if p.more then |p.payload| else fsize;
    if |p.payload| == 0 || len == 0 || p.off8 * 8 / len >= SLOTS then None else Some(p.off8 * 8 / len)
  }

  predicate AllThere(pkts: seq<Option<Packet>>, n: nat) {
    n <= |pkts| && forall i :: 0 <= i < n ==> pkts[i].Some?
  }

  /** The payloads of the first n slots, one after the other. */
  function Merged(pkts: seq<Option<Packet>>, n: nat): Bytes
    requires AllThere(pkts, n)
  {
    if n == 0 then [] else Merged(pkts, n - 1) + pkts[n - 1].value.payload
  }

  /** The buffer with a fragment put in slot i. */
  function PutIn(fb: FragBuf, p: Packet, i: nat): FragBuf
    requires i < |fb.pkts|
  {
    FragBuf(fb.fsize, fb.tsize + |p.payload|, fb.npkts + 1, if p.more then fb.eidx else i, fb.pkts[i := Some(p)])
  }

  /** What follows once the fragment is in. */
  function Completed(fb: FragBuf): (Option<FragBuf>, Outcome) {
    if fb.npkts - 1 != fb.eidx || fb.eidx == -1 then (Some(fb), Pending)
    else if !AllThere(fb.pkts, fb.npkts) then (Some(fb), Fault)
    else (None, Delivered(fb.tsize, Merged(fb.pkts, fb.npkts)))
  }

  /** One packet arrives for an identifier that has this buffer, or none yet. */
  function Accept(fb: Option<FragBuf>, p: Packet): (Option<FragBuf>, Outcome) {
    if Whole(p) then (fb, Delivered(|p.payload|, p.payload))
    else
      var fb0 := if fb.Some? then fb.value else FreshBuf(p);
      var slot := Slot(fb0.fsize, p);
      if slot.None? || slot.value >= |fb0.pkts| then (Some(fb0), Fault) else Completed(PutIn(fb0, p, slot.value))
  }

  function Find(bufs: map<nat, FragBuf>, iden: nat): Option<FragBuf> {
    if iden in bufs then Some(bufs[iden]) else None
  }

  function Store(bufs: map<nat, FragBuf>, iden: nat, fb: Option<FragBuf>): map<nat, FragBuf> {
    if fb.Some? then bufs[iden := fb.value] else bufs - {iden}
  }

  function Handled(bufs: map<nat, FragBuf>, p: Packet): (map<nat, FragBuf>, Outcome) {
    var (fb, o) := Accept(Find(bufs, p.iden), p);
    (Store(bufs, p.iden, fb), o)
  }

  /** A run of arrivals; a fault ends it. */
  function HandledAll(bufs: map<nat, FragBuf>, s: seq<Packet>): (r: (map<nat, FragBuf>, seq<Outcome>))
    ensures |r.1| <= |s|
    ensures |r.1| < |s| ==> r.1 != [] && r.1[|r.1| - 1] == Fault
    decreases |s|
  {
    if s == [] then (bufs, [])
    else
      var (bufs0, outs) := HandledAll(bufs, s[..|s| - 1]);
      if Faulted(outs) then (bufs0, outs)
      else
        var (bufs1, o) := Handled(bufs0, s[|s| - 1]);
        (bufs1, outs + [o])
  }

  predicate Faulted(outs: seq<Outcome>) { outs != [] && outs[|outs| - 1] == Fault }

  class Receiver {
    var bufs: map<nat, FragBuf>

    constructor () ensures bufs == map[] { bufs := map[]; }

    /** A packet arrives. */
    method Handle(p: Packet) returns (out: Outcome)
      modifies this
      ensures (bufs, out) == Handled(old(bufs), p)
    {
      if !p.more && p.off8 == 0 {
        assert Store(bufs, p.iden, Find(bufs, p.iden)) == bufs;
        return Delivered(|p.payload|, p.payload);
      }
      if p.iden !in bufs { bufs := bufs[p.iden := FreshBuf(p)]; }
      var fb := bufs[p.iden];
      assert bufs == old(bufs)[p.iden := fb];
      var off := FindSlot(fb, p);
      if off.None? { return Fault; }
      fb := fb.(tsize := fb.tsize + |p.payload|, npkts := fb.npkts + 1, pkts := fb.pkts[off.value := Some(p)]);
      if !p.more { fb := fb.(eidx := off.value); }
      bufs := bufs[p.iden := fb];
      assert bufs == old(bufs)[p.iden := fb];
      if fb.npkts - 1 != fb.eidx || fb.eidx == -1 { return Pending; }
      var ok, data := Merge(fb.pkts, fb.npkts);
      if !ok { return Fault; }
      bufs := bufs - {p.iden};
      assert bufs == old(bufs) - {p.iden};
      out := Delivered(fb.tsize, data);
    }

    method FindSlot(fb: FragBuf, p: Packet) returns (off: Option<nat>)
      ensures off == var s := Slot(fb.fsize, p); if s.None? || s.value >= |fb.pkts| then None else s
    {
      var len := |p.payload|;
      if len == 0 { return None; }
      var at := p.off8 * 8 / len;
      if !p.more {
        if fb.fsize == 0 { return None; }
        at := p.off8 * 8 / fb.fsize;
      }
      off := if at >= SLOTS || at >= |fb.pkts| then None else Some(at);
    }

    /** Copy the payloads of the first n slots one after the other. */
    method Merge(pkts: seq<Option<Packet>>, n: nat) returns (ok: bool, data: Bytes)
      ensures ok <==> AllThere(pkts, n)
      ensures ok ==> data == Merged(pkts, n)
    {
      data := [];
      if n > |pkts| { return false, data; }
      for i := 0 to n
        invariant AllThere(pkts, i) && data == Merged(pkts, i)
      {
        if pkts[i].None? { return false, data; }
        data := data + pkts[i].value.payload;
      }
      ok := true;
    }

    method Run(s: seq<Packet>) returns (outs: seq<Outcome>)
      modifies this
      ensures (bufs, outs) == HandledAll(old(bufs), s)
    {
      outs := [];
      for i := 0 to |s|
        invariant (bufs, outs) == HandledAll(old(bufs), s[..i]) && !Faulted(outs)
      {
        var o := Handle(s[i]);
        outs := outs + [o];
        assert s[..i + 1][..i] == s[..i];
        if o == Fault {
          FaultEnds(old(bufs), s, i + 1, |s|);
          assert s[..|s|] == s;
          return;
        }
      }
      assert s[..|s|] == s;
    }
  }

  lemma {:induction false} FaultEnds(bufs: map<nat, FragBuf>, s: seq<Packet>, i: nat, j: nat)
    requires i <= j <= |s| && Faulted(HandledAll(bufs, s[..i]).1)
    ensures HandledAll(bufs, s[..j]) == HandledAll(bufs, s[..i])
    decreases j
  {
    if i < j {
      FaultEnds(bufs, s, i, j - 1);
      assert s[..j][..j - 1] == s[..j - 1];
    }
  }

  /** Slots that hold the fragments in order merge to their payloads in order. */
  lemma {:induction false} MergedInOrder(pkts: seq<Option<Packet>>, s: seq<Packet>, n: nat)
    requires n <= |s| && n <= |pkts| && forall i :: 0 <= i < n ==> pkts[i] == Some(s[i])
    ensures AllThere(pkts, n) && Merged(pkts, n) == Joined(s[..n])
    decreases n
  {
    if n > 0 {
      MergedInOrder(pkts, s, n - 1);
      JoinedSnoc(s[..n - 1], s[n - 1]);
      assert s[..n] == s[..n - 1] + [s[n - 1]];
    }
  }

  lemma {:induction false} JoinedSnoc(s: seq<Packet>, p: Packet)
    ensures Joined(s + [p]) == Joined(s) + p.payload
  {
    if s == [] {
      assert s + [p] == [p];
    } else {
      JoinedSnoc(s[1..], p);
      assert (s + [p])[1..] == s[1..] + [p];
    }
  }
}
