/** One flow's ring of packets. Head and tail are free-running 32-bit counters; the slots are a
    128-entry ring indexed by their low bits. The ring refines a first-in first-out queue. */
module FlowQueue {

  const RING_SIZE: int := 128
  const U32: int := 0x1_0000_0000

  /** What the scheduler reads of a buffer: which one it is, its chain length, and its flow's hash. */
  datatype Packet = Packet(id: int, len: nat, tag: int)

  datatype Queue = Queue(ring: seq<Packet>, head: int, tail: int)

  /** Unsigned 32-bit increment, decrement and difference. */
  function Inc32(a: int): int { if a == U32 - 1 then 0 else a + 1 }

  function Dec32(a: int): int { if a == 0 then U32 - 1 else a - 1 }

  function Diff32(a: int, b: int): int { if a >= b then a - b else a - b + U32 }

  /** cake_flow_queue_len. */
  function Len(q: Queue): int { Diff32(q.tail, q.head) }

  /** No ring and no packets, or a ring of 128 slots holding at most that many. */
  predicate QueueOk(q: Queue) {
    && 0 <= q.head < U32 && 0 <= q.tail < U32
    && (|q.ring| == 0 ==> q.head == q.tail)
    && (|q.ring| != 0 ==> |q.ring| == RING_SIZE && Len(q) <= RING_SIZE)
  }

  /** The packets waiting, oldest first. */
  ghost function Contents(q: Queue): (s: seq<Packet>)
    requires QueueOk(q)
    ensures |s| == Len(q)
  {
    seq(Len(q), k requires 0 <= k < Len(q) => q.ring[(q.head + k) % RING_SIZE])
  }

  const NO_RING := Queue([], 0, 0)

  /** cake_flow_ring_alloc: the slots hold whatever was in memory. */
  function Alloc(junk: seq<Packet>): Queue { Queue(junk, 0, 0) }

  function Push(q: Queue, p: Packet): Queue
    requires QueueOk(q) && |q.ring| != 0
  {
    Queue(q.ring[q.tail % RING_SIZE := p], q.head, Inc32(q.tail))
  }

  function Front(q: Queue): Packet
    requires QueueOk(q) && Len(q) > 0
  {
    q.ring[q.head % RING_SIZE]
  }

  function Pop(q: Queue): Queue { q.(head := Inc32(q.head)) }

  /** Undoing a pop after the gate above refused the packet. */
  function PutBack(q: Queue): Queue { q.(head := Dec32(q.head)) }

  /** The two ends meet in the same slot only when the ring is empty or full. */
  lemma SlotOf(q: Queue, k: int)
    requires QueueOk(q) && 0 <= k <= Len(q)
    ensures (q.head + k) % RING_SIZE == (if q.head + k < U32 then q.head + k else q.head + k - U32) % RING_SIZE
    ensures (q.head + Len(q)) % RING_SIZE == q.tail % RING_SIZE
    ensures k < Len(q) < RING_SIZE ==> (q.head + k) % RING_SIZE != q.tail % RING_SIZE
  {
    assert U32 % RING_SIZE == 0;
  }

  lemma PushAppends(q: Queue, p: Packet)
    requires QueueOk(q) && |q.ring| != 0 && Len(q) < RING_SIZE
    ensures QueueOk(Push(q, p)) && Len(Push(q, p)) == Len(q) + 1
    ensures Contents(Push(q, p)) == Contents(q) + [p]
  {
    var q' := Push(q, p);
    SlotOf(q, Len(q));
    forall k | 0 <= k < Len(q)
      ensures Contents(q')[k] == Contents(q)[k]
    {
      SlotOf(q, k);
    }
  }

  lemma PopTakesOldest(q: Queue)
    requires QueueOk(q) && Len(q) > 0
    ensures QueueOk(Pop(q)) && Len(Pop(q)) == Len(q) - 1
    ensures Contents(q) == [Front(q)] + Contents(Pop(q))
    ensures PutBack(Pop(q)) == q
  {
    var q' := Pop(q);
    forall k | 0 <= k < Len(q')
      ensures Contents(q')[k] == Contents(q)[k + 1]
    {
      SlotOf(q, k + 1);
      SlotOf(q', k);
    }
  }

  // ---------------------------------------------------------------- bytes and streams

  ghost function Bytes(s: seq<Packet>): nat {
    if s == [] then 0 else Bytes(s[..|s| - 1]) + s[|s| - 1].len
  }

  lemma {:induction false} BytesOfTwo(a: seq<Packet>, b: seq<Packet>)
    ensures Bytes(a + b) == Bytes(a) + Bytes(b)
    decreases |b|
  {
    if b == [] {
      assert a + b == a;
    } else {
      assert (a + b)[..|a + b| - 1] == a + b[..|b| - 1];
      BytesOfTwo(a, b[..|b| - 1]);
    }
  }

  /** The packets of one flow hash, in order. */
  ghost function Of(s: seq<Packet>, tag: int): seq<Packet> {
    if s == [] then []
    else Of(s[..|s| - 1], tag) + (if s[|s| - 1].tag == tag then [s[|s| - 1]] else [])
  }

  lemma {:induction false} OfTwo(a: seq<Packet>, b: seq<Packet>, tag: int)
    ensures Of(a + b, tag) == Of(a, tag) + Of(b, tag)
    decreases |b|
  {
    if b == [] {
      assert a + b == a;
    } else {
      assert (a + b)[..|a + b| - 1] == a + b[..|b| - 1];
      OfTwo(a, b[..|b| - 1], tag);
    }
  }

  lemma {:induction false} OfUniform(s: seq<Packet>, tag: int, g: int)
    requires forall k :: 0 <= k < |s| ==> s[k].tag == g
    ensures Of(s, tag) == if tag == g then s else []
  {
    if s != [] {
      OfUniform(s[..|s| - 1], tag, g);
      assert s == s[..|s| - 1] + [s[|s| - 1]];
    }
  }

  // ---------------------------------------------------------------- what was sent of what left

  /** a is what remains of b once some packets are left out, in the same order. */
  ghost predicate Sub(a: seq<Packet>, b: seq<Packet>)
    decreases |b|
  {
    if b == [] then a == []
    else
      || Sub(a, b[..|b| - 1])
      || (a != [] && a[|a| - 1] == b[|b| - 1] && Sub(a[..|a| - 1], b[..|b| - 1]))
  }

  lemma SubPush(a: seq<Packet>, b: seq<Packet>, p: Packet)
    requires Sub(a, b)
    ensures Sub(a, b + [p]) && Sub(a + [p], b + [p])
  {
    assert (b + [p])[..|b|] == b && (a + [p])[..|a|] == a;
  }

  lemma {:induction false} SubTwo(a: seq<Packet>, b: seq<Packet>, c: seq<Packet>, d: seq<Packet>)
    requires Sub(a, b) && Sub(c, d)
    ensures Sub(a + c, b + d)
    decreases |d|
  {
    if d == [] {
      assert a + c == a && b + d == b;
    } else {
      var d0 := d[..|d| - 1];
      assert (b + d)[..|b + d| - 1] == b + d0;
      if Sub(c, d0) {
        SubTwo(a, b, c, d0);
      } else {
        var c0 := c[..|c| - 1];
        SubTwo(a, b, c0, d0);
        assert (a + c)[..|a + c| - 1] == a + c0;
      }
    }
  }

  /** Where each packet of the shorter sequence stands in the longer one, further on for each. */
  lemma {:induction false} SubPlaces(a: seq<Packet>, b: seq<Packet>) returns (at: seq<nat>)
    requires Sub(a, b)
    ensures |at| == |a| && forall k :: 0 <= k < |a| ==> at[k] < |b| && b[at[k]] == a[k]
    ensures forall j, k :: 0 <= j < k < |a| ==> at[j] < at[k]
    decreases |b|
  {
    if b == [] {
      at := [];
    } else if Sub(a, b[..|b| - 1]) {
      at := SubPlaces(a, b[..|b| - 1]);
    } else {
      at := SubPlaces(a[..|a| - 1], b[..|b| - 1]);
      at := at + [|b| - 1];
    }
  }

  /** Flow by flow, too. */
  lemma {:induction false} SubOf(a: seq<Packet>, b: seq<Packet>, tag: int)
    requires Sub(a, b)
    ensures Sub(Of(a, tag), Of(b, tag))
    decreases |b|
  {
    if b != [] {
      var b0, p := b[..|b| - 1], b[|b| - 1];
      if Sub(a, b0) {
        SubOf(a, b0, tag);
        SubPush(Of(a, tag), Of(b0, tag), p);
        assert Of(b0, tag) + [] == Of(b0, tag);
      } else {
        SubOf(a[..|a| - 1], b0, tag);
        SubPush(Of(a[..|a| - 1], tag), Of(b0, tag), p);
        assert Of(b0, tag) + [] == Of(b0, tag) && Of(a[..|a| - 1], tag) + [] == Of(a[..|a| - 1], tag);
      }
    }
  }

  /** Between two moments packets left a tin, from left to left', and its drop counter moved; out is what
      was sent: all but the dropped ones, in the order they left. */
  ghost predicate Departed(left: seq<Packet>, left': seq<Packet>, drops: int, drops': int, out: seq<Packet>) {
    left <= left' && Sub(out, left'[|left|..]) && |left'| - |left| == |out| + drops' - drops
  }

  lemma DepartedNone(left: seq<Packet>, drops: int)
    ensures Departed(left, left, drops, drops, [])
  {
    assert left[|left|..] == [];
  }

  lemma DepartedOne(left: seq<Packet>, drops: int, p: Packet)
    ensures Departed(left, left + [p], drops, drops + 1, []) && Departed(left, left + [p], drops, drops, [p])
  {
    assert (left + [p])[|left|..] == [] + [p];
    SubPush([], [], p);
    assert [] + [p] == [p];
  }

  lemma DepartedTwo(left: seq<Packet>, left': seq<Packet>, left'': seq<Packet>, drops: int, drops': int, drops'': int,
                    out: seq<Packet>, out': seq<Packet>)
    requires Departed(left, left', drops, drops', out) && Departed(left', left'', drops', drops'', out')
    ensures Departed(left, left'', drops, drops'', out + out')
  {
    SubTwo(out, left'[|left|..], out', left''[|left'|..]);
    assert left'' == left' + left''[|left'|..];
    assert left''[|left|..] == left'[|left|..] + left''[|left'|..];
  }

  lemma DepartedOf(left: seq<Packet>, left': seq<Packet>, drops: int, drops': int, out: seq<Packet>, tag: int)
    requires Departed(left, left', drops, drops', out)
    ensures Of(left, tag) <= Of(left', tag) && Sub(Of(out, tag), Of(left', tag)[|Of(left, tag)|..])
  {
    var gone := left'[|left|..];
    assert left' == left + gone;
    OfTwo(left, gone, tag);
    SubOf(out, gone, tag);
    assert Of(left', tag)[|Of(left, tag)|..] == Of(gone, tag);
  }
}
