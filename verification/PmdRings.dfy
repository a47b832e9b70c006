/** The descriptor rings of network/dpdk/pmd.c as bounded FIFOs.

    The hardware side of each ring (filling the receive ring, draining the transmit ring) and the
    loop tests "ring not empty" and "ring not full" are comments in the source; here they are the
    number of occupied slots. */
module PmdRings {

  /** The modulus of every index update, whatever size the queue was set up with. */
  const NB_DESC: nat := 1024

  function Min(a: nat, b: nat): (m: nat)
    ensures m <= a && m <= b && (m == a || m == b)
  {
    if a < b then a else b
  }

  /** `count` slots starting at `head` are occupied. On a receive queue `head` is rx_head; on a
      transmit queue tx_tail is the slot behind the last occupied one. */
  datatype Ring<T> = Ring(slots: seq<T>, head: nat, count: nat)

  /** The index of the k-th slot from `head`. */
  function SlotAt(head: nat, k: nat): (i: nat)
    ensures i == (head + k) % 1024
  {
    (head + k) % NB_DESC
  }

  /** The `count` slots from `head` exist in a ring of `size` entries. */
  ghost predicate Fits(size: nat, head: nat, count: nat) {
    forall k :: 0 <= k < count ==> SlotAt(head, k) < size
  }

  /** Every occupied slot exists. A queue set up with fewer than NB_DESC entries can be in such a
      state too. */
  ghost predicate Wf<T>(r: Ring<T>) {
    r.head < NB_DESC && r.count <= NB_DESC && Fits(|r.slots|, r.head, r.count)
  }

  ghost function At<T>(r: Ring<T>, k: nat): T
    requires Wf(r) && k < r.count
  {
    r.slots[SlotAt(r.head, k)]
  }

  ghost function Contents<T>(r: Ring<T>): seq<T>
    requires Wf(r)
  {
    seq(r.count, k requires 0 <= k < r.count => At(r, k))
  }

  ghost function Push<T>(r: Ring<T>, x: T): (t: Ring<T>)
    requires Wf(r) && r.count < NB_DESC && SlotAt(r.head, r.count) < |r.slots|
    ensures Wf(t) && |t.slots| == |r.slots| && t.head == r.head && t.count == r.count + 1
  {
    r.(slots := r.slots[SlotAt(r.head, r.count) := x], count := r.count + 1)
  }

  /** The queue contents are the occupied slots in ring order. */
  lemma ContentsInRingOrder<T>(r: Ring<T>)
    requires Wf(r)
    ensures |Contents(r)| == r.count <= 1024
    ensures forall k :: 0 <= k < r.count ==>
              SlotAt(r.head, k) < |r.slots| && Contents(r)[k] == r.slots[SlotAt(r.head, k)]
  {
  }

  lemma WrapOnce(a: nat, b: nat)
    ensures (a % NB_DESC + b) % NB_DESC == (a + b) % NB_DESC
  {
  }

  lemma SlotsApart(head: nat, j: nat, k: nat)
    requires j < k < j + NB_DESC
    ensures SlotAt(head, j) != SlotAt(head, k)
  {
  }

  lemma FitsFrom(size: nat, head: nat, n: nat, count: nat)
    requires n <= count && Fits(size, head, count)
    ensures Fits(size, SlotAt(head, n), count - n)
  {
    forall k | 0 <= k < count - n
      ensures SlotAt(SlotAt(head, n), k) < size
    {
      WrapOnce(head + n, k);
      assert SlotAt(head, n + k) < size;
    }
  }

  ghost function Pop<T>(r: Ring<T>, n: nat): (t: Ring<T>)
    requires Wf(r) && n <= r.count
    ensures Wf(t) && t.slots == r.slots && t.count == r.count - n
  {
    FitsFrom(|r.slots|, r.head, n, r.count);
    r.(head := SlotAt(r.head, n), count := r.count - n)
  }

  ghost function PushAll<T>(r: Ring<T>, xs: seq<T>): (t: Ring<T>)
    requires Wf(r) && r.count + |xs| <= NB_DESC && Fits(|r.slots|, r.head, r.count + |xs|)
    ensures Wf(t) && |t.slots| == |r.slots| && t.head == r.head && t.count == r.count + |xs|
    decreases |xs|
  {
    if xs == [] then r else PushAll(Push(r, xs[0]), xs[1..])
  }

  lemma PushAppends<T>(r: Ring<T>, x: T)
    requires Wf(r) && r.count < NB_DESC && SlotAt(r.head, r.count) < |r.slots|
    ensures Contents(Push(r, x)) == Contents(r) + [x]
    ensures Push(r, x).slots == r.slots[SlotAt(r.head, r.count) := x]
  {
    forall k | 0 <= k < r.count
      ensures At(Push(r, x), k) == At(r, k)
    {
      SlotsApart(r.head, k, r.count);
    }
  }

  lemma PopDrops<T>(r: Ring<T>, n: nat)
    requires Wf(r) && n <= r.count
    ensures Contents(Pop(r, n)) == Contents(r)[n..]
    ensures Pop(r, n).head == SlotAt(r.head, n)
  {
    forall k | 0 <= k < r.count - n
      ensures At(Pop(r, n), k) == At(r, n + k)
    {
      WrapOnce(r.head + n, k);
    }
  }

  lemma {:induction false} PushAllAppends<T>(r: Ring<T>, xs: seq<T>)
    requires Wf(r) && r.count + |xs| <= NB_DESC && Fits(|r.slots|, r.head, r.count + |xs|)
    ensures Contents(PushAll(r, xs)) == Contents(r) + xs
    decreases |xs|
  {
    if xs != [] {
      PushAppends(r, xs[0]);
      PushAllAppends(Push(r, xs[0]), xs[1..]);
      assert Contents(r) + [xs[0]] + xs[1..] == Contents(r) + xs;
    }
  }

  lemma {:induction false} PushAllConcat<T>(r: Ring<T>, xs: seq<T>, ys: seq<T>)
    requires Wf(r) && r.count + |xs| + |ys| <= NB_DESC && Fits(|r.slots|, r.head, r.count + |xs| + |ys|)
    ensures PushAll(PushAll(r, xs), ys) == PushAll(r, xs + ys)
    decreases |xs|
  {
    if xs == [] {
      assert xs + ys == ys;
    } else {
      assert (xs + ys)[1..] == xs[1..] + ys;
      PushAllConcat(Push(r, xs[0]), xs[1..], ys);
    }
  }

  lemma PushAllOne<T>(r: Ring<T>, x: T)
    requires Wf(r) && r.count < NB_DESC && Fits(|r.slots|, r.head, r.count + 1)
    ensures PushAll(r, [x]) == Push(r, x)
  {
    assert PushAll(Push(r, x), []) == Push(r, x);
  }

  lemma PushAllSnoc<T>(r: Ring<T>, xs: seq<T>, x: T)
    requires Wf(r) && r.count + |xs| < NB_DESC && Fits(|r.slots|, r.head, r.count + |xs| + 1)
    ensures PushAll(r, xs + [x]) == Push(PushAll(r, xs), x)
  {
    PushAllConcat(r, xs, [x]);
    PushAllOne(PushAll(r, xs), x);
  }

  // ----- Any sequence of puts and gets on a ring behaves as a bounded FIFO -----

  /** On a receive queue the hardware puts and the burst gets; on a transmit queue the burst puts
      and the hardware gets. */
  datatype Op<T> = Put(items: seq<T>) | Get(n: nat)

  datatype Traffic<T> = Traffic(ring: Ring<T>, input: seq<T>, output: seq<T>)

  /** A queue set up with at least NB_DESC entries, where every slot exists. */
  ghost predicate Full<T>(r: Ring<T>) {
    Wf(r) && |r.slots| >= NB_DESC
  }

  function Accepted<T>(r: Ring<T>, wanted: nat): nat
    requires r.count <= NB_DESC
  {
    Min(wanted, NB_DESC - r.count)
  }

  ghost function Step<T>(s: Traffic<T>, op: Op<T>): (t: Traffic<T>)
    requires Full(s.ring)
    ensures Full(t.ring)
  {
    match op
    case Put(xs) =>
      var taken := xs[..Accepted(s.ring, |xs|)];
      Traffic(PushAll(s.ring, taken), s.input + taken, s.output)
    case Get(n) =>
      var m := Min(n, s.ring.count);
      Traffic(Pop(s.ring, m), s.input, s.output + Contents(s.ring)[..m])
  }

  ghost function Run<T>(s: Traffic<T>, ops: seq<Op<T>>): (t: Traffic<T>)
    requires Full(s.ring)
    ensures Full(t.ring)
    decreases |ops|
  {
    if ops == [] then s else Run(Step(s, ops[0]), ops[1..])
  }

  ghost predicate Conserved<T>(s: Traffic<T>)
    requires Full(s.ring)
  {
    s.input == s.output + Contents(s.ring)
  }

  lemma PutConserves<T>(s: Traffic<T>, xs: seq<T>)
    requires Full(s.ring) && Conserved(s)
    ensures Conserved(Step(s, Put(xs)))
  {
    PushAllAppends(s.ring, xs[..Accepted(s.ring, |xs|)]);
  }

  lemma GetConserves<T>(s: Traffic<T>, n: nat)
    requires Full(s.ring) && Conserved(s)
    ensures Conserved(Step(s, Get(n)))
  {
    PopDrops(s.ring, Min(n, s.ring.count));
  }

  /** Nothing is lost, duplicated or reordered: what went in is what came out followed by what is
      still in the ring. */
  lemma {:induction false} TrafficConserved<T>(s: Traffic<T>, ops: seq<Op<T>>)
    requires Full(s.ring) && s.input == s.output + Contents(s.ring)
    ensures Run(s, ops).input == Run(s, ops).output + Contents(Run(s, ops).ring)
    decreases |ops|
  {
    if ops != [] {
      match ops[0] {
        case Put(xs) => PutConserves(s, xs);
        case Get(n) => GetConserves(s, n);
      }
      TrafficConserved(Step(s, ops[0]), ops[1..]);
    }
  }

  /** A get moves as many entries as asked for and available, from the front; it moves nothing exactly
      when nothing is asked for or the ring is empty. */
  lemma GetMoves<T>(s: Traffic<T>, n: nat)
    requires Full(s.ring)
    ensures
      var t := Step(s, Get(n));
      var m := |t.output| - |s.output|;
      && 0 <= m <= n && m <= |Contents(s.ring)| && (m == n || m == |Contents(s.ring)|)
      && t.output == s.output + Contents(s.ring)[..m] && t.input == s.input
      && Contents(t.ring) == Contents(s.ring)[m..]
      && (m == 0 <==> n == 0 || Contents(s.ring) == [])
  {
    PopDrops(s.ring, Min(n, s.ring.count));
  }

  /** A put takes as many packets as offered and free slots, from the front; it takes nothing exactly
      when nothing is offered or all 1024 slots are occupied. */
  lemma PutMoves<T>(s: Traffic<T>, xs: seq<T>)
    requires Full(s.ring)
    ensures
      var t := Step(s, Put(xs));
      var m := |t.input| - |s.input|;
      && 0 <= m <= |xs| && m <= 1024 - |Contents(s.ring)| && (m == |xs| || m == 1024 - |Contents(s.ring)|)
      && t.input == s.input + xs[..m] && t.output == s.output
      && Contents(t.ring) == Contents(s.ring) + xs[..m]
      && (m == 0 <==> xs == [] || |Contents(s.ring)| == 1024)
  {
    PushAllAppends(s.ring, xs[..Accepted(s.ring, |xs|)]);
  }

  // ----- Splitting bursts -----

  lemma PopTwice<T>(r: Ring<T>, a: nat, b: nat)
    requires Wf(r) && a + b <= r.count
    ensures Pop(Pop(r, a), b) == Pop(r, a + b)
  {
    WrapOnce(r.head + a, b);
  }

  /** A receive burst of n and then one of m moves what one burst of n + m moves. */
  lemma ReceiveSplits<T>(s: Traffic<T>, n: nat, m: nat)
    requires Full(s.ring)
    ensures Step(Step(s, Get(n)), Get(m)) == Step(s, Get(n + m))
  {
    var a := Min(n, s.ring.count);
    var t := Step(s, Get(n));
    var b := Min(m, t.ring.count);
    PopDrops(s.ring, a);
    PopTwice(s.ring, a, b);
    var c := Contents(s.ring);
    assert c[..a] + c[a..][..b] == c[..a + b];
    assert s.output + c[..a] + c[a..][..b] == s.output + c[..a + b];
  }

  lemma TakenSplits<T>(r: Ring<T>, xs: seq<T>, ys: seq<T>)
    requires Full(r)
    ensures
      var a := Accepted(r, |xs|);
      var b := Accepted(PushAll(r, xs[..a]), |ys|);
      (xs + ys)[..Accepted(r, |xs + ys|)] == xs[..a] + ys[..b]
  {
  }

  /** The same for transmit bursts of consecutive packets. */
  lemma TransmitSplits<T>(s: Traffic<T>, xs: seq<T>, ys: seq<T>)
    requires Full(s.ring)
    ensures Step(Step(s, Put(xs)), Put(ys)) == Step(s, Put(xs + ys))
  {
    var a := Accepted(s.ring, |xs|);
    var b := Accepted(PushAll(s.ring, xs[..a]), |ys|);
    TakenSplits(s.ring, xs, ys);
    PushAllConcat(s.ring, xs[..a], ys[..b]);
    assert s.input + xs[..a] + ys[..b] == s.input + (xs[..a] + ys[..b]);
  }

  // ----- Bounds: allocation by nb_desc, wrapping by NB_DESC -----

  function Sum(counts: seq<nat>): nat {
    if counts == [] then 0 else counts[0] + Sum(counts[1..])
  }

  /** Bursts moving `counts` packets, starting at index `head`, stay inside `nbDesc` slots. */
  ghost predicate InBounds(nbDesc: nat, head: nat, counts: seq<nat>)
    decreases |counts|
  {
    counts == [] ||
    (&& (forall k :: 0 <= k < counts[0] ==> SlotAt(head, k) < nbDesc)
     && InBounds(nbDesc, SlotAt(head, counts[0]), counts[1..]))
  }

  lemma BurstInBounds(nbDesc: nat, pos: nat, n: nat)
    requires nbDesc >= NB_DESC || pos <= nbDesc
    ensures (forall k :: 0 <= k < n ==> SlotAt(pos % NB_DESC, k) < nbDesc) <==>
            nbDesc >= NB_DESC || pos + n <= nbDesc
  {
    if nbDesc < NB_DESC {
      assert pos % NB_DESC == pos;
      if pos + n > nbDesc {
        assert SlotAt(pos % NB_DESC, nbDesc - pos) == nbDesc;
      }
    }
  }

  lemma {:induction false} InBoundsFrom(nbDesc: nat, pos: nat, counts: seq<nat>)
    requires nbDesc >= NB_DESC || pos <= nbDesc
    ensures InBounds(nbDesc, pos % NB_DESC, counts) <==> nbDesc >= NB_DESC || pos + Sum(counts) <= nbDesc
    decreases |counts|
  {
    if counts != [] {
      BurstInBounds(nbDesc, pos, counts[0]);
      WrapOnce(pos, counts[0]);
      if nbDesc >= NB_DESC || pos + counts[0] <= nbDesc {
        InBoundsFrom(nbDesc, pos + counts[0], counts[1..]);
      }
    }
  }

  /** After queue setup, a run of bursts stays in bounds exactly when the queue has at least 1024
      descriptors or the run moves no more packets than it has. */
  lemma BurstsInBoundsIff(nbDesc: nat, counts: seq<nat>)
    ensures InBounds(nbDesc, 0, counts) <==> nbDesc >= 1024 || Sum(counts) <= nbDesc
  {
    InBoundsFrom(nbDesc, 0, counts);
  }

  lemma SafeForAllTrafficIff(nbDesc: nat)
    ensures (forall counts :: InBounds(nbDesc, 0, counts)) <==> nbDesc >= 1024
  {
    forall counts
      ensures InBounds(nbDesc, 0, counts) <==> nbDesc >= NB_DESC || Sum(counts) <= nbDesc
    {
      BurstsInBoundsIff(nbDesc, counts);
    }
    var overrun := [nbDesc + 1];
    assert overrun[1..] == [] && Sum(overrun) == nbDesc + 1;
    assert InBounds(nbDesc, 0, overrun) <==> nbDesc >= NB_DESC;
  }
}
