/** The transmit ring of network/nic.c as a transition system.

    `ring`, `head` and `tail` are the driver's tx_skbuff, tx_head and tx_tail; `desc` is the
    address column of the hardware descriptors; `live` is the kernel's table of streaming DMA
    mappings (bus address to mapped length); `staged` is a packet between its dma_map_single and
    the locked region that enqueues it. The remaining fields are history: every packet enqueued so
    far with its bus address, how many of them the hardware reported sent, how many the interrupt
    handler consumed, what was freed, the addresses unmapped, and whether every unmap so far named a
    live mapping with its mapped length. */
module NicTransmit {
  import opened Prelude

  const RING: nat := 128

  /** `len` is skb->len, `headlen` is skb_headlen(skb); they agree for a linear packet. */
  datatype Skb = Skb(id: nat, len: nat, headlen: nat)

  datatype Staged = Staged(skb: Skb, addr: nat)

  datatype Tx = Tx(
    ring: seq<Option<Skb>>,
    desc: seq<nat>,
    head: nat,
    tail: nat,
    staged: Option<Staged>,
    live: map<nat, nat>,
    submitted: seq<Skb>,
    addrs: seq<nat>,
    sent: nat,
    reaped: nat,
    freed: seq<Skb>,
    unmapped: seq<nat>,
    matched: bool)

  datatype Event =
    | MapSkb(skb: Skb, addr: nat)
    | Enqueue
    | HwSent
    | Reap

  ghost predicate Shape(s: Tx) {
    |s.ring| == RING && |s.desc| == RING && s.head < RING && s.tail < RING
  }

  function Init(): (s: Tx)
    ensures Shape(s)
  {
    Tx(seq(RING, _ => None), seq(RING, _ => 0), 0, 0, None, map[], [], [], 0, 0, [], [], true)
  }

  /** What the environment owes the driver: one transmit at a time, packets that were not handed
      over before, bus addresses not currently mapped, and sent reports only for queued packets.
      Nothing here limits how full the ring is. */
  predicate Enabled(s: Tx, e: Event) {
    match e
    case MapSkb(skb, addr) => s.staged.None? && skb !in s.submitted && addr !in s.live
    case Enqueue => s.staged.Some?
    case HwSent => s.sent < |s.submitted|
    case Reap => s.reaped < s.sent
  }

  function Next(s: Tx, e: Event): (t: Tx)
    requires Shape(s)
    ensures Shape(t)
  {
    match e
    case MapSkb(skb, addr) =>
      s.(staged := Some(Staged(skb, addr)), live := s.live[addr := skb.headlen])
    case Enqueue =>
      if s.staged.None? then s else
      var p := s.staged.value;
      s.(ring := s.ring[s.head := Some(p.skb)],
         desc := s.desc[s.head := p.addr],
         head := (s.head + 1) % RING,
         staged := None,
         submitted := s.submitted + [p.skb],
         addrs := s.addrs + [p.addr])
    case HwSent => s.(sent := s.sent + 1)
    case Reap =>
      var t := s.(tail := (s.tail + 1) % RING, reaped := s.reaped + 1);
      match s.ring[s.tail]
      case None => t
      case Some(skb) =>
        var addr := s.desc[s.tail];
        t.(ring := s.ring[s.tail := None],
           live := s.live - {addr},
           freed := s.freed + [skb],
           unmapped := s.unmapped + [addr],
           matched := s.matched && addr in s.live && s.live[addr] == skb.len)
  }

  ghost predicate Valid(s: Tx, es: seq<Event>)
    requires Shape(s)
    decreases |es|
  {
    es == [] || (Enabled(s, es[0]) && Valid(Next(s, es[0]), es[1..]))
  }

  function Exec(s: Tx, es: seq<Event>): (t: Tx)
    requires Shape(s)
    ensures Shape(t)
    decreases |es|
  {
    if es == [] then s else Exec(Next(s, es[0]), es[1..])
  }

  function Outstanding(s: Tx): int {
    |s.submitted| - s.reaped
  }

  /** Every enqueue of the run happens with a free slot; the test the driver leaves as a comment. */
  ghost predicate Guarded(s: Tx, es: seq<Event>)
    requires Shape(s)
    decreases |es|
  {
    es == [] || ((es[0].Enqueue? ==> Outstanding(s) < RING) && Guarded(Next(s, es[0]), es[1..]))
  }

  // ----- The invariant of guarded runs -----

  /** The only submission number in [reaped, reaped + RING) that lives in slot `i`. */
  function SlotNumber(reaped: nat, i: nat): (k: nat)
    requires i < RING
    ensures reaped <= k < reaped + RING && k % RING == i
  {
    reaped + (i - reaped) % RING
  }

  lemma SlotNumberUnique(reaped: nat, k: nat)
    requires reaped <= k < reaped + RING
    ensures SlotNumber(reaped, k % RING) == k
  {
  }

  /** Consuming one packet moves only its own slot, to the number one lap later. */
  lemma SlotNumberStep(reaped: nat, i: nat)
    requires i < RING
    ensures SlotNumber(reaped + 1, i) == if i == reaped % RING then reaped + RING else SlotNumber(reaped, i)
  {
    if i == reaped % RING {
      SlotNumberUnique(reaped, reaped);
      assert (reaped + RING) % RING == i;
      SlotNumberUnique(reaped + 1, reaped + RING);
    } else {
      SlotNumberUnique(reaped + 1, SlotNumber(reaped, i));
    }
  }

  lemma NextSlot(k: nat)
    ensures (k % RING + 1) % RING == (k + 1) % RING
  {
  }

  /** What slot `i` must hold: the packet whose number falls on it, or NULL. */
  function SlotContent(s: Tx, i: nat): Option<Skb>
    requires i < RING
  {
    var k := SlotNumber(s.reaped, i);
    if k < |s.submitted| then Some(s.submitted[k]) else None
  }

  ghost predicate CountersAgree(s: Tx) {
    && s.reaped <= s.sent <= |s.submitted| <= s.reaped + RING
    && |s.addrs| == |s.submitted|
    && s.head == |s.submitted| % RING
    && s.tail == s.reaped % RING
  }

  ghost predicate RingHoldsWindow(s: Tx)
    requires Shape(s) && |s.addrs| == |s.submitted|
  {
    && (forall i :: 0 <= i < RING ==> s.ring[i] == SlotContent(s, i))
    && (forall i :: 0 <= i < RING && s.ring[i].Some? ==> s.desc[i] == s.addrs[SlotNumber(s.reaped, i)])
  }

  ghost predicate PacketsDistinct(s: Tx) {
    && NoDup(s.submitted)
    && (s.staged.Some? ==> s.staged.value.skb !in s.submitted)
  }

  /** Bus addresses of the packets numbered `lo` and up. */
  ghost function AddrsFrom(a: seq<nat>, lo: nat): set<nat> {
    set k | lo <= k < |a| :: a[k]
  }

  ghost function StagedAddr(s: Tx): set<nat> {
    if s.staged.Some? then {s.staged.value.addr} else {}
  }

  /** Live mappings are exactly the outstanding packets' and the staged packet's, each once. */
  ghost predicate MappingsMatch(s: Tx)
    requires s.reaped <= |s.submitted| == |s.addrs|
  {
    && (forall j, k :: s.reaped <= j < k < |s.addrs| ==> s.addrs[j] != s.addrs[k])
    && StagedAddr(s) !! AddrsFrom(s.addrs, s.reaped)
    && s.live.Keys == AddrsFrom(s.addrs, s.reaped) + StagedAddr(s)
    && (forall k :: s.reaped <= k < |s.addrs| ==> s.live[s.addrs[k]] == s.submitted[k].headlen)
    && (s.staged.Some? ==> s.live[s.staged.value.addr] == s.staged.value.skb.headlen)
  }

  ghost predicate Linear(skb: Skb) {
    skb.len == skb.headlen
  }

  ghost predicate HistoryAgrees(s: Tx)
    requires s.reaped <= |s.submitted| == |s.addrs|
  {
    && s.freed == s.submitted[..s.reaped]
    && s.unmapped == s.addrs[..s.reaped]
    && (s.matched <==> forall k :: 0 <= k < s.reaped ==> Linear(s.submitted[k]))
  }

  ghost predicate Inv(s: Tx) {
    && Shape(s)
    && CountersAgree(s)
    && RingHoldsWindow(s)
    && PacketsDistinct(s)
    && MappingsMatch(s)
    && HistoryAgrees(s)
  }

  lemma EnqueueKeepsRing(s: Tx)
    requires Inv(s) && s.staged.Some? && Outstanding(s) < RING
    ensures CountersAgree(Next(s, Enqueue)) && RingHoldsWindow(Next(s, Enqueue))
  {
    var t := Next(s, Enqueue);
    NextSlot(|s.submitted|);
    SlotNumberUnique(s.reaped, |s.submitted|);
    forall i | 0 <= i < RING
      ensures t.ring[i] == SlotContent(t, i)
      ensures t.ring[i].Some? ==> t.desc[i] == t.addrs[SlotNumber(t.reaped, i)]
    {
      assert s.ring[i] == SlotContent(s, i);
    }
  }

  lemma EnqueueKeepsMappings(s: Tx)
    requires Shape(s) && s.staged.Some? && s.reaped <= |s.submitted| == |s.addrs| && MappingsMatch(s)
    ensures MappingsMatch(Next(s, Enqueue))
  {
    var t := Next(s, Enqueue);
    var n := |s.submitted|;
    assert forall k :: 0 <= k < n ==> t.addrs[k] == s.addrs[k] && t.submitted[k] == s.submitted[k];
    forall k | s.reaped <= k < n
      ensures s.addrs[k] in AddrsFrom(s.addrs, s.reaped)
    {
    }
    assert t.addrs[n] == s.staged.value.addr && t.submitted[n] == s.staged.value.skb;
    assert AddrsFrom(t.addrs, t.reaped) == AddrsFrom(s.addrs, s.reaped) + {s.staged.value.addr};
  }

  lemma EnqueueKeepsHistory(s: Tx)
    requires Shape(s) && s.staged.Some? && s.reaped <= |s.submitted| == |s.addrs|
    requires PacketsDistinct(s) && HistoryAgrees(s)
    ensures PacketsDistinct(Next(s, Enqueue)) && HistoryAgrees(Next(s, Enqueue))
  {
    var t := Next(s, Enqueue);
    assert t.freed == t.submitted[..t.reaped] && t.unmapped == t.addrs[..t.reaped];
    assert forall k :: 0 <= k < s.reaped ==> t.submitted[k] == s.submitted[k];
  }

  /** The NULL test at the tail never fails for a slot reported sent. */
  lemma TailSlotIsOldest(s: Tx)
    requires Inv(s) && s.reaped < |s.submitted|
    ensures s.ring[s.tail] == Some(s.submitted[s.reaped])
    ensures s.desc[s.tail] == s.addrs[s.reaped]
  {
    SlotNumberUnique(s.reaped, s.reaped);
    assert s.ring[s.tail] == SlotContent(s, s.tail);
  }

  lemma ReapKeepsRing(s: Tx)
    requires Inv(s) && Enabled(s, Reap)
    ensures CountersAgree(Next(s, Reap)) && RingHoldsWindow(Next(s, Reap))
  {
    var t := Next(s, Reap);
    TailSlotIsOldest(s);
    NextSlot(s.reaped);
    forall i | 0 <= i < RING
      ensures t.ring[i] == SlotContent(t, i)
      ensures t.ring[i].Some? ==> t.desc[i] == t.addrs[SlotNumber(t.reaped, i)]
    {
      SlotNumberStep(s.reaped, i);
      assert s.ring[i] == SlotContent(s, i);
    }
  }

  lemma ReapKeepsMappings(s: Tx)
    requires Inv(s) && Enabled(s, Reap)
    ensures MappingsMatch(Next(s, Reap))
  {
    var t := Next(s, Reap);
    var gone := s.addrs[s.reaped];
    TailSlotIsOldest(s);
    assert AddrsFrom(t.addrs, t.reaped) == AddrsFrom(s.addrs, s.reaped) - {gone};
    assert gone in AddrsFrom(s.addrs, s.reaped);
  }

  lemma ReapKeepsHistory(s: Tx)
    requires Inv(s) && Enabled(s, Reap)
    ensures PacketsDistinct(Next(s, Reap)) && HistoryAgrees(Next(s, Reap))
  {
    var t := Next(s, Reap);
    TailSlotIsOldest(s);
    assert s.addrs[s.reaped] in AddrsFrom(s.addrs, s.reaped);
    assert t.freed == t.submitted[..t.reaped] && t.unmapped == t.addrs[..t.reaped];
    assert t.matched <==> s.matched && Linear(s.submitted[s.reaped]);
  }

  lemma MapKeepsInv(s: Tx, skb: Skb, addr: nat)
    requires Inv(s) && Enabled(s, MapSkb(skb, addr))
    ensures Inv(Next(s, MapSkb(skb, addr)))
  {
    var t := Next(s, MapSkb(skb, addr));
    assert forall i :: 0 <= i < RING ==> SlotContent(t, i) == SlotContent(s, i);
  }

  lemma StepKeepsInv(s: Tx, e: Event)
    requires Inv(s) && Enabled(s, e) && (e.Enqueue? ==> Outstanding(s) < RING)
    ensures Inv(Next(s, e))
  {
    match e
    case MapSkb(skb, addr) => MapKeepsInv(s, skb, addr);
    case Enqueue =>
      EnqueueKeepsRing(s);
      EnqueueKeepsMappings(s);
      EnqueueKeepsHistory(s);
    case HwSent =>
      assert forall i :: 0 <= i < RING ==> SlotContent(Next(s, e), i) == SlotContent(s, i);
    case Reap =>
      ReapKeepsRing(s);
      ReapKeepsMappings(s);
      ReapKeepsHistory(s);
  }

  lemma {:induction false} GuardedRunKeepsInv(s: Tx, es: seq<Event>)
    requires Inv(s) && Valid(s, es) && Guarded(s, es)
    ensures Inv(Exec(s, es))
    decreases |es|
  {
    if es != [] {
      StepKeepsInv(s, es[0]);
      GuardedRunKeepsInv(Next(s, es[0]), es[1..]);
    }
  }

  // ----- Main results -----

  /** Every interleaving of guarded transmits, sent reports and reaps refines an unbounded FIFO: the
      slots hold exactly the packets between the reap and the submission count, all others are NULL. */
  lemma RingRefinesFifo(es: seq<Event>)
    requires Valid(Init(), es) && Guarded(Init(), es)
    ensures
      var s := Exec(Init(), es);
      && s.reaped <= s.sent <= |s.submitted| <= s.reaped + 128
      && |s.ring| == 128
      && s.head == |s.submitted| % 128
      && s.tail == s.reaped % 128
      && s.freed == s.submitted[..s.reaped]
      && (forall j, k :: 0 <= j < k < |s.freed| ==> s.freed[j] != s.freed[k])
      && (forall k :: s.reaped <= k < |s.submitted| ==> s.ring[k % 128] == Some(s.submitted[k]))
      && (forall i :: 0 <= i < 128 && s.ring[i].Some? ==>
            exists k :: s.reaped <= k < |s.submitted| && k % 128 == i && s.ring[i] == Some(s.submitted[k]))
  {
    GuardedRunKeepsInv(Init(), es);
    WindowFillsRing(Exec(Init(), es));
  }

  lemma WindowFillsRing(s: Tx)
    requires Inv(s)
    ensures forall k :: s.reaped <= k < |s.submitted| ==> s.ring[k % RING] == Some(s.submitted[k])
    ensures forall i :: 0 <= i < RING && s.ring[i].Some? ==>
              exists k :: s.reaped <= k < |s.submitted| && k % RING == i && s.ring[i] == Some(s.submitted[k])
  {
    forall k | s.reaped <= k < |s.submitted|
      ensures s.ring[k % RING] == Some(s.submitted[k])
    {
      SlotNumberUnique(s.reaped, k);
    }
    forall i | 0 <= i < RING && s.ring[i].Some?
      ensures exists k :: s.reaped <= k < |s.submitted| && k % RING == i && s.ring[i] == Some(s.submitted[k])
    {
      assert s.ring[i] == SlotContent(s, i);
      assert s.ring[i] == Some(s.submitted[SlotNumber(s.reaped, i)]);
    }
  }

  lemma HeadMeetsTail(n: nat, reaped: nat)
    requires reaped <= n <= reaped + RING
    ensures n % RING == reaped % RING <==> n == reaped || n == reaped + RING
  {
  }

  lemma NullSlotDecides(s: Tx)
    requires Inv(s)
    ensures s.ring[s.head].None? <==> Outstanding(s) < RING
    ensures s.head == s.tail <==> Outstanding(s) == 0 || Outstanding(s) == RING
  {
    HeadMeetsTail(|s.submitted|, s.reaped);
    if Outstanding(s) < RING {
      SlotNumberUnique(s.reaped, |s.submitted|);
      assert s.ring[s.head] == SlotContent(s, s.head);
    } else {
      TailSlotIsOldest(s);
    }
  }

  /** A NULL at tx_head means room, it tells the two meanings of head == tail apart, and the slot
      of a packet reported sent is never NULL. */
  lemma NullSlotDecidesOccupancy(es: seq<Event>)
    requires Valid(Init(), es) && Guarded(Init(), es)
    ensures
      var s := Exec(Init(), es);
      && (s.ring[s.head].None? <==> |s.submitted| - s.reaped < 128)
      && (s.head == s.tail <==> |s.submitted| == s.reaped || |s.submitted| == s.reaped + 128)
      && (s.reaped < s.sent ==> s.sent <= |s.submitted| && s.ring[s.tail] == Some(s.submitted[s.reaped]))
  {
    GuardedRunKeepsInv(Init(), es);
    var s := Exec(Init(), es);
    NullSlotDecides(s);
    if s.reaped < s.sent {
      TailSlotIsOldest(s);
    }
  }

  lemma {:induction false} DistinctCount(a: seq<nat>, lo: nat)
    requires lo <= |a|
    requires forall j, k :: lo <= j < k < |a| ==> a[j] != a[k]
    ensures |AddrsFrom(a, lo)| == |a| - lo
    decreases |a| - lo
  {
    if lo < |a| {
      DistinctCount(a, lo + 1);
      assert AddrsFrom(a, lo) == {a[lo]} + AddrsFrom(a, lo + 1);
    }
  }

  lemma LiveMappingCount(s: Tx)
    requires s.reaped <= |s.submitted| == |s.addrs| && MappingsMatch(s)
    ensures |s.live| == Outstanding(s) + (if s.staged.Some? then 1 else 0)
    ensures forall k :: s.reaped <= k < |s.addrs| ==>
              s.addrs[k] in s.live && s.live[s.addrs[k]] == s.submitted[k].headlen
  {
    DistinctCount(s.addrs, s.reaped);
    assert |s.live| == |s.live.Keys|;
    assert forall k :: s.reaped <= k < |s.addrs| ==> s.addrs[k] in AddrsFrom(s.addrs, s.reaped);
  }

  lemma MatchedIffLinear(s: Tx)
    requires s.reaped <= |s.submitted| == |s.addrs| && HistoryAgrees(s)
    ensures s.matched <==> forall skb :: skb in s.freed ==> skb.len == skb.headlen
  {
    assert forall k :: 0 <= k < s.reaped ==> s.freed[k] == s.submitted[k];
  }

  /** Mappings are conserved: the live ones are exactly the outstanding packets' and the staged
      packet's, all distinct and of the mapped length; each freed packet was unmapped at its own
      address; and every unmap matched its mapping exactly when the packets freed were linear. */
  lemma MappingsAreConserved(es: seq<Event>)
    requires Valid(Init(), es) && Guarded(Init(), es)
    ensures
      var s := Exec(Init(), es);
      && |s.live| == |s.submitted| - s.reaped + (if s.staged.Some? then 1 else 0)
      && |s.addrs| == |s.submitted| && |s.freed| == s.reaped
      && s.live.Keys == AddrsFrom(s.addrs, s.reaped) + StagedAddr(s)
      && (forall j, k :: s.reaped <= j < k < |s.addrs| ==> s.addrs[j] != s.addrs[k])
      && s.unmapped == s.addrs[..s.reaped]
      && (forall k :: s.reaped <= k < |s.addrs| ==>
            s.addrs[k] in s.live && s.live[s.addrs[k]] == s.submitted[k].headlen)
      && (s.matched <==> forall skb :: skb in s.freed ==> skb.len == skb.headlen)
  {
    GuardedRunKeepsInv(Init(), es);
    LiveMappingCount(Exec(Init(), es));
    MatchedIffLinear(Exec(Init(), es));
  }

  /** Each packet handed over is either freed or still in the ring. */
  ghost predicate Accounted(s: Tx) {
    forall skb :: skb in s.submitted ==> skb in s.freed || Some(skb) in s.ring
  }

  /** A packet that left the ring without being freed, with its mapping still live. */
  ghost predicate Leaked(s: Tx, skb: Skb, addr: nat) {
    && Shape(s)
    && skb in s.submitted && skb !in s.freed && Some(skb) !in s.ring
    && (s.staged.Some? ==> s.staged.value.skb != skb && s.staged.value.addr != addr)
    && addr in s.live
    && (forall i :: 0 <= i < RING && s.ring[i].Some? ==> s.desc[i] != addr)
  }

  lemma {:induction false} LeakIsForever(s: Tx, es: seq<Event>, skb: Skb, addr: nat)
    requires Leaked(s, skb, addr) && Valid(s, es)
    ensures Leaked(Exec(s, es), skb, addr)
    ensures skb !in Exec(s, es).freed && Some(skb) !in Exec(s, es).ring && addr in Exec(s, es).live
    decreases |es|
  {
    if es != [] {
      LeakIsForever(Next(s, es[0]), es[1..], skb, addr);
    }
  }

  lemma OtherSlotsHoldOthers(s: Tx, i: nat)
    requires Inv(s) && s.reaped < |s.submitted| && i < RING && i != s.tail
    ensures s.ring[i] != Some(s.submitted[s.reaped])
    ensures s.ring[i].Some? ==> s.desc[i] != s.addrs[s.reaped]
  {
    assert SlotNumber(s.reaped, i) != s.reaped;
    assert s.ring[i] == SlotContent(s, i);
  }

  /** Enqueueing into a full ring overwrites the oldest unreaped packet. */
  lemma OverflowLeaksOldest(s: Tx)
    requires Inv(s) && s.staged.Some? && Outstanding(s) == RING
    ensures Leaked(Next(s, Enqueue), s.submitted[s.reaped], s.addrs[s.reaped])
  {
    var t := Next(s, Enqueue);
    var skb, addr := s.submitted[s.reaped], s.addrs[s.reaped];
    HeadMeetsTail(|s.submitted|, s.reaped);
    assert t.submitted[s.reaped] == skb;
    assert forall k :: 0 <= k < |s.freed| ==> s.freed[k] == s.submitted[k];
    forall i | 0 <= i < RING
      ensures t.ring[i] != Some(skb)
      ensures t.ring[i].Some? ==> t.desc[i] != addr
    {
      if i != s.head {
        OtherSlotsHoldOthers(s, i);
      }
    }
  }

  lemma InvAccounts(s: Tx)
    requires Inv(s)
    ensures Accounted(s)
  {
    forall k | 0 <= k < |s.submitted|
      ensures s.submitted[k] in s.freed || Some(s.submitted[k]) in s.ring
    {
      if k < s.reaped {
        assert s.freed[k] == s.submitted[k];
      } else {
        SlotNumberUnique(s.reaped, k);
        assert s.ring[k % RING] == Some(s.submitted[k]);
      }
    }
  }

  lemma {:induction false} AccountedIffGuardedFrom(s: Tx, es: seq<Event>)
    requires Inv(s) && Valid(s, es)
    ensures Accounted(Exec(s, es)) <==> Guarded(s, es)
    decreases |es|
  {
    if es == [] {
      InvAccounts(s);
    } else if es[0].Enqueue? && Outstanding(s) == RING {
      OverflowLeaksOldest(s);
      LeakIsForever(Next(s, Enqueue), es[1..], s.submitted[s.reaped], s.addrs[s.reaped]);
    } else {
      StepKeepsInv(s, es[0]);
      AccountedIffGuardedFrom(Next(s, es[0]), es[1..]);
    }
  }

  /** The driver as written, which never tests for a full ring, keeps track of every packet in
      exactly the runs where no transmit found 128 packets outstanding. */
  lemma NoPacketLostIffNeverOverfilled(es: seq<Event>)
    requires Valid(Init(), es)
    ensures
      var s := Exec(Init(), es);
      (forall skb :: skb in s.submitted ==> skb in s.freed || Some(skb) in s.ring) <==> Guarded(Init(), es)
  {
    AccountedIffGuardedFrom(Init(), es);
  }

  // ----- With or without a full test, the indices and counters count the steps of the run -----

  lemma TimesFirst(es: seq<Event>, e: Event)
    requires es != []
    ensures multiset(es)[e] == multiset(es[1..])[e] + if es[0] == e then 1 else 0
  {
    assert es == [es[0]] + es[1..];
  }

  ghost predicate IndicesFollow(s: Tx) {
    s.head == |s.submitted| % RING && s.tail == s.reaped % RING
  }

  lemma StepCounts(s: Tx, e: Event)
    requires Shape(s) && Enabled(s, e)
    ensures
      var t := Next(s, e);
      && |t.submitted| == |s.submitted| + (if e == Enqueue then 1 else 0)
      && t.sent == s.sent + (if e == HwSent then 1 else 0)
      && t.reaped == s.reaped + (if e == Reap then 1 else 0)
      && (IndicesFollow(s) ==> IndicesFollow(t))
  {
    NextSlot(|s.submitted|);
    NextSlot(s.reaped);
  }

  lemma {:induction false} RunCountsFrom(s: Tx, es: seq<Event>)
    requires Shape(s) && Valid(s, es) && IndicesFollow(s)
    ensures
      var t := Exec(s, es);
      && |t.submitted| == |s.submitted| + multiset(es)[Enqueue]
      && t.sent == s.sent + multiset(es)[HwSent]
      && t.reaped == s.reaped + multiset(es)[Reap]
      && IndicesFollow(t)
    decreases |es|
  {
    if es != [] {
      StepCounts(s, es[0]);
      TimesFirst(es, Enqueue);
      TimesFirst(es, HwSent);
      TimesFirst(es, Reap);
      RunCountsFrom(Next(s, es[0]), es[1..]);
    }
  }

  /** Over every run of the driver as written, overfilled or not, the hardware's reports and the
      passes of the completion loop are counted, NULL slots included, and both indices follow. */
  lemma IndicesCountSteps(es: seq<Event>)
    requires Valid(Init(), es)
    ensures
      var s := Exec(Init(), es);
      && |s.submitted| == multiset(es)[Enqueue] && s.head == multiset(es)[Enqueue] % 128
      && s.reaped == multiset(es)[Reap] && s.tail == multiset(es)[Reap] % 128
      && s.sent == multiset(es)[HwSent]
  {
    RunCountsFrom(Init(), es);
  }

  // ----- The failing runs exist -----

  lemma {:induction false} ExecThen(s: Tx, es: seq<Event>, e: Event)
    requires Shape(s)
    ensures Exec(s, es + [e]) == Next(Exec(s, es), e)
    ensures Valid(s, es) && Enabled(Exec(s, es), e) ==> Valid(s, es + [e])
    ensures Guarded(s, es) && (e.Enqueue? ==> Outstanding(Exec(s, es)) < RING) ==> Guarded(s, es + [e])
    decreases |es|
  {
    if es == [] {
      assert es + [e] == [e];
      assert [e][1..] == [];
    } else {
      assert (es + [e])[1..] == es[1..] + [e];
      ExecThen(Next(s, es[0]), es[1..], e);
    }
  }

  /** The run handed over packets 0 up to n, at addresses 0 up to n, and nothing was reaped. */
  ghost predicate Filled(es: seq<Event>, n: nat) {
    && Valid(Init(), es) && Guarded(Init(), es)
    && var s := Exec(Init(), es);
      && s.staged.None? && s.reaped == 0 && |s.submitted| == n
      && (forall k :: 0 <= k < n ==> s.submitted[k].id < n)
      && (forall a :: a in s.live ==> a < n)
  }

  lemma FillOneMore(es: seq<Event>, n: nat, skb: Skb)
    requires Filled(es, n) && n < RING && skb.id == n
    ensures Filled(es + [MapSkb(skb, n)] + [Enqueue], n + 1)
  {
    var s := Exec(Init(), es);
    assert skb !in s.submitted && n !in s.live;
    ExecThen(Init(), es, MapSkb(skb, n));
    ExecThen(Init(), es + [MapSkb(skb, n)], Enqueue);
  }

  lemma {:induction false} Fill(n: nat) returns (es: seq<Event>)
    requires n <= RING
    ensures Filled(es, n)
  {
    if n == 0 {
      es := [];
    } else {
      var skb := Skb(n - 1, 1, 1);
      es := Fill(n - 1);
      FillOneMore(es, n - 1, skb);
      es := es + [MapSkb(skb, n - 1)] + [Enqueue];
    }
  }

  /** 129 transmits with no interrupt in between lose the first packet. */
  lemma OverflowHappens() returns (es: seq<Event>, skb: Skb, addr: nat)
    ensures Valid(Init(), es) && !Guarded(Init(), es) && Leaked(Exec(Init(), es), skb, addr)
    ensures
      var s := Exec(Init(), es);
      |s.submitted| == 129 && s.submitted[0] == skb && s.freed == [] && Some(skb) !in s.ring && addr in s.live
  {
    es := Fill(RING);
    GuardedRunKeepsInv(Init(), es);
    var s := Exec(Init(), es);
    var extra := MapSkb(Skb(RING, 1, 1), RING);
    assert extra.skb !in s.submitted && extra.addr !in s.live;
    ExecThen(Init(), es, extra);
    MapKeepsInv(s, extra.skb, extra.addr);
    var t := Next(s, extra);
    ExecThen(Init(), es + [extra], Enqueue);
    OverflowLeaksOldest(t);
    skb, addr := t.submitted[t.reaped], t.addrs[t.reaped];
    es := es + [extra] + [Enqueue];
    NoPacketLostIffNeverOverfilled(es);
  }

  /** One non-linear packet, transmitted and reaped, is unmapped with the wrong length. */
  lemma MismatchHappens(skb: Skb, addr: nat) returns (es: seq<Event>)
    requires skb.len != skb.headlen
    ensures Valid(Init(), es) && Guarded(Init(), es) && !Exec(Init(), es).matched
  {
    es := [];
    ExecThen(Init(), es, MapSkb(skb, addr));
    es := es + [MapSkb(skb, addr)];
    ExecThen(Init(), es, Enqueue);
    es := es + [Enqueue];
    ExecThen(Init(), es, HwSent);
    es := es + [HwSent];
    ExecThen(Init(), es, Reap);
    es := es + [Reap];
  }
}
