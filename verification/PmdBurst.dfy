/** The burst functions of network/dpdk/pmd.c in place. */
module PmdBurst {
  import opened PmdRings

  type U16 = n: int | 0 <= n < 0x1_0000

  class RxQueue<T(0)> {
    var rxRing: array<T>
    var rxHead: U16

    constructor Setup(nbDesc: U16, zero: T)
      ensures fresh(rxRing) && rxRing.Length == nbDesc && rxHead == 0
      ensures forall i :: 0 <= i < nbDesc ==> rxRing[i] == zero
    {
      rxRing := new T[nbDesc](_ => zero);
      rxHead := 0;
    }

    /** my_pmd_rx_burst with `avail` descriptors ready. The precondition on the indices is exactly
        the memory safety of the loop; PmdRings tells when it holds. */
    method Burst(rxPkts: array<T>, nbPkts: U16, avail: nat) returns (received: U16)
      requires rxHead < NB_DESC && nbPkts <= rxPkts.Length && rxPkts != rxRing
      requires forall k :: 0 <= k < Min(nbPkts, avail) ==> SlotAt(rxHead, k) < rxRing.Length
      modifies this`rxHead, rxPkts
      ensures received <= nbPkts && received <= avail && (received == nbPkts || received == avail)
      ensures rxHead == SlotAt(old(rxHead), received)
      ensures forall k :: 0 <= k < received ==>
                SlotAt(old(rxHead), k) < rxRing.Length && rxPkts[k] == rxRing[SlotAt(old(rxHead), k)]
      ensures forall k :: received <= k < rxPkts.Length ==> rxPkts[k] == old(rxPkts[k])
    {
      received := 0;
      while received < nbPkts && received < avail
        invariant 0 <= received <= Min(nbPkts, avail)
        invariant rxHead == (old(rxHead) + received) % NB_DESC
        invariant forall k :: 0 <= k < received ==>
                    SlotAt(old(rxHead), k) < rxRing.Length && rxPkts[k] == rxRing[SlotAt(old(rxHead), k)]
        invariant forall k :: received <= k < rxPkts.Length ==> rxPkts[k] == old(rxPkts[k])
      {
        WrapOnce(old(rxHead) + received, 1);
        assert SlotAt(old(rxHead), received) < rxRing.Length;
        var mbuf := rxRing[rxHead];
        rxHead := (rxHead + 1) % NB_DESC;
        rxPkts[received] := mbuf;
        received := received + 1;
      }
    }

    /** When all descriptors that are ready lie inside the ring, as they do on a queue of full size,
        the burst is a Get of the bounded FIFO. */
    method BurstAsFifo(rxPkts: array<T>, nbPkts: U16, avail: nat) returns (received: U16)
      requires rxHead < NB_DESC && nbPkts <= rxPkts.Length && rxPkts != rxRing
      requires avail <= NB_DESC && Fits(rxRing.Length, rxHead, avail)
      modifies this`rxHead, rxPkts
      ensures received <= nbPkts && received <= avail && (received == nbPkts || received == avail)
      ensures Wf(Ring(rxRing[..], rxHead, avail - received))
      ensures rxPkts[..received] == old(Contents(Ring(rxRing[..], rxHead, avail)))[..received]
      ensures Contents(Ring(rxRing[..], rxHead, avail - received)) ==
              old(Contents(Ring(rxRing[..], rxHead, avail)))[received..]
    {
      ghost var r := Ring(rxRing[..], rxHead, avail);
      received := Burst(rxPkts, nbPkts, avail);
      PopDrops(r, received);
      assert Ring(rxRing[..], rxHead, avail - received) == Pop(r, received);
      assert rxRing[..] == r.slots;
      assert forall k :: 0 <= k < received ==> rxPkts[k] == At(r, k);
      assert rxPkts[..received] == Contents(r)[..received];
    }
  }

  class TxQueue<T(0)> {
    var txRing: array<T>
    var txTail: U16

    constructor Setup(nbDesc: U16, zero: T)
      ensures fresh(txRing) && txRing.Length == nbDesc && txTail == 0
      ensures forall i :: 0 <= i < nbDesc ==> txRing[i] == zero
    {
      txRing := new T[nbDesc](_ => zero);
      txTail := 0;
    }

    /** One pass of the transmit loop. */
    method Place(mbuf: T, ghost head: nat, ghost count: nat)
      requires head < NB_DESC && count < NB_DESC && Fits(txRing.Length, head, count + 1)
      requires txTail == SlotAt(head, count)
      modifies this`txTail, txRing
      ensures txTail == SlotAt(head, count + 1)
      ensures Ring(txRing[..], head, count + 1) == Push(old(Ring(txRing[..], head, count)), mbuf)
    {
      WrapOnce(head + count, 1);
      txRing[txTail] := mbuf;
      txTail := (txTail + 1) % NB_DESC;
    }

    /** my_pmd_tx_burst with the hardware side at `head` and `count` descriptors outstanding: a Put of
        the bounded FIFO. The precondition on the slots is the memory safety of the loop; PmdRings
        tells when it holds. */
    method Burst(txPkts: array<T>, nbPkts: U16, ghost head: nat, count: nat) returns (sent: U16)
      requires head < NB_DESC && count <= NB_DESC
      requires Fits(txRing.Length, head, count + Min(nbPkts, NB_DESC - count))
      requires txTail == SlotAt(head, count)
      requires nbPkts <= txPkts.Length && txPkts != txRing
      modifies this`txTail, txRing
      ensures sent <= nbPkts && sent <= 1024 - count && (sent == nbPkts || sent == 1024 - count)
      ensures txTail == SlotAt(head, count + sent)
      ensures Ring(txRing[..], head, count + sent) == PushAll(old(Ring(txRing[..], head, count)), txPkts[..sent])
      ensures Contents(Ring(txRing[..], head, count + sent)) ==
              old(Contents(Ring(txRing[..], head, count))) + txPkts[..sent]
    {
      ghost var r := Ring(txRing[..], head, count);
      ghost var pkts := txPkts[..nbPkts];
      sent := 0;
      while sent < nbPkts && count + sent < NB_DESC
        invariant 0 <= sent <= Min(nbPkts, NB_DESC - count)
        invariant txTail == SlotAt(head, count + sent)
        invariant Ring(txRing[..], head, count + sent) == PushAll(r, pkts[..sent])
      {
        Place(txPkts[sent], head, count + sent);
        PushAllSnoc(r, pkts[..sent], pkts[sent]);
        assert pkts[..sent] + [pkts[sent]] == pkts[..sent + 1];
        sent := sent + 1;
      }
      assert pkts[..sent] == txPkts[..sent];
      PushAllAppends(r, txPkts[..sent]);
    }
  }
}
