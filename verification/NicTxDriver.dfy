/** The in-place transmit code of network/nic.c, proved to take exactly the steps of the
    transition system in NicTransmit. */
module NicTxDriver {
  import opened Prelude
  import opened NicTransmit

  /** What one call of the reap loop does when the hardware reports `n` packets sent. */
  function Reaps(n: nat): seq<Event> {
    seq(n, _ => Reap)
  }

  lemma ReapsOneMore(s: Tx, n: nat)
    requires Shape(s)
    ensures Exec(s, Reaps(n + 1)) == Next(Exec(s, Reaps(n)), Reap)
  {
    ExecThen(s, Reaps(n), Reap);
    assert Reaps(n) + [Reap] == Reaps(n + 1);
  }

  lemma {:induction false} ReapsCount(s: Tx, n: nat)
    requires Shape(s)
    ensures
      var t := Exec(s, Reaps(n));
      && t.reaped == s.reaped + n && t.tail == (s.tail + n) % RING
      && t.sent == s.sent && t.submitted == s.submitted && t.addrs == s.addrs
  {
    if n > 0 {
      ReapsCount(s, n - 1);
      ReapsOneMore(s, n - 1);
      NextSlot(s.tail + n - 1);
    }
  }

  lemma {:induction false} ReapsKeepInv(s: Tx, n: nat)
    requires Inv(s) && s.reaped + n <= s.sent
    ensures Inv(Exec(s, Reaps(n)))
  {
    if n > 0 {
      ReapsKeepInv(s, n - 1);
      ReapsCount(s, n - 1);
      ReapsOneMore(s, n - 1);
      StepKeepsInv(Exec(s, Reaps(n - 1)), Reap);
    }
  }

  lemma ReapsFree(s: Tx, n: nat)
    requires Shape(s)
    ensures
      var t := Exec(s, Reaps(n));
      Inv(s) && s.reaped + n <= s.sent ==>
        && s.sent <= |s.submitted| == |s.addrs|
        && t.freed == s.submitted[..s.reaped + n] && t.unmapped == s.addrs[..s.reaped + n]
  {
    if Inv(s) && s.reaped + n <= s.sent {
      ReapsCount(s, n);
      ReapsKeepInv(s, n);
    }
  }

  class MyNicPriv {
    var txSkbuff: array<Option<Skb>>
    var txDesc: array<nat>
    var txHead: int
    var txTail: int
    var staged: Option<Staged>
    var live: map<nat, nat>
    ghost var submitted: seq<Skb>
    ghost var addrs: seq<nat>
    ghost var sent: nat
    ghost var reaped: nat
    ghost var freed: seq<Skb>
    ghost var unmapped: seq<nat>
    ghost var matched: bool

    ghost predicate Wf()
      reads this
    {
      && txSkbuff.Length == RING && txDesc.Length == RING
      && 0 <= txHead < RING && 0 <= txTail < RING
    }

    ghost function View(): (s: Tx)
      requires Wf()
      reads this, txSkbuff, txDesc
      ensures Shape(s)
    {
      Tx(txSkbuff[..], txDesc[..], txHead, txTail, staged, live, submitted, addrs, sent, reaped, freed, unmapped, matched)
    }

    /** The private area comes zeroed from alloc_etherdev. */
    constructor ()
      ensures Wf() && View() == Init()
      ensures fresh(txSkbuff) && fresh(txDesc)
    {
      txSkbuff := new Option<Skb>[RING](_ => None);
      txDesc := new nat[RING](_ => 0);
      txHead, txTail := 0, 0;
      staged, live := None, map[];
      submitted, addrs, sent, reaped, freed, unmapped, matched := [], [], 0, 0, [], [], true;
      new;
      assert txSkbuff[..] == Init().ring;
      assert txDesc[..] == Init().desc;
    }

    /** dma_map_single, before the lock is taken; `addr` is the bus address it returns. */
    method MapForDevice(skb: Skb, addr: nat)
      requires Wf()
      modifies this`staged, this`live
      ensures Wf() && View() == Next(old(View()), MapSkb(skb, addr))
    {
      staged := Some(Staged(skb, addr));
      live := live[addr := skb.headlen];
    }

    /** The locked region of the transmit function. */
    method PlaceOnRing(skb: Skb, addr: nat)
      requires Wf() && staged == Some(Staged(skb, addr))
      modifies this`txHead, this`staged, this`submitted, this`addrs, txSkbuff, txDesc
      ensures Wf() && View() == Next(old(View()), Enqueue)
    {
      txDesc[txHead] := addr;
      txSkbuff[txHead] := Some(skb);
      txHead := (txHead + 1) % RING;
      staged := None;
      submitted := submitted + [skb];
      addrs := addrs + [addr];
      assert txSkbuff[..] == Next(old(View()), Enqueue).ring;
      assert txDesc[..] == Next(old(View()), Enqueue).desc;
    }

    /** mynic_start_xmit: it performs no test for a full ring. */
    method StartXmit(skb: Skb, addr: nat)
      requires Wf()
      modifies this, txSkbuff, txDesc
      ensures Wf() && unchanged(`txSkbuff) && unchanged(`txDesc)
      ensures View() == Exec(old(View()), [MapSkb(skb, addr), Enqueue])
    {
      MapForDevice(skb, addr);
      PlaceOnRing(skb, addr);
      ExecThen(old(View()), [MapSkb(skb, addr)], Enqueue);
      assert [MapSkb(skb, addr)] + [Enqueue] == [MapSkb(skb, addr), Enqueue];
      ExecThen(old(View()), [], MapSkb(skb, addr));
      assert [] + [MapSkb(skb, addr)] == [MapSkb(skb, addr)];
    }

    method UnmapAndFree(skb: Skb, addr: nat, idx: nat)
      requires idx < txSkbuff.Length
      modifies this`live, this`freed, this`unmapped, this`matched, txSkbuff
      ensures matched == (old(matched) && addr in old(live) && old(live)[addr] == skb.len)
      ensures live == old(live) - {addr} && freed == old(freed) + [skb] && unmapped == old(unmapped) + [addr]
      ensures txSkbuff[..] == old(txSkbuff[..])[idx := None]
    {
      matched := matched && addr in live && live[addr] == skb.len;
      live := live - {addr};
      freed := freed + [skb];
      unmapped := unmapped + [addr];
      txSkbuff[idx] := None;
    }

    /** One pass of the completion loop: unmap, free and clear the slot if it is not NULL, then
        advance the tail. */
    method ReapOne()
      requires Wf()
      modifies this`txTail, this`live, this`reaped, this`freed, this`unmapped, this`matched, txSkbuff
      ensures Wf() && View() == Next(old(View()), Reap)
    {
      ghost var before := View();
      var idx := txTail;
      var skb := txSkbuff[idx];
      assert skb == before.ring[before.tail];
      if skb.Some? {
        var addr := txDesc[idx];
        assert addr == before.desc[before.tail];
        UnmapAndFree(skb.value, addr, idx);
      } else {
        assert txSkbuff[..] == before.ring;
      }
      txTail := (txTail + 1) % RING;
      reaped := reaped + 1;
      assert txDesc[..] == before.desc;
    }

    /** The completion loop of mynic_interrupt; the loop test, a comment in the source, is the
        number of packets the hardware reports. On a ring that was never overfilled the reported
        packets, and no others, are freed and unmapped at their own addresses. */
    method CompleteTransmits(reported: nat)
      requires Wf()
      modifies this, txSkbuff
      ensures Wf() && unchanged(`txSkbuff) && unchanged(`txDesc)
      ensures View() == Exec(old(View()), Reaps(reported))
      ensures reaped == old(reaped) + reported && txTail == (old(txTail) + reported) % 128
      ensures submitted == old(submitted) && addrs == old(addrs)
      ensures old(Inv(View())) && old(reaped) + reported <= sent ==>
                && sent <= |submitted| == |addrs|
                && freed == submitted[..old(reaped) + reported]
                && unmapped == addrs[..old(reaped) + reported]
    {
      var n := 0;
      while n < reported
        invariant 0 <= n <= reported
        invariant Wf() && unchanged(`txSkbuff) && unchanged(`txDesc)
        invariant View() == Exec(old(View()), Reaps(n))
      {
        ReapOne();
        ReapsOneMore(old(View()), n);
        n := n + 1;
      }
      ReapsCount(old(View()), reported);
      ReapsFree(old(View()), reported);
    }
  }
}
