/** The transmit ring and the interrupt handling of network/nic.c together: a packet reported sent
    raises TX_INTR in one and becomes reapable in the other, and a handler's pass of the completion
    loop reaps the ring. */
module NicSystem {
  import opened Prelude
  import I = NicInterrupt
  import T = NicTransmit

  datatype Sys = Sys(irq: I.Nic, tx: T.Tx)

  datatype Event =
    | Xmit(x: T.Event)
    | Irq(i: I.Event)

  function Opened(): Sys {
    Sys(I.Opened(), T.Init())
  }

  /** The part of an interrupt-side event that the ring sees. */
  function RingEvent(e: I.Event): Option<T.Event> {
    match e
    case Transmitted => Some(T.HwSent)
    case IrqReap(_) => Some(T.Reap)
    case _ => None
  }

  /** Transmits are guarded: a packet is enqueued only while a slot is free. */
  predicate Enabled(s: Sys, e: Event) {
    match e
    case Xmit(x) =>
      (x.MapSkb? || (x.Enqueue? && T.Outstanding(s.tx) < T.RING)) && T.Enabled(s.tx, x)
    case Irq(i) =>
      I.Enabled(s.irq, i) && (RingEvent(i).Some? ==> T.Enabled(s.tx, RingEvent(i).value))
  }

  ghost function Next(s: Sys, e: Event): (t: Sys)
    requires T.Shape(s.tx) && Enabled(s, e)
    ensures T.Shape(t.tx)
  {
    match e
    case Xmit(x) => Sys(s.irq, T.Next(s.tx, x))
    case Irq(i) =>
      Sys(I.Next(s.irq, i), if RingEvent(i).Some? then T.Next(s.tx, RingEvent(i).value) else s.tx)
  }

  ghost predicate Valid(s: Sys, es: seq<Event>)
    requires T.Shape(s.tx)
    decreases |es|
  {
    es == [] || (Enabled(s, es[0]) && Valid(Next(s, es[0]), es[1..]))
  }

  ghost function Exec(s: Sys, es: seq<Event>): (t: Sys)
    requires T.Shape(s.tx) && Valid(s, es)
    ensures T.Shape(t.tx)
    decreases |es|
  {
    if es == [] then s else Exec(Next(s, es[0]), es[1..])
  }

  /** Both sides agree on how many packets were sent and reaped. */
  ghost predicate Inv(s: Sys) {
    I.Inv(s.irq) && T.Inv(s.tx) && s.irq.sent == s.tx.sent && s.irq.reaped == s.tx.reaped
  }

  lemma IrqCounts(s: I.Nic, i: I.Event)
    requires I.Enabled(s, i)
    ensures I.Next(s, i).sent == s.sent + if i.Transmitted? then 1 else 0
    ensures I.Next(s, i).reaped == s.reaped + if i.IrqReap? then 1 else 0
  {
    match i
    case IrqAck(h) =>
    case IrqSchedule(h) =>
      assert I.NapiSchedule(s).sent == s.sent && I.NapiSchedule(s).reaped == s.reaped;
    case _ =>
  }

  lemma RingCounts(s: T.Tx, x: T.Event)
    requires T.Shape(s)
    ensures T.Next(s, x).sent == s.sent + if x.HwSent? then 1 else 0
    ensures T.Next(s, x).reaped == s.reaped + if x.Reap? then 1 else 0
  {
  }

  lemma RingKeepsInv(s: T.Tx, i: I.Event)
    requires T.Inv(s) && RingEvent(i).Some? && T.Enabled(s, RingEvent(i).value)
    ensures T.Inv(T.Next(s, RingEvent(i).value))
  {
    T.StepKeepsInv(s, RingEvent(i).value);
  }

  lemma StepKeepsInv(s: Sys, e: Event)
    requires Inv(s) && Enabled(s, e)
    ensures Inv(Next(s, e))
  {
    match e
    case Xmit(x) =>
      T.StepKeepsInv(s.tx, x);
      RingCounts(s.tx, x);
    case Irq(i) =>
      I.StepKeepsInv(s.irq, i);
      IrqCounts(s.irq, i);
      if RingEvent(i).Some? {
        RingKeepsInv(s.tx, i);
        RingCounts(s.tx, RingEvent(i).value);
      }
  }

  lemma {:induction false} RunKeepsInv(s: Sys, es: seq<Event>)
    requires Inv(s) && Valid(s, es)
    ensures Inv(Exec(s, es))
    decreases |es|
  {
    if es != [] {
      StepKeepsInv(s, es[0]);
      RunKeepsInv(Next(s, es[0]), es[1..]);
    }
  }

  ghost predicate ReachableFrom(s0: Sys, s: Sys)
    requires T.Shape(s0.tx)
  {
    exists es :: Valid(s0, es) && Exec(s0, es) == s
  }

  ghost predicate Reachable(s: Sys) {
    ReachableFrom(Opened(), s)
  }

  lemma OpenedInv()
    ensures Inv(Opened())
  {
    assert T.Inv(T.Init());
    assert I.Inv(I.Opened());
  }

  lemma ReachableFromInv(s0: Sys, s: Sys)
    requires Inv(s0) && ReachableFrom(s0, s)
    ensures Inv(s)
  {
    var es :| Valid(s0, es) && Exec(s0, es) == s;
    RunKeepsInv(s0, es);
  }

  lemma ReachableInv(s: Sys)
    requires Reachable(s)
    ensures Inv(s)
  {
    OpenedInv();
    ReachableFromInv(Opened(), s);
  }

  /** Whenever a packet was reported sent and not yet reaped, a handler is on its way to it, and the
      slot that handler will look at holds that packet with its own live mapping. */
  lemma SentPacketsStayReapable(s: Sys)
    requires Reachable(s) && s.tx.reaped < s.tx.sent
    ensures s.irq.txIntr || I.ReapOwed(s.irq)
    ensures s.tx.sent <= |s.tx.submitted| == |s.tx.addrs|
    ensures s.tx.ring[s.tx.tail] == Some(s.tx.submitted[s.tx.reaped])
    ensures s.tx.desc[s.tx.tail] == s.tx.addrs[s.tx.reaped] && s.tx.addrs[s.tx.reaped] in s.tx.live
  {
    ReachableInv(s);
    T.TailSlotIsOldest(s.tx);
    assert s.tx.addrs[s.tx.reaped] in T.AddrsFrom(s.tx.addrs, s.tx.reaped);
  }

  // ----- Handlers alone can reap everything that was sent -----

  ghost predicate HandlerOnly(e: Event) {
    e.Irq? && (e.i.IrqEnter? || e.i.IrqRead? || e.i.IrqAck? || e.i.IrqSchedule? || e.i.IrqReap?)
  }

  ghost predicate Reaches(s: Sys, es: seq<Event>, sent: nat)
    requires T.Shape(s.tx)
  {
    && Valid(s, es) && (forall k :: 0 <= k < |es| ==> HandlerOnly(es[k]))
    && Inv(Exec(s, es)) && Exec(s, es).tx.reaped == sent
    && Exec(s, es).tx.submitted == s.tx.submitted && Exec(s, es).tx.addrs == s.tx.addrs
  }

  lemma Prepend(s: Sys, e: Event, rest: seq<Event>, sent: nat)
    requires T.Shape(s.tx) && Enabled(s, e) && HandlerOnly(e) && Reaches(Next(s, e), rest, sent)
    ensures Reaches(s, [e] + rest, sent)
  {
    assert ([e] + rest)[1..] == rest;
  }

  lemma {:induction false} ReapFromLoop(s: Sys, h: nat) returns (es: seq<Event>)
    requires Inv(s) && h in s.irq.handlers && s.irq.handlers[h].Reaping?
    ensures Reaches(s, es, s.tx.sent)
    decreases s.tx.sent - s.tx.reaped
  {
    if s.tx.reaped == s.tx.sent {
      es := [];
    } else {
      var e := Irq(I.IrqReap(h));
      StepKeepsInv(s, e);
      var rest := ReapFromLoop(Next(s, e), h);
      Prepend(s, e, rest, s.tx.sent);
      es := [e] + rest;
    }
  }

  lemma ReapFromAcked(s: Sys, h: nat) returns (es: seq<Event>)
    requires Inv(s) && h in s.irq.handlers && s.irq.handlers[h].Acked? && s.irq.handlers[h].tx
    ensures Reaches(s, es, s.tx.sent)
  {
    var e := Irq(I.IrqSchedule(h));
    StepKeepsInv(s, e);
    var rest := ReapFromLoop(Next(s, e), h);
    Prepend(s, e, rest, s.tx.sent);
    es := [e] + rest;
  }

  lemma ReapFromRead(s: Sys, h: nat) returns (es: seq<Event>)
    requires Inv(s) && h in s.irq.handlers && s.irq.handlers[h].StatusRead? && s.irq.handlers[h].tx
    ensures Reaches(s, es, s.tx.sent)
  {
    var e := Irq(I.IrqAck(h));
    StepKeepsInv(s, e);
    var rest := ReapFromAcked(Next(s, e), h);
    Prepend(s, e, rest, s.tx.sent);
    es := [e] + rest;
  }

  lemma ReapFromRaised(s: Sys) returns (es: seq<Event>)
    requires Inv(s) && s.irq.txIntr
    ensures Reaches(s, es, s.tx.sent)
  {
    var h := FreshId(s.irq.handlers.Keys);
    var enter, read := Irq(I.IrqEnter(h)), Irq(I.IrqRead(h));
    StepKeepsInv(s, enter);
    var t := Next(s, enter);
    StepKeepsInv(t, read);
    var rest := ReapFromRead(Next(t, read), h);
    Prepend(t, read, rest, s.tx.sent);
    Prepend(s, enter, [read] + rest, s.tx.sent);
    es := [enter] + ([read] + rest);
  }

  lemma ReapAll(s: Sys) returns (es: seq<Event>)
    requires Inv(s)
    ensures Reaches(s, es, s.tx.sent)
  {
    if s.tx.reaped == s.tx.sent {
      es := [];
    } else if s.irq.txIntr {
      es := ReapFromRaised(s);
    } else {
      var h :| h in s.irq.handlers && I.OwesReap(s.irq.handlers[h]);
      match s.irq.handlers[h] {
        case Reaping => es := ReapFromLoop(s, h);
        case Acked(_, _) => es := ReapFromAcked(s, h);
        case StatusRead(_, _) => es := ReapFromRead(s, h);
      }
    }
  }

  /** From every reachable state, handler steps alone can free all packets reported sent, unmap each
      at its own address, and leave mapped exactly the packets not yet sent and the staged one. */
  lemma SentPacketsCanBeFreed(s: Sys) returns (es: seq<Event>)
    requires Reachable(s)
    ensures T.Shape(s.tx) && Valid(s, es) && forall k :: 0 <= k < |es| ==> HandlerOnly(es[k])
    ensures s.tx.sent <= |s.tx.submitted| == |s.tx.addrs|
    ensures Exec(s, es).tx.freed == s.tx.submitted[..s.tx.sent]
    ensures Exec(s, es).tx.unmapped == s.tx.addrs[..s.tx.sent]
    ensures Exec(s, es).tx.live.Keys ==
            T.AddrsFrom(s.tx.addrs, s.tx.sent) + T.StagedAddr(Exec(s, es).tx)
  {
    ReachableInv(s);
    es := ReapAll(s);
  }
}
