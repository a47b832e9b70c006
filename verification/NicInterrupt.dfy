/** Interrupt handling and NAPI polling of network/nic.c as a transition system.

    The status register is written to acknowledge exactly the bits that were read, and hardware may
    raise a bit at any moment, also between the handler's read and its write. Any number of handler
    activations may overlap. napi_schedule on a context that is already scheduled is remembered
    (`missed`) and honoured by napi_complete_done. The tests that the source leaves as comments
    ("packets available", "hardware reports packets sent") are the queues of this model. */
module NicInterrupt {
  import opened Prelude

  datatype Handler =
    | Entered
    | StatusRead(rx: bool, tx: bool)
    | Acked(rx: bool, tx: bool)
    | Reaping

  datatype Napi =
    | Idle
    | Scheduled
    | Polling(budget: nat, done: nat)
    | Completing(budget: nat, done: nat, noMemory: bool)

  /** One finished poll: its budget, its return value, and whether it called napi_complete_done. */
  datatype PollResult = PollResult(budget: nat, count: nat, completed: bool)

  datatype Nic = Nic(
    rxIntr: bool,
    txIntr: bool,
    arrivals: seq<nat>,
    delivered: seq<nat>,
    sent: nat,
    reaped: nat,
    handlers: map<nat, Handler>,
    napi: Napi,
    missed: bool,
    starved: bool,
    polls: seq<PollResult>)

  datatype Event =
    | Arrive(packet: nat)
    | Transmitted
    | IrqEnter(h: nat)
    | IrqRead(h: nat)
    | IrqAck(h: nat)
    | IrqSchedule(h: nat)
    | IrqReap(h: nat)
    | IrqReturn(h: nat)
    | PollStart(budget: nat)
    | PollDeliver
    | PollNoMemory
    | PollDrained
    | PollBudgetSpent
    | PollComplete

  /** mynic_open on an empty receive ring. */
  function Opened(): Nic {
    Nic(false, false, [], [], 0, 0, map[], Idle, false, false, [])
  }

  predicate Enabled(s: Nic, e: Event) {
    match e
    case Arrive(_) => true
    case Transmitted => true
    case IrqEnter(h) => h !in s.handlers
    case IrqRead(h) => h in s.handlers && s.handlers[h].Entered?
    case IrqAck(h) => h in s.handlers && s.handlers[h].StatusRead?
    case IrqSchedule(h) => h in s.handlers && s.handlers[h].Acked?
    case IrqReap(h) => h in s.handlers && s.handlers[h].Reaping? && s.reaped < s.sent
    case IrqReturn(h) => h in s.handlers && s.handlers[h].Reaping? && s.reaped >= s.sent
    case PollStart(_) => s.napi.Scheduled?
    case PollDeliver => s.napi.Polling? && s.napi.done < s.napi.budget && |s.delivered| < |s.arrivals|
    case PollNoMemory => s.napi.Polling? && s.napi.done < s.napi.budget && |s.delivered| < |s.arrivals|
    case PollDrained => s.napi.Polling? && s.napi.done < s.napi.budget && |s.delivered| >= |s.arrivals|
    case PollBudgetSpent => s.napi.Polling? && s.napi.done >= s.napi.budget
    case PollComplete => s.napi.Completing?
  }

  function NapiSchedule(s: Nic): Nic {
    if s.napi.Idle? then s.(napi := Scheduled) else s.(missed := true)
  }

  function Next(s: Nic, e: Event): Nic
    requires Enabled(s, e)
  {
    match e
    case Arrive(p) => s.(arrivals := s.arrivals + [p], rxIntr := true)
    case Transmitted => s.(sent := s.sent + 1, txIntr := true)
    case IrqEnter(h) => s.(handlers := s.handlers[h := Entered])
    case IrqRead(h) => s.(handlers := s.handlers[h := StatusRead(s.rxIntr, s.txIntr)])
    case IrqAck(h) =>
      var StatusRead(rx, tx) := s.handlers[h];
      s.(handlers := s.handlers[h := Acked(rx, tx)], rxIntr := s.rxIntr && !rx, txIntr := s.txIntr && !tx)
    case IrqSchedule(h) =>
      var Acked(rx, tx) := s.handlers[h];
      var t := if rx then NapiSchedule(s) else s;
      t.(handlers := if tx then s.handlers[h := Reaping] else s.handlers - {h})
    case IrqReap(h) => s.(reaped := s.reaped + 1)
    case IrqReturn(h) => s.(handlers := s.handlers - {h})
    case PollStart(budget) => s.(napi := Polling(budget, 0))
    case PollDeliver =>
      s.(delivered := s.delivered + [s.arrivals[|s.delivered|]],
         napi := Polling(s.napi.budget, s.napi.done + 1))
    case PollNoMemory => s.(napi := Completing(s.napi.budget, s.napi.done, true))
    case PollDrained => s.(napi := Completing(s.napi.budget, s.napi.done, false))
    case PollBudgetSpent =>
      s.(napi := Scheduled, polls := s.polls + [PollResult(s.napi.budget, s.napi.done, false)])
    case PollComplete =>
      s.(napi := if s.missed then Scheduled else Idle,
         missed := false,
         starved := s.napi.noMemory,
         polls := s.polls + [PollResult(s.napi.budget, s.napi.done, true)])
  }

  ghost predicate Valid(s: Nic, es: seq<Event>)
    decreases |es|
  {
    es == [] || (Enabled(s, es[0]) && Valid(Next(s, es[0]), es[1..]))
  }

  ghost function Exec(s: Nic, es: seq<Event>): Nic
    requires Valid(s, es)
    decreases |es|
  {
    if es == [] then s else Exec(Next(s, es[0]), es[1..])
  }

  // ----- Invariant -----

  predicate OwesSchedule(p: Handler) {
    (p.StatusRead? || p.Acked?) && p.rx
  }

  predicate OwesReap(p: Handler) {
    p.Reaping? || ((p.StatusRead? || p.Acked?) && p.tx)
  }

  /** Some handler has seen the receive bit and has yet to call napi_schedule. */
  ghost predicate ScheduleOwed(s: Nic) {
    exists h :: h in s.handlers && OwesSchedule(s.handlers[h])
  }

  /** Some handler has seen the transmit bit and has yet to leave the completion loop. */
  ghost predicate ReapOwed(s: Nic) {
    exists h :: h in s.handlers && OwesReap(s.handlers[h])
  }

  predicate Waiting(s: Nic) {
    |s.delivered| < |s.arrivals|
  }

  function Sum(ps: seq<PollResult>): nat {
    if ps == [] then 0 else Sum(ps[..|ps| - 1]) + ps[|ps| - 1].count
  }

  function InProgress(n: Napi): nat {
    if n.Polling? || n.Completing? then n.done else 0
  }

  ghost predicate RxCovered(s: Nic) {
    Waiting(s) && ((s.napi.Idle? && !s.starved) || (s.napi.Completing? && !s.napi.noMemory)) ==>
      s.rxIntr || ScheduleOwed(s) || s.missed
  }

  ghost predicate TxCovered(s: Nic) {
    s.reaped < s.sent ==> s.txIntr || ReapOwed(s)
  }

  ghost predicate DeliveryOk(s: Nic) {
    && s.delivered <= s.arrivals
    && (s.napi.Polling? ==> s.napi.done <= s.napi.budget)
    && (s.napi.Completing? ==> s.napi.done < s.napi.budget && (s.napi.noMemory ==> Waiting(s)))
  }

  ghost predicate PollOk(p: PollResult) {
    p.count <= p.budget && (p.completed <==> p.count < p.budget)
  }

  ghost predicate AllPollsOk(ps: seq<PollResult>) {
    forall i :: 0 <= i < |ps| ==> PollOk(ps[i])
  }

  ghost predicate PollLogOk(s: Nic) {
    && Sum(s.polls) + InProgress(s.napi) == |s.delivered|
    && AllPollsOk(s.polls)
  }

  ghost predicate Inv(s: Nic) {
    && (s.missed ==> !s.napi.Idle?)
    && s.reaped <= s.sent
    && RxCovered(s)
    && TxCovered(s)
    && DeliveryOk(s)
    && PollLogOk(s)
  }

  lemma DeliveryStep(s: Nic, e: Event)
    requires DeliveryOk(s) && Enabled(s, e)
    ensures DeliveryOk(Next(s, e))
  {
  }

  lemma LogExtends(ps: seq<PollResult>, p: PollResult)
    requires AllPollsOk(ps) && PollOk(p)
    ensures Sum(ps + [p]) == Sum(ps) + p.count && AllPollsOk(ps + [p])
  {
    assert (ps + [p])[..|ps|] == ps;
  }

  lemma PollEnds(s: Nic, e: Event)
    requires DeliveryOk(s) && PollLogOk(s) && Enabled(s, e) && (e.PollBudgetSpent? || e.PollComplete?)
    ensures PollLogOk(Next(s, e))
  {
    LogExtends(s.polls, PollResult(s.napi.budget, s.napi.done, e.PollComplete?));
  }

  lemma PollLogStep(s: Nic, e: Event)
    requires DeliveryOk(s) && PollLogOk(s) && Enabled(s, e)
    ensures PollLogOk(Next(s, e))
  {
    if e.PollBudgetSpent? || e.PollComplete? {
      PollEnds(s, e);
    } else {
      var t := Next(s, e);
      assert t.polls == s.polls;
      assert |t.delivered| - |s.delivered| == InProgress(t.napi) - InProgress(s.napi);
    }
  }

  lemma RxCoveredStep(s: Nic, e: Event)
    requires (s.missed ==> !s.napi.Idle?) && RxCovered(s) && Enabled(s, e)
    ensures RxCovered(Next(s, e))
  {
    var t := Next(s, e);
    if ScheduleOwed(s) {
      var h :| h in s.handlers && OwesSchedule(s.handlers[h]);
      assert (h in t.handlers && OwesSchedule(t.handlers[h])) || (e.IrqSchedule? && e.h == h);
    }
    if e.IrqAck? {
      assert t.handlers[e.h].rx ==> OwesSchedule(t.handlers[e.h]);
    }
  }

  lemma TxCoveredStep(s: Nic, e: Event)
    requires TxCovered(s) && Enabled(s, e)
    ensures TxCovered(Next(s, e))
  {
    var t := Next(s, e);
    if ReapOwed(s) {
      var h :| h in s.handlers && OwesReap(s.handlers[h]);
      assert (h in t.handlers && OwesReap(t.handlers[h])) || (e.IrqReturn? && e.h == h);
    }
    if e.IrqAck? {
      assert t.handlers[e.h].tx ==> OwesReap(t.handlers[e.h]);
    }
  }

  lemma StepKeepsInv(s: Nic, e: Event)
    requires Inv(s) && Enabled(s, e)
    ensures Inv(Next(s, e))
  {
    DeliveryStep(s, e);
    PollLogStep(s, e);
    RxCoveredStep(s, e);
    TxCoveredStep(s, e);
  }

  lemma {:induction false} RunKeepsInv(s: Nic, es: seq<Event>)
    requires Inv(s) && Valid(s, es)
    ensures Inv(Exec(s, es))
    decreases |es|
  {
    if es != [] {
      StepKeepsInv(s, es[0]);
      RunKeepsInv(Next(s, es[0]), es[1..]);
    }
  }

  /** States that some run leads to after the interface is opened. */
  ghost predicate Reachable(s: Nic) {
    exists es :: Valid(Opened(), es) && Exec(Opened(), es) == s
  }

  lemma ReachableInv(s: Nic)
    requires Reachable(s)
    ensures Inv(s)
  {
    var es :| Valid(Opened(), es) && Exec(Opened(), es) == s;
    RunKeepsInv(Opened(), es);
  }

  // ----- Main results -----

  /** No interrupt is lost in any interleaving, even when hardware raises a bit between the
      handler's read of the status and the write that acknowledges it. */
  lemma NoInterruptIsLost(s: Nic)
    requires Reachable(s)
    ensures s.napi.Idle? && Waiting(s) ==> s.rxIntr || ScheduleOwed(s) || s.starved
    ensures s.reaped < s.sent ==> s.txIntr || ReapOwed(s)
  {
    ReachableInv(s);
  }

  /** Over any polls, with any budgets, allocation failures and concurrent arrivals, what was
      delivered is a prefix of what arrived, the return values add up to it, and a poll completes
      exactly when it returns less than its budget. */
  lemma PollsDeliverInOrder(s: Nic)
    requires Reachable(s)
    ensures s.delivered <= s.arrivals
    ensures |s.delivered| == Sum(s.polls) + InProgress(s.napi)
    ensures forall i :: 0 <= i < |s.polls| ==>
              && s.polls[i].count <= s.polls[i].budget
              && (s.polls[i].completed <==> s.polls[i].count < s.polls[i].budget)
  {
    ReachableInv(s);
    assert forall i :: 0 <= i < |s.polls| ==> PollOk(s.polls[i]);
  }

  /** Packets wait, but no poll is scheduled or under way and nothing is left to schedule one. */
  ghost predicate Stranded(s: Nic) {
    && (s.napi.Idle? || s.napi.Completing?)
    && Waiting(s) && !s.rxIntr && !ScheduleOwed(s) && !s.missed
  }

  ghost predicate Quiet(es: seq<Event>) {
    forall i :: 0 <= i < |es| ==> !es[i].Arrive?
  }

  lemma StrandedStep(s: Nic, e: Event)
    requires Stranded(s) && Enabled(s, e) && !e.Arrive?
    ensures Stranded(Next(s, e)) && Next(s, e).delivered == s.delivered
  {
    var t := Next(s, e);
    forall h | h in t.handlers
      ensures !OwesSchedule(t.handlers[h])
    {
      assert h in s.handlers ==> !OwesSchedule(s.handlers[h]);
    }
  }

  lemma {:induction false} StrandedUntilArrival(s: Nic, es: seq<Event>)
    requires Stranded(s) && Valid(s, es) && Quiet(es)
    ensures Stranded(Exec(s, es)) && Exec(s, es).delivered == s.delivered
    decreases |es|
  {
    if es != [] {
      StrandedStep(s, es[0]);
      StrandedUntilArrival(Next(s, es[0]), es[1..]);
    }
  }

  /** The only step that strands packets is the allocation failure inside the poll loop, and it
      does so exactly when no further interrupt is raised, owed or remembered. */
  lemma OnlyAllocationFailureStrands(s: Nic, e: Event)
    requires Reachable(s) && Enabled(s, e) && !Stranded(s)
    ensures Stranded(Next(s, e)) <==> e.PollNoMemory? && !s.rxIntr && !ScheduleOwed(s) && !s.missed
  {
    ReachableInv(s);
    StrandsOnlyByFailure(s, e);
  }

  lemma StrandsOnlyByFailure(s: Nic, e: Event)
    requires Inv(s) && Enabled(s, e) && !Stranded(s)
    ensures Stranded(Next(s, e)) <==> e.PollNoMemory? && !s.rxIntr && !ScheduleOwed(s) && !s.missed
  {
    StepKeepsInv(s, e);
    var t := Next(s, e);
    if e.PollNoMemory? || e.PollComplete? {
      assert t.handlers == s.handlers;
    } else if Stranded(t) {
      forall h | h in s.handlers
        ensures !OwesSchedule(s.handlers[h])
      {
        assert h in t.handlers ==> !OwesSchedule(t.handlers[h]);
      }
    }
  }

  // ----- Liveness: every state that is not stranded can still deliver everything -----

  /** The weight the driver registers for its NAPI context. */
  const WEIGHT: nat := 64

  /** Every poll that the run starts has the given budget. */
  ghost predicate Budgeted(es: seq<Event>, budget: nat) {
    forall i :: 0 <= i < |es| && es[i].PollStart? ==> es[i].budget == budget
  }

  ghost predicate Drains(s: Nic, es: seq<Event>, budget: nat) {
    Valid(s, es) && Quiet(es) && Budgeted(es, budget) && Exec(s, es).delivered == s.arrivals
  }

  lemma Prepend(s: Nic, e: Event, rest: seq<Event>, budget: nat)
    requires Enabled(s, e) && !e.Arrive? && (e.PollStart? ==> e.budget == budget)
    requires Drains(Next(s, e), rest, budget)
    ensures Drains(s, [e] + rest, budget)
  {
    assert ([e] + rest)[1..] == rest;
  }

  /** As many polls of the given budget as the backlog needs. */
  lemma {:induction false} DrainFromScheduled(s: Nic, budget: nat) returns (es: seq<Event>)
    requires s.napi.Scheduled? && s.delivered <= s.arrivals && budget > 0
    ensures Drains(s, es, budget)
    decreases |s.arrivals| - |s.delivered|, 1
  {
    var start := PollStart(budget);
    var rest := DrainFromPolling(Next(s, start), budget);
    Prepend(s, start, rest, budget);
    es := [start] + rest;
  }

  lemma {:induction false} DrainFromPolling(s: Nic, budget: nat) returns (es: seq<Event>)
    requires s.napi.Polling? && s.delivered <= s.arrivals && budget > 0
    ensures Drains(s, es, budget)
    decreases |s.arrivals| - |s.delivered|, if s.napi.done < s.napi.budget then 0 else 2
  {
    if !Waiting(s) {
      es := [];
    } else {
      var e := if s.napi.done < s.napi.budget then PollDeliver else PollBudgetSpent;
      var rest;
      if e.PollDeliver? {
        rest := DrainFromPolling(Next(s, e), budget);
      } else {
        rest := DrainFromScheduled(Next(s, e), budget);
      }
      Prepend(s, e, rest, budget);
      es := [e] + rest;
    }
  }

  /** A handler that saw the receive bit finishes its acknowledgement and schedules the poll. */
  lemma DrainThroughHandler(s: Nic, h: nat, budget: nat) returns (es: seq<Event>)
    requires budget > 0 && s.napi.Idle? && s.delivered <= s.arrivals
    requires h in s.handlers && OwesSchedule(s.handlers[h])
    ensures Drains(s, es, budget)
  {
    if s.handlers[h].Acked? {
      var rest := DrainFromScheduled(Next(s, IrqSchedule(h)), budget);
      Prepend(s, IrqSchedule(h), rest, budget);
      es := [IrqSchedule(h)] + rest;
    } else {
      var t := Next(s, IrqAck(h));
      var rest := DrainFromScheduled(Next(t, IrqSchedule(h)), budget);
      Prepend(t, IrqSchedule(h), rest, budget);
      Prepend(s, IrqAck(h), [IrqSchedule(h)] + rest, budget);
      es := [IrqAck(h)] + ([IrqSchedule(h)] + rest);
    }
  }

  lemma DrainFromIdle(s: Nic, budget: nat) returns (es: seq<Event>)
    requires budget > 0 && s.napi.Idle? && s.delivered <= s.arrivals && (s.rxIntr || ScheduleOwed(s))
    ensures Drains(s, es, budget)
  {
    if ScheduleOwed(s) {
      var h :| h in s.handlers && OwesSchedule(s.handlers[h]);
      es := DrainThroughHandler(s, h, budget);
    } else {
      var h := FreshId(s.handlers.Keys);
      var t := Next(s, IrqEnter(h));
      var rest := DrainThroughHandler(Next(t, IrqRead(h)), h, budget);
      Prepend(t, IrqRead(h), rest, budget);
      Prepend(s, IrqEnter(h), [IrqRead(h)] + rest, budget);
      es := [IrqEnter(h)] + ([IrqRead(h)] + rest);
    }
  }

  lemma Drain(s: Nic, budget: nat) returns (es: seq<Event>)
    requires budget > 0 && Inv(s) && Waiting(s) && !Stranded(s)
    ensures Drains(s, es, budget)
  {
    match s.napi
    case Idle => es := DrainFromIdle(s, budget);
    case Scheduled => es := DrainFromScheduled(s, budget);
    case Polling(_, _) => es := DrainFromPolling(s, budget);
    case Completing(_, _, _) =>
      var t := Next(s, PollComplete);
      var rest;
      if s.missed {
        rest := DrainFromScheduled(t, budget);
      } else {
        assert ScheduleOwed(s) ==> ScheduleOwed(t) by {
          assert t.handlers == s.handlers;
        }
        rest := DrainFromIdle(t, budget);
      }
      Prepend(s, PollComplete, rest, budget);
      es := [PollComplete] + rest;
  }

  /** Without any further arrival, and with polls of any one positive budget, the waiting packets can
      still be delivered exactly when the state is not stranded. */
  lemma DeliverableIffNotStranded(s: Nic, budget: nat)
    requires Reachable(s) && Waiting(s) && budget > 0
    ensures (exists es :: Drains(s, es, budget)) <==> !Stranded(s)
  {
    ReachableInv(s);
    if !Stranded(s) {
      var es := Drain(s, budget);
    } else {
      forall es | Valid(s, es) && Quiet(es)
        ensures Exec(s, es).delivered != s.arrivals
      {
        StrandedUntilArrival(s, es);
      }
    }
  }

  /** In particular with the registered weight, however long the backlog. */
  lemma DeliverableWithRegisteredWeight(s: Nic)
    requires Reachable(s) && Waiting(s)
    ensures (exists es :: Drains(s, es, 64)) <==> !Stranded(s)
  {
    DeliverableIffNotStranded(s, WEIGHT);
  }

  lemma {:induction false} ExecConcat(s: Nic, es: seq<Event>, fs: seq<Event>)
    requires Valid(s, es) && Valid(Exec(s, es), fs)
    ensures Valid(s, es + fs) && Exec(s, es + fs) == Exec(Exec(s, es), fs)
    decreases |es|
  {
    if es == [] {
      assert es + fs == fs;
    } else {
      assert (es + fs)[1..] == es[1..] + fs;
      ExecConcat(Next(s, es[0]), es[1..], fs);
    }
  }

  lemma ReachableStep(s: Nic, e: Event) returns (t: Nic)
    requires Reachable(s) && Enabled(s, e)
    ensures t == Next(s, e) && Reachable(t)
  {
    var es :| Valid(Opened(), es) && Exec(Opened(), es) == s;
    assert [e][1..] == [];
    ExecConcat(Opened(), es, [e]);
    t := Next(s, e);
  }

  /** An undisturbed interrupt for a received packet schedules the poll and leaves no trace. */
  lemma ReceiveInterrupt(s: Nic, h: nat) returns (t: Nic)
    requires Reachable(s) && s.napi.Idle? && s.rxIntr && !s.txIntr && h !in s.handlers
    ensures Reachable(t) && t == s.(napi := Scheduled, rxIntr := false)
  {
    t := ReachableStep(s, IrqEnter(h));
    t := ReachableStep(t, IrqRead(h));
    t := ReachableStep(t, IrqAck(h));
    t := ReachableStep(t, IrqSchedule(h));
    assert t.handlers == s.handlers;
  }

  /** A packet is left behind: one arrival, one interrupt, one failed allocation. */
  lemma StrandingHappens(packet: nat, budget: nat) returns (s: Nic)
    requires budget > 0
    ensures Reachable(s) && Stranded(s) && s.arrivals == [packet] && s.napi.Idle?
  {
    s := Opened();
    assert Valid(s, []) && Exec(s, []) == s;
    s := ReachableStep(s, Arrive(packet));
    s := ReceiveInterrupt(s, 0);
    s := ReachableStep(s, PollStart(budget));
    s := ReachableStep(s, PollNoMemory);
    s := ReachableStep(s, PollComplete);
  }

  // ----- Interrupts and polls come to rest -----

  /** Nothing arrives, is reported sent or fails, and polls have the given budget. */
  predicate Calm(e: Event, budget: nat) {
    !e.Arrive? && !e.Transmitted? && !e.PollNoMemory? && (e.PollStart? ==> e.budget == budget)
  }

  ghost predicate Leads(s: Nic, t: Nic, budget: nat) {
    exists es :: Valid(s, es) && (forall k :: 0 <= k < |es| ==> Calm(es[k], budget)) && Exec(s, es) == t
  }

  lemma LeadsNowhere(s: Nic, budget: nat)
    ensures Leads(s, s, budget)
  {
    assert Valid(s, []) && Exec(s, []) == s;
  }

  lemma LeadsStep(s: Nic, t: Nic, e: Event, budget: nat) returns (u: Nic)
    requires Leads(s, t, budget) && Inv(t) && Enabled(t, e) && Calm(e, budget)
    ensures u == Next(t, e) && Leads(s, u, budget) && Inv(u)
  {
    var es :| Valid(s, es) && (forall k :: 0 <= k < |es| ==> Calm(es[k], budget)) && Exec(s, es) == t;
    assert [e][1..] == [];
    ExecConcat(s, es, [e]);
    StepKeepsInv(t, e);
    u := Next(t, e);
    assert Valid(s, es + [e]) && Exec(s, es + [e]) == u;
  }

  lemma {:induction false} ReapsAll(s: Nic, t: Nic, h: nat, budget: nat) returns (u: Nic)
    requires Leads(s, t, budget) && Inv(t) && h in t.handlers && t.handlers[h].Reaping?
    ensures Leads(s, u, budget) && Inv(u) && u == t.(reaped := t.sent, handlers := t.handlers - {h})
    decreases t.sent - t.reaped
  {
    if t.reaped < t.sent {
      u := LeadsStep(s, t, IrqReap(h), budget);
      u := ReapsAll(s, u, h, budget);
    } else {
      u := LeadsStep(s, t, IrqReturn(h), budget);
    }
  }

  /** The state after a handler that acknowledged these bits has run to its end. */
  function AfterHandler(t: Nic, h: nat, rx: bool, tx: bool): Nic {
    t.(napi := if rx && t.napi.Idle? then Scheduled else t.napi,
       missed := t.missed || (rx && !t.napi.Idle?),
       reaped := if tx then t.sent else t.reaped,
       handlers := t.handlers - {h})
  }

  lemma FinishAcked(s: Nic, t: Nic, h: nat, budget: nat) returns (u: Nic)
    requires Leads(s, t, budget) && Inv(t) && h in t.handlers && t.handlers[h].Acked?
    ensures Leads(s, u, budget) && Inv(u) && u == AfterHandler(t, h, t.handlers[h].rx, t.handlers[h].tx)
  {
    u := LeadsStep(s, t, IrqSchedule(h), budget);
    if t.handlers[h].tx {
      var v := ReapsAll(s, u, h, budget);
      assert v.handlers == t.handlers - {h};
      u := v;
    }
  }

  lemma FinishRead(s: Nic, t: Nic, h: nat, budget: nat) returns (u: Nic)
    requires Leads(s, t, budget) && Inv(t) && h in t.handlers && t.handlers[h].StatusRead?
    ensures Leads(s, u, budget) && Inv(u)
    ensures
      var StatusRead(rx, tx) := t.handlers[h];
      u == AfterHandler(t, h, rx, tx).(rxIntr := t.rxIntr && !rx, txIntr := t.txIntr && !tx)
  {
    var v := LeadsStep(s, t, IrqAck(h), budget);
    u := FinishAcked(s, v, h, budget);
    assert u.handlers == t.handlers - {h};
  }

  /** A handler that runs undisturbed, in any state and beside any other handlers, leaves both bits
      clear, schedules NAPI exactly when the receive bit was set (or has it remembered while a poll
      is under way), reaps everything that was sent exactly when the transmit bit was set, and
      changes nothing else. */
  lemma UndisturbedInterrupt(s: Nic, h: nat, budget: nat) returns (t: Nic)
    requires Inv(s) && h !in s.handlers
    ensures Leads(s, t, budget) && Inv(t)
    ensures !t.rxIntr && !t.txIntr && t.handlers == s.handlers
    ensures t.napi == if s.rxIntr && s.napi.Idle? then Scheduled else s.napi
    ensures t.missed <==> s.missed || (s.rxIntr && !s.napi.Idle?)
    ensures t.reaped == if s.txIntr then s.sent else s.reaped
    ensures t.arrivals == s.arrivals && t.delivered == s.delivered && t.sent == s.sent && t.polls == s.polls
    ensures t.starved == s.starved
  {
    LeadsNowhere(s, budget);
    t := LeadsStep(s, s, IrqEnter(h), budget);
    t := LeadsStep(s, t, IrqRead(h), budget);
    t := FinishRead(s, t, h, budget);
    assert s.handlers[h := Entered][h := StatusRead(s.rxIntr, s.txIntr)] - {h} == s.handlers;
  }

  lemma FinishEntered(s: Nic, t: Nic, h: nat, budget: nat) returns (u: Nic)
    requires Leads(s, t, budget) && Inv(t) && h in t.handlers && t.handlers[h].Entered?
    ensures Leads(s, u, budget) && Inv(u) && u.handlers == t.handlers - {h}
    ensures u.sent == t.sent && u.arrivals == t.arrivals && !u.rxIntr && !u.txIntr
  {
    var v := LeadsStep(s, t, IrqRead(h), budget);
    u := FinishRead(s, v, h, budget);
    assert u.handlers == t.handlers - {h};
  }

  lemma FinishHandler(s: Nic, t: Nic, h: nat, budget: nat) returns (u: Nic)
    requires Leads(s, t, budget) && Inv(t) && h in t.handlers
    ensures Leads(s, u, budget) && Inv(u) && u.handlers == t.handlers - {h}
    ensures u.sent == t.sent && u.arrivals == t.arrivals
  {
    match t.handlers[h]
    case Reaping => u := ReapsAll(s, t, h, budget);
    case Acked(_, _) => u := FinishAcked(s, t, h, budget);
    case StatusRead(_, _) => u := FinishRead(s, t, h, budget);
    case Entered => u := FinishEntered(s, t, h, budget);
  }

  lemma {:induction false} FinishHandlers(s: Nic, t: Nic, budget: nat) returns (u: Nic)
    requires Leads(s, t, budget) && Inv(t)
    ensures Leads(s, u, budget) && Inv(u) && u.handlers == map[] && u.sent == t.sent && u.arrivals == t.arrivals
    decreases |t.handlers|
  {
    if t.handlers == map[] {
      u := t;
    } else {
      var h :| h in t.handlers;
      var v := FinishHandler(s, t, h, budget);
      assert t.handlers.Keys == v.handlers.Keys + {h};
      assert |v.handlers| == |v.handlers.Keys| && |t.handlers| == |t.handlers.Keys|;
      u := FinishHandlers(s, v, budget);
    }
  }

  /** No handler runs and no bit is raised. */
  predicate NoInterrupt(s: Nic) {
    s.handlers == map[] && !s.rxIntr && !s.txIntr
  }

  lemma ClearBits(s: Nic, t: Nic, budget: nat) returns (u: Nic)
    requires Leads(s, t, budget) && Inv(t) && t.handlers == map[]
    ensures Leads(s, u, budget) && Inv(u) && NoInterrupt(u) && u.sent == t.sent && u.arrivals == t.arrivals
  {
    u := LeadsStep(s, t, IrqEnter(0), budget);
    u := FinishEntered(s, u, 0, budget);
  }

  function PollStage(s: Nic): nat {
    match s.napi
    case Idle => 0
    case Completing(_, _, _) => 1
    case Polling(budget, done) => if done < budget then 2 else 4
    case Scheduled => 3
  }

  function PollStep(s: Nic, budget: nat): Event {
    match s.napi
    case Scheduled => PollStart(budget)
    case Polling(b, done) => if done >= b then PollBudgetSpent else if Waiting(s) then PollDeliver else PollDrained
    case _ => PollComplete
  }

  lemma {:induction false} FinishPolls(s: Nic, t: Nic, budget: nat) returns (u: Nic)
    requires Leads(s, t, budget) && Inv(t) && NoInterrupt(t) && budget > 0
    ensures Leads(s, u, budget) && Inv(u) && NoInterrupt(u) && u.napi.Idle? && u.sent == t.sent && u.arrivals == t.arrivals
    decreases |t.arrivals| - |t.delivered|, if t.missed then 1 else 0, PollStage(t)
  {
    if t.napi.Idle? {
      u := t;
    } else {
      var v := LeadsStep(s, t, PollStep(t, budget), budget);
      u := FinishPolls(s, v, budget);
    }
  }

  lemma {:induction false} CalmKeepsStranded(s: Nic, es: seq<Event>, budget: nat)
    requires Inv(s) && Valid(s, es) && forall k :: 0 <= k < |es| ==> Calm(es[k], budget)
    ensures Stranded(Exec(s, es)) <==> Stranded(s)
    decreases |es|
  {
    if es != [] {
      assert Calm(es[0], budget);
      StepKeepsInv(s, es[0]);
      if Stranded(s) {
        StrandedStep(s, es[0]);
      } else {
        StrandsOnlyByFailure(s, es[0]);
      }
      CalmKeepsStranded(Next(s, es[0]), es[1..], budget);
    }
  }

  /** From every reachable state, with no further arrivals or reports, handlers and polls can come to
      rest: no bit raised, no handler running, no poll scheduled, under way or remembered, and every
      sent packet reaped. All arrivals are then delivered exactly when the state was not stranded. */
  lemma ComesToRest(s: Nic, budget: nat) returns (t: Nic)
    requires Reachable(s) && budget > 0
    ensures Leads(s, t, budget)
    ensures !t.rxIntr && !t.txIntr && t.handlers == map[] && t.napi.Idle? && !t.missed
    ensures t.sent == s.sent && t.reaped == s.sent && t.arrivals == s.arrivals
    ensures t.delivered == t.arrivals <==> !Stranded(s)
  {
    ReachableInv(s);
    LeadsNowhere(s, budget);
    t := FinishHandlers(s, s, budget);
    t := ClearBits(s, t, budget);
    t := FinishPolls(s, t, budget);
    var fs :| Valid(s, fs) && (forall k :: 0 <= k < |fs| ==> Calm(fs[k], budget)) && Exec(s, fs) == t;
    CalmKeepsStranded(s, fs, budget);
  }
}
