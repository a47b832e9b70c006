/** Interrupt handler, tasklet and teardown of dma_kernel_with_peripheral/driver.c as a transition
    system over the device's status register.

    The handler reads the status and later writes it back without DONE, so other activity fits in
    between; any number of activations may overlap, one kind being the direct call made while the
    probe runs. Kernel services are used through small contracts: tasklet_schedule on a pending
    tasklet does nothing, a tasklet stops being pending when its run starts, free_irq stops new
    deliveries and then waits for running handlers, tasklet_kill waits until the tasklet is neither
    pending nor running. `fault` records a handler step taken after the memory it relies on was
    given back. */
module DmaProtocol {
  import opened Prelude

  /** The three bits of the status register that the driver names. */
  datatype Status = Status(busy: bool, done: bool, irqEnable: bool)

  datatype Isr =
    | Entered(direct: bool)
    | SawDone(direct: bool, status: Status)
    | Acked(direct: bool)

  /** Four pages of 4096 bytes. */
  const BUFFER_SIZE: nat := 16384

  /** Progress of the probe (before the simulated transfer, after it raised DONE, after it called the
      handler or took the error branch) and of the seven steps of the remove function. */
  datatype Phase =
    | Probing
    | Raised
    | Finishing
    | Bound
    | Masked
    | IrqFreeing
    | IrqFreed
    | TaskletKilled
    | BufferFreed
    | Unmapped
    | Disabled

  datatype Dev = Dev(
    irq: nat,
    len: nat,
    status: Status,
    isrs: map<nat, Isr>,
    pending: bool,
    running: bool,
    irqRegistered: bool,
    bufferLive: bool,
    regsMapped: bool,
    phase: Phase,
    completions: nat,
    served: nat,
    fault: bool)

  datatype Event =
    | HwComplete
    | SimulatedComplete
    | ErrorWrite
    | IsrEnter(i: nat, direct: bool)
    | IsrRead(i: nat)
    | IsrAck(i: nat)
    | IsrSchedule(i: nat)
    | TaskletStart
    | TaskletFinish
    | ProbeReturn
    | RemoveMask
    | RemoveFreeIrq
    | RemoveFreeIrqReturn
    | RemoveKillTasklet
    | RemoveFreeBuffer
    | RemoveUnmap
    | RemoveDisable

  /** The registers are programmed with a transfer of `len` bytes, with the DONE bit clear. */
  function Started(irq: nat, len: nat): Dev {
    Dev(irq, len, Status(false, false, false), map[], false, false, true, true, true, Probing, 0, 0, false)
  }

  ghost predicate NoDirectCall(s: Dev) {
    forall i :: i in s.isrs ==> !s.isrs[i].direct
  }

  /** The test in front of the simulated transfer. */
  predicate Accepted(s: Dev) {
    s.bufferLive && s.len <= BUFFER_SIZE
  }

  ghost predicate Enabled(s: Dev, e: Event) {
    match e
    case HwComplete => true
    case SimulatedComplete => s.phase.Probing? && Accepted(s)
    case ErrorWrite => s.phase.Probing? && !Accepted(s)
    case IsrEnter(i, direct) => i !in s.isrs && (if direct then s.phase.Raised? else s.irqRegistered)
    case IsrRead(i) => i in s.isrs && s.isrs[i].Entered?
    case IsrAck(i) => i in s.isrs && s.isrs[i].SawDone?
    case IsrSchedule(i) => i in s.isrs && s.isrs[i].Acked?
    case TaskletStart => s.pending && !s.running
    case TaskletFinish => s.running
    case ProbeReturn => s.phase.Finishing? && NoDirectCall(s)
    case RemoveMask => s.phase.Bound?
    case RemoveFreeIrq => s.phase.Masked?
    case RemoveFreeIrqReturn => s.phase.IrqFreeing? && (s.irq > 0 ==> s.isrs == map[])
    case RemoveKillTasklet => s.phase.IrqFreed? && !s.pending && !s.running
    case RemoveFreeBuffer => s.phase.TaskletKilled?
    case RemoveUnmap => s.phase.BufferFreed?
    case RemoveDisable => s.phase.Unmapped?
  }

  /** A handler step needs the registers mapped and the DMA buffer allocated. */
  predicate Unsafe(s: Dev) {
    !s.regsMapped || !s.bufferLive
  }

  ghost function Next(s: Dev, e: Event): Dev
    requires Enabled(s, e)
  {
    match e
    case HwComplete => s.(status := s.status.(done := true), completions := s.completions + 1)
    case SimulatedComplete =>
      s.(status := Status(false, true, true),
         completions := s.completions + 1,
         phase := Raised,
         fault := s.fault || !s.regsMapped)
    case ErrorWrite =>
      s.(status := Status(false, false, false), phase := Finishing, fault := s.fault || !s.regsMapped)
    case IsrEnter(i, direct) =>
      s.(isrs := s.isrs[i := Entered(direct)], phase := if direct then Finishing else s.phase)
    case IsrRead(i) =>
      s.(isrs := if s.status.done then s.isrs[i := SawDone(s.isrs[i].direct, s.status)] else s.isrs - {i},
         fault := s.fault || Unsafe(s))
    case IsrAck(i) =>
      s.(status := s.isrs[i].status.(done := false),
         isrs := s.isrs[i := Acked(s.isrs[i].direct)],
         fault := s.fault || Unsafe(s))
    case IsrSchedule(i) =>
      s.(pending := true, isrs := s.isrs - {i}, fault := s.fault || Unsafe(s))
    case TaskletStart =>
      s.(pending := false, running := true, served := s.completions, fault := s.fault || Unsafe(s))
    case TaskletFinish => s.(running := false, fault := s.fault || Unsafe(s))
    case ProbeReturn => s.(phase := Bound)
    case RemoveMask => s.(phase := Masked, fault := s.fault || !s.regsMapped)
    case RemoveFreeIrq => s.(phase := IrqFreeing, irqRegistered := s.irqRegistered && !(s.irq > 0))
    case RemoveFreeIrqReturn => s.(phase := IrqFreed)
    case RemoveKillTasklet => s.(phase := TaskletKilled)
    case RemoveFreeBuffer => s.(phase := BufferFreed, bufferLive := false)
    case RemoveUnmap => s.(phase := Unmapped, regsMapped := false)
    case RemoveDisable => s.(phase := Disabled)
  }

  ghost predicate Valid(s: Dev, es: seq<Event>)
    decreases |es|
  {
    es == [] || (Enabled(s, es[0]) && Valid(Next(s, es[0]), es[1..]))
  }

  ghost function Exec(s: Dev, es: seq<Event>): Dev
    requires Valid(s, es)
    decreases |es|
  {
    if es == [] then s else Exec(Next(s, es[0]), es[1..])
  }

  lemma {:induction false} ExecThen(s: Dev, es: seq<Event>, e: Event)
    requires Valid(s, es) && Enabled(Exec(s, es), e)
    ensures Valid(s, es + [e]) && Exec(s, es + [e]) == Next(Exec(s, es), e)
    decreases |es|
  {
    if es == [] {
      assert es + [e] == [e];
      assert [e][1..] == [];
    } else {
      assert (es + [e])[1..] == es[1..] + [e];
      ExecThen(Next(s, es[0]), es[1..], e);
    }
  }

  // ----- Teardown: no use after release -----

  ghost predicate InProbe(s: Dev) {
    s.phase.Probing? || s.phase.Raised? || s.phase.Finishing?
  }

  ghost predicate IrqGone(s: Dev) {
    s.phase.IrqFreed? || s.phase.TaskletKilled? || s.phase.BufferFreed? || s.phase.Unmapped? || s.phase.Disabled?
  }

  ghost predicate TaskletGone(s: Dev) {
    s.phase.TaskletKilled? || s.phase.BufferFreed? || s.phase.Unmapped? || s.phase.Disabled?
  }

  ghost predicate TeardownInv(s: Dev) {
    && !s.fault
    && s.irq > 0
    && (s.irqRegistered <==> InProbe(s) || s.phase.Bound? || s.phase.Masked?)
    && (!InProbe(s) ==> NoDirectCall(s))
    && (IrqGone(s) ==> s.isrs == map[])
    && (TaskletGone(s) ==> !s.pending && !s.running)
    && (s.bufferLive <==> !(s.phase.BufferFreed? || s.phase.Unmapped? || s.phase.Disabled?))
    && (s.regsMapped <==> !(s.phase.Unmapped? || s.phase.Disabled?))
  }

  lemma TeardownStep(s: Dev, e: Event)
    requires TeardownInv(s) && Enabled(s, e)
    ensures TeardownInv(Next(s, e))
  {
  }

  lemma {:induction false} TeardownRun(s: Dev, es: seq<Event>)
    requires TeardownInv(s) && Valid(s, es)
    ensures TeardownInv(Exec(s, es))
    decreases |es|
  {
    if es != [] {
      TeardownStep(s, es[0]);
      TeardownRun(Next(s, es[0]), es[1..]);
    }
  }

  ghost predicate Leads(s: Dev, t: Dev) {
    exists es :: Valid(s, es) && Exec(s, es) == t
  }

  lemma LeadsNowhere(s: Dev)
    ensures Leads(s, s)
  {
    assert Valid(s, []) && Exec(s, []) == s;
  }

  lemma LeadsStep(s: Dev, t: Dev, e: Event) returns (u: Dev)
    requires Leads(s, t) && Enabled(t, e)
    ensures u == Next(t, e) && Leads(s, u)
  {
    var es :| Valid(s, es) && Exec(s, es) == t;
    ExecThen(s, es, e);
    u := Next(t, e);
  }

  /** States of a device whose probe got line `irq` and programmed `len` bytes. */
  ghost predicate Reachable(irq: nat, len: nat, s: Dev) {
    Leads(Started(irq, len), s)
  }

  /** With an interrupt line above zero, no interleaving of remove with handler and tasklet steps
      touches released memory: while a handler is active the registers are mapped and the buffer is
      allocated, and a pending or running tasklet still has the buffer. */
  lemma TeardownIsSafe(irq: nat, len: nat, s: Dev)
    requires irq > 0 && Reachable(irq, len, s)
    ensures !s.fault
    ensures s.isrs != map[] ==> s.regsMapped && s.bufferLive
    ensures s.pending || s.running ==> s.bufferLive
  {
    var es :| Valid(Started(irq, len), es) && Exec(Started(irq, len), es) == s;
    TeardownRun(Started(irq, len), es);
  }

  /** An accepted transfer without interference: DONE is raised and the handler, called directly,
      clears it and schedules the tasklet. */
  lemma AcceptedTransfer(s: Dev, t: Dev, i: nat) returns (u: Dev)
    requires Leads(s, t) && t.phase.Probing? && Accepted(t) && t.regsMapped && i !in t.isrs
    ensures Leads(s, u)
    ensures u == t.(status := Status(false, false, true), pending := true, completions := t.completions + 1,
                    phase := Finishing)
  {
    u := LeadsStep(s, t, SimulatedComplete);
    u := LeadsStep(s, u, IsrEnter(i, true));
    u := LeadsStep(s, u, IsrRead(i));
    u := LeadsStep(s, u, IsrAck(i));
    u := LeadsStep(s, u, IsrSchedule(i));
    assert u.isrs == t.isrs;
  }

  lemma TaskletRuns(s: Dev, t: Dev) returns (u: Dev)
    requires Leads(s, t) && t.pending && !t.running && !Unsafe(t)
    ensures Leads(s, u) && u == t.(pending := false, served := t.completions)
  {
    u := LeadsStep(s, t, TaskletStart);
    u := LeadsStep(s, u, TaskletFinish);
  }

  /** An undisturbed probe, whichever branch its transfer takes, and the tasklet it may schedule. */
  lemma ProbeCompletes(irq: nat, len: nat) returns (s: Dev)
    ensures Reachable(irq, len, s)
    ensures s == Started(irq, len).(phase := Bound, status := s.status, completions := s.completions, served := s.served)
  {
    var s0 := Started(irq, len);
    LeadsNowhere(s0);
    if Accepted(s0) {
      s := AcceptedTransfer(s0, s0, 0);
      s := TaskletRuns(s0, s);
    } else {
      s := LeadsStep(s0, s0, ErrorWrite);
    }
    s := LeadsStep(s0, s, ProbeReturn);
  }

  lemma RemoveSkipsFreeIrq(len: nat) returns (s: Dev)
    ensures Reachable(0, len, s)
    ensures s == Started(0, len).(phase := IrqFreed, status := s.status, completions := s.completions, served := s.served)
  {
    var s0 := Started(0, len);
    s := ProbeCompletes(0, len);
    s := LeadsStep(s0, s, RemoveMask);
    s := LeadsStep(s0, s, RemoveFreeIrq);
    s := LeadsStep(s0, s, RemoveFreeIrqReturn);
  }

  lemma RemoveBlindly(len: nat) returns (s: Dev)
    ensures Reachable(0, len, s)
    ensures s.isrs == map[] && s.irqRegistered && !s.regsMapped && !s.bufferLive && !s.fault
  {
    var s0 := Started(0, len);
    s := RemoveSkipsFreeIrq(len);
    s := LeadsStep(s0, s, RemoveKillTasklet);
    s := LeadsStep(s0, s, RemoveFreeBuffer);
    s := LeadsStep(s0, s, RemoveUnmap);
  }

  /** The probe accepts line 0 but the remove function does not give it back: a handler entered
      after the unmap goes on to read unmapped registers. */
  lemma LineZeroFaults(len: nat) returns (s: Dev)
    ensures Reachable(0, len, s) && !s.fault && !s.regsMapped && !s.bufferLive
    ensures Enabled(s, IsrRead(0)) && Next(s, IsrRead(0)).fault
  {
    s := RemoveBlindly(len);
    s := LeadsStep(Started(0, len), s, IsrEnter(0, false));
  }

  lemma TeardownSafeIffLineAboveZero(irq: nat, len: nat)
    ensures (forall s :: Reachable(irq, len, s) ==> !s.fault) <==> irq > 0
  {
    if irq > 0 {
      forall s | Reachable(irq, len, s)
        ensures !s.fault
      {
        TeardownIsSafe(irq, len, s);
      }
    } else {
      var s := LineZeroFaults(len);
      var t := LeadsStep(Started(irq, len), s, IsrRead(0));
    }
  }

  // ----- Completions -----

  predicate DoneSet(s: Dev) {
    s.status.done
  }

  /** Some handler saw DONE and has yet to call tasklet_schedule. */
  ghost predicate ScheduleOwed(s: Dev) {
    exists i :: i in s.isrs && !s.isrs[i].Entered?
  }

  /** A completion happened after the last tasklet run started, and no trace of it is left. */
  ghost predicate Lost(s: Dev) {
    s.served < s.completions && !DoneSet(s) && !ScheduleOwed(s) && !s.pending
  }

  lemma OwedAfter(s: Dev, e: Event, i: nat)
    requires Enabled(s, e) && i in s.isrs && !s.isrs[i].Entered?
    ensures ScheduleOwed(Next(s, e)) || Next(s, e).pending
  {
    var t := Next(s, e);
    assert (i in t.isrs && !t.isrs[i].Entered?) || e == IsrSchedule(i);
  }

  lemma NotOwedAfter(s: Dev, e: Event)
    requires Enabled(s, e) && !ScheduleOwed(s) && !(e.IsrRead? && DoneSet(s))
    ensures !ScheduleOwed(Next(s, e))
  {
    var t := Next(s, e);
    forall i | i in t.isrs
      ensures t.isrs[i].Entered?
    {
      assert i in s.isrs ==> s.isrs[i].Entered?;
    }
  }

  /** Exactly one kind of step can lose a completion: the error branch overwriting a DONE bit that
      no handler has seen, with no tasklet run still to come. */
  lemma OnlyErrorWriteLoses(s: Dev, e: Event)
    requires Enabled(s, e) && !Lost(s)
    ensures Lost(Next(s, e)) <==>
            e.ErrorWrite? && DoneSet(s) && s.served < s.completions && !ScheduleOwed(s) && !s.pending
  {
    var t := Next(s, e);
    if ScheduleOwed(s) {
      var i :| i in s.isrs && !s.isrs[i].Entered?;
      OwedAfter(s, e, i);
    } else if !e.IsrRead? {
      NotOwedAfter(s, e);
    }
  }

  /** The buffer outlives the probe and the length is not reprogrammed, so a transfer that fits is
      never refused. */
  ghost predicate NeverRefused(s: Dev) {
    s.len <= BUFFER_SIZE && (InProbe(s) ==> s.bufferLive)
  }

  lemma FittingStepLosesNothing(s: Dev, e: Event)
    requires !Lost(s) && NeverRefused(s) && Enabled(s, e)
    ensures !Lost(Next(s, e)) && NeverRefused(Next(s, e))
  {
    OnlyErrorWriteLoses(s, e);
  }

  lemma {:induction false} FittingRunLosesNothing(s: Dev, es: seq<Event>)
    requires !Lost(s) && NeverRefused(s) && Valid(s, es)
    ensures !Lost(Exec(s, es)) && NeverRefused(Exec(s, es))
    decreases |es|
  {
    if es != [] {
      FittingStepLosesNothing(s, es[0]);
      FittingRunLosesNothing(Next(s, es[0]), es[1..]);
    }
  }

  lemma {:induction false} ServedBounded(s: Dev, es: seq<Event>)
    requires s.served <= s.completions && Valid(s, es)
    ensures Exec(s, es).served <= Exec(s, es).completions
    decreases |es|
  {
    if es != [] {
      ServedBounded(Next(s, es[0]), es[1..]);
    }
  }

  /** For a programmed length that fits and any number of overlapping handler activations, every
      completion still has DONE set, or a handler that saw it and will schedule, or a pending
      tasklet, or a tasklet run that started after it; once the tasklet is killed only completions
      still flagged by DONE can be unserved. */
  lemma NoCompletionIsLost(irq: nat, len: nat, s: Dev)
    requires len <= 16384 && Reachable(irq, len, s)
    ensures s.served <= s.completions
    ensures s.served == s.completions || DoneSet(s) || ScheduleOwed(s) || s.pending
    ensures irq > 0 && TaskletGone(s) ==> s.served == s.completions || DoneSet(s)
  {
    var es :| Valid(Started(irq, len), es) && Exec(Started(irq, len), es) == s;
    FittingRunLosesNothing(Started(irq, len), es);
    ServedBounded(Started(irq, len), es);
    if irq > 0 {
      TeardownRun(Started(irq, len), es);
    }
  }

  /** The driver programs the size of its buffer, so its own runs lose nothing. */
  lemma DriverLosesNothing(irq: nat, s: Dev)
    requires Reachable(irq, 16384, s)
    ensures s.served == s.completions || DoneSet(s) || ScheduleOwed(s) || s.pending
  {
    NoCompletionIsLost(irq, BUFFER_SIZE, s);
  }

  /** A longer transfer is refused, and the refusal right after a hardware completion erases it. */
  lemma RefusedTransferLoses(irq: nat, len: nat) returns (s: Dev)
    requires len > 16384
    ensures Reachable(irq, len, s) && s.irqRegistered && Lost(s)
  {
    var s0 := Started(irq, len);
    LeadsNowhere(s0);
    s := LeadsStep(s0, s0, HwComplete);
    s := LeadsStep(s0, s, ErrorWrite);
  }

  /** No run loses a completion exactly when the programmed length fits the buffer. */
  lemma NothingLostIffLengthFits(irq: nat, len: nat)
    ensures (forall s :: Reachable(irq, len, s) ==> !Lost(s)) <==> len <= 16384
  {
    if len <= BUFFER_SIZE {
      forall s | Reachable(irq, len, s)
        ensures !Lost(s)
      {
        NoCompletionIsLost(irq, len, s);
      }
    } else {
      var s := RefusedTransferLoses(irq, len);
    }
  }

  // ----- The acknowledgement writes back what was read -----

  lemma {:induction false} SnapshotKept(s: Dev, es: seq<Event>, i: nat)
    requires i in s.isrs && s.isrs[i].SawDone? && Valid(s, es) && IsrAck(i) !in es
    ensures i in Exec(s, es).isrs && Exec(s, es).isrs[i] == s.isrs[i]
    decreases |es|
  {
    if es != [] {
      SnapshotKept(Next(s, es[0]), es[1..], i);
    }
  }

  /** Whatever happens between a handler's read and its write, the write puts back the word that was
      read without DONE: bits that were set or cleared in between are overwritten. */
  lemma AckWritesWhatWasRead(s: Dev, i: nat, es: seq<Event>)
    requires Enabled(s, IsrRead(i)) && s.status.done
    requires Valid(Next(s, IsrRead(i)), es) && IsrAck(i) !in es
    ensures
      var t := Exec(Next(s, IsrRead(i)), es);
      && Enabled(t, IsrAck(i))
      && Next(t, IsrAck(i)).status == Status(s.status.busy, false, s.status.irqEnable)
  {
    SnapshotKept(Next(s, IsrRead(i)), es, i);
  }

  /** A handler that read before the simulated transfer and writes after it erases the DONE and
      IRQ_ENABLE bits of that transfer; the completion is still owed a tasklet run. */
  lemma StaleAckErasesEnable(irq: nat, len: nat, i: nat) returns (s: Dev)
    requires len <= 16384
    ensures Reachable(irq, len, s) && s.phase.Raised? && s.completions == 2
    ensures s.status == Status(false, false, false) && s.isrs == map[i := Acked(false)] && !Lost(s)
  {
    var s0 := Started(irq, len);
    LeadsNowhere(s0);
    s := LeadsStep(s0, s0, HwComplete);
    s := LeadsStep(s0, s, IsrEnter(i, false));
    s := LeadsStep(s0, s, IsrRead(i));
    s := LeadsStep(s0, s, SimulatedComplete);
    s := LeadsStep(s0, s, IsrAck(i));
    assert s.isrs[i] == Acked(false);
  }

  // ----- Handlers, tasklet, probe and remove can always run to their ends -----

  lemma FinishAcked(s: Dev, t: Dev, i: nat) returns (u: Dev)
    requires Leads(s, t) && i in t.isrs && t.isrs[i].Acked?
    ensures Leads(s, u) && u == t.(pending := true, isrs := t.isrs - {i}, fault := t.fault || Unsafe(t))
  {
    u := LeadsStep(s, t, IsrSchedule(i));
  }

  lemma FinishSaw(s: Dev, t: Dev, i: nat) returns (u: Dev)
    requires Leads(s, t) && i in t.isrs && t.isrs[i].SawDone?
    ensures Leads(s, u)
    ensures u == t.(status := Status(t.isrs[i].status.busy, false, t.isrs[i].status.irqEnable), pending := true,
                    isrs := t.isrs - {i}, fault := t.fault || Unsafe(t))
  {
    u := LeadsStep(s, t, IsrAck(i));
    u := FinishAcked(s, u, i);
    assert u.isrs == t.isrs - {i};
  }

  lemma FinishEntered(s: Dev, t: Dev, i: nat) returns (u: Dev)
    requires Leads(s, t) && i in t.isrs && t.isrs[i].Entered?
    ensures Leads(s, u)
    ensures u == t.(status := Status(t.status.busy, false, t.status.irqEnable), pending := t.pending || t.status.done,
                    isrs := t.isrs - {i}, fault := t.fault || Unsafe(t))
  {
    u := LeadsStep(s, t, IsrRead(i));
    if t.status.done {
      u := FinishSaw(s, u, i);
      assert u.isrs == t.isrs - {i};
    } else {
      assert t.status == Status(t.status.busy, false, t.status.irqEnable);
    }
  }

  lemma FinishIsr(s: Dev, t: Dev, i: nat) returns (u: Dev)
    requires Leads(s, t) && i in t.isrs
    ensures Leads(s, u) && u.isrs == t.isrs - {i} && u.phase == t.phase && u.irq == t.irq
  {
    match t.isrs[i]
    case Entered(_) => u := FinishEntered(s, t, i);
    case SawDone(_, _) => u := FinishSaw(s, t, i);
    case Acked(_) => u := FinishAcked(s, t, i);
  }

  /** A handler activation that nothing disturbs clears DONE, keeps the other bits, and requests the
      tasklet exactly when DONE was set. */
  lemma UndisturbedIsr(s: Dev, i: nat) returns (t: Dev)
    requires s.irqRegistered && i !in s.isrs && !Unsafe(s)
    ensures Leads(s, t)
    ensures t == s.(status := Status(s.status.busy, false, s.status.irqEnable), pending := s.pending || s.status.done)
  {
    LeadsNowhere(s);
    t := LeadsStep(s, s, IsrEnter(i, false));
    t := FinishEntered(s, t, i);
    assert t.isrs == s.isrs;
  }

  lemma {:induction false} FinishIsrs(s: Dev, t: Dev) returns (u: Dev)
    requires Leads(s, t)
    ensures Leads(s, u) && u.isrs == map[] && u.phase == t.phase && u.irq == t.irq
    decreases |t.isrs|
  {
    if t.isrs == map[] {
      u := t;
    } else {
      var i :| i in t.isrs;
      var v := FinishIsr(s, t, i);
      assert t.isrs.Keys == v.isrs.Keys + {i};
      assert |v.isrs| == |v.isrs.Keys| && |t.isrs| == |t.isrs.Keys|;
      u := FinishIsrs(s, v);
    }
  }

  lemma FinishTasklet(s: Dev, t: Dev) returns (u: Dev)
    requires Leads(s, t)
    ensures Leads(s, u) && !u.pending && !u.running && u.isrs == t.isrs && u.phase == t.phase && u.irq == t.irq
  {
    u := t;
    if u.running {
      u := LeadsStep(s, u, TaskletFinish);
    }
    if u.pending {
      u := LeadsStep(s, u, TaskletStart);
      u := LeadsStep(s, u, TaskletFinish);
    }
  }

  function PhaseRank(p: Phase): nat {
    match p
    case Probing => 10
    case Raised => 9
    case Finishing => 8
    case Bound => 7
    case Masked => 6
    case IrqFreeing => 5
    case IrqFreed => 4
    case TaskletKilled => 3
    case BufferFreed => 2
    case Unmapped => 1
    case Disabled => 0
  }

  /** One more step of the probe or the remove, once handlers and tasklet have finished. */
  lemma Advance(s: Dev, t: Dev) returns (u: Dev)
    requires Leads(s, t) && !t.phase.Disabled?
    ensures Leads(s, u) && u.irq == t.irq && PhaseRank(u.phase) < PhaseRank(t.phase)
  {
    var v := FinishIsrs(s, t);
    v := FinishTasklet(s, v);
    var e := match v.phase
      case Probing => if Accepted(v) then SimulatedComplete else ErrorWrite
      case Raised => IsrEnter(0, true)
      case Finishing => ProbeReturn
      case Bound => RemoveMask
      case Masked => RemoveFreeIrq
      case IrqFreeing => RemoveFreeIrqReturn
      case IrqFreed => RemoveKillTasklet
      case TaskletKilled => RemoveFreeBuffer
      case BufferFreed => RemoveUnmap
      case _ => RemoveDisable;
    u := LeadsStep(s, v, e);
  }

  lemma {:induction false} AdvanceToEnd(s: Dev, t: Dev) returns (u: Dev)
    requires Leads(s, t)
    ensures Leads(s, u) && u.irq == t.irq && u.phase.Disabled? && u.isrs == map[] && !u.pending && !u.running
    decreases PhaseRank(t.phase)
  {
    if t.phase.Disabled? {
      u := FinishIsrs(s, t);
      u := FinishTasklet(s, u);
    } else {
      u := Advance(s, t);
      u := AdvanceToEnd(s, u);
    }
  }

  /** The phases release in order, whatever else happens. */
  ghost predicate ReleasedByPhase(s: Dev) {
    && (s.irqRegistered <==> PhaseRank(s.phase) > 5 || s.irq == 0)
    && (s.bufferLive <==> PhaseRank(s.phase) > 2)
    && (s.regsMapped <==> PhaseRank(s.phase) > 1)
  }

  lemma ReleasedByPhaseStep(s: Dev, e: Event)
    requires ReleasedByPhase(s) && Enabled(s, e)
    ensures ReleasedByPhase(Next(s, e)) && Next(s, e).irq == s.irq
  {
  }

  lemma {:induction false} ReleasedByPhaseRun(s: Dev, es: seq<Event>)
    requires ReleasedByPhase(s) && Valid(s, es)
    ensures ReleasedByPhase(Exec(s, es)) && Exec(s, es).irq == s.irq
    decreases |es|
  {
    if es != [] {
      ReleasedByPhaseStep(s, es[0]);
      ReleasedByPhaseRun(Next(s, es[0]), es[1..]);
    }
  }

  /** From every reachable state the probe and a remove can run to their ends without waiting for
      ever: handlers and tasklet finish, the buffer and the registers are given back, and the
      interrupt exactly when its line is above zero. */
  lemma RemoveCompletes(irq: nat, len: nat, s: Dev) returns (t: Dev)
    requires Reachable(irq, len, s)
    ensures Leads(s, t) && t.phase.Disabled?
    ensures t.isrs == map[] && !t.pending && !t.running && !t.bufferLive && !t.regsMapped
    ensures t.irqRegistered <==> irq == 0
  {
    LeadsNowhere(s);
    t := AdvanceToEnd(s, s);
    var es :| Valid(Started(irq, len), es) && Exec(Started(irq, len), es) == s;
    var fs :| Valid(s, fs) && Exec(s, fs) == t;
    ReleasedByPhaseRun(Started(irq, len), es);
    ReleasedByPhaseRun(s, fs);
  }

  // ----- A lost completion stays lost; any other can still be served -----

  ghost predicate NoNewCompletion(es: seq<Event>) {
    forall k :: 0 <= k < |es| ==> !es[k].HwComplete? && !es[k].SimulatedComplete?
  }

  lemma LostStep(s: Dev, e: Event)
    requires Lost(s) && Enabled(s, e) && !e.HwComplete? && !e.SimulatedComplete?
    ensures Lost(Next(s, e)) && Next(s, e).completions == s.completions
  {
    NotOwedAfter(s, e);
  }

  lemma {:induction false} LostForever(s: Dev, es: seq<Event>)
    requires Lost(s) && Valid(s, es) && NoNewCompletion(es)
    ensures Lost(Exec(s, es)) && Exec(s, es).completions == s.completions
    decreases |es|
  {
    if es != [] {
      LostStep(s, es[0]);
      LostForever(Next(s, es[0]), es[1..]);
    }
  }

  ghost predicate Serves(s: Dev, es: seq<Event>) {
    Valid(s, es) && NoNewCompletion(es) && Exec(s, es).served == s.completions
  }

  lemma Prepend(s: Dev, e: Event, rest: seq<Event>)
    requires Enabled(s, e) && !e.HwComplete? && !e.SimulatedComplete? && Serves(Next(s, e), rest)
    ensures Serves(s, [e] + rest)
  {
    assert ([e] + rest)[1..] == rest;
  }

  lemma ServeFromPending(s: Dev) returns (es: seq<Event>)
    requires s.pending
    ensures Serves(s, es)
  {
    var t := if s.running then Next(s, TaskletFinish) else s;
    assert Serves(Next(t, TaskletStart), []);
    Prepend(t, TaskletStart, []);
    es := [TaskletStart] + [];
    if s.running {
      Prepend(s, TaskletFinish, es);
      es := [TaskletFinish] + es;
    }
  }

  lemma ServeThroughIsr(s: Dev, i: nat) returns (es: seq<Event>)
    requires i in s.isrs && !s.isrs[i].Entered?
    ensures Serves(s, es)
  {
    var t := if s.isrs[i].SawDone? then Next(s, IsrAck(i)) else s;
    var rest := ServeFromPending(Next(t, IsrSchedule(i)));
    Prepend(t, IsrSchedule(i), rest);
    es := [IsrSchedule(i)] + rest;
    if s.isrs[i].SawDone? {
      Prepend(s, IsrAck(i), es);
      es := [IsrAck(i)] + es;
    }
  }

  lemma Serve(s: Dev) returns (es: seq<Event>)
    requires s.irqRegistered && s.served <= s.completions && !Lost(s)
    ensures Serves(s, es)
  {
    if s.served == s.completions {
      es := [];
    } else if s.pending {
      es := ServeFromPending(s);
    } else if ScheduleOwed(s) {
      var i :| i in s.isrs && !s.isrs[i].Entered?;
      es := ServeThroughIsr(s, i);
    } else {
      var i := FreshId(s.isrs.Keys);
      var t := Next(s, IsrEnter(i, false));
      var rest := ServeThroughIsr(Next(t, IsrRead(i)), i);
      Prepend(t, IsrRead(i), rest);
      Prepend(s, IsrEnter(i, false), [IsrRead(i)] + rest);
      es := [IsrEnter(i, false)] + ([IsrRead(i)] + rest);
    }
  }

  /** While the interrupt is registered, a state can still serve all its completions without a new
      one exactly when none is lost. */
  lemma ServableIffNotLost(irq: nat, len: nat, s: Dev)
    requires Reachable(irq, len, s) && s.irqRegistered
    ensures (exists es :: Serves(s, es)) <==> !Lost(s)
  {
    var run :| Valid(Started(irq, len), run) && Exec(Started(irq, len), run) == s;
    ServedBounded(Started(irq, len), run);
    if Lost(s) {
      forall es | Valid(s, es) && NoNewCompletion(es)
        ensures Exec(s, es).served != s.completions
      {
        LostForever(s, es);
      }
    } else {
      var es := Serve(s);
    }
  }
}
