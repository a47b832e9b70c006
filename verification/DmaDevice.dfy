/** The status word of dma_kernel_with_peripheral/driver.c. */
module StatusBits {
  import P = DmaProtocol

  const BUSY: bv32 := 1
  const DONE: bv32 := 2
  const IRQ_ENABLE: bv32 := 4

  /** A status word as the protocol model sees it. */
  function Flags(word: bv32): P.Status {
    P.Status(word & BUSY != 0, word & DONE != 0, word & IRQ_ENABLE != 0)
  }

  lemma FlagWords()
    ensures Flags(0) == P.Status(false, false, false)
    ensures Flags(IRQ_ENABLE) == P.Status(false, false, true)
  {
  }

  /** What the handler makes of the word that the simulated transfer writes. */
  lemma TransferWord()
    ensures (DONE | IRQ_ENABLE) & 2 != 0 && (DONE | IRQ_ENABLE) & !2 == 4
  {
  }

  lemma StartCleared(word: bv32)
    ensures (word & !1) & 1 == 0 && (word & !1) | 1 == word | 1
  {
  }

  /** Clearing DONE does nothing to a word without it. */
  lemma ClearAbsent(word: bv32)
    requires word & DONE == 0
    ensures word & !DONE == word
  {
  }

  lemma ClearKeeps(word: bv32)
    ensures (word & !DONE) & DONE == 0
    ensures (word & !DONE) & BUSY == word & BUSY
    ensures (word & !DONE) & IRQ_ENABLE == word & IRQ_ENABLE
  {
  }

  /** Clearing DONE touches no other bit. */
  lemma ClearDone(word: bv32)
    ensures Flags(word & !DONE) == Flags(word).(done := false)
  {
    ClearKeeps(word);
  }
}

/** Registers, buffer and simulated transfer of dma_kernel_with_peripheral/driver.c. */
module DmaDevice {
  import opened StatusBits
  import P = DmaProtocol

  const START: bv32 := 1
  const DIRECTION: bv32 := 2

  const BUFFER_SIZE: nat := P.BUFFER_SIZE
  const FILL: bv8 := 0xAA

  type U32 = n: int | 0 <= n < 0x1_0000_0000

  class Device {
    var control: bv32
    var status: bv32
    var dmaAddr: bv64
    var dmaLen: U32
    var buffer: array?<bv8>
    var taskletPending: bool

    ghost predicate Wf()
      reads this
    {
      buffer != null ==> buffer.Length == BUFFER_SIZE
    }

    /** The transfer is refused without a buffer or beyond its size. */
    predicate Accepts()
      reads this
    {
      buffer != null && dmaLen <= BUFFER_SIZE
    }

    /** my_device_isr called to completion. */
    method Isr() returns (handled: bool)
      modifies this`status, this`taskletPending
      ensures handled <==> old(status) & 2 != 0
      ensures status == old(status) & !2 && Flags(status) == Flags(old(status)).(done := false)
      ensures taskletPending <==> old(taskletPending) || handled
    {
      var seen := status;
      ClearDone(seen);
      if seen & DONE != 0 {
        status := seen & !DONE;
        taskletPending := true;
        return true;
      }
      ClearAbsent(seen);
      return false;
    }

    /** Called by the kernel, it is an undisturbed activation of the protocol. */
    method IsrAsRun(ghost d: P.Dev, ghost i: nat) returns (handled: bool, ghost t: P.Dev)
      requires Shows(d) && d.irqRegistered && !P.Unsafe(d) && i !in d.isrs
      modifies this`status, this`taskletPending
      ensures Shows(t) && P.Leads(d, t) && t.isrs == d.isrs && t.phase == d.phase
      ensures handled <==> d.status.done
    {
      t := P.UndisturbedIsr(d, i);
      handled := Isr();
    }

    method Memset(len: nat)
      requires buffer != null && len <= buffer.Length
      modifies buffer
      ensures forall i :: 0 <= i < buffer.Length ==> buffer[i] == if i < len then 0xAA else old(buffer[i])
    {
      var k := 0;
      while k < len
        invariant 0 <= k <= len
        invariant forall i :: 0 <= i < buffer.Length ==> buffer[i] == if i < k then FILL else old(buffer[i])
      {
        buffer[k] := FILL;
        k := k + 1;
      }
    }

    /** The body of the simulated transfer, between reading and writing the control register. */
    method Transfer(fromDevice: bool)
      requires Wf()
      modifies this`status, this`taskletPending, buffer
      ensures status == if buffer != null && dmaLen <= 16384 then 4 else 0
      ensures taskletPending <==> old(taskletPending) || (buffer != null && dmaLen <= 16384)
      ensures buffer != null ==> forall i :: 0 <= i < 16384 ==>
                buffer[i] == if dmaLen <= 16384 && fromDevice && i < dmaLen then 0xAA else old(buffer[i])
    {
      if buffer != null && dmaLen <= BUFFER_SIZE {
        if fromDevice {
          Memset(dmaLen);
        }
        TransferWord();
        status := DONE | IRQ_ENABLE;
        var handled := Isr();
      } else {
        status := 0;
      }
    }

    /** The last write of the simulated transfer: the control word that was read, without START. */
    method ClearStart(seen: bv32)
      modifies this`control
      ensures control & 1 == 0 && control | 1 == seen | 1
    {
      StartCleared(seen);
      control := seen & !START;
      assert control == seen & !1;
    }

    /** my_device_simulate_dma without concurrent hardware writes. */
    method SimulateDma()
      requires Wf()
      modifies this`control, this`status, this`taskletPending, buffer
      ensures control & 1 == 0 && control | 1 == old(control) | 1
      ensures status == if buffer != null && dmaLen <= 16384 then 4 else 0
      ensures taskletPending <==> old(taskletPending) || (buffer != null && dmaLen <= 16384)
      ensures buffer != null ==> buffer.Length == 16384
      ensures buffer != null ==> forall i :: 0 <= i < 16384 ==>
                buffer[i] == if dmaLen <= 16384 && old(control) & 2 != 0 && i < dmaLen then 0xAA else old(buffer[i])
    {
      var seen := control;
      Transfer(seen & DIRECTION != 0);
      ClearStart(seen);
    }

    /** The register programming and transfer at the end of a successful probe. */
    method ProgramAndTransfer(phys: bv64)
      requires Wf() && buffer != null
      modifies this`control, this`status, this`dmaAddr, this`dmaLen, this`taskletPending, buffer
      ensures dmaAddr == phys && dmaLen == 16384
      ensures control == 6 && status == 4
      ensures taskletPending
      ensures buffer.Length == 16384 && forall i :: 0 <= i < 16384 ==> buffer[i] == 0xAA
    {
      dmaAddr := phys;
      dmaLen := BUFFER_SIZE;
      control := 0;
      control := DIRECTION | IRQ_ENABLE;
      control := START | DIRECTION | IRQ_ENABLE;
      SimulateDma();
    }

    /** The device as the protocol model sees it. */
    ghost predicate Shows(d: P.Dev)
      reads this
    {
      && d.status == Flags(status) && d.pending == taskletPending
      && d.len == dmaLen && (d.bufferLive <==> buffer != null)
    }

    /** Accepted or refused, the simulated transfer is a run of the protocol that ends ready for the
        probe to return. */
    method SimulateAsRun(ghost d: P.Dev, ghost i: nat) returns (ghost t: P.Dev)
      requires Wf() && Shows(d) && d.phase.Probing? && d.regsMapped && i !in d.isrs
      modifies this`control, this`status, this`taskletPending, buffer
      ensures Shows(t) && P.Leads(d, t) && t.phase.Finishing? && t.isrs == d.isrs
      ensures t.completions == d.completions + (if Accepts() then 1 else 0)
    {
      P.LeadsNowhere(d);
      FlagWords();
      SimulateDma();
      if Accepts() {
        t := P.AcceptedTransfer(d, d, i);
      } else {
        t := P.LeadsStep(d, d, P.ErrorWrite);
      }
    }
  }
}
