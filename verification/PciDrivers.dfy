/** Probe and remove of network/nic.c and dma_kernel_with_peripheral/driver.c, with their gotos and
    the data they store with each PCI device. Each call's outcome is a parameter: an error code
    (zero for success) or whether a pointer came back; `h` holds the pointers that come back. */
module PciDrivers {
  import opened Prelude
  import opened Ledger
  import opened PciResources
  import opened Fleet

  /** The goto chain of mynic_probe over the names of what its calls take. */
  method NicGotos<R>(c: NicCalls, pci: R, region: R, mmio: R, netdev: R, netreg: R, irq: R, napi: R)
    returns (err: int, stored: bool, ghost log: seq<Event<R>>)
    ensures
      if c.enable != 0 then err == c.enable && !stored && log == []
      else if c.region != 0 then err == c.region && !stored && log == Spelled1(pci)
      else if !c.iomap then err == -12 && !stored && log == Spelled2(pci, region)
      else if !c.netdev then err == -12 && !stored && log == Spelled3(pci, region, mmio)
      else if c.register != 0 then err == c.register && stored && log == Spelled4(pci, region, mmio, netdev)
      else if c.irq != 0 then err == c.irq && stored && log == Spelled5(pci, region, mmio, netdev, netreg)
      else
        && err == 0 && stored
        && log == [Acquire(pci), Acquire(region), Acquire(mmio), Acquire(netdev), Acquire(netreg), Acquire(irq), Acquire(napi)]
  {
    log := [];
    stored := false;
    err := c.enable;
    if err != 0 {
      return;
    }
    log := log + [Acquire(pci)];
    label err_disable_pci: {
      err := c.region;
      if err != 0 {
        break err_disable_pci;
      }
      log := log + [Acquire(region)];
      label err_release_region: {
        if !c.iomap {
          err := -ENOMEM;
          break err_release_region;
        }
        log := log + [Acquire(mmio)];
        label err_iounmap: {
          if !c.netdev {
            err := -ENOMEM;
            break err_iounmap;
          }
          log := log + [Acquire(netdev)];
          stored := true;
          label err_free_netdev: {
            err := c.register;
            if err != 0 {
              break err_free_netdev;
            }
            log := log + [Acquire(netreg)];
            label err_unregister_netdev: {
              err := c.irq;
              if err != 0 {
                break err_unregister_netdev;
              }
              log := log + [Acquire(irq), Acquire(napi)];
              return;
            }
            log := log + [Release(netreg)];
          }
          log := log + [Release(netdev)];
        }
        log := log + [Release(mmio)];
      }
      log := log + [Release(region)];
    }
    log := log + [Release(pci)];
  }

  /** mynic_probe up to its return: the goto chain logs what the general probe function logs for the
      same calls, and stores the net device with the PCI device once it exists. */
  method NicProbeChain(dev: nat, c: NicCalls, h: Handles)
    returns (err: int, stored: bool, ghost fail: nat, ghost log: seq<Event<Item>>)
    ensures
      && fail == FirstFailure(NicOutcomes(c))
      && log == ProbeLog(Named(dev, h, NIC_CALLS), fail)
      && (stored <==> fail >= 4)
      && (err == 0 <==> fail == 7)
      && err == [c.enable, c.region, -12, -12, c.register, c.irq, 0, 0][fail]
  {
    fail := FirstFailure(NicOutcomes(c));
    NicFailure(c);
    NicLog(dev, h, fail);
    ghost var names := Names(dev, h, NIC_TAKES);
    if fail < 7 {
      UnwindSpelled(names, fail);
    }
    err, stored, log := NicGotos(c, Name(PciDevice, dev, h), Name(Region, dev, h), Name(Mmio, dev, h), Name(NetDevice, dev, h),
                                 Name(NetRegistration, dev, h), Name(Irq, dev, h), Name(NapiContext, dev, h));
  }

  /** The goto chain of my_device_probe, field by field of the private data. */
  method DmaGotos<R>(c: DmaCalls, h: Handles, stored: Option<Handles>, pci: R, region: R, mmio: R, buffer: R, irq: R)
    returns (ret: int, stored': Option<Handles>, ghost log: seq<Event<R>>)
    requires h.irq == c.vector
    ensures
      if c.enable != 0 then ret == c.enable && log == []
      else if !c.priv then ret == -12 && log == Spelled1(pci)
      else if c.region != 0 then ret == c.region && log == Spelled1(pci)
      else if !c.ioremap then ret == -5 && log == Spelled2(pci, region)
      else if !c.buffer then ret == -12 && log == Spelled3(pci, region, mmio)
      else if c.vector < 0 then ret == c.vector && log == Spelled4(pci, region, mmio, buffer)
      else if c.irq != 0 then ret == c.irq && log == Spelled4(pci, region, mmio, buffer)
      else
        && ret == 0 && stored' == Some(h)
        && log == [Acquire(pci), Acquire(region), Acquire(mmio), Acquire(buffer), Acquire(irq)]
  {
    log := [];
    stored' := stored;
    ret := c.enable;
    if ret != 0 {
      return;
    }
    log := log + [Acquire(pci)];
    label disable_pci: {
      if !c.priv {
        ret := -ENOMEM;
        break disable_pci;
      }
      stored' := Some(Handles(0, 0, h.cookie, 0));
      ret := c.region;
      if ret != 0 {
        break disable_pci;
      }
      log := log + [Acquire(region)];
      label release_region: {
        if !c.ioremap {
          ret := -EIO;
          break release_region;
        }
        stored' := Some(stored'.value.(mmio := h.mmio));
        log := log + [Acquire(mmio)];
        label iounmap_regs: {
          if !c.buffer {
            ret := -ENOMEM;
            break iounmap_regs;
          }
          stored' := Some(stored'.value.(mem := h.mem));
          log := log + [Acquire(buffer)];
          label free_dma_buffer: {
            stored' := Some(stored'.value.(irq := c.vector));
            if c.vector < 0 {
              ret := c.vector;
              break free_dma_buffer;
            }
            ret := c.irq;
            if ret != 0 {
              break free_dma_buffer;
            }
            log := log + [Acquire(irq)];
            return;
          }
          log := log + [Release(buffer)];
        }
        log := log + [Release(mmio)];
      }
      log := log + [Release(region)];
    }
    log := log + [Release(pci)];
  }

  /** my_device_probe up to its return. */
  method DmaProbeChain(dev: nat, c: DmaCalls, h: Handles, stored: Option<Handles>)
    returns (ret: int, stored': Option<Handles>, ghost fail: nat, ghost log: seq<Event<Item>>)
    requires h.irq == c.vector
    ensures
      && fail == FirstFailure(DmaOutcomes(c))
      && log == ProbeLog(Named(dev, h, DMA_CALLS), fail)
      && (ret == 0 <==> fail == 7)
      && (fail == 7 ==> stored' == Some(h) && h.irq >= 0)
      && ret == [c.enable, -12, c.region, -5, -12, c.vector, c.irq, 0][fail]
  {
    fail := FirstFailure(DmaOutcomes(c));
    DmaFailure(c);
    DmaLog(dev, h, fail);
    ghost var names := Names(dev, h, DMA_TAKES);
    if fail < 7 {
      UnwindSpelled(names, DmaTaken(fail));
    }
    ret, stored', log := DmaGotos(c, h, stored, Name(PciDevice, dev, h), Name(Region, dev, h), Name(Mmio, dev, h),
                                  Name(DmaBuffer, dev, h), Name(Irq, dev, h));
  }

  function PastAll(h: Handles): nat {
    h.mmio + h.mem + h.cookie + 1
  }

  class Module {
    const drv: Driver
    var drvdata: map<nat, Handles>
    ghost var own: map<nat, Handles>
    ghost var books: Books<Item>
    ghost var next: nat

    ghost function View(): Private
      reads this
    {
      Private(own, drvdata, books, next)
    }

    constructor (drv: Driver)
      ensures this.drv == drv && View() == Loaded()
    {
      this.drv := drv;
      drvdata, own, books, next := map[], map[], Books({}, true), 0;
    }

    /** mynic_probe is the probe step of the fleet. */
    method NicProbe(dev: nat, c: NicCalls, h: Handles) returns (err: int)
      requires drv.Nic? && dev !in own && next <= h.mmio && next <= h.mem && next <= h.cookie
      modifies this
      ensures ProbeStep(Nic, old(View()), dev, FirstFailure(NicOutcomes(c)), h, View())
      ensures err == 0 <==> dev in own
    {
      var stored;
      ghost var fail, log;
      err, stored, fail, log := NicProbeChain(dev, c, h);
      if stored {
        drvdata := drvdata[dev := h];
      }
      if err == 0 {
        own := own[dev := h];
      }
      books := Replay(books, log);
      next := PastAll(h);
    }

    /** mynic_remove releases, through the stored private data, what the probe of that device took;
        it is the remove step of the fleet. */
    method NicRemove(dev: nat)
      requires drv.Nic? && dev in own && dev in drvdata
      modifies this
      ensures RemoveStep(Nic, old(View()), dev, View())
    {
      var priv := drvdata[dev];
      ghost var log := [Release(Line(priv.irq, priv.cookie))];
      log := log + [Release(AtPointer(priv.mem, NetRegistration))];
      log := log + [Release(AtPointer(priv.mem, NapiContext))];
      log := log + [Release(AtPointer(priv.mmio, Mmio))];
      log := log + [Release(AtPointer(priv.mem, NetDevice))];
      log := log + [Release(OfDevice(dev, Region))];
      log := log + [Release(OfDevice(dev, PciDevice))];
      assert log == Releases(Names(dev, priv, NIC_GIVES));
      books := Replay(books, log);
      own := own - {dev};
    }

    /** my_device_probe is the probe step of the fleet. */
    method DmaProbe(dev: nat, c: DmaCalls, h: Handles) returns (ret: int)
      requires drv.Dma? && dev !in own && next <= h.mmio && next <= h.mem && next <= h.cookie && h.irq == c.vector
      modifies this
      ensures ProbeStep(Dma, old(View()), dev, FirstFailure(DmaOutcomes(c)), h, View())
      ensures ret == 0 <==> dev in own
    {
      ghost var before := drvdata;
      var stored := if dev in drvdata then Some(drvdata[dev]) else None;
      ghost var fail, log;
      ret, stored, fail, log := DmaProbeChain(dev, c, h, stored);
      if stored.Some? {
        drvdata := drvdata[dev := stored.value];
      }
      assert OthersKept(dev, before, drvdata);
      assert |Calls(Dma)| == 7;
      if ret == 0 {
        own := own[dev := h];
      }
      books := Replay(books, log);
      next := PastAll(h);
    }

    /** my_device_remove: the interrupt only on a line above zero. */
    method DmaRemove(dev: nat)
      requires drv.Dma? && dev in own && dev in drvdata
      modifies this
      ensures RemoveStep(Dma, old(View()), dev, View())
    {
      var priv := drvdata[dev];
      ghost var log: seq<Event<Item>> := [];
      if priv.irq > 0 {
        log := log + [Release(Line(priv.irq, priv.cookie))];
      }
      log := log + [Release(AtPointer(priv.mem, DmaBuffer))];
      log := log + [Release(AtPointer(priv.mmio, Mmio))];
      log := log + [Release(OfDevice(dev, Region))];
      log := log + [Release(OfDevice(dev, PciDevice))];
      assert log == Releases(Names(dev, priv, DmaGives(priv.irq)));
      books := Replay(books, log);
      own := own - {dev};
    }
  }
}
