/** Probe and remove of pci_mmio/pcie.c with their static variables, proved to be the steps of
    StaticFleet. */
module PcieDriver {
  import opened Prelude
  import opened Ledger
  import opened PciResources
  import opened StaticFleet

  class PcieModule {
    var mmioBase: Option<nat>
    var irqLine: int
    ghost var own: map<nat, nat>
    ghost var books: Books<Item>
    ghost var next: nat

    ghost function View(): Static
      reads this
    {
      Static(own, books, mmioBase, irqLine, next)
    }

    constructor ()
      ensures View() == Loaded()
    {
      mmioBase, irqLine := None, 0;
      own, books, next := map[], Books({}, true), 0;
    }

    /** The calls of pci_probe and its writes to the statics, over the names of what the calls take. */
    method ProbeCalls<R>(c: PcieCalls, mapping: nat, irq: int, pci: R, region: R, mmio: R, registered: R)
      returns (err: int, ghost log: seq<Event<R>>)
      modifies this`mmioBase, this`irqLine
      ensures
        if c.enable != 0 then err == c.enable && log == [] && mmioBase == old(mmioBase) && irqLine == old(irqLine)
        else if c.region != 0 then err == c.region && log == Spelled1(pci) && mmioBase == old(mmioBase) && irqLine == old(irqLine)
        else if !c.ioremap then err == -12 && log == Spelled2(pci, region) && mmioBase == None && irqLine == old(irqLine)
        else
          && err == c.irq && mmioBase == Some(mapping) && irqLine == irq
          && log == if c.irq != 0 then Spelled3(pci, region, mmio)
                    else [Acquire(pci), Acquire(region), Acquire(mmio), Acquire(registered)]
    {
      log := [];
      err := c.enable;
      if err != 0 {
        return;
      }
      log := log + [Acquire(pci)];
      err := c.region;
      if err != 0 {
        log := log + [Release(pci)];
        return;
      }
      log := log + [Acquire(region)];
      mmioBase := if c.ioremap then Some(mapping) else None;
      if mmioBase == None {
        log := log + [Release(region)];
        log := log + [Release(pci)];
        err := -ENOMEM;
        return;
      }
      log := log + [Acquire(mmio)];
      irqLine := irq;
      err := c.irq;
      if err != 0 {
        log := log + [Release(mmio)];
        log := log + [Release(region)];
        log := log + [Release(pci)];
        return;
      }
      log := log + [Acquire(registered)];
    }

    /** pci_probe; `line(dev)` is pdev->irq and `mapping` what ioremap returns. */
    method ProbeDevice(dev: nat, c: PcieCalls, mapping: nat, line: nat -> int) returns (err: int)
      requires mapping == next
      modifies this
      ensures View() == Step(old(View()), Probe(dev, FirstFailure(PcieOutcomes(c))), line)
      ensures err == [c.enable, c.region, -12, c.irq, 0][FirstFailure(PcieOutcomes(c))]
    {
      ghost var fail, h := FirstFailure(PcieOutcomes(c)), Got(dev, mapping, line);
      ghost var log;
      err, log := ProbeCalls(c, mapping, line(dev), OfDevice(dev, PciDevice), OfDevice(dev, Region),
                             AtPointer(mapping, Mmio), Line(line(dev), dev));
      PcieFailure(c);
      PcieLogSpelled(dev, h, fail);
      assert log == ProbeLog(Named(dev, h, PCIE_CALLS), fail);
      books := Replay(books, log);
      next := next + 1;
      if err == 0 {
        own := own[dev := mapping];
      }
    }

    /** pci_remove: the interrupt and the mapping come from the statics, the rest from the device. */
    method RemoveDevice(dev: nat, line: nat -> int)
      modifies this
      ensures View() == Step(old(View()), Remove(dev), line)
    {
      ghost var log: seq<Event<Item>> := if irqLine == line(dev) then [Release(Line(irqLine, dev))] else [];
      log := log + (if mmioBase.Some? then [Release(AtPointer(mmioBase.value, Mmio))] else []);
      log := log + [Release(OfDevice(dev, Region))];
      log := log + [Release(OfDevice(dev, PciDevice))];
      assert log == RemoveLog(View(), dev, line);
      own := own - {dev};
      books := Replay(books, log);
    }
  }
}
