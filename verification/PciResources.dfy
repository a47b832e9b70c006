/** The resources that the PCI drivers take, and the names under which they are given back. */
module PciResources {
  import opened Prelude
  import opened Ledger

  const ENOMEM: int := 12
  const EIO: int := 5

  datatype Resource =
    | PciDevice
    | Region
    | Mmio
    | DmaBuffer
    | NetDevice
    | NetRegistration
    | Irq
    | NapiContext

  /** One resource of one probe, by what its release call names: the PCI device, the pointer that
      the acquiring call returned, or an interrupt line with its cookie. */
  datatype Item =
    | OfDevice(dev: nat, res: Resource)
    | AtPointer(ptr: nat, res: Resource)
    | Line(line: int, cookie: nat)

  /** What a driver remembers about one device: the mapped registers, the net device or DMA buffer,
      the interrupt line and the cookie it was requested with. */
  datatype Handles = Handles(mmio: nat, mem: nat, cookie: nat, irq: int)

  function Name(r: Resource, dev: nat, h: Handles): Item {
    match r
    case PciDevice => OfDevice(dev, r)
    case Region => OfDevice(dev, r)
    case Mmio => AtPointer(h.mmio, r)
    case Irq => Line(h.irq, h.cookie)
    case _ => AtPointer(h.mem, r)
  }

  function Kind(x: Item): Resource {
    if x.Line? then Irq else x.res
  }

  function Names(dev: nat, h: Handles, rs: seq<Resource>): seq<Item> {
    seq(|rs|, i requires 0 <= i < |rs| => Name(rs[i], dev, h))
  }

  /** The calls of a probe with the names of what they take. */
  function Named(dev: nat, h: Handles, calls: seq<Option<Resource>>): seq<Option<Item>> {
    seq(|calls|, i requires 0 <= i < |calls| => if calls[i].Some? then Some(Name(calls[i].value, dev, h)) else None)
  }

  lemma NamesMembers(dev: nat, h: Handles, rs: seq<Resource>, x: Item)
    ensures x in Names(dev, h, rs) <==> Kind(x) in rs && x == Name(Kind(x), dev, h)
  {
    if Kind(x) in rs && x == Name(Kind(x), dev, h) {
      var i :| 0 <= i < |rs| && rs[i] == Kind(x);
      assert Names(dev, h, rs)[i] == x;
    }
  }

  lemma NamesDistinct(dev: nat, h: Handles, rs: seq<Resource>)
    requires NoDup(rs)
    ensures NoDup(Names(dev, h, rs))
  {
    forall i, j | 0 <= i < j < |rs|
      ensures Names(dev, h, rs)[i] != Names(dev, h, rs)[j]
    {
      assert Kind(Name(rs[i], dev, h)) == rs[i] && Kind(Name(rs[j], dev, h)) == rs[j];
    }
  }

  lemma {:induction false} TakenNamed(dev: nat, h: Handles, calls: seq<Option<Resource>>)
    ensures Taken(Named(dev, h, calls)) == Names(dev, h, Taken(calls))
    decreases |calls|
  {
    if calls != [] {
      var n := |calls| - 1;
      TakenNamed(dev, h, calls[..n]);
      assert Named(dev, h, calls)[..n] == Named(dev, h, calls[..n]);
    }
  }

  /** A probe releases only resources of its own device. */
  lemma ProbeReleasesOwn(dev: nat, h: Handles, calls: seq<Option<Resource>>, fail: nat, x: Item)
    requires Release(x) in ProbeLog(Named(dev, h, calls), fail)
    ensures x == Name(Kind(x), dev, h)
  {
    ProbeReleasesTaken(Named(dev, h, calls), fail, x);
    assert Named(dev, h, calls)[..fail] == Named(dev, h, calls[..fail]);
    TakenNamed(dev, h, calls[..fail]);
    NamesMembers(dev, h, Taken(calls[..fail]), x);
  }

  // ----- The calls of each probe, in order -----

  /** network/nic.c; netif_napi_add cannot fail. */
  datatype NicCalls = NicCalls(enable: int, region: int, iomap: bool, netdev: bool, register: int, irq: int)

  const NIC_CALLS: seq<Option<Resource>> :=
    [Some(PciDevice), Some(Region), Some(Mmio), Some(NetDevice), Some(NetRegistration), Some(Irq), Some(NapiContext)]
  const NIC_TAKES: seq<Resource> := [PciDevice, Region, Mmio, NetDevice, NetRegistration, Irq, NapiContext]
  const NIC_GIVES: seq<Resource> := [Irq, NetRegistration, NapiContext, Mmio, NetDevice, Region, PciDevice]

  function NicOutcomes(c: NicCalls): seq<bool> {
    [c.enable == 0, c.region == 0, c.iomap, c.netdev, c.register == 0, c.irq == 0, true]
  }

  /** dma_kernel_with_peripheral/driver.c; the private data is device managed and the vector lookup
      takes nothing. */
  datatype DmaCalls = DmaCalls(enable: int, priv: bool, region: int, ioremap: bool, buffer: bool, vector: int, irq: int)

  const DMA_CALLS: seq<Option<Resource>> :=
    [Some(PciDevice), None, Some(Region), Some(Mmio), Some(DmaBuffer), None, Some(Irq)]
  const DMA_TAKES: seq<Resource> := [PciDevice, Region, Mmio, DmaBuffer, Irq]

  function DmaOutcomes(c: DmaCalls): seq<bool> {
    [c.enable == 0, c.priv, c.region == 0, c.ioremap, c.buffer, c.vector >= 0, c.irq == 0]
  }

  /** The remove function skips the interrupt unless its line is above zero. */
  function DmaGives(irq: int): seq<Resource> {
    (if irq > 0 then [Irq] else []) + [DmaBuffer, Mmio, Region, PciDevice]
  }

  /** pci_mmio/pcie.c. */
  datatype PcieCalls = PcieCalls(enable: int, region: int, ioremap: bool, irq: int)

  const PCIE_CALLS: seq<Option<Resource>> := [Some(PciDevice), Some(Region), Some(Mmio), Some(Irq)]
  const PCIE_TAKES: seq<Resource> := [PciDevice, Region, Mmio, Irq]
  const PCIE_GIVES: seq<Resource> := [Irq, Mmio, Region, PciDevice]

  function PcieOutcomes(c: PcieCalls): seq<bool> {
    [c.enable == 0, c.region == 0, c.ioremap, c.irq == 0]
  }

  // ----- What relies on what -----

  /** What a resource in use relies on: an interrupt handler may touch the registers, the buffer, the
      net device and its NAPI context; a registered net device can be opened at once. */
  function Uses(r: Resource): set<Resource> {
    match r
    case PciDevice => {}
    case Region => {PciDevice}
    case Mmio => {PciDevice, Region}
    case DmaBuffer => {PciDevice}
    case NetDevice => {}
    case NetRegistration => {NetDevice, Mmio}
    case Irq => {PciDevice, Mmio, DmaBuffer, NetDevice, NapiContext}
    case NapiContext => {NetDevice}
  }

  /** The remove functions release nothing before what relies on it, except that the DMA driver leaves
      the handler of a line that is not above zero without its registers and buffer. */
  lemma RemovesReleaseUsersFirst(irq: int)
    ensures forall i, j :: 0 <= i < j < |NIC_GIVES| ==> NIC_GIVES[i] !in Uses(NIC_GIVES[j])
    ensures forall i, j :: 0 <= i < j < |PCIE_GIVES| ==> PCIE_GIVES[i] !in Uses(PCIE_GIVES[j])
    ensures forall i, j :: 0 <= i < j < |DmaGives(irq)| ==> DmaGives(irq)[i] !in Uses(DmaGives(irq)[j])
    ensures (forall r :: r in DMA_TAKES && r !in DmaGives(irq) ==> forall u :: u in Uses(r) ==> u !in DmaGives(irq)) <==> irq > 0
  {
    if irq <= 0 {
      assert DMA_TAKES[4] == Irq && Mmio in Uses(Irq) && DmaGives(irq)[1] == Mmio;
    }
  }

  /** The probes take nothing before what it relies on, with one exception: the network driver
      requests its interrupt before the NAPI context that the handler schedules exists. */
  lemma ProbesTakeUsedFirst()
    ensures forall i, j :: 0 <= i < j < |DMA_TAKES| ==> DMA_TAKES[j] !in Uses(DMA_TAKES[i])
    ensures forall i, j :: 0 <= i < j < |PCIE_TAKES| ==> PCIE_TAKES[j] !in Uses(PCIE_TAKES[i])
    ensures forall i, j :: 0 <= i < j < |NIC_TAKES| ==>
              (NIC_TAKES[j] in Uses(NIC_TAKES[i]) <==> NIC_TAKES[i] == Irq && NIC_TAKES[j] == NapiContext)
    ensures NIC_TAKES[5] == Irq && NIC_TAKES[6] == NapiContext
  {
  }

  lemma {:induction false} AllTake<R>(calls: seq<Option<R>>, rs: seq<R>)
    requires |calls| == |rs| && forall i :: 0 <= i < |rs| ==> calls[i] == Some(rs[i])
    ensures Taken(calls) == rs
    decreases |calls|
  {
    if calls != [] {
      AllTake(calls[..|calls| - 1], rs[..|rs| - 1]);
    }
  }

  /** How many of the first `k` calls of the DMA probe take something. */
  function DmaTaken(k: nat): nat {
    if k <= 1 then k else if k <= 5 then k - 1 else k - 2
  }

  /** `at(k)` counts the takes among the first `k` calls, and `rs` lists what they take. */
  ghost predicate Counts<R>(calls: seq<Option<R>>, rs: seq<R>, at: nat -> nat) {
    && at(0) == 0
    && forall i :: 0 <= i < |calls| ==>
                     match calls[i]
                     case None => at(i + 1) == at(i) <= |rs|
                     case Some(r) => at(i + 1) == at(i) + 1 <= |rs| && rs[at(i)] == r
  }

  lemma {:induction false} TakenByCount<R>(calls: seq<Option<R>>, rs: seq<R>, at: nat -> nat, k: nat)
    requires Counts(calls, rs, at) && k <= |calls|
    ensures at(k) <= |rs| && Taken(calls[..k]) == rs[..at(k)]
  {
    if k > 0 {
      TakenByCount(calls, rs, at, k - 1);
      TakenSnoc(calls[..k - 1], calls[k - 1]);
      assert calls[..k] == calls[..k - 1] + [calls[k - 1]];
    }
  }

  lemma DmaPrefix(k: nat)
    requires k <= |DMA_CALLS|
    ensures Taken(DMA_CALLS[..k]) == DMA_TAKES[..DmaTaken(k)]
  {
    TakenByCount(DMA_CALLS, DMA_TAKES, DmaTaken, k);
  }

  lemma CallsTake()
    ensures Taken(NIC_CALLS) == NIC_TAKES
    ensures Taken(DMA_CALLS) == DMA_TAKES
    ensures Taken(PCIE_CALLS) == PCIE_TAKES
  {
    AllTake(NIC_CALLS, NIC_TAKES);
    AllTake(PCIE_CALLS, PCIE_TAKES);
    DmaPrefix(7);
    assert DMA_CALLS[..7] == DMA_CALLS && DMA_TAKES[..5] == DMA_TAKES;
  }

  /** The log of a probe in terms of the names taken before call `fail`. */
  function UnwindLog(names: seq<Item>): seq<Event<Item>> {
    Acquires(names) + Releases(Reversed(names))
  }

  lemma NamedLog(dev: nat, h: Handles, calls: seq<Option<Resource>>, fail: nat, rs: seq<Resource>, k: nat)
    requires fail <= |calls| && k <= |rs| && Taken(calls[..fail]) == rs[..k] && (fail == |calls| ==> k == |rs|)
    ensures ProbeLog(Named(dev, h, calls), fail) ==
            if fail < |calls| then UnwindLog(Names(dev, h, rs)[..k]) else Acquires(Names(dev, h, rs))
  {
    assert Named(dev, h, calls)[..fail] == Named(dev, h, calls[..fail]);
    TakenNamed(dev, h, calls[..fail]);
    assert Names(dev, h, rs[..k]) == Names(dev, h, rs)[..k];
    assert fail == |calls| ==> calls[..fail] == calls && rs[..k] == rs;
  }

  lemma NicLog(dev: nat, h: Handles, fail: nat)
    requires fail <= |NIC_CALLS|
    ensures ProbeLog(Named(dev, h, NIC_CALLS), fail) ==
            if fail < 7 then UnwindLog(Names(dev, h, NIC_TAKES)[..fail]) else Acquires(Names(dev, h, NIC_TAKES))
  {
    AllTake(NIC_CALLS[..fail], NIC_TAKES[..fail]);
    NamedLog(dev, h, NIC_CALLS, fail, NIC_TAKES, fail);
  }

  lemma DmaLog(dev: nat, h: Handles, fail: nat)
    requires fail <= |DMA_CALLS|
    ensures ProbeLog(Named(dev, h, DMA_CALLS), fail) ==
            if fail < 7 then UnwindLog(Names(dev, h, DMA_TAKES)[..DmaTaken(fail)]) else Acquires(Names(dev, h, DMA_TAKES))
  {
    DmaPrefix(fail);
    NamedLog(dev, h, DMA_CALLS, fail, DMA_TAKES, DmaTaken(fail));
  }

  lemma PcieLog(dev: nat, h: Handles, fail: nat)
    requires fail <= |PCIE_CALLS|
    ensures ProbeLog(Named(dev, h, PCIE_CALLS), fail) ==
            if fail < 4 then UnwindLog(Names(dev, h, PCIE_TAKES)[..fail]) else Acquires(Names(dev, h, PCIE_TAKES))
  {
    AllTake(PCIE_CALLS[..fail], PCIE_TAKES[..fail]);
    NamedLog(dev, h, PCIE_CALLS, fail, PCIE_TAKES, fail);
  }

  /** The unwinding logs of up to five names, spelled out. */
  lemma UnwindSpelled(names: seq<Item>, k: nat)
    requires k <= 5 && k <= |names|
    ensures
      var log := UnwindLog(names[..k]);
      && (k == 0 ==> log == [])
      && (k == 1 ==> log == Spelled1(names[0]))
      && (k == 2 ==> log == Spelled2(names[0], names[1]))
      && (k == 3 ==> log == Spelled3(names[0], names[1], names[2]))
      && (k == 4 ==> log == Spelled4(names[0], names[1], names[2], names[3]))
      && (k == 5 ==> log == Spelled5(names[0], names[1], names[2], names[3], names[4]))
  {
  }

  function Spelled1<R>(a: R): seq<Event<R>> {
    [Acquire(a), Release(a)]
  }

  function Spelled2<R>(a: R, b: R): seq<Event<R>> {
    [Acquire(a), Acquire(b), Release(b), Release(a)]
  }

  function Spelled3<R>(a: R, b: R, c: R): seq<Event<R>> {
    [Acquire(a), Acquire(b), Acquire(c), Release(c), Release(b), Release(a)]
  }

  function Spelled4<R>(a: R, b: R, c: R, d: R): seq<Event<R>> {
    [Acquire(a), Acquire(b), Acquire(c), Acquire(d), Release(d), Release(c), Release(b), Release(a)]
  }

  function Spelled5<R>(a: R, b: R, c: R, d: R, e: R): seq<Event<R>> {
    [Acquire(a), Acquire(b), Acquire(c), Acquire(d), Acquire(e), Release(e), Release(d), Release(c), Release(b), Release(a)]
  }

  lemma PcieLogSpelled(dev: nat, h: Handles, fail: nat)
    requires fail <= 4
    ensures
      var pci, region := Name(PciDevice, dev, h), Name(Region, dev, h);
      var mmio, irq := Name(Mmio, dev, h), Name(Irq, dev, h);
      var log := ProbeLog(Named(dev, h, PCIE_CALLS), fail);
      && (fail == 0 ==> log == [])
      && (fail == 1 ==> log == Spelled1(pci))
      && (fail == 2 ==> log == Spelled2(pci, region))
      && (fail == 3 ==> log == Spelled3(pci, region, mmio))
      && (fail == 4 ==> log == [Acquire(pci), Acquire(region), Acquire(mmio), Acquire(irq)])
  {
    PcieLog(dev, h, fail);
    if fail < 4 {
      UnwindSpelled(Names(dev, h, PCIE_TAKES), fail);
    }
  }

  /** The first failing call, spelled out. */
  lemma NicFailure(c: NicCalls)
    ensures FirstFailure(NicOutcomes(c)) ==
            if c.enable != 0 then 0 else if c.region != 0 then 1 else if !c.iomap then 2 else if !c.netdev then 3
            else if c.register != 0 then 4 else if c.irq != 0 then 5 else 7
  {
    var ok := NicOutcomes(c);
    assert ok[0] == (c.enable == 0) && ok[1] == (c.region == 0) && ok[2] == c.iomap && ok[3] == c.netdev;
    assert ok[4] == (c.register == 0) && ok[5] == (c.irq == 0) && ok[6];
  }

  lemma DmaFailure(c: DmaCalls)
    ensures FirstFailure(DmaOutcomes(c)) ==
            if c.enable != 0 then 0 else if !c.priv then 1 else if c.region != 0 then 2 else if !c.ioremap then 3
            else if !c.buffer then 4 else if c.vector < 0 then 5 else if c.irq != 0 then 6 else 7
  {
    var ok := DmaOutcomes(c);
    assert ok[0] == (c.enable == 0) && ok[1] == c.priv && ok[2] == (c.region == 0) && ok[3] == c.ioremap;
    assert ok[4] == c.buffer && ok[5] == (c.vector >= 0) && ok[6] == (c.irq == 0);
  }

  lemma PcieFailure(c: PcieCalls)
    ensures FirstFailure(PcieOutcomes(c)) ==
            if c.enable != 0 then 0 else if c.region != 0 then 1 else if !c.ioremap then 2 else if c.irq != 0 then 3 else 4
  {
    var ok := PcieOutcomes(c);
    assert ok[0] == (c.enable == 0) && ok[1] == (c.region == 0) && ok[2] == c.ioremap && ok[3] == (c.irq == 0);
  }

  lemma TakesDistinct()
    ensures NoDup(NIC_TAKES) && NoDup(DMA_TAKES) && NoDup(PCIE_TAKES)
    ensures NoDup(NIC_GIVES) && Elems(NIC_GIVES) == Elems(NIC_TAKES)
    ensures NoDup(PCIE_GIVES) && Elems(PCIE_GIVES) == Elems(PCIE_TAKES)
  {
  }

  /** From any books that hold nothing of the device, a probe leaves them as they were or adds
      exactly the device's resources. */
  lemma ProbeUnwinds(b: Books<Item>, dev: nat, h: Handles, calls: seq<Option<Resource>>, fail: nat)
    requires NoDup(Taken(calls)) && Elems(Names(dev, h, Taken(calls))) !! b.held
    ensures Replay(b, ProbeLog(Named(dev, h, calls), fail)) ==
            if fail < |calls| then b else Books(b.held + Elems(Names(dev, h, Taken(calls))), b.clean)
  {
    NamesDistinct(dev, h, Taken(calls));
    TakenNamed(dev, h, calls);
    ProbeIsAllOrNothing(b, Named(dev, h, calls), fail);
  }
}
