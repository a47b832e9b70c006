/** pci_mmio/pcie.c, which keeps mmio_base and irq_line in static variables, under any sequence of
    probes, failed probes and removes. */
module StaticFleet {
  import opened Prelude
  import opened Ledger
  import opened PciResources

  /** `own` are the bound devices with the mapping their probe made; `mmio` is the mapping that
      mmio_base points to, None for a null pointer; mappings below `next` have been handed out. */
  datatype Static = Static(own: map<nat, nat>, books: Books<Item>, mmio: Option<nat>, irqLine: int, next: nat)

  /** `fail` is the position of the first failing call. */
  datatype Op = Probe(dev: nat, fail: nat) | Remove(dev: nat)

  /** What a probe of `dev` obtains; the cookie of its interrupt is the PCI device. */
  function Got(dev: nat, mapping: nat, line: nat -> int): Handles {
    Handles(mapping, 0, dev, line(dev))
  }

  /** free_irq with a line other than the one registered for the device, and iounmap of a null
      pointer, release nothing. */
  function RemoveLog(s: Static, d: nat, line: nat -> int): seq<Event<Item>> {
    (if s.irqLine == line(d) then [Release(Line(line(d), d))] else [])
    + (if s.mmio.Some? then [Release(AtPointer(s.mmio.value, Mmio))] else [])
    + [Release(OfDevice(d, Region)), Release(OfDevice(d, PciDevice))]
  }

  predicate Enabled(s: Static, op: Op) {
    match op
    case Probe(d, _) => d !in s.own
    case Remove(d) => d in s.own
  }

  function Step(s: Static, op: Op, line: nat -> int): Static {
    match op
    case Probe(d, fail) =>
      Static(
        if fail < |PCIE_CALLS| then s.own else s.own[d := s.next],
        Replay(s.books, ProbeLog(Named(d, Got(d, s.next, line), PCIE_CALLS), fail)),
        if fail < 2 then s.mmio else if fail == 2 then None else Some(s.next),
        if fail <= 2 then s.irqLine else line(d),
        s.next + 1)
    case Remove(d) =>
      s.(own := s.own - {d}, books := Replay(s.books, RemoveLog(s, d, line)))
  }

  ghost predicate Valid(s: Static, ops: seq<Op>, line: nat -> int)
    decreases |ops|
  {
    ops == [] || (Enabled(s, ops[0]) && Valid(Step(s, ops[0], line), ops[1..], line))
  }

  function Run(s: Static, ops: seq<Op>, line: nat -> int): Static
    decreases |ops|
  {
    if ops == [] then s else Run(Step(s, ops[0], line), ops[1..], line)
  }

  /** The module is loaded: nothing bound, statics zero. */
  function Loaded(): Static {
    Static(map[], Books({}, true), None, 0, 0)
  }

  ghost function Ideal(own: map<nat, nat>, line: nat -> int): set<Item> {
    set d, r | d in own && r in PCIE_TAKES :: Name(r, d, Got(d, own[d], line))
  }

  ghost predicate Exact(s: Static, line: nat -> int) {
    s.books == Books(Ideal(s.own, line), true)
  }

  /** Every remove finds mmio_base pointing to the mapping made for the device being removed. */
  ghost predicate RemovesMatch(s: Static, ops: seq<Op>, line: nat -> int)
    decreases |ops|
  {
    ops == [] ||
    ((ops[0].Remove? ==> ops[0].dev in s.own && s.mmio == Some(s.own[ops[0].dev]))
     && RemovesMatch(Step(s, ops[0], line), ops[1..], line))
  }

  /** Mappings are never reused, and irq_line is written together with mmio_base. */
  ghost predicate StaticsOk(s: Static, line: nat -> int) {
    && (forall d :: d in s.own ==> s.own[d] < s.next)
    && (forall d, e :: d in s.own && e in s.own && d != e ==> s.own[d] != s.own[e])
    && (s.mmio.Some? ==> s.mmio.value < s.next)
    && (forall d :: d in s.own && s.mmio == Some(s.own[d]) ==> s.irqLine == line(d))
  }

  lemma StaticsOkStep(s: Static, op: Op, line: nat -> int)
    requires StaticsOk(s, line) && Enabled(s, op)
    ensures StaticsOk(Step(s, op, line), line)
  {
  }

  lemma IdealMembers(own: map<nat, nat>, line: nat -> int, x: Item)
    ensures x in Ideal(own, line) <==>
            Kind(x) in PCIE_TAKES && exists d :: d in own && x == Name(Kind(x), d, Got(d, own[d], line))
  {
    if x in Ideal(own, line) {
      var d, r :| d in own && r in PCIE_TAKES && x == Name(r, d, Got(d, own[d], line));
      assert Kind(x) == r;
    }
  }

  lemma NamesApart(own: map<nat, nat>, d: nat, p: nat, line: nat -> int)
    requires d !in own && forall e :: e in own ==> own[e] != p
    ensures Elems(Names(d, Got(d, p, line), PCIE_TAKES)) !! Ideal(own, line)
  {
    forall x | x in Elems(Names(d, Got(d, p, line), PCIE_TAKES))
      ensures x !in Ideal(own, line)
    {
      NamesMembers(d, Got(d, p, line), PCIE_TAKES, x);
      IdealMembers(own, line, x);
    }
  }

  lemma IdealPlus(own: map<nat, nat>, d: nat, p: nat, line: nat -> int)
    requires d !in own
    ensures Ideal(own[d := p], line) == Ideal(own, line) + Elems(Names(d, Got(d, p, line), PCIE_TAKES))
  {
    forall x: Item
      ensures x in Ideal(own[d := p], line) <==> x in Ideal(own, line) || x in Elems(Names(d, Got(d, p, line), PCIE_TAKES))
    {
      var own' := own[d := p];
      IdealMembers(own, line, x);
      IdealMembers(own', line, x);
      NamesMembers(d, Got(d, p, line), PCIE_TAKES, x);
      if x in Ideal(own, line) {
        var e :| e in own && x == Name(Kind(x), e, Got(e, own[e], line));
        assert e in own' && own'[e] == own[e];
      }
      if x in Elems(Names(d, Got(d, p, line), PCIE_TAKES)) {
        assert d in own' && own'[d] == p;
      }
    }
  }

  lemma ProbeExact(s: Static, d: nat, fail: nat, line: nat -> int)
    requires StaticsOk(s, line) && Exact(s, line) && d !in s.own
    ensures Exact(Step(s, Probe(d, fail), line), line)
  {
    CallsTake();
    TakesDistinct();
    NamesApart(s.own, d, s.next, line);
    ProbeUnwinds(s.books, d, Got(d, s.next, line), PCIE_CALLS, fail);
    IdealPlus(s.own, d, s.next, line);
  }

  lemma RemoveExact(s: Static, d: nat, line: nat -> int)
    requires StaticsOk(s, line) && Exact(s, line) && d in s.own && s.mmio == Some(s.own[d])
    ensures Exact(Step(s, Remove(d), line), line)
  {
    var t := Step(s, Remove(d), line);
    var h := Got(d, s.own[d], line);
    TakesDistinct();
    NamesDistinct(d, h, PCIE_GIVES);
    assert Elems(Names(d, h, PCIE_GIVES)) == Elems(Names(d, h, PCIE_TAKES)) by {
      forall x: Item
        ensures x in Names(d, h, PCIE_GIVES) <==> x in Names(d, h, PCIE_TAKES)
      {
        NamesMembers(d, h, PCIE_GIVES, x);
        NamesMembers(d, h, PCIE_TAKES, x);
      }
    }
    assert RemoveLog(s, d, line) == Releases(Names(d, h, PCIE_GIVES));
    assert s.own == t.own[d := s.own[d]];
    IdealPlus(t.own, d, s.own[d], line);
    NamesApart(t.own, d, s.own[d], line);
    ReplayReleases(s.books, Names(d, h, PCIE_GIVES));
  }

  /** Whatever the statics say, a remove gives back the device's region and PCI device, its interrupt
      exactly when irq_line is its line, and the mapping that mmio_base points to, whoever made it;
      that is legal exactly when mmio_base is null or points to a mapping of a bound device. */
  lemma RemoveReleases(s: Static, d: nat, line: nat -> int)
    requires StaticsOk(s, line) && Exact(s, line) && d in s.own
    ensures
      var t := Step(s, Remove(d), line);
      && t.own == s.own - {d} && t.mmio == s.mmio && t.irqLine == s.irqLine
      && t.books.held == s.books.held - {OfDevice(d, Region), OfDevice(d, PciDevice)}
                         - (if s.irqLine == line(d) then {Line(line(d), d)} else {})
                         - (if s.mmio.Some? then {AtPointer(s.mmio.value, Mmio)} else {})
      && (t.books.clean <==> s.mmio.None? || exists e :: e in s.own && s.own[e] == s.mmio.value)
  {
    var irq: seq<Item> := if s.irqLine == line(d) then [Line(line(d), d)] else [];
    var mapping: seq<Item> := if s.mmio.Some? then [AtPointer(s.mmio.value, Mmio)] else [];
    var names := irq + mapping + [OfDevice(d, Region), OfDevice(d, PciDevice)];
    assert RemoveLog(s, d, line) == Releases(names);
    ReplayReleases(s.books, names);
    var h := Got(d, s.own[d], line);
    forall x | x in {OfDevice(d, Region), OfDevice(d, PciDevice), Line(line(d), d)}
      ensures x in s.books.held
    {
      assert x == Name(Kind(x), d, h);
      IdealMembers(s.own, line, x);
    }
    if s.mmio.Some? {
      IdealMembers(s.own, line, AtPointer(s.mmio.value, Mmio));
    }
  }

  // ----- A mapping that mmio_base has lost sight of -----

  ghost predicate Orphaned(s: Static, p: nat) {
    && AtPointer(p, Mmio) in s.books.held && p < s.next
    && (forall d :: d in s.own ==> s.own[d] != p)
    && s.mmio != Some(p)
  }

  lemma OrphanedIsInexact(s: Static, p: nat, line: nat -> int)
    requires Orphaned(s, p)
    ensures !Exact(s, line)
  {
    IdealMembers(s.own, line, AtPointer(p, Mmio));
  }

  /** Removing a device that mmio_base does not name leaves its mapping behind. */
  lemma MismatchedRemoveOrphans(s: Static, d: nat, line: nat -> int)
    requires StaticsOk(s, line) && Exact(s, line) && d in s.own && s.mmio != Some(s.own[d])
    ensures Orphaned(Step(s, Remove(d), line), s.own[d])
  {
    var x := AtPointer(s.own[d], Mmio);
    assert PCIE_TAKES[2] == Mmio;
    assert x == Name(Mmio, d, Got(d, s.own[d], line));
    IdealMembers(s.own, line, x);
    ReplayKeeps(s.books, RemoveLog(s, d, line), x);
  }

  lemma OrphanedStep(s: Static, op: Op, p: nat, line: nat -> int)
    requires Orphaned(s, p) && Enabled(s, op)
    ensures Orphaned(Step(s, op, line), p)
  {
    var x := AtPointer(p, Mmio);
    match op
    case Remove(d) =>
      ReplayKeeps(s.books, RemoveLog(s, d, line), x);
    case Probe(d, fail) =>
      var h := Got(d, s.next, line);
      var calls := Named(d, h, PCIE_CALLS);
      if Release(x) in ProbeLog(calls, fail) {
        ProbeReleasesOwn(d, h, PCIE_CALLS, fail, x);
        assert false;
      }
      ReplayKeeps(s.books, ProbeLog(calls, fail), x);
  }

  /** That very mapping stays held in every continuation. */
  lemma {:induction false} OrphanedForever(s: Static, ops: seq<Op>, p: nat, line: nat -> int)
    requires Orphaned(s, p) && Valid(s, ops, line)
    ensures Orphaned(Run(s, ops, line), p)
    decreases |ops|
  {
    if ops != [] {
      OrphanedStep(s, ops[0], p, line);
      OrphanedForever(Step(s, ops[0], line), ops[1..], p, line);
    }
  }

  // ----- Main results -----

  /** A run ends with exactly the bound devices' resources held, and no illegal release, exactly
      when every remove found the statics still describing the device it removes. */
  lemma {:induction false} LedgerExactIff(s: Static, ops: seq<Op>, line: nat -> int)
    requires StaticsOk(s, line) && Exact(s, line) && Valid(s, ops, line)
    ensures Exact(Run(s, ops, line), line) <==> RemovesMatch(s, ops, line)
    decreases |ops|
  {
    if ops != [] {
      var t := Step(s, ops[0], line);
      StaticsOkStep(s, ops[0], line);
      if ops[0].Remove? && s.mmio != Some(s.own[ops[0].dev]) {
        var p := s.own[ops[0].dev];
        MismatchedRemoveOrphans(s, ops[0].dev, line);
        OrphanedForever(t, ops[1..], p, line);
        OrphanedIsInexact(Run(t, ops[1..], line), p, line);
      } else {
        match ops[0] {
          case Probe(d, fail) => ProbeExact(s, d, fail, line);
          case Remove(d) => RemoveExact(s, d, line);
        }
        LedgerExactIff(t, ops[1..], line);
      }
    }
  }

  lemma LoadedIsExact(line: nat -> int)
    ensures StaticsOk(Loaded(), line) && Exact(Loaded(), line)
  {
    assert Ideal(map[], line) == {};
  }

  /** A bound device that mmio_base does not name is never removed matchingly. */
  lemma {:induction false} UnnamedNeverMatches(s: Static, ops: seq<Op>, d: nat, line: nat -> int)
    requires StaticsOk(s, line) && Valid(s, ops, line)
    requires d in s.own && s.mmio != Some(s.own[d]) && Remove(d) in ops
    ensures !RemovesMatch(s, ops, line)
    decreases |ops|
  {
    if ops[0] != Remove(d) {
      StaticsOkStep(s, ops[0], line);
      UnnamedNeverMatches(Step(s, ops[0], line), ops[1..], d, line);
    }
  }

  /** Once two devices are bound, no continuation that removes both ends exact. */
  lemma TwoBoundDevicesBreakLedger(s: Static, ops: seq<Op>, d: nat, e: nat, line: nat -> int)
    requires StaticsOk(s, line) && Exact(s, line) && Valid(s, ops, line)
    requires d in s.own && e in s.own && d != e && Remove(d) in ops && Remove(e) in ops
    ensures !Exact(Run(s, ops, line), line)
  {
    LedgerExactIff(s, ops, line);
    if s.mmio == Some(s.own[d]) {
      UnnamedNeverMatches(s, ops, e, line);
    } else {
      UnnamedNeverMatches(s, ops, d, line);
    }
  }

  /** Runs that never probe while a device is bound. */
  ghost predicate OneAtATime(s: Static, ops: seq<Op>, line: nat -> int)
    decreases |ops|
  {
    ops == [] || ((ops[0].Probe? ==> s.own == map[]) && OneAtATime(Step(s, ops[0], line), ops[1..], line))
  }

  lemma {:induction false} OneAtATimeMatches(s: Static, ops: seq<Op>, line: nat -> int)
    requires Valid(s, ops, line) && OneAtATime(s, ops, line)
    requires forall d :: d in s.own ==> s.mmio == Some(s.own[d])
    ensures RemovesMatch(s, ops, line)
    decreases |ops|
  {
    if ops != [] {
      OneAtATimeMatches(Step(s, ops[0], line), ops[1..], line);
    }
  }

  lemma OneRemoveMismatches(s: Static, d: nat, line: nat -> int)
    requires d in s.own && s.mmio != Some(s.own[d])
    ensures Valid(s, [Remove(d)], line) && !RemovesMatch(s, [Remove(d)], line)
  {
  }

  /** The shortest run that breaks the books: bind two devices, remove the first. */
  lemma SecondProbeBreaksFirst(d: nat, e: nat, line: nat -> int) returns (ops: seq<Op>)
    requires d != e
    ensures |ops| == 3 && Valid(Loaded(), ops, line)
    ensures !Exact(Run(Loaded(), ops, line), line)
  {
    ops := [Probe(d, 4), Probe(e, 4), Remove(d)];
    var s1 := Step(Loaded(), ops[0], line);
    var s2 := Step(s1, ops[1], line);
    assert ops[1..] == [ops[1], ops[2]] && ops[1..][1..] == [ops[2]] && [ops[2]][1..] == [];
    assert s1.own == map[d := 0] && s1.mmio == Some(0);
    assert s2.own[d] == 0 && s2.mmio == Some(1);
    OneRemoveMismatches(s2, d, line);
    assert Valid(s1, ops[1..], line) && !RemovesMatch(s1, ops[1..], line);
    LoadedIsExact(line);
    LedgerExactIff(Loaded(), ops, line);
  }
}
