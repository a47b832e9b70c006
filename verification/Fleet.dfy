/** Drivers that keep their state per device (network/nic.c, dma_kernel_with_peripheral/driver.c):
    any sequence of probes, failed probes and removes over any number of devices. */
module Fleet {
  import opened Prelude
  import opened Ledger
  import opened PciResources

  datatype Driver = Nic | Dma

  function Calls(drv: Driver): seq<Option<Resource>> {
    if drv.Nic? then NIC_CALLS else DMA_CALLS
  }

  function Takes(drv: Driver): seq<Resource> {
    if drv.Nic? then NIC_TAKES else DMA_TAKES
  }

  function Gives(drv: Driver, irq: int): seq<Resource> {
    if drv.Nic? then NIC_GIVES else DmaGives(irq)
  }

  /** `own` are the bound devices with the handles their probes obtained; `drvdata` is what the
      driver stored with each PCI device and what remove reads back; pointers below `next` have been
      handed out. */
  datatype Private = Private(own: map<nat, Handles>, drvdata: map<nat, Handles>, books: Books<Item>, next: nat)

  /** `fail` is the position of the first failing call; `h` is what the calls return. */
  datatype Op = Probe(dev: nat, fail: nat, h: Handles) | Remove(dev: nat)

  ghost predicate FreshHandles(h: Handles, next: nat, next': nat) {
    next <= h.mmio < next' && next <= h.mem < next' && next <= h.cookie < next'
  }

  /** The PCI core probes unbound devices only. A failed probe may leave anything in the drvdata of
      its own device. */
  ghost predicate ProbeStep(drv: Driver, s: Private, d: nat, fail: nat, h: Handles, t: Private) {
    && d !in s.own && FreshHandles(h, s.next, t.next)
    && t.books == Replay(s.books, ProbeLog(Named(d, h, Calls(drv)), fail))
    && (fail < |Calls(drv)| ==> t.own == s.own)
    && (fail >= |Calls(drv)| ==> t.own == s.own[d := h] && d in t.drvdata && t.drvdata[d] == h && (drv.Dma? ==> h.irq >= 0))
    && OthersKept(d, s.drvdata, t.drvdata)
  }

  /** The PCI core removes bound devices only. */
  ghost predicate RemoveStep(drv: Driver, s: Private, d: nat, t: Private) {
    && d in s.own && d in s.drvdata
    && t.own == s.own - {d} && t.drvdata == s.drvdata && t.next == s.next
    && t.books == Replay(s.books, Releases(Names(d, s.drvdata[d], Gives(drv, s.drvdata[d].irq))))
  }

  ghost predicate Step(drv: Driver, s: Private, op: Op, t: Private) {
    match op
    case Probe(d, fail, h) => ProbeStep(drv, s, d, fail, h, t)
    case Remove(d) => RemoveStep(drv, s, d, t)
  }

  ghost predicate Run(drv: Driver, ss: seq<Private>, ops: seq<Op>) {
    |ss| == |ops| + 1 && forall i :: 0 <= i < |ops| ==> Step(drv, ss[i], ops[i], ss[i + 1])
  }

  /** The union of the full resource sets of the bound devices. */
  ghost function Ideal(own: map<nat, Handles>, rs: seq<Resource>): set<Item> {
    set d, r | d in own && r in rs :: Name(r, d, own[d])
  }

  ghost predicate Exact(drv: Driver, s: Private) {
    s.books == Books(Ideal(s.own, Takes(drv)), true)
  }

  /** What drvdata says about a bound device is true, and no two devices share a pointer. */
  ghost predicate DataOk(drv: Driver, s: Private) {
    MapsOk(drv, s.own, s.drvdata, s.next)
  }

  ghost predicate MapsOk(drv: Driver, own: map<nat, Handles>, drvdata: map<nat, Handles>, next: nat) {
    && (forall d :: d in own ==> d in drvdata && drvdata[d] == own[d] && (drv.Dma? ==> own[d].irq >= 0))
    && (forall d :: d in own ==> own[d].mmio < next && own[d].mem < next && own[d].cookie < next)
    && (forall d, e :: d in own && e in own && d != e ==>
          own[d].mmio != own[e].mmio && own[d].mem != own[e].mem && own[d].cookie != own[e].cookie)
  }

  ghost predicate OthersKept(d: nat, drvdata: map<nat, Handles>, drvdata': map<nat, Handles>) {
    forall e :: e in drvdata && e != d ==> e in drvdata' && drvdata'[e] == drvdata[e]
  }

  lemma BindKeepsMaps(drv: Driver, own: map<nat, Handles>, drvdata: map<nat, Handles>, next: nat,
                      d: nat, h: Handles, drvdata': map<nat, Handles>, next': nat)
    requires MapsOk(drv, own, drvdata, next) && d !in own && FreshHandles(h, next, next')
    requires OthersKept(d, drvdata, drvdata') && d in drvdata' && drvdata'[d] == h && (drv.Dma? ==> h.irq >= 0)
    ensures MapsOk(drv, own[d := h], drvdata', next')
  {
  }

  lemma FailKeepsMaps(drv: Driver, own: map<nat, Handles>, drvdata: map<nat, Handles>, next: nat,
                      d: nat, drvdata': map<nat, Handles>, next': nat)
    requires MapsOk(drv, own, drvdata, next) && d !in own && next <= next' && OthersKept(d, drvdata, drvdata')
    ensures MapsOk(drv, own, drvdata', next')
  {
  }

  lemma DataOkStep(drv: Driver, s: Private, op: Op, t: Private)
    requires DataOk(drv, s) && Step(drv, s, op, t)
    ensures DataOk(drv, t)
  {
    match op
    case Probe(d, fail, h) =>
      if fail < |Calls(drv)| {
        FailKeepsMaps(drv, s.own, s.drvdata, s.next, d, t.drvdata, t.next);
      } else {
        BindKeepsMaps(drv, s.own, s.drvdata, s.next, d, h, t.drvdata, t.next);
      }
    case Remove(d) =>
  }

  lemma IdealMembers(own: map<nat, Handles>, rs: seq<Resource>, x: Item)
    ensures x in Ideal(own, rs) <==> Kind(x) in rs && exists d :: d in own && x == Name(Kind(x), d, own[d])
  {
    if x in Ideal(own, rs) {
      var d, r :| d in own && r in rs && x == Name(r, d, own[d]);
      assert Kind(x) == r;
    }
  }

  /** Names of different devices never meet. */
  lemma NamesApart(drv: Driver, s: Private, d: nat, h: Handles, rs: seq<Resource>, qs: seq<Resource>)
    requires DataOk(drv, s) && d !in s.own
    requires forall e :: e in s.own ==>
               h.mmio != s.own[e].mmio && h.mem != s.own[e].mem && h.cookie != s.own[e].cookie
    ensures Elems(Names(d, h, qs)) !! Ideal(s.own, rs)
  {
    forall x | x in Elems(Names(d, h, qs))
      ensures x !in Ideal(s.own, rs)
    {
      NamesMembers(d, h, qs, x);
      IdealMembers(s.own, rs, x);
    }
  }

  lemma IdealPlus(own: map<nat, Handles>, d: nat, h: Handles, rs: seq<Resource>)
    requires d !in own
    ensures Ideal(own[d := h], rs) == Ideal(own, rs) + Elems(Names(d, h, rs))
  {
    forall x: Item
      ensures x in Ideal(own[d := h], rs) <==> x in Ideal(own, rs) || x in Elems(Names(d, h, rs))
    {
      var own' := own[d := h];
      IdealMembers(own, rs, x);
      IdealMembers(own', rs, x);
      NamesMembers(d, h, rs, x);
      if x in Ideal(own, rs) {
        var e :| e in own && x == Name(Kind(x), e, own[e]);
        assert e in own' && own'[e] == own[e];
      }
      if x in Elems(Names(d, h, rs)) {
        assert d in own' && own'[d] == h;
      }
    }
  }

  /** Whether remove releases all that the probe took. */
  predicate Complete(drv: Driver, irq: int) {
    drv.Nic? || irq > 0
  }

  // ----- The books are those of the bound devices, plus the lines that removes have skipped -----

  /** An interrupt that no bound device remembers. */
  ghost predicate Forgotten(s: Private, line: Item) {
    line.Line? && line.cookie < s.next && forall d :: d in s.own ==> s.own[d].cookie != line.cookie
  }

  ghost predicate Accounts(drv: Driver, s: Private, leaks: set<Item>) {
    && s.books == Books(Ideal(s.own, Takes(drv)) + leaks, true)
    && (forall x :: x in leaks ==> Forgotten(s, x))
  }

  lemma ForgottenApart(drv: Driver, s: Private, leaks: set<Item>)
    requires forall x :: x in leaks ==> Forgotten(s, x)
    ensures leaks !! Ideal(s.own, Takes(drv))
  {
    forall x | x in leaks
      ensures x !in Ideal(s.own, Takes(drv))
    {
      IdealMembers(s.own, Takes(drv), x);
    }
  }

  lemma NamesNotLeaked(d: nat, h: Handles, rs: seq<Resource>, leaks: set<Item>)
    requires forall x :: x in leaks ==> x.Line? && x.cookie != h.cookie
    ensures Elems(Names(d, h, rs)) !! leaks
  {
    forall x | x in Elems(Names(d, h, rs))
      ensures x !in leaks
    {
      NamesMembers(d, h, rs, x);
    }
  }

  lemma ProbeAccounts(drv: Driver, s: Private, d: nat, fail: nat, h: Handles, t: Private, leaks: set<Item>)
    requires DataOk(drv, s) && Accounts(drv, s, leaks) && ProbeStep(drv, s, d, fail, h, t)
    ensures Accounts(drv, t, leaks)
  {
    CallsTake();
    TakesDistinct();
    NamesApart(drv, s, d, h, Takes(drv), Takes(drv));
    NamesNotLeaked(d, h, Takes(drv), leaks);
    ProbeUnwinds(s.books, d, h, Calls(drv), fail);
    IdealPlus(s.own, d, h, Takes(drv));
    assert Ideal(s.own, Takes(drv)) + leaks + Elems(Names(d, h, Takes(drv))) ==
           Ideal(s.own, Takes(drv)) + Elems(Names(d, h, Takes(drv))) + leaks;
  }

  /** What the remove of device `d` leaves held. */
  ghost function SkippedBy(drv: Driver, s: Private, d: nat): set<Item> {
    if d in s.own && !Complete(drv, s.own[d].irq) then {Line(s.own[d].irq, s.own[d].cookie)} else {}
  }

  lemma GivesAndSkips(drv: Driver, d: nat, h: Handles)
    ensures NoDup(Gives(drv, h.irq))
    ensures Elems(Names(d, h, Gives(drv, h.irq))) + (if Complete(drv, h.irq) then {} else {Line(h.irq, h.cookie)}) ==
            Elems(Names(d, h, Takes(drv)))
    ensures !Complete(drv, h.irq) ==> Line(h.irq, h.cookie) !in Elems(Names(d, h, Gives(drv, h.irq)))
  {
    forall x: Item
      ensures x in Names(d, h, Takes(drv)) <==>
              x in Names(d, h, Gives(drv, h.irq)) || (!Complete(drv, h.irq) && x == Line(h.irq, h.cookie))
    {
      NamesMembers(d, h, Takes(drv), x);
      NamesMembers(d, h, Gives(drv, h.irq), x);
      KindsGiven(drv, h.irq, Kind(x));
    }
    NamesMembers(d, h, Gives(drv, h.irq), Line(h.irq, h.cookie));
    KindsGiven(drv, h.irq, Irq);
  }

  lemma KindsGiven(drv: Driver, irq: int, r: Resource)
    ensures r in Gives(drv, irq) <==> r in Takes(drv) && (Complete(drv, irq) || r != Irq)
    ensures Irq in Takes(drv)
  {
    assert drv.Nic? ==> Takes(drv)[5] == Irq;
    assert drv.Dma? ==> Takes(drv)[4] == Irq;
  }

  lemma GiveBack(rest: set<Item>, all: set<Item>, given: set<Item>, skipped: set<Item>, leaks: set<Item>)
    requires given + skipped == all && given !! skipped && all !! rest && all !! leaks
    ensures given <= rest + all + leaks
    ensures rest + all + leaks - given == rest + (leaks + skipped)
  {
  }

  lemma StillForgotten(drv: Driver, s: Private, d: nat, t: Private, leaks: set<Item>)
    requires DataOk(drv, s) && RemoveStep(drv, s, d, t) && forall x :: x in leaks ==> Forgotten(s, x)
    ensures forall x :: x in leaks + SkippedBy(drv, s, d) ==> Forgotten(t, x)
  {
  }

  lemma RemoveAccounts(drv: Driver, s: Private, d: nat, t: Private, leaks: set<Item>)
    requires DataOk(drv, s) && Accounts(drv, s, leaks) && RemoveStep(drv, s, d, t)
    ensures Accounts(drv, t, leaks + SkippedBy(drv, s, d))
  {
    var h, takes := s.own[d], Takes(drv);
    var names := Names(d, h, Gives(drv, h.irq));
    GivesAndSkips(drv, d, h);
    NamesDistinct(d, h, Gives(drv, h.irq));
    assert s.own == t.own[d := h];
    IdealPlus(t.own, d, h, takes);
    DataOkStep(drv, s, Remove(d), t);
    NamesApart(drv, t, d, h, takes, takes);
    NamesNotLeaked(d, h, takes, leaks);
    GiveBack(Ideal(t.own, takes), Elems(Names(d, h, takes)), Elems(names), SkippedBy(drv, s, d), leaks);
    ReplayReleases(s.books, names);
    StillForgotten(drv, s, d, t, leaks);
  }

  /** The interrupts that the removes of a run skipped. */
  ghost function Skipped(drv: Driver, ss: seq<Private>, ops: seq<Op>): set<Item>
    requires Run(drv, ss, ops)
  {
    set i, x | 0 <= i < |ops| && ops[i].Remove? && x in SkippedBy(drv, ss[i], ops[i].dev) :: x
  }

  lemma SkippedTail(drv: Driver, ss: seq<Private>, ops: seq<Op>)
    requires Run(drv, ss, ops) && ops != [] && Run(drv, ss[1..], ops[1..])
    ensures Skipped(drv, ss, ops) ==
            (if ops[0].Remove? then SkippedBy(drv, ss[0], ops[0].dev) else {}) + Skipped(drv, ss[1..], ops[1..])
  {
    var first := if ops[0].Remove? then SkippedBy(drv, ss[0], ops[0].dev) else {};
    forall x
      ensures x in Skipped(drv, ss, ops) <==> x in first || x in Skipped(drv, ss[1..], ops[1..])
    {
      if x in Skipped(drv, ss, ops) {
        var i :| 0 <= i < |ops| && ops[i].Remove? && x in SkippedBy(drv, ss[i], ops[i].dev);
        if i > 0 {
          assert ops[1..][i - 1] == ops[i] && ss[1..][i - 1] == ss[i];
        }
      }
      if x in Skipped(drv, ss[1..], ops[1..]) {
        var i :| 0 <= i < |ops[1..]| && ops[1..][i].Remove? && x in SkippedBy(drv, ss[1..][i], ops[1..][i].dev);
        assert ops[i + 1] == ops[1..][i] && ss[i + 1] == ss[1..][i];
      }
    }
  }

  lemma StepAccounts(drv: Driver, s: Private, op: Op, t: Private, leaks: set<Item>)
    requires DataOk(drv, s) && Accounts(drv, s, leaks) && Step(drv, s, op, t)
    ensures Accounts(drv, t, leaks + if op.Remove? then SkippedBy(drv, s, op.dev) else {})
  {
    match op
    case Probe(d, fail, h) =>
      assert leaks + {} == leaks;
      ProbeAccounts(drv, s, d, fail, h, t, leaks);
    case Remove(d) => RemoveAccounts(drv, s, d, t, leaks);
  }

  lemma {:induction false} RunAccounts(drv: Driver, ss: seq<Private>, ops: seq<Op>, leaks: set<Item>)
    requires Run(drv, ss, ops) && DataOk(drv, ss[0]) && Accounts(drv, ss[0], leaks)
    ensures Accounts(drv, ss[|ops|], leaks + Skipped(drv, ss, ops))
    decreases |ops|
  {
    if ops == [] {
      assert leaks + Skipped(drv, ss, ops) == leaks;
    } else {
      var s, t := ss[0], ss[1];
      assert Step(drv, s, ops[0], t);
      RunTail(drv, ss, ops);
      SkippedTail(drv, ss, ops);
      DataOkStep(drv, s, ops[0], t);
      var first := if ops[0].Remove? then SkippedBy(drv, s, ops[0].dev) else {};
      StepAccounts(drv, s, ops[0], t, leaks);
      RunAccounts(drv, ss[1..], ops[1..], leaks + first);
      assert leaks + Skipped(drv, ss, ops) == leaks + first + Skipped(drv, ss[1..], ops[1..]);
    }
  }

  // ----- An interrupt that was skipped is never given back -----

  ghost predicate Leaked(s: Private, line: Item) {
    line in s.books.held && Forgotten(s, line)
  }

  lemma ProbeKeepsLeak(drv: Driver, s: Private, d: nat, fail: nat, h: Handles, line: Item)
    requires line.Line? && line in s.books.held && line.cookie != h.cookie
    ensures line in Replay(s.books, ProbeLog(Named(d, h, Calls(drv)), fail)).held
  {
    var calls := Named(d, h, Calls(drv));
    if Release(line) in ProbeLog(calls, fail) {
      ProbeReleasesOwn(d, h, Calls(drv), fail, line);
      assert false;
    }
    ReplayKeeps(s.books, ProbeLog(calls, fail), line);
  }

  lemma RemoveKeepsLeak(drv: Driver, s: Private, d: nat, h: Handles, line: Item)
    requires line.Line? && line in s.books.held && line.cookie != h.cookie
    ensures line in Replay(s.books, Releases(Names(d, h, Gives(drv, h.irq)))).held
  {
    var log := Releases(Names(d, h, Gives(drv, h.irq)));
    NamesMembers(d, h, Gives(drv, h.irq), line);
    assert Release(line) !in log;
    ReplayKeeps(s.books, log, line);
  }

  lemma LeakedStep(drv: Driver, s: Private, op: Op, t: Private, line: Item)
    requires DataOk(drv, s) && Leaked(s, line) && Step(drv, s, op, t)
    ensures Leaked(t, line)
  {
    match op
    case Remove(d) => RemoveKeepsLeak(drv, s, d, s.drvdata[d], line);
    case Probe(d, fail, h) => ProbeKeepsLeak(drv, s, d, fail, h, line);
  }

  lemma {:induction false} LeakedForever(drv: Driver, ss: seq<Private>, ops: seq<Op>, line: Item)
    requires Run(drv, ss, ops) && DataOk(drv, ss[0]) && Leaked(ss[0], line)
    ensures Leaked(ss[|ops|], line)
    decreases |ops|
  {
    if ops != [] {
      assert Step(drv, ss[0], ops[0], ss[1]);
      DataOkStep(drv, ss[0], ops[0], ss[1]);
      LeakedStep(drv, ss[0], ops[0], ss[1], line);
      RunTail(drv, ss, ops);
      LeakedForever(drv, ss[1..], ops[1..], line);
    }
  }

  lemma RunTail(drv: Driver, ss: seq<Private>, ops: seq<Op>)
    requires Run(drv, ss, ops) && ops != []
    ensures Run(drv, ss[1..], ops[1..])
  {
    forall i | 0 <= i < |ops[1..]|
      ensures Step(drv, ss[1..][i], ops[1..][i], ss[1..][i + 1])
    {
      assert Step(drv, ss[i + 1], ops[i + 1], ss[i + 2]);
    }
  }

  // ----- Main result -----

  /** Every device that is removed had all its resources released. */
  ghost predicate RemovesComplete(drv: Driver, ss: seq<Private>, ops: seq<Op>)
    requires Run(drv, ss, ops)
  {
    forall i :: 0 <= i < |ops| && ops[i].Remove? ==> RemovesAll(drv, ss[i], ops[i].dev)
  }

  ghost predicate RemovesAll(drv: Driver, s: Private, d: nat) {
    d in s.own && Complete(drv, s.own[d].irq)
  }

  lemma CompleteIffNothingSkipped(drv: Driver, ss: seq<Private>, ops: seq<Op>)
    requires Run(drv, ss, ops)
    ensures RemovesComplete(drv, ss, ops) <==> Skipped(drv, ss, ops) == {}
  {
    forall i | 0 <= i < |ops| && ops[i].Remove?
      ensures RemovesAll(drv, ss[i], ops[i].dev) <==> SkippedBy(drv, ss[i], ops[i].dev) == {}
      ensures SkippedBy(drv, ss[i], ops[i].dev) <= Skipped(drv, ss, ops)
    {
      assert Step(drv, ss[i], ops[i], ss[i + 1]);
    }
    if Skipped(drv, ss, ops) != {} {
      var x :| x in Skipped(drv, ss, ops);
      var i :| 0 <= i < |ops| && ops[i].Remove? && x in SkippedBy(drv, ss[i], ops[i].dev);
    }
  }

  /** From exact books, any run over any devices ends with exactly the bound devices' resources held
      and nothing ever acquired or released wrongly, exactly when every removed device gave back all
      its resources: always for the network driver, and for the DMA driver exactly when no device
      on line 0 was removed. */
  lemma LedgerExactIff(drv: Driver, ss: seq<Private>, ops: seq<Op>)
    requires Run(drv, ss, ops) && DataOk(drv, ss[0]) && Exact(drv, ss[0])
    ensures Exact(drv, ss[|ops|]) <==> RemovesComplete(drv, ss, ops)
  {
    var t := ss[|ops|];
    assert Ideal(ss[0].own, Takes(drv)) + {} == Ideal(ss[0].own, Takes(drv));
    RunAccounts(drv, ss, ops, {});
    CompleteIffNothingSkipped(drv, ss, ops);
    var leaks := {} + Skipped(drv, ss, ops);
    ForgottenApart(drv, t, leaks);
    assert Ideal(t.own, Takes(drv)) + leaks == Ideal(t.own, Takes(drv)) <==> leaks == {};
  }

  /** No driver loaded devices yet. */
  function Loaded(): Private {
    Private(map[], map[], Books({}, true), 0)
  }

  /** The network driver's books are exact after every run. */
  lemma NicLedgerExact(ss: seq<Private>, ops: seq<Op>)
    requires Run(Nic, ss, ops) && ss[0] == Loaded()
    ensures Exact(Nic, ss[|ops|])
    ensures ss[|ops|].books.clean
    ensures ss[|ops|].books.held ==
            set d, r | d in ss[|ops|].own && r in {PciDevice, Region, Mmio, NetDevice, NetRegistration, Irq, NapiContext}
              :: Name(r, d, ss[|ops|].own[d])
  {
    assert Ideal(map[], NIC_TAKES) == {};
    IdealOfKinds(ss[|ops|].own, NIC_TAKES, {PciDevice, Region, Mmio, NetDevice, NetRegistration, Irq, NapiContext});
    LedgerExactIff(Nic, ss, ops);
    forall i | 0 <= i < |ops| && ops[i].Remove?
      ensures RemovesAll(Nic, ss[i], ops[i].dev)
    {
      assert Step(Nic, ss[i], ops[i], ss[i + 1]);
    }
  }

  /** The DMA driver's books are exact exactly after the runs that removed no device on line 0. */
  lemma DmaLedgerExactIff(ss: seq<Private>, ops: seq<Op>)
    requires Run(Dma, ss, ops) && ss[0] == Loaded()
    ensures Exact(Dma, ss[|ops|]) <==>
            forall i :: 0 <= i < |ops| && ops[i].Remove? && ops[i].dev in ss[i].own ==> ss[i].own[ops[i].dev].irq > 0
  {
    assert Ideal(map[], DMA_TAKES) == {};
    LedgerExactIff(Dma, ss, ops);
    forall i | 0 <= i < |ops| && ops[i].Remove?
      ensures ops[i].dev in ss[i].own
      ensures RemovesAll(Dma, ss[i], ops[i].dev) <==> ss[i].own[ops[i].dev].irq > 0
    {
      assert Step(Dma, ss[i], ops[i], ss[i + 1]);
    }
  }

  lemma IdealOfKinds(own: map<nat, Handles>, rs: seq<Resource>, kinds: set<Resource>)
    requires forall r :: r in rs <==> r in kinds
    ensures Ideal(own, rs) == set d, r | d in own && r in kinds :: Name(r, d, own[d])
  {
    forall x | x in Ideal(own, rs)
      ensures exists d, r :: d in own && r in kinds && x == Name(r, d, own[d])
    {
      var d, r :| d in own && r in rs && x == Name(r, d, own[d]);
      assert r in kinds;
    }
  }

  lemma DmaSkipped(ss: seq<Private>, ops: seq<Op>)
    requires Run(Dma, ss, ops)
    ensures Skipped(Dma, ss, ops) ==
            set i | 0 <= i < |ops| && ops[i].Remove? && ops[i].dev in ss[i].own && ss[i].own[ops[i].dev].irq <= 0
              :: Line(ss[i].own[ops[i].dev].irq, ss[i].own[ops[i].dev].cookie)
  {
    forall i | 0 <= i < |ops| && ops[i].Remove? && ops[i].dev in ss[i].own && ss[i].own[ops[i].dev].irq <= 0
      ensures Line(ss[i].own[ops[i].dev].irq, ss[i].own[ops[i].dev].cookie) in Skipped(Dma, ss, ops)
    {
      assert Line(ss[i].own[ops[i].dev].irq, ss[i].own[ops[i].dev].cookie) in SkippedBy(Dma, ss[i], ops[i].dev);
    }
  }

  /** What is held after any run of the DMA driver: all resources of the bound devices, and the
      interrupt of every device that was removed on line 0. Everything else went back, once. */
  lemma DmaLedgerAccounts(ss: seq<Private>, ops: seq<Op>)
    requires Run(Dma, ss, ops) && ss[0] == Loaded()
    ensures ss[|ops|].books.clean
    ensures ss[|ops|].books.held ==
            (set d, r | d in ss[|ops|].own && r in {PciDevice, Region, Mmio, DmaBuffer, Irq} :: Name(r, d, ss[|ops|].own[d]))
            + (set i | 0 <= i < |ops| && ops[i].Remove? && ops[i].dev in ss[i].own && ss[i].own[ops[i].dev].irq <= 0
                 :: Line(ss[i].own[ops[i].dev].irq, ss[i].own[ops[i].dev].cookie))
  {
    var t := ss[|ops|];
    assert Ideal(map[], DMA_TAKES) + {} == {};
    RunAccounts(Dma, ss, ops, {});
    IdealOfKinds(t.own, DMA_TAKES, {PciDevice, Region, Mmio, DmaBuffer, Irq});
    DmaSkipped(ss, ops);
  }

  /** Removing a device on line 0 gives back its buffer, mapping, region and PCI device, and keeps
      exactly its interrupt. */
  lemma LineZeroRemoveKeepsIrq(s: Private, d: nat, t: Private)
    requires DataOk(Dma, s) && Exact(Dma, s) && RemoveStep(Dma, s, d, t) && s.own[d].irq == 0
    ensures t.books == Books(Ideal(t.own, DMA_TAKES) + {Line(0, s.own[d].cookie)}, true)
  {
    assert Ideal(s.own, DMA_TAKES) + {} == Ideal(s.own, DMA_TAKES);
    RemoveAccounts(Dma, s, d, t, {});
    assert {} + SkippedBy(Dma, s, d) == {Line(0, s.own[d].cookie)};
  }

  /** The shortest run that leaks: probe a device that got line 0, and remove it. */
  lemma LineZeroLeaks(dev: nat) returns (ss: seq<Private>, ops: seq<Op>)
    ensures Run(Dma, ss, ops) && ss[0] == Loaded() && |ops| == 2
    ensures !Exact(Dma, ss[2])
    ensures dev in ss[1].own && ss[2].own == map[] && ss[2].books == Books({Line(0, ss[1].own[dev].cookie)}, true)
  {
    var h := Handles(0, 0, 0, 0);
    ops := [Probe(dev, |DMA_CALLS|, h), Remove(dev)];
    var s1 := Private(map[dev := h], map[dev := h],
                      Replay(Loaded().books, ProbeLog(Named(dev, h, DMA_CALLS), |DMA_CALLS|)), 1);
    var s2 := s1.(own := map[], books := Replay(s1.books, Releases(Names(dev, h, DmaGives(0)))));
    ss := [Loaded(), s1, s2];
    assert s1.own == Loaded().own[dev := h];
    assert s2.own == s1.own - {dev};
    assert Step(Dma, Loaded(), ops[0], s1) && Step(Dma, s1, ops[1], s2);
    DmaLedgerExactIff(ss, ops);
    assert Ideal(map[], DMA_TAKES) == {};
    RunAccounts(Dma, [Loaded(), s1], ops[..1], {});
    LineZeroRemoveKeepsIrq(s1, dev, s2);
    assert ops[1].Remove? && ops[1].dev in ss[1].own && ss[1].own[ops[1].dev].irq == 0;
  }
}
