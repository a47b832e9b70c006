/** Sequences of opens over several scull devices that share one heap (main.c). */
module ScullOpens {
  import opened Prelude
  import opened ScullMemory
  import D = ScullDriver

  datatype Dev = Dev(data: Addr, quantum: int, qset: int, size: nat)

  /** `lists[i]` are the nodes of device i. */
  datatype World = World(heap: Heap, devs: seq<Dev>, lists: seq<seq<Addr>>)

  datatype OpenCall = OpenCall(dev: nat, flags: bv32)

  const EMPTY: Dev := Dev(0, D.QUANTUM_SIZE, D.QSET_SIZE, 0)

  ghost predicate DevOk(w: World, i: nat) {
    && i < |w.devs| && i < |w.lists|
    && Owned(w.heap, w.devs[i].data, w.lists[i], w.devs[i].qset)
  }

  ghost function DevCells(w: World, i: nat): set<Addr>
    requires DevOk(w, i)
  {
    Elems(Cells(w.heap, w.devs[i].data, w.lists[i], w.devs[i].qset))
  }

  /** Every device is well formed and no two share memory. */
  ghost predicate WorldOk(w: World) {
    && |w.devs| == |w.lists|
    && (forall i :: 0 <= i < |w.devs| ==> DevOk(w, i))
    && (forall i, j :: 0 <= i < j < |w.devs| ==> DevCells(w, i) !! DevCells(w, j))
  }

  predicate WriteOnly(flags: bv32) {
    flags & D.O_ACCMODE == D.O_WRONLY
  }

  /** The effect of D.ScullDev.Open on the device that is opened. */
  ghost function Open(w: World, c: OpenCall): World
    requires WorldOk(w) && c.dev < |w.devs|
  {
    if WriteOnly(c.flags)
    then World(w.heap - DevCells(w, c.dev), w.devs[c.dev := EMPTY], w.lists[c.dev := []])
    else w
  }

  /** The allocator and the device structures, one object per device, hold what the world says. */
  ghost predicate Shows(w: World, slab: D.Slab, devs: seq<D.ScullDev>)
    reads slab, devs
  {
    && slab.heap == w.heap && |devs| == |w.devs|
    && NoDup(devs)
    && forall j :: 0 <= j < |devs| ==>
         Dev(devs[j].data, devs[j].quantum, devs[j].qset, devs[j].size) == w.devs[j]
  }

  /** The in-place open is the Open step over all devices: it changes the opened one and the heap as
      Open says and no other device. */
  method OpenDevice(slab: D.Slab, devs: seq<D.ScullDev>, i: nat, flags: bv32, ghost w: World)
    requires WorldOk(w) && Shows(w, slab, devs) && i < |devs|
    modifies slab, devs[i]
    ensures Shows(Open(w, OpenCall(i, flags)), slab, devs)
  {
    assert DevOk(w, i);
    var r := devs[i].Open(slab, flags, w.lists[i]);
  }

  lemma OthersUndisturbed(w: World, c: OpenCall, j: nat)
    requires WorldOk(w) && c.dev < |w.devs| && WriteOnly(c.flags) && j < |w.devs| && j != c.dev
    ensures DevOk(Open(w, c), j) && DevCells(Open(w, c), j) == DevCells(w, j)
  {
    assert DevOk(w, j) && DevOk(w, c.dev);
    assert DevCells(w, j) !! DevCells(w, c.dev) by {
      if j < c.dev {
        assert DevCells(w, j) !! DevCells(w, c.dev);
      } else {
        assert DevCells(w, c.dev) !! DevCells(w, j);
      }
    }
    Frame(w.heap, DevCells(w, c.dev), w.devs[j].data, w.lists[j], w.devs[j].qset);
  }

  lemma OpenedIsEmpty(w: World, c: OpenCall)
    requires WorldOk(w) && c.dev < |w.devs| && WriteOnly(c.flags)
    ensures DevOk(Open(w, c), c.dev) && DevCells(Open(w, c), c.dev) == {}
  {
  }

  /** Opening one device keeps every device well formed and all memory unshared. */
  lemma OpenKeepsWorldOk(w: World, c: OpenCall)
    requires WorldOk(w) && c.dev < |w.devs|
    ensures WorldOk(Open(w, c))
  {
    if WriteOnly(c.flags) {
      var t := Open(w, c);
      OpenedIsEmpty(w, c);
      forall j | 0 <= j < |w.devs| && j != c.dev
        ensures DevOk(t, j) && DevCells(t, j) == DevCells(w, j)
      {
        OthersUndisturbed(w, c, j);
      }
    }
  }

  ghost predicate CallsInRange(w: World, cs: seq<OpenCall>) {
    forall k :: 0 <= k < |cs| ==> cs[k].dev < |w.devs|
  }

  ghost function OpenAll(w: World, cs: seq<OpenCall>): (t: World)
    requires WorldOk(w) && CallsInRange(w, cs)
    ensures WorldOk(t) && |t.devs| == |w.devs|
    decreases |cs|
  {
    if cs == [] then w else
    OpenKeepsWorldOk(w, cs[0]);
    assert CallsInRange(Open(w, cs[0]), cs[1..]) by {
      assert forall k :: 0 <= k < |cs[1..]| ==> cs[1..][k] == cs[k + 1];
    }
    OpenAll(Open(w, cs[0]), cs[1..])
  }

  /** Some call opens device i write-only. */
  ghost predicate Truncated(cs: seq<OpenCall>, i: nat) {
    exists k :: 0 <= k < |cs| && cs[k].dev == i && WriteOnly(cs[k].flags)
  }

  lemma TruncatedTail(cs: seq<OpenCall>, i: nat)
    requires cs != []
    ensures Truncated(cs, i) <==> (cs[0].dev == i && WriteOnly(cs[0].flags)) || Truncated(cs[1..], i)
  {
    if Truncated(cs[1..], i) {
      var k :| 0 <= k < |cs[1..]| && cs[1..][k].dev == i && WriteOnly(cs[1..][k].flags);
      assert cs[k + 1] == cs[1..][k];
    }
    if Truncated(cs, i) {
      var k :| 0 <= k < |cs| && cs[k].dev == i && WriteOnly(cs[k].flags);
      if k > 0 {
        assert cs[1..][k - 1] == cs[k];
      }
    }
  }

  /** After any opens: a device opened write-only at least once is empty with the default sizes,
      any other device keeps its fields, its list and its cells. */
  lemma {:induction false} OpensDecideDevice(w: World, cs: seq<OpenCall>, i: nat)
    requires WorldOk(w) && CallsInRange(w, cs) && i < |w.devs|
    ensures
      var t := OpenAll(w, cs);
      if Truncated(cs, i)
      then t.devs[i] == Dev(0, 4000, 1000, 0) && t.lists[i] == [] && DevOk(t, i) && DevCells(t, i) == {}
      else t.devs[i] == w.devs[i] && t.lists[i] == w.lists[i] && DevOk(t, i) && DevCells(t, i) == DevCells(w, i)
    decreases |cs|
  {
    if cs != [] {
      TruncatedTail(cs, i);
      OpenKeepsWorldOk(w, cs[0]);
      OpensDecideDevice(Open(w, cs[0]), cs[1..], i);
      if WriteOnly(cs[0].flags) {
        if cs[0].dev == i {
          OpenedIsEmpty(w, cs[0]);
        } else {
          OthersUndisturbed(w, cs[0], i);
        }
      }
    }
  }

  /** The memory given back by a sequence of opens: that of the devices opened write-only, freed
      once however often they are reopened. */
  ghost predicate Released(w: World, cs: seq<OpenCall>, a: Addr)
    requires WorldOk(w)
  {
    exists i :: 0 <= i < |w.devs| && Truncated(cs, i) && a in DevCells(w, i)
  }

  lemma ReleasedTail(w: World, cs: seq<OpenCall>, a: Addr)
    requires WorldOk(w) && CallsInRange(w, cs) && cs != [] && WorldOk(Open(w, cs[0]))
    ensures Released(w, cs, a) <==>
            (WriteOnly(cs[0].flags) && a in DevCells(w, cs[0].dev)) || Released(Open(w, cs[0]), cs[1..], a)
  {
    var t, d := Open(w, cs[0]), cs[0].dev;
    forall i | 0 <= i < |w.devs|
      ensures DevOk(t, i)
      ensures DevCells(t, i) == if WriteOnly(cs[0].flags) && i == d then {} else DevCells(w, i)
      ensures Truncated(cs, i) <==> (d == i && WriteOnly(cs[0].flags)) || Truncated(cs[1..], i)
    {
      TruncatedTail(cs, i);
      if WriteOnly(cs[0].flags) {
        if i == d {
          OpenedIsEmpty(w, cs[0]);
        } else {
          OthersUndisturbed(w, cs[0], i);
        }
      }
    }
    if Released(t, cs[1..], a) {
      var i :| 0 <= i < |t.devs| && Truncated(cs[1..], i) && a in DevCells(t, i);
      assert a in DevCells(w, i) && Truncated(cs, i);
    }
    if Released(w, cs, a) {
      var i :| 0 <= i < |w.devs| && Truncated(cs, i) && a in DevCells(w, i);
      assert (WriteOnly(cs[0].flags) && i == d) || a in DevCells(t, i);
    }
  }

  lemma {:induction false} OpensDecideHeap(w: World, cs: seq<OpenCall>, a: Addr)
    requires WorldOk(w) && CallsInRange(w, cs)
    ensures
      var t := OpenAll(w, cs);
      && (a in t.heap <==> a in w.heap && !Released(w, cs, a))
      && (a in t.heap ==> t.heap[a] == w.heap[a])
    decreases |cs|
  {
    if cs != [] {
      OpenKeepsWorldOk(w, cs[0]);
      ReleasedTail(w, cs, a);
      OpensDecideHeap(Open(w, cs[0]), cs[1..], a);
    }
  }
}
