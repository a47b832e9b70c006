/** scull_trim (util.c) and scull_open (main.c) in place. */
module ScullDriver {
  import opened Prelude
  import opened ScullMemory

  const QUANTUM_SIZE: int := 4000
  const QSET_SIZE: int := 1000
  const O_ACCMODE: bv32 := 3
  const O_WRONLY: bv32 := 1

  /** The slab allocator: live blocks, and every address ever freed, in order. */
  class Slab {
    var heap: Heap
    ghost var freed: seq<Addr>

    /** Freeing null does nothing; freeing anything that is not live is forbidden, so a verified
        caller frees nothing twice. */
    method Kfree(p: Addr)
      requires p == 0 || p in heap
      modifies this
      ensures heap == if p == 0 then old(heap) else old(heap) - {p}
      ensures freed == if p == 0 then old(freed) else old(freed) + [p]
    {
      if p != 0 {
        heap := heap - {p};
        freed := freed + [p];
      }
    }
  }

  lemma CellsOfNode(h: Heap, p: Addr, nodes: seq<Addr>, qset: int, n: Addr)
    requires Chain(h, p, nodes, qset) && n in nodes
    ensures n in h && h[n].Node? && VectorOk(h, h[n].data, qset)
    ensures
      var cells := Cells(h, p, nodes, qset);
      && n in cells
      && (h[n].data != 0 ==>
            && h[n].data in cells
            && forall i :: 0 <= i < qset ==> h[h[n].data].slots[i] == 0 || h[h[n].data].slots[i] in cells)
  {
    ChainNodes(h, p, nodes, qset);
    CellsMembers(h, p, nodes, qset, n);
    if h[n].data != 0 {
      var slots := h[h[n].data].slots;
      CellsMembers(h, p, nodes, qset, h[n].data);
      forall i | 0 <= i < qset && slots[i] != 0
        ensures slots[i] in Cells(h, p, nodes, qset)
      {
        assert slots[..qset][i] == slots[i];
        CellsMembers(h, p, nodes, qset, slots[i]);
      }
    }
  }

  /** Freeing the cells of a list, in terms of nodes, vectors and slots. */
  lemma CellsGone(h: Heap, p: Addr, nodes: seq<Addr>, qset: int)
    requires Owned(h, p, nodes, qset)
    ensures
      var cells := Cells(h, p, nodes, qset);
      && (forall n :: n in nodes ==> Gone(h, cells, n) && h[n].Node? && VectorOk(h, h[n].data, qset))
      && (forall n :: n in nodes && h[n].data != 0 ==>
            && Gone(h, cells, h[n].data)
            && forall i :: 0 <= i < qset ==> h[h[n].data].slots[i] == 0 || Gone(h, cells, h[h[n].data].slots[i]))
      && (forall c :: c in h && c !in Without(h, cells) && c !in nodes ==>
            exists n :: n in nodes && h[n].data != 0
                        && (|| c == h[n].data
                            || (c != 0 && c in h[h[n].data].slots[..if qset < 0 then 0 else qset])))
  {
    var cells := Cells(h, p, nodes, qset);
    assert forall c :: c in cells ==> c in Elems(cells);
    forall n | n in nodes
      ensures Gone(h, cells, n) && h[n].Node? && VectorOk(h, h[n].data, qset)
      ensures h[n].data != 0 ==>
                && Gone(h, cells, h[n].data)
                && forall i :: 0 <= i < qset ==> h[h[n].data].slots[i] == 0 || Gone(h, cells, h[h[n].data].slots[i])
    {
      CellsOfNode(h, p, nodes, qset, n);
    }
    forall c | c in h && c !in Without(h, cells) && c !in nodes
      ensures exists n :: n in nodes && h[n].data != 0
                          && (|| c == h[n].data
                              || (c != 0 && c in h[h[n].data].slots[..if qset < 0 then 0 else qset]))
    {
      CellsMembers(h, p, nodes, qset, c);
    }
  }

  ghost predicate Gone(h: Heap, cells: seq<Addr>, c: Addr) {
    c in h && c in cells && c !in Without(h, cells)
  }

  class ScullDev {
    var data: Addr
    var quantum: int
    var qset: int
    var size: nat
    var accessKey: nat

    /** Of the cells in heap `h`, exactly `done` have been freed, after the frees in `f`. */
    ghost predicate Freed(slab: Slab, h: Heap, f: seq<Addr>, cells: seq<Addr>, done: seq<Addr>, todo: seq<Addr>)
      reads slab
    {
      && Split(h, cells, done, todo)
      && slab.heap == Without(h, done)
      && slab.freed == f + done
    }

    /** The inner loop: frees the quanta of one vector. */
    method FreeQuanta(slab: Slab, vector: Addr, count: int, ghost h: Heap, ghost f: seq<Addr>,
                      ghost cells: seq<Addr>, ghost done: seq<Addr>, ghost tail: seq<Addr>)
      returns (ghost done': seq<Addr>)
      requires vector in h && h[vector].Vector? && count <= |h[vector].slots| && vector in tail
      requires Freed(slab, h, f, cells, done, NonNull(h[vector].slots[..Visited(count)]) + tail)
      modifies slab
      ensures Freed(slab, h, f, cells, done', tail)
    {
      done' := done;
      assert count <= Visited(count) <= |h[vector].slots|;
      var i := 0;
      ghost var slots := h[vector].slots[..Visited(count)];
      assert slots[0..] == slots;
      while i < count
        invariant 0 <= i <= Visited(count)
        invariant Freed(slab, h, f, cells, done', NonNull(slots[i..]) + tail)
      {
        StillLive(h, cells, done', NonNull(slots[i..]) + tail, vector);
        var q := slab.heap[vector].slots[i];
        NonNullStep(slots, i, tail);
        if q != 0 {
          FreeNext(h, cells, done', q, NonNull(slots[i + 1..]) + tail);
          done' := done' + [q];
        }
        slab.Kfree(q);
        i := i + 1;
      }
      assert NonNull(slots[i..]) + tail == tail;
    }

    /** The vector of one node, if it has one: its quanta, then the vector itself. */
    method FreeVector(slab: Slab, dptr: Addr, ghost h: Heap, ghost f: seq<Addr>,
                      ghost cells: seq<Addr>, ghost done: seq<Addr>, ghost later: seq<Addr>)
      returns (ghost done': seq<Addr>)
      requires dptr in h && h[dptr].Node? && VectorOk(h, h[dptr].data, qset)
      requires Freed(slab, h, f, cells, done, NodeCells(h, dptr, qset) + later)
      modifies slab
      ensures Freed(slab, h, f, cells, done', [dptr] + later)
    {
      done' := done;
      NodeCellsSplit(h, dptr, qset, later);
      StillLive(h, cells, done, NodeCells(h, dptr, qset) + later, dptr);
      var vector := slab.heap[dptr].data;
      assert vector == h[dptr].data;
      if vector != 0 {
        ghost var tail := [vector] + ([dptr] + later);
        assert tail[0] == vector;
        done' := FreeQuanta(slab, vector, qset, h, f, cells, done, tail);
        FreeNext(h, cells, done', vector, [dptr] + later);
        slab.Kfree(vector);
        done' := done' + [vector];
      }
    }

    /** Clears the node's vector pointer if it was set, reads its successor and frees the node. */
    method FreeNode(slab: Slab, dptr: Addr, ghost h: Heap, ghost f: seq<Addr>,
                    ghost cells: seq<Addr>, ghost done: seq<Addr>, ghost later: seq<Addr>)
      returns (next: Addr)
      requires dptr in h && h[dptr].Node? && dptr != 0
      requires Freed(slab, h, f, cells, done, [dptr] + later)
      modifies slab
      ensures Freed(slab, h, f, cells, done + [dptr], later)
      ensures next == h[dptr].next
    {
      FreeNext(h, cells, done, dptr, later);
      if slab.heap[dptr].data != 0 {
        slab.heap := slab.heap[dptr := Node(0, slab.heap[dptr].next)];
      }
      next := slab.heap[dptr].next;
      slab.Kfree(dptr);
      assert slab.heap == Without(h, done) - {dptr};
    }

    /** The outer loop. */
    method FreeList(slab: Slab, ghost nodes: seq<Addr>)
      requires Owned(slab.heap, data, nodes, qset)
      modifies slab
      ensures slab.heap == Without(old(slab.heap), old(Cells(slab.heap, data, nodes, qset)))
      ensures slab.freed == old(slab.freed) + old(Cells(slab.heap, data, nodes, qset))
    {
      ghost var h, f := slab.heap, slab.freed;
      ghost var cells := Cells(h, data, nodes, qset);
      ghost var rest, done := nodes, [];
      var dptr := data;
      while dptr != 0
        invariant unchanged(this)
        invariant Chain(h, dptr, rest, qset)
        invariant Freed(slab, h, f, cells, done, Cells(h, dptr, rest, qset))
        decreases |rest|
      {
        ghost var later := Cells(h, h[dptr].next, rest[1..], qset);
        done := FreeVector(slab, dptr, h, f, cells, done, later);
        var next := FreeNode(slab, dptr, h, f, cells, done, later);
        done := done + [dptr];
        dptr := next;
        rest := rest[1..];
      }
      assert done == cells;
    }

    /** scull_trim. Every node of the list, every vector and every non-null quantum in the first qset
        slots is freed exactly once, in list order; nothing else is; and the device is reset. */
    method Trim(slab: Slab, ghost nodes: seq<Addr>) returns (r: int)
      requires Owned(slab.heap, data, nodes, qset)
      modifies slab, this`data, this`quantum, this`qset, this`size
      ensures r == 0
      ensures slab.heap == Without(old(slab.heap), old(Cells(slab.heap, data, nodes, qset)))
      ensures slab.freed == old(slab.freed) + old(Cells(slab.heap, data, nodes, qset))
      ensures data == 0 && quantum == 4000 && qset == 1000 && size == 0
      ensures forall n :: n in nodes ==> n in old(slab.heap) && n !in slab.heap && n in slab.freed && old(slab.heap)[n].Node?
      ensures forall n :: n in nodes && old(slab.heap)[n].data != 0 ==>
                var d := old(slab.heap)[n].data;
                && d in old(slab.heap) && d !in slab.heap && d in slab.freed && old(slab.heap)[d].Vector?
                && old(qset) <= |old(slab.heap)[d].slots|
                && forall i :: 0 <= i < old(qset) ==>
                     var q := old(slab.heap)[d].slots[i];
                     q == 0 || (q in old(slab.heap) && q !in slab.heap && q in slab.freed)
      ensures forall c :: c in old(slab.heap) && c !in slab.heap && c !in nodes ==>
                exists n :: n in nodes && old(slab.heap)[n].data != 0
                            && (|| c == old(slab.heap)[n].data
                                || (c != 0 && c in old(slab.heap)[old(slab.heap)[n].data].slots[..if old(qset) < 0 then 0 else old(qset)]))
    {
      ghost var h := slab.heap;
      FreeList(slab, nodes);
      CellsGone(h, data, nodes, qset);
      size := 0;
      quantum := QUANTUM_SIZE;
      qset := QSET_SIZE;
      data := 0;
      return 0;
    }

    /** scull_open: trims on a write-only open and leaves memory alone otherwise. */
    method Open(slab: Slab, flags: bv32, ghost nodes: seq<Addr>) returns (r: int)
      requires Owned(slab.heap, data, nodes, qset)
      modifies slab, this`data, this`quantum, this`qset, this`size
      ensures r == 0
      ensures flags & 3 == 1 ==>
                && slab.heap == Without(old(slab.heap), old(Cells(slab.heap, data, nodes, qset)))
                && slab.freed == old(slab.freed) + old(Cells(slab.heap, data, nodes, qset))
                && data == 0 && quantum == 4000 && qset == 1000 && size == 0
      ensures flags & 3 != 1 ==> unchanged(slab) && unchanged(this)
    {
      if flags & O_ACCMODE == O_WRONLY {
        var ignored := Trim(slab, nodes);
      }
      return 0;
    }
  }
}
