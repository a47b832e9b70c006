/** Device memory of the scull driver (util.h, util.c): a linked list of quantum sets, each with an
    optional vector of quanta, in an explicit heap where freeing an address removes it. */
module ScullMemory {
  import opened Prelude

  /** Zero is the null pointer. */
  type Addr = nat

  datatype Block =
    | Node(data: Addr, next: Addr)
    | Vector(slots: seq<Addr>)
    | Bytes

  type Heap = map<Addr, Block>

  function NonNull(s: seq<Addr>): seq<Addr> {
    if s == [] then [] else (if s[0] == 0 then [] else [s[0]]) + NonNull(s[1..])
  }

  lemma {:induction false} NonNullMembers(s: seq<Addr>, a: Addr)
    ensures a in NonNull(s) <==> a != 0 && a in s
  {
    if s != [] {
      NonNullMembers(s[1..], a);
      assert a in s <==> a == s[0] || a in s[1..];
    }
  }

  /** The number of slots the trim loop visits. */
  function Visited(qset: int): (n: nat)
    ensures n == qset || (n == 0 && qset < 0)
  {
    if qset < 0 then 0 else qset
  }

  predicate VectorOk(h: Heap, d: Addr, qset: int) {
    d == 0 || (d in h && h[d].Vector? && qset <= |h[d].slots|)
  }

  /** `nodes` are the addresses met from `p` to the null pointer. */
  ghost predicate Chain(h: Heap, p: Addr, nodes: seq<Addr>, qset: int)
    decreases |nodes|
  {
    if nodes == [] then p == 0 else
    && p == nodes[0] && p != 0
    && p in h && h[p].Node? && VectorOk(h, h[p].data, qset)
    && Chain(h, h[p].next, nodes[1..], qset)
  }

  /** Everything hanging off one node, in the order trim frees it. */
  ghost function NodeCells(h: Heap, p: Addr, qset: int): seq<Addr>
    requires p in h && h[p].Node? && VectorOk(h, h[p].data, qset)
  {
    var d := h[p].data;
    if d == 0 then [p] else NonNull(h[d].slots[..Visited(qset)]) + [d, p]
  }

  ghost function Cells(h: Heap, p: Addr, nodes: seq<Addr>, qset: int): seq<Addr>
    requires Chain(h, p, nodes, qset)
    decreases |nodes|
  {
    if nodes == [] then [] else NodeCells(h, p, qset) + Cells(h, h[p].next, nodes[1..], qset)
  }

  /** A well-formed device list: finite, all of it live, and nothing reachable twice. */
  ghost predicate Owned(h: Heap, p: Addr, nodes: seq<Addr>, qset: int) {
    && Chain(h, p, nodes, qset)
    && NoDup(Cells(h, p, nodes, qset))
    && Elems(Cells(h, p, nodes, qset)) <= h.Keys
  }

  /** `c` is the node `p`, its vector, or a quantum in one of the vector's first `qset` slots. */
  ghost predicate HangsOff(h: Heap, p: Addr, qset: int, c: Addr)
    requires p in h && h[p].Node? && VectorOk(h, h[p].data, qset)
  {
    || c == p
    || (h[p].data != 0 && c == h[p].data)
    || (h[p].data != 0 && c != 0 && c in h[h[p].data].slots[..if qset < 0 then 0 else qset])
  }

  lemma NodeCellsMembers(h: Heap, p: Addr, qset: int, c: Addr)
    requires p in h && h[p].Node? && VectorOk(h, h[p].data, qset)
    ensures c in NodeCells(h, p, qset) <==> HangsOff(h, p, qset, c)
  {
    if h[p].data != 0 {
      var visited := h[h[p].data].slots[..Visited(qset)];
      NonNullMembers(visited, c);
    }
  }

  lemma {:induction false} ChainNodes(h: Heap, p: Addr, nodes: seq<Addr>, qset: int)
    requires Chain(h, p, nodes, qset)
    ensures forall n :: n in nodes ==> n in h && h[n].Node? && VectorOk(h, h[n].data, qset)
    decreases |nodes|
  {
    if nodes != [] {
      ChainNodes(h, h[p].next, nodes[1..], qset);
      assert forall n :: n in nodes ==> n == nodes[0] || n in nodes[1..];
    }
  }

  /** The cells of a list are exactly its nodes, their vectors and the non-null quanta in the first
      `qset` slots of those. */
  lemma {:induction false} CellsMembers(h: Heap, p: Addr, nodes: seq<Addr>, qset: int, c: Addr)
    requires Chain(h, p, nodes, qset)
    ensures forall n :: n in nodes ==>
              && n in h && h[n].Node?
              && (h[n].data == 0 || (h[n].data in h && h[h[n].data].Vector? && qset <= |h[h[n].data].slots|))
    ensures c in Cells(h, p, nodes, qset) <==>
            exists n :: n in nodes && (|| c == n
                                       || (h[n].data != 0 && c == h[n].data)
                                       || (h[n].data != 0 && c != 0 && c in h[h[n].data].slots[..if qset < 0 then 0 else qset]))
    decreases |nodes|
  {
    ChainNodes(h, p, nodes, qset);
    if nodes != [] {
      NodeCellsMembers(h, p, qset, c);
      CellsMembers(h, h[p].next, nodes[1..], qset, c);
      assert forall n :: n in nodes <==> n == nodes[0] || n in nodes[1..];
    }
  }

  /** Node number `k` is live, has a large enough vector or none, and points to the next one. */
  ghost predicate LinkOk(h: Heap, nodes: seq<Addr>, k: nat, qset: int)
    requires k < |nodes|
  {
    && nodes[k] != 0 && nodes[k] in h && h[nodes[k]].Node?
    && h[nodes[k]].next == (if k + 1 < |nodes| then nodes[k + 1] else 0)
    && VectorOk(h, h[nodes[k]].data, qset)
  }

  lemma {:induction false} ChainLinks(h: Heap, p: Addr, nodes: seq<Addr>, qset: int)
    ensures Chain(h, p, nodes, qset) <==>
            && p == (if nodes == [] then 0 else nodes[0])
            && forall k :: 0 <= k < |nodes| ==> LinkOk(h, nodes, k, qset)
    decreases |nodes|
  {
    if nodes != [] && nodes[0] in h && h[nodes[0]].Node? {
      var rest := nodes[1..];
      ChainLinks(h, h[nodes[0]].next, rest, qset);
      assert forall k :: 0 <= k < |rest| ==> (LinkOk(h, rest, k, qset) <==> LinkOk(h, nodes, k + 1, qset));
      if Chain(h, p, nodes, qset) {
        forall k | 0 <= k < |nodes|
          ensures LinkOk(h, nodes, k, qset)
        {
          if k > 0 {
            assert LinkOk(h, rest, k - 1, qset);
          }
        }
      } else if forall k :: 0 <= k < |nodes| ==> LinkOk(h, nodes, k, qset) {
        assert LinkOk(h, nodes, 0, qset);
        assert forall k :: 0 <= k < |rest| ==> LinkOk(h, rest, k, qset);
      }
    } else if nodes != [] {
      assert !LinkOk(h, nodes, 0, qset);
    }
  }

  /** Position by position: a list is its node addresses, each live, with a large enough vector or
      none, pointing to the next one and the last one to null. */
  lemma ChainByPosition(h: Heap, p: Addr, nodes: seq<Addr>, qset: int)
    ensures Chain(h, p, nodes, qset) <==>
            && p == (if nodes == [] then 0 else nodes[0])
            && forall k :: 0 <= k < |nodes| ==>
                 && nodes[k] != 0 && nodes[k] in h && h[nodes[k]].Node?
                 && h[nodes[k]].next == (if k + 1 < |nodes| then nodes[k + 1] else 0)
                 && (h[nodes[k]].data == 0
                     || (h[nodes[k]].data in h && h[h[nodes[k]].data].Vector? && qset <= |h[h[nodes[k]].data].slots|))
  {
    ChainLinks(h, p, nodes, qset);
    if Chain(h, p, nodes, qset) {
      forall k | 0 <= k < |nodes|
        ensures LinkOk(h, nodes, k, qset)
        ensures nodes[k] in h && h[nodes[k]].Node? && VectorOk(h, h[nodes[k]].data, qset)
      {
      }
    } else if p == if nodes == [] then 0 else nodes[0] {
      var k :| 0 <= k < |nodes| && !LinkOk(h, nodes, k, qset);
      assert nodes[k] in h && h[nodes[k]].Node? ==> VectorOk(h, h[nodes[k]].data, qset) || h[nodes[k]].data != 0;
    }
  }

  // ----- Freeing a prefix of a duplicate-free list of cells -----

  ghost function Without(h: Heap, cs: seq<Addr>): Heap {
    h - Elems(cs)
  }

  /** `cells` split into those freed so far and those still to free. */
  ghost predicate Split(h: Heap, cells: seq<Addr>, done: seq<Addr>, todo: seq<Addr>) {
    cells == done + todo && NoDup(cells) && Elems(cells) <= h.Keys
  }

  lemma StillLive(h: Heap, cells: seq<Addr>, done: seq<Addr>, todo: seq<Addr>, c: Addr)
    requires Split(h, cells, done, todo) && c in todo
    ensures c in Without(h, done)
  {
    var j :| 0 <= j < |todo| && todo[j] == c;
    assert cells[|done| + j] == c;
    assert forall i :: 0 <= i < |done| ==> cells[i] == done[i];
    assert c in Elems(cells);
  }

  lemma FreeNext(h: Heap, cells: seq<Addr>, done: seq<Addr>, c: Addr, todo: seq<Addr>)
    requires Split(h, cells, done, [c] + todo)
    ensures Split(h, cells, done + [c], todo)
    ensures c in Without(h, done) && Without(h, done) - {c} == Without(h, done + [c])
  {
    assert done + ([c] + todo) == done + [c] + todo;
    StillLive(h, cells, done, [c] + todo, c);
  }

  /** The order of frees below one node, followed by the rest of the list. */
  lemma NodeCellsSplit(h: Heap, p: Addr, qset: int, later: seq<Addr>)
    requires p in h && h[p].Node? && VectorOk(h, h[p].data, qset)
    ensures p in NodeCells(h, p, qset) + later
    ensures
      var d := h[p].data;
      NodeCells(h, p, qset) + later ==
      if d == 0 then [p] + later else NonNull(h[d].slots[..Visited(qset)]) + ([d] + ([p] + later))
  {
  }

  /** The head of what is left of a vector. */
  lemma NonNullStep(s: seq<Addr>, i: nat, tail: seq<Addr>)
    requires i < |s|
    ensures NonNull(s[i..]) + tail ==
            if s[i] == 0 then NonNull(s[i + 1..]) + tail else [s[i]] + (NonNull(s[i + 1..]) + tail)
  {
    assert s[i..][1..] == s[i + 1..];
  }

  // ----- Framing: removing other memory does not disturb a list -----

  lemma FrameNode(h: Heap, gone: set<Addr>, p: Addr, qset: int)
    requires p in h && h[p].Node? && VectorOk(h, h[p].data, qset)
    requires Elems(NodeCells(h, p, qset)) !! gone
    ensures
      var k := h - gone;
      && p in k && k[p] == h[p] && VectorOk(k, h[p].data, qset)
      && NodeCells(k, p, qset) == NodeCells(h, p, qset)
  {
    var cs := NodeCells(h, p, qset);
    assert cs[|cs| - 1] == p;
    if h[p].data != 0 {
      assert cs[|cs| - 2] == h[p].data;
    }
  }

  lemma {:induction false} Frame(h: Heap, gone: set<Addr>, p: Addr, nodes: seq<Addr>, qset: int)
    requires Chain(h, p, nodes, qset) && Elems(Cells(h, p, nodes, qset)) !! gone
    ensures Chain(h - gone, p, nodes, qset)
    ensures Cells(h - gone, p, nodes, qset) == Cells(h, p, nodes, qset)
    decreases |nodes|
  {
    if nodes != [] {
      var first, rest := NodeCells(h, p, qset), Cells(h, h[p].next, nodes[1..], qset);
      assert forall c :: c in first ==> c in first + rest;
      assert forall c :: c in rest ==> c in first + rest;
      FrameNode(h, gone, p, qset);
      Frame(h, gone, h[p].next, nodes[1..], qset);
    }
  }
}
