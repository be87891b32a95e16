/**
  The copy-on-write sparse array behind dispatch tables: a 256-way radix tree
  whose inner nodes are shared between arrays and counted by reference.

  Memory is explicit: nodes live in a map from addresses to node records, an
  inner node's cells hold addresses, a leaf's cells hold the stored values, and
  every allocation may fail.  Addresses may be reused after they are freed.
 */
module SparseNodes {
  import opened Arithmetic

  type Ptr = nat
  const NULL: Ptr := 0
  type Shift = s: nat | s == 0 || s == 8 || s == 16 || s == 24

  datatype Node = Node(shift: Shift, refCount: nat, data: seq<Ptr>)
  type Heap = map<Ptr, Node>

  /** A cell of an inner node, as a holder of a reference. */
  type Edge = (Ptr, nat)

  // ---------------------------------------------------------------------------
  // Index arithmetic
  // ---------------------------------------------------------------------------

  function Base(shift: Shift): nat {
    if shift == 0 then 1
    else if shift == 8 then 0x100
    else if shift == 16 then 0x1_0000
    else 0x100_0000
  }

  /** The number of indices below a node of the given shift. */
  function Capacity(shift: Shift): nat {
    256 * Base(shift)
  }

  /** `(index >> shift) & 0xff`. */
  function Digit(index: nat, shift: Shift): (d: nat)
    ensures d < 256
  {
    (index / Base(shift)) % 256
  }

  /** The two indices select the same cell at this level and at every level below. */
  ghost predicate SameCell(i: nat, j: nat, shift: Shift)
    decreases shift
  {
    Digit(i, shift) == Digit(j, shift) && (shift == 0 || SameCell(i, j, shift - 8))
  }

  lemma DigitSplits(i: nat, shift: Shift)
    ensures i % Capacity(shift) == Digit(i, shift) * Base(shift) + i % Base(shift)
    ensures i % Base(shift) < Base(shift)
    ensures shift > 0 ==> Base(shift) == Capacity(shift - 8)
  {
    var q := i / Base(shift);
    RemainderIsUnique(i, Capacity(shift), q / 256, (q % 256) * Base(shift) + i % Base(shift));
  }

  lemma SplitIsUnique(a: nat, r: nat, a': nat, r': nat, shift: Shift)
    requires r < Base(shift) && r' < Base(shift)
    ensures a * Base(shift) + r == a' * Base(shift) + r' <==> a == a' && r == r'
  {
  }

  lemma {:induction false} SameCellIsCongruence(i: nat, j: nat, shift: Shift)
    ensures SameCell(i, j, shift) <==> i % Capacity(shift) == j % Capacity(shift)
    decreases shift
  {
    DigitSplits(i, shift);
    DigitSplits(j, shift);
    if shift > 0 {
      SplitIsUnique(Digit(i, shift), i % Base(shift), Digit(j, shift), j % Base(shift), shift);
      SameCellIsCongruence(i, j, shift - 8);
    }
  }

  // ---------------------------------------------------------------------------
  // The shared empty nodes
  // ---------------------------------------------------------------------------

  /** The address of the static empty node of the given shift. */
  function EmptyNode(shift: Shift): (p: Ptr)
    ensures IsEmptyChild(p)
  {
    1 + shift / 8
  }

  predicate IsEmptyChild(p: Ptr) {
    1 <= p <= 4
  }

  function EmptyChildForShift(shift: Shift): Ptr
    requires shift > 0
  {
    EmptyNode(shift - 8)
  }

  /** What init_pointers leaves in a zeroed node. */
  function InitialData(shift: Shift): (d: seq<Ptr>)
    ensures |d| == 256
  {
    seq(256, _ => if shift == 0 then NULL else EmptyChildForShift(shift))
  }

  ghost predicate StaticsIntact(h: Heap) {
    forall s: Shift :: EmptyNode(s) in h && h[EmptyNode(s)] == Node(s, 0, InitialData(s))
  }

  lemma EmptyNodesHoldEmptyNodes(h: Heap, q: Ptr, i: nat)
    requires StaticsIntact(h) && IsEmptyChild(q)
    ensures q in h && |h[q].data| == 256
    ensures h[q].shift > 0 && i < 256 ==> h[q].data[i] == EmptyNode(h[q].shift - 8)
  {
    assert q == EmptyNode(0) || q == EmptyNode(8) || q == EmptyNode(16) || q == EmptyNode(24);
  }

  lemma NotEmptyNode(h: Heap, p: Ptr)
    requires StaticsIntact(h) && p !in h
    ensures !IsEmptyChild(p) && forall s: Shift :: EmptyNode(s) != p
  {
    assert EmptyNode(0) != p && EmptyNode(8) != p && EmptyNode(16) != p && EmptyNode(24) != p;
  }

  const STATICS: Heap :=
    map[1 := Node(0, 0, InitialData(0)), 2 := Node(8, 0, InitialData(8)),
        3 := Node(16, 0, InitialData(16)), 4 := Node(24, 0, InitialData(24))]

  // ---------------------------------------------------------------------------
  // Well-formed memory and its reading
  // ---------------------------------------------------------------------------

  ghost predicate Live(h: Heap, p: Ptr) {
    p in h && (IsEmptyChild(p) || h[p].refCount > 0)
  }

  ghost predicate GoodCell(h: Heap, q: Ptr, i: nat)
    requires q in h && i < |h[q].data| && h[q].shift > 0
  {
    Live(h, h[q].data[i]) && h[h[q].data[i]].shift == h[q].shift - 8
  }

  ghost predicate Wired(h: Heap) {
    && (forall q :: q in h ==> q != NULL && |h[q].data| == 256)
    && (forall q, i: nat {:trigger GoodCell(h, q, i)} ::
          Live(h, q) && h[q].shift > 0 && i < 256 ==> GoodCell(h, q, i))
  }

  /** The loop form of the lookup: follow one digit a level. */
  ghost function Lookup(h: Heap, p: Ptr, index: nat): Ptr
    requires Wired(h) && Live(h, p)
    decreases h[p].shift
  {
    var d := Digit(index, h[p].shift);
    if h[p].shift == 0 then h[p].data[d]
    else
      assert GoodCell(h, p, d);
      Lookup(h, h[p].data[d], index)
  }

  ghost predicate SameContents(h: Heap, h': Heap, p: Ptr)
    requires Wired(h) && Wired(h') && Live(h, p) && Live(h', p)
  {
    forall j: nat :: Lookup(h', p, j) == Lookup(h, p, j)
  }

  // ---------------------------------------------------------------------------
  // Reference counts
  // ---------------------------------------------------------------------------

  /** The counted cells that point at p. */
  ghost function Holders(h: Heap, edges: set<Edge>, p: Ptr): set<Edge>
    requires EdgesIn(h, edges)
  {
    set e | e in edges && h[e.0].data[e.1] == p
  }

  ghost predicate EdgesIn(h: Heap, edges: set<Edge>) {
    && (forall q :: q in h ==> q != NULL && |h[q].data| == 256)
    && (forall e :: e in edges ==> e.0 in h && h[e.0].shift > 0 && e.1 < 256)
  }

  /** Every counted cell points at a node one level down. */
  ghost predicate EdgesWired(h: Heap, edges: set<Edge>)
    requires EdgesIn(h, edges)
  {
    forall e :: e in edges ==>
      h[e.0].data[e.1] in h && h[h[e.0].data[e.1]].shift == h[e.0].shift - 8
  }

  /** All cells of live inner nodes outside `skip` are counted. */
  ghost predicate EdgesComplete(h: Heap, edges: set<Edge>, skip: set<Ptr>) {
    forall q, i: nat {:trigger (q, i) in edges} ::
      q in h && q !in skip && h[q].refCount > 0 && h[q].shift > 0 && i < 256 ==> (q, i) in edges
  }

  ghost predicate Counted(h: Heap, edges: set<Edge>, roots: multiset<Ptr>)
    requires EdgesIn(h, edges)
  {
    && (forall p :: p in roots ==> p in h && !IsEmptyChild(p))
    && (forall p :: p in h && !IsEmptyChild(p) ==>
          h[p].refCount == |Holders(h, edges, p)| + roots[p])
  }

  /** The invariant every operation keeps, also in the middle of a release:
      a node's count is the number of counted cells and outside handles on it. */
  ghost predicate Consistent(h: Heap, edges: set<Edge>, roots: multiset<Ptr>) {
    && StaticsIntact(h)
    && EdgesIn(h, edges)
    && EdgesWired(h, edges)
    && EdgesComplete(h, edges, {})
    && Counted(h, edges, roots)
  }

  /** No node is left behind with a zero count: the invariant between operations. */
  ghost predicate NoDead(h: Heap) {
    forall p :: p in h && !IsEmptyChild(p) ==> h[p].refCount > 0
  }

  lemma HeldIsCounted(h: Heap, edges: set<Edge>, roots: multiset<Ptr>, e: Edge)
    requires EdgesIn(h, edges) && EdgesWired(h, edges) && Counted(h, edges, roots) && e in edges
    ensures Live(h, h[e.0].data[e.1])
  {
    var p := h[e.0].data[e.1];
    if !IsEmptyChild(p) {
      assert e in Holders(h, edges, p);
    }
  }

  lemma ConsistentIsWired(h: Heap, edges: set<Edge>, roots: multiset<Ptr>)
    requires Consistent(h, edges, roots)
    ensures Wired(h)
  {
    forall q, i: nat | Live(h, q) && h[q].shift > 0 && i < 256
      ensures GoodCell(h, q, i)
    {
      if IsEmptyChild(q) {
        EmptyNodesHoldEmptyNodes(h, q, i);
      } else {
        assert (q, i) in edges;
        HeldIsCounted(h, edges, roots, (q, i));
      }
    }
  }

  // ---------------------------------------------------------------------------
  // The bookkeeping moves the operations are made of
  // ---------------------------------------------------------------------------

  /** The handle a cell's target is owed: none for a shared empty node. */
  ghost function Handle(p: Ptr): multiset<Ptr> {
    if IsEmptyChild(p) then multiset{} else multiset{p}
  }

  lemma DecrementKeeps(h: Heap, edges: set<Edge>, roots: multiset<Ptr>, p: Ptr)
    requires Consistent(h, edges, roots) && p in roots
    ensures p in h && h[p].refCount > 0
    ensures Consistent(h[p := h[p].(refCount := h[p].refCount - 1)], edges, roots - multiset{p})
  {
    var h' := h[p := h[p].(refCount := h[p].refCount - 1)];
    RecountKeepsShape(h, edges, roots, p, h');
    hide StaticsIntact, EdgesWired, EdgesComplete;
    forall q | q in h'
      ensures Holders(h', edges, q) == Holders(h, edges, q)
    {
    }
  }

  /** Lowering a count leaves the cells, and what is known of them, alone. */
  lemma RecountKeepsShape(h: Heap, edges: set<Edge>, roots: multiset<Ptr>, p: Ptr, h': Heap)
    requires Consistent(h, edges, roots) && p in h && !IsEmptyChild(p) && h[p].refCount > 0
    requires h' == h[p := h[p].(refCount := h[p].refCount - 1)]
    ensures StaticsIntact(h') && EdgesIn(h', edges) && EdgesWired(h', edges) && EdgesComplete(h', edges, {})
  {
    hide Counted, Holders;
    assert forall s: Shift :: EmptyNode(s) != p;
  }

  /** A dead node gives up one cell: its target's reference becomes a handle. */
  lemma ReleaseCellKeeps(h: Heap, edges: set<Edge>, roots: multiset<Ptr>, e: Edge)
    requires Consistent(h, edges, roots) && e in edges && h[e.0].refCount == 0
    ensures Consistent(h, edges - {e}, roots + Handle(h[e.0].data[e.1]))
  {
    var edges' := edges - {e};
    var t := h[e.0].data[e.1];
    forall q | q in h
      ensures Holders(h, edges', q) == Holders(h, edges, q) - {e}
    {
    }
  }

  lemma FreeKeeps(h: Heap, edges: set<Edge>, roots: multiset<Ptr>, p: Ptr)
    requires Consistent(h, edges, roots) && p in h && !IsEmptyChild(p) && h[p].refCount == 0
    requires forall e :: e in edges ==> e.0 != p
    ensures Consistent(h - {p}, edges, roots)
  {
    var h' := h - {p};
    assert Holders(h, edges, p) == {};
    forall e | e in edges
      ensures h[e.0].data[e.1] != p
    {
      assert e !in Holders(h, edges, p);
    }
    forall q | q in h'
      ensures Holders(h', edges, q) == Holders(h, edges, q)
    {
    }
    assert forall s: Shift :: EmptyNode(s) != p;
  }

  ghost function CellsOf(p: Ptr, shift: Shift): set<Edge> {
    if shift == 0 then {} else set i: nat | i < 256 :: (p, i)
  }

  lemma FreshNodeCounts(h: Heap, edges: set<Edge>, roots: multiset<Ptr>, p: Ptr, shift: Shift)
    requires Consistent(h, edges, roots) && p !in h && p != NULL && !IsEmptyChild(p)
    requires EdgesIn(h[p := Node(shift, 1, InitialData(shift))], edges + CellsOf(p, shift))
    ensures Counted(h[p := Node(shift, 1, InitialData(shift))],
                    edges + CellsOf(p, shift), roots + multiset{p})
  {
    var h', edges' := h[p := Node(shift, 1, InitialData(shift))], edges + CellsOf(p, shift);
    forall q | q in h' && !IsEmptyChild(q)
      ensures h'[q].refCount == |Holders(h', edges', q)| + (roots + multiset{p})[q]
    {
      assert Holders(h', edges', q) == if q == p then {} else Holders(h, edges, q);
    }
  }

  lemma FreshNodeKeeps(h: Heap, edges: set<Edge>, roots: multiset<Ptr>, p: Ptr, shift: Shift)
    requires Consistent(h, edges, roots) && p !in h && p != NULL
    ensures Consistent(h[p := Node(shift, 1, InitialData(shift))],
                       edges + CellsOf(p, shift), roots + multiset{p})
  {
    var h', edges' := h[p := Node(shift, 1, InitialData(shift))], edges + CellsOf(p, shift);
    NotEmptyNode(h, p);
    assert EdgesIn(h', edges');
    FreshNodeCounts(h, edges, roots, p, shift);
  }

  lemma HoldersAfterShare(h: Heap, edges: set<Edge>, e: Edge, h': Heap, q: Ptr)
    requires EdgesIn(h, edges) && EdgesIn(h', edges + {e}) && e !in edges && e.0 in h
    requires forall p :: p in h ==> p in h' && h'[p].data == h[p].data
    ensures Holders(h', edges + {e}, q) ==
            if q == h[e.0].data[e.1] then Holders(h, edges, q) + {e} else Holders(h, edges, q)
    ensures e !in Holders(h, edges, q)
  {
  }

  /** What holds while the copy c is being linked to the children it shares. */
  ghost predicate ConsistentBut(h: Heap, edges: set<Edge>, roots: multiset<Ptr>, c: Ptr) {
    && StaticsIntact(h)
    && EdgesIn(h, edges)
    && EdgesWired(h, edges)
    && EdgesComplete(h, edges, {c})
    && Counted(h, edges, roots)
  }

  /** The copy c of p before its children are counted. */
  lemma CopyRootKeeps(h: Heap, edges: set<Edge>, roots: multiset<Ptr>, p: Ptr, c: Ptr)
    requires Consistent(h, edges, roots) && p in h && c !in h && c != NULL
    ensures ConsistentBut(h[c := h[p].(refCount := 1)], edges, roots + multiset{c}, c)
  {
    var h' := h[c := h[p].(refCount := 1)];
    NotEmptyNode(h, c);
    assert EdgesIn(h', edges);
    forall q | q in h' && !IsEmptyChild(q)
      ensures h'[q].refCount == |Holders(h', edges, q)| + (roots + multiset{c})[q]
    {
      assert Holders(h', edges, q) == if q == c then {} else Holders(h, edges, q);
    }
  }

  /** Copying a node to c may only raise counts, and only one level below it. */
  ghost predicate Shared(h: Heap, h': Heap, c: Ptr) {
    && c in h' && h'.Keys == h.Keys + {c}
    && forall q :: q in h ==>
         && h'[q] == h[q].(refCount := h'[q].refCount)
         && h[q].refCount <= h'[q].refCount
         && (h[q].shift + 8 != h'[c].shift ==> h'[q] == h[q])
  }

  ghost function FirstCells(c: Ptr, n: nat): set<Edge> {
    set k: nat | k < n :: (c, k)
  }

  lemma FirstCellsGrow(c: Ptr, n: nat)
    ensures FirstCells(c, n + 1) == FirstCells(c, n) + {(c, n)}
    ensures (c, n) !in FirstCells(c, n)
    ensures FirstCells(c, 0) == {}
  {
  }

  lemma NotYetCounted(h: Heap, edges: set<Edge>, roots: multiset<Ptr>, c: Ptr, k: nat)
    requires Consistent(h, edges, roots) && c !in h
    ensures (c, k) !in edges
  {
  }

  lemma SharedStep(h0: Heap, h: Heap, c: Ptr, k: nat)
    requires Shared(h0, h, c) && c !in h0 && h[c].shift > 0 && k < |h[c].data| && GoodCell(h, c, k)
    ensures Shared(h0, Raised(h, h[c].data[k]), c)
    ensures Raised(h, h[c].data[k])[c] == h[c]
  {
  }

  /** A child of the copied node is a good cell of the copy too. */
  lemma CopiedCellIsGood(h0: Heap, edges: set<Edge>, roots: multiset<Ptr>, h: Heap, p: Ptr, c: Ptr, k: nat)
    requires Consistent(h0, edges, roots) && Live(h0, p) && Shared(h0, h, c)
    requires h[c] == h0[p].(refCount := 1) && h[c].shift > 0 && k < 256
    ensures |h[c].data| == 256 && GoodCell(h, c, k)
  {
    ConsistentIsWired(h0, edges, roots);
    assert GoodCell(h0, p, k);
  }

  lemma CopyComplete(h: Heap, edges: set<Edge>, roots: multiset<Ptr>, c: Ptr)
    requires ConsistentBut(h, edges, roots, c) && c in h
    requires h[c].shift > 0 ==> FirstCells(c, 256) <= edges
    ensures Consistent(h, edges, roots)
  {
    assert h[c].shift > 0 ==> forall i: nat :: i < 256 ==> (c, i) in FirstCells(c, 256);
  }

  ghost function Raised(h: Heap, t: Ptr): Heap
    requires t in h
  {
    if IsEmptyChild(t) then h else h[t := h[t].(refCount := h[t].refCount + 1)]
  }

  lemma ShareCellShape(h: Heap, edges: set<Edge>, roots: multiset<Ptr>, c: Ptr, k: nat, h': Heap)
    requires ConsistentBut(h, edges, roots, c)
    requires c in h && h[c].shift > 0 && k < 256 && GoodCell(h, c, k)
    requires h' == Raised(h, h[c].data[k])
    ensures StaticsIntact(h') && EdgesIn(h', edges + {(c, k)})
    ensures EdgesWired(h', edges + {(c, k)}) && EdgesComplete(h', edges + {(c, k)}, {c})
  {
    hide Counted, Holders;
    RaisedShape(h, h[c].data[k]);
    RaisedStatics(h, h[c].data[k]);
    hide StaticsIntact, Raised, IsEmptyChild;
    assert EdgesIn(h', edges + {(c, k)});
    assert EdgesWired(h', edges + {(c, k)});
    assert EdgesComplete(h', edges + {(c, k)}, {c});
  }

  lemma RaisedShape(h: Heap, t: Ptr)
    requires Live(h, t)
    ensures
      var h' := Raised(h, t);
      h'.Keys == h.Keys && forall q :: q in h ==>
        h'[q].data == h[q].data && h'[q].shift == h[q].shift && (h'[q].refCount > 0 <==> h[q].refCount > 0)
  {
  }

  lemma RaisedStatics(h: Heap, t: Ptr)
    requires StaticsIntact(h) && t in h
    ensures StaticsIntact(Raised(h, t))
  {
    assert !IsEmptyChild(t) ==> forall s: Shift :: EmptyNode(s) != t;
  }

  /** A count is raised for one more cell of the copy c. */
  lemma ShareCellKeeps(h: Heap, edges: set<Edge>, roots: multiset<Ptr>, c: Ptr, k: nat)
    requires ConsistentBut(h, edges, roots, c)
    requires c in h && h[c].shift > 0 && k < 256 && (c, k) !in edges
    requires GoodCell(h, c, k)
    ensures ConsistentBut(Raised(h, h[c].data[k]), edges + {(c, k)}, roots, c)
  {
    var h', edges' := Raised(h, h[c].data[k]), edges + {(c, k)};
    ShareCellShape(h, edges, roots, c, k, h');
    hide StaticsIntact, EdgesWired, EdgesComplete, Holders;
    forall q | q in h' && !IsEmptyChild(q)
      ensures h'[q].refCount == |Holders(h', edges', q)| + roots[q]
    {
      ShareCount(h, edges, roots, c, k, q);
    }
  }

  lemma ShareCount(h: Heap, edges: set<Edge>, roots: multiset<Ptr>, c: Ptr, k: nat, q: Ptr)
    requires EdgesIn(h, edges) && c in h && k < 256 && (c, k) !in edges && h[c].data[k] in h && q in h && !IsEmptyChild(q)
    requires EdgesIn(Raised(h, h[c].data[k]), edges + {(c, k)}) && h[q].refCount == |Holders(h, edges, q)| + roots[q]
    ensures Raised(h, h[c].data[k])[q].refCount == |Holders(Raised(h, h[c].data[k]), edges + {(c, k)}, q)| + roots[q]
  {
    hide Holders;
    HoldersAfterShare(h, edges, (c, k), Raised(h, h[c].data[k]), q);
  }

  /** The holders of q when cell i of p is changed from its old target to r. */
  lemma HoldersAfterWrite(h: Heap, edges: set<Edge>, p: Ptr, i: nat, r: Ptr, h': Heap, q: Ptr)
    requires EdgesIn(h, edges) && EdgesIn(h', edges) && (p, i) in edges
    requires h' == h[p := h[p].(data := h[p].data[i := r])]
    ensures q == r ==> Holders(h', edges, q) == Holders(h, edges, q) + {(p, i)}
    ensures q != r ==> Holders(h', edges, q) == Holders(h, edges, q) - {(p, i)}
    ensures q == h[p].data[i] <==> (p, i) in Holders(h, edges, q)
  {
  }

  lemma PublishCounts(h: Heap, edges: set<Edge>, roots: multiset<Ptr>, p: Ptr, i: nat, r: Ptr, h': Heap)
    requires EdgesIn(h, edges) && Counted(h, edges, roots)
    requires p in h && (p, i) in edges && r in roots && h[p].data[i] in h
    requires h' == h[p := h[p].(data := h[p].data[i := r])] && EdgesIn(h', edges)
    ensures Counted(h', edges, roots - multiset{r} + Handle(h[p].data[i]))
  {
    var roots' := roots - multiset{r} + Handle(h[p].data[i]);
    forall q | q in h' && !IsEmptyChild(q)
      ensures h'[q].refCount == |Holders(h', edges, q)| + roots'[q]
    {
      PublishCount(h, edges, roots, p, i, r, h', q);
    }
  }

  lemma PublishCount(h: Heap, edges: set<Edge>, roots: multiset<Ptr>, p: Ptr, i: nat, r: Ptr, h': Heap, q: Ptr)
    requires EdgesIn(h, edges) && EdgesIn(h', edges) && (p, i) in edges && r in roots && q in h && !IsEmptyChild(q)
    requires h[q].refCount == |Holders(h, edges, q)| + roots[q]
    requires h' == h[p := h[p].(data := h[p].data[i := r])]
    ensures h'[q].refCount == |Holders(h', edges, q)| + (roots - multiset{r} + Handle(h[p].data[i]))[q]
  {
    HoldersAfterWrite(h, edges, p, i, r, h', q);
    hide Holders, EdgesIn;
  }

  /** Storing the replacement r in cell i of p swaps a handle on r for one on the old child. */
  lemma PublishKeeps(h: Heap, edges: set<Edge>, roots: multiset<Ptr>, p: Ptr, i: nat, r: Ptr)
    requires Consistent(h, edges, roots)
    requires p in h && !IsEmptyChild(p) && h[p].refCount > 0 && h[p].shift > 0 && i < 256
    requires r in roots && h[r].shift == h[p].shift - 8
    ensures Consistent(h[p := h[p].(data := h[p].data[i := r])], edges,
                       roots - multiset{r} + Handle(h[p].data[i]))
  {
    var h' := h[p := h[p].(data := h[p].data[i := r])];
    assert (p, i) in edges;
    assert forall s: Shift :: EmptyNode(s) != p;
    assert StaticsIntact(h') && EdgesIn(h', edges) && EdgesWired(h', edges) && EdgesComplete(h', edges, {});
    hide StaticsIntact, EdgesComplete, Holders;
    PublishCounts(h, edges, roots, p, i, r, h');
  }

  lemma LeafWriteKeeps(h: Heap, edges: set<Edge>, roots: multiset<Ptr>, p: Ptr, d: nat, value: Ptr)
    requires Consistent(h, edges, roots)
    requires p in h && !IsEmptyChild(p) && h[p].shift == 0 && d < 256
    ensures Consistent(h[p := h[p].(data := h[p].data[d := value])], edges, roots)
  {
    var h' := h[p := h[p].(data := h[p].data[d := value])];
    assert forall s: Shift :: EmptyNode(s) != p;
    forall q | q in h
      ensures Holders(h', edges, q) == Holders(h, edges, q)
    {
    }
  }

  lemma Shape(h: Heap, edges: set<Edge>, roots: multiset<Ptr>, p: Ptr)
    requires Consistent(h, edges, roots) && p in h
    ensures p != NULL && |h[p].data| == 256
    ensures h[p].refCount > 0 && h[p].shift > 0 ==> forall i: nat :: i < 256 ==> (p, i) in edges
    ensures p in roots ==> h[p].refCount > 0
  {
  }

  // ---------------------------------------------------------------------------
  // Release
  // ---------------------------------------------------------------------------

  /** Every node of h' is a node of h with the same cells, and none of them died. */
  ghost predicate CountsDiffer(h: Heap, h': Heap, p: Ptr) {
    forall q :: q in h' ==>
      && q in h && h'[q] == h[q].(refCount := h'[q].refCount)
      && (q != p && h'[q].refCount == 0 ==> h[q].refCount == 0)
  }

  /** Nodes other than p that were dead, or lie at p's level or above, are unchanged. */
  ghost predicate SparesOthers(h: Heap, h': Heap, p: Ptr, level: Shift) {
    forall q :: q in h && q != p && (h[q].refCount == 0 || h[q].shift >= level) ==>
      q in h' && h'[q] == h[q]
  }

  /** What giving up a handle on p does: the last one frees p, a freed node's cells stop
      counting, and no other node loses its cells. */
  ghost predicate Released(h: Heap, edges: set<Edge>, h': Heap, edges': set<Edge>, p: Ptr) {
    && edges' == (set e | e in edges && e.0 in h')
    && CountsDiffer(h, h', NULL)
    && (p == NULL || IsEmptyChild(p) ==> h' == h)
    && (p != NULL && !IsEmptyChild(p) ==>
          && p in h
          && SparesOthers(h, h', p, h[p].shift)
          && if h[p].refCount > 1 then h' == h[p := h[p].(refCount := h[p].refCount - 1)] else p !in h')
  }

  /** The state while the dead node p gives up its cells one by one. */
  ghost predicate Releasing(h0: Heap, edges0: set<Edge>, h: Heap, edges: set<Edge>, p: Ptr, node: Node, i: nat) {
    && p in h && h[p] == node && node.refCount == 0
    && edges == (set e | e in edges0 && e.0 in h && (e.0 == p ==> i <= e.1))
    && CountsDiffer(h0, h, p)
    && SparesOthers(h0, h, p, node.shift)
  }

  lemma ReleasingStarts(h0: Heap, edges: set<Edge>, roots0: multiset<Ptr>, h: Heap, p: Ptr)
    requires Consistent(h0, edges, roots0) && p in h0 && h0[p].refCount == 1
    requires h == h0[p := h0[p].(refCount := 0)]
    ensures Releasing(h0, edges, h, edges, p, h[p], 0)
  {
    assert edges == set e | e in edges && e.0 in h && (e.0 == p ==> 0 <= e.1);
  }

  lemma ReleasingCell(h0: Heap, edges0: set<Edge>, h: Heap, edges: set<Edge>, roots: multiset<Ptr>, p: Ptr, node: Node, i: nat)
    requires Consistent(h, edges, roots) && Releasing(h0, edges0, h, edges, p, node, i)
    requires (p, i) in edges0
    ensures p in h && h[p] == node && h[p].refCount == 0 && (p, i) in edges
    ensures i < |node.data| && node.data[i] != NULL && node.data[i] in h && h[node.data[i]].shift < node.shift
  {
  }

  lemma ReleasingAdvances(h0: Heap, edges0: set<Edge>, h: Heap, edges: set<Edge>, roots: multiset<Ptr>,
                          p: Ptr, node: Node, i: nat, h': Heap, edges': set<Edge>)
    requires Consistent(h, edges, roots) && Releasing(h0, edges0, h, edges, p, node, i)
    requires (p, i) in edges && node.shift > 0
    requires Released(h, edges - {(p, i)}, h', edges', node.data[i])
    ensures Releasing(h0, edges0, h', edges', p, node, i + 1)
  {
    HeldIsCounted(h, edges, roots, (p, i));
    ReleasingCell(h0, edges0, h, edges, roots, p, node, i);
    assert NULL !in h;
    hide Consistent, Live;
    ReleasedSpares(h0, h, edges - {(p, i)}, p, node, h', edges', node.data[i]);
    ReleasedEdges(edges0, h, edges, p, i, h', edges');
  }

  lemma ReleasedEdges(edges0: set<Edge>, h: Heap, edges: set<Edge>, p: Ptr, i: nat, h': Heap, edges': set<Edge>)
    requires edges == set e | e in edges0 && e.0 in h && (e.0 == p ==> i <= e.1)
    requires edges' == set e | e in edges - {(p, i)} && e.0 in h'
    requires CountsDiffer(h, h', NULL)
    ensures edges' == set e | e in edges0 && e.0 in h' && (e.0 == p ==> i + 1 <= e.1)
  {
    assert forall q :: q in h' ==> q in h;
    hide CountsDiffer;
    forall e | e in edges0 && e.0 in h' && (e.0 == p ==> i + 1 <= e.1)
      ensures e in edges'
    {
      assert e in edges && e != (p, i);
    }
  }

  /** Giving up a child of the dead node p touches neither p nor what p's release must spare. */
  lemma ReleasedSpares(h0: Heap, h: Heap, edges: set<Edge>, p: Ptr, node: Node, h': Heap, edges': set<Edge>, c: Ptr)
    requires NULL !in h && p in h && h[p] == node && node.refCount == 0 && c in h && h[c].shift < node.shift && Live(h, c)
    requires CountsDiffer(h0, h, p) && SparesOthers(h0, h, p, node.shift) && Released(h, edges, h', edges', c)
    ensures p in h' && h'[p] == node && CountsDiffer(h0, h', p) && SparesOthers(h0, h', p, node.shift)
  {
    assert p in h' && h'[p] == node;
  }

  lemma ReleasingEnds(h0: Heap, edges0: set<Edge>, roots0: multiset<Ptr>, h: Heap, edges: set<Edge>, p: Ptr, node: Node, i: nat)
    requires Consistent(h0, edges0, roots0) && Releasing(h0, edges0, h, edges, p, node, i)
    requires p in h0 && !IsEmptyChild(p) && h0[p].refCount == 1
    requires i == 256 || h0[p].shift == 0
    ensures p in h && h[p].refCount == 0 && forall e :: e in edges ==> e.0 != p
    ensures Released(h0, edges0, h - {p}, edges, p)
  {
    assert h0[p].shift == node.shift;
    assert edges == set e | e in edges0 && e.0 in h - {p};
  }

  lemma DecrementReleases(h: Heap, edges: set<Edge>, roots: multiset<Ptr>, p: Ptr)
    requires Consistent(h, edges, roots)
    requires p == NULL || IsEmptyChild(p) || (p in h && h[p].refCount > 1)
    ensures
      var h' := if p == NULL || IsEmptyChild(p) then h else h[p := h[p].(refCount := h[p].refCount - 1)];
      Released(h, edges, h', edges, p)
  {
    assert edges == set e | e in edges && e.0 in h;
  }

  // ---------------------------------------------------------------------------
  // What a write to one node does to the contents of the others
  // ---------------------------------------------------------------------------

  /** h' only adds nodes to h or changes their counts. */
  ghost predicate SameCells(h: Heap, h': Heap) {
    forall q :: Live(h, q) ==> Live(h', q) && h'[q].shift == h[q].shift && h'[q].data == h[q].data
  }

  lemma {:induction false} SameCellsSameContents(h: Heap, h': Heap, p: Ptr)
    requires Wired(h) && Wired(h') && SameCells(h, h') && Live(h, p)
    ensures SameContents(h, h', p)
    decreases h[p].shift
  {
    if h[p].shift > 0 {
      forall j: nat
        ensures Lookup(h', p, j) == Lookup(h, p, j)
      {
        assert GoodCell(h, p, Digit(j, h[p].shift));
        SameCellsSameContents(h, h', h[p].data[Digit(j, h[p].shift)]);
      }
    }
  }

  /** A node whose cells are kept and whose children keep their contents keeps its own. */
  lemma SameChildrenSameContents(h: Heap, h': Heap, p: Ptr)
    requires Wired(h) && Wired(h') && Live(h, p) && Live(h', p)
    requires h[p].shift > 0 && h'[p].shift == h[p].shift && h'[p].data == h[p].data
    requires forall i: nat :: i < 256 ==>
      && GoodCell(h, p, i) && GoodCell(h', p, i)
      && SameContents(h, h', h[p].data[i])
    ensures SameContents(h, h', p)
  {
    forall j: nat
      ensures Lookup(h', p, j) == Lookup(h, p, j)
    {
      var d := Digit(j, h[p].shift);
      assert GoodCell(h, p, d) && GoodCell(h', p, d);
      assert SameContents(h, h', h[p].data[d]);
    }
  }

  /** The contents a successful insert must leave behind, relative to those of p in h. */
  ghost predicate Inserted(h: Heap, p: Ptr, h': Heap, p': Ptr, index: nat, value: Ptr)
    requires Wired(h) && Wired(h') && Live(h, p) && Live(h', p') && h'[p'].shift == h[p].shift
  {
    forall j: nat :: Lookup(h', p', j) ==
                     if SameCell(j, index, h[p].shift) then value else Lookup(h, p, j)
  }

  lemma LeafWriteInserts(h: Heap, p: Ptr, h': Heap, index: nat, value: Ptr)
    requires Wired(h) && Wired(h') && Live(h, p) && Live(h', p)
    requires h[p].shift == h'[p].shift == 0
    requires h'[p].data == h[p].data[Digit(index, 0) := value]
    ensures Inserted(h, p, h', p, index, value)
  {
  }

  /** Writing below cell i of p, whose child r now holds the old child's contents plus the value. */
  lemma ParentInserts(h: Heap, p: Ptr, h': Heap, r: Ptr, index: nat, value: Ptr)
    requires Wired(h) && Wired(h') && Live(h, p) && Live(h', p)
    requires h[p].shift > 0 && h'[p].shift == h[p].shift
    requires h'[p].data == h[p].data[Digit(index, h[p].shift) := r]
    requires GoodCell(h, p, Digit(index, h[p].shift)) && GoodCell(h', p, Digit(index, h[p].shift))
    requires Inserted(h, h[p].data[Digit(index, h[p].shift)], h', r, index, value)
    requires forall i: nat :: i < 256 && i != Digit(index, h[p].shift) ==>
      && GoodCell(h, p, i) && GoodCell(h', p, i)
      && SameContents(h, h', h[p].data[i])
    ensures Inserted(h, p, h', p, index, value)
  {
    forall j: nat
      ensures Lookup(h', p, j) == if SameCell(j, index, h[p].shift) then value else Lookup(h, p, j)
    {
      var d := Digit(j, h[p].shift);
      assert GoodCell(h, p, d) && GoodCell(h', p, d);
      if d != Digit(index, h[p].shift) {
        assert SameContents(h, h', h[p].data[d]);
      }
    }
  }

  /** The nodes an insert at p writes in place: p, and below it the children on the
      index's path for as long as nobody else holds them. */
  ghost function ExclusivePath(h: Heap, p: Ptr, index: nat): (path: set<Ptr>)
    requires Wired(h) && Live(h, p)
    ensures forall q :: q in path ==> q in h && (q == p || (h[q].shift < h[p].shift && h[q].refCount == 1))
    decreases h[p].shift
  {
    if h[p].shift == 0 then {p}
    else
      var d := Digit(index, h[p].shift);
      assert GoodCell(h, p, d);
      var c := h[p].data[d];
      if IsEmptyChild(c) || h[c].refCount != 1 then {p} else {p} + ExclusivePath(h, c, index)
  }

  /** A node counted once and held by a cell is held by no other cell and by no handle. */
  lemma SoleHolder(h: Heap, edges: set<Edge>, roots: multiset<Ptr>, e: Edge, c: Ptr)
    requires Consistent(h, edges, roots) && e in edges && h[e.0].data[e.1] == c
    requires !IsEmptyChild(c) && h[c].refCount == 1
    ensures c !in roots
    ensures forall f :: f in edges && h[f.0].data[f.1] == c ==> f == e
  {
    var held := Holders(h, edges, c);
    assert e in held;
    forall f | f in edges && h[f.0].data[f.1] == c
      ensures f == e
    {
      assert |held - {e}| == 0;
      assert f in held;
    }
  }

  lemma {:induction false} ExclusivePathHasNoRoots(h: Heap, edges: set<Edge>, roots: multiset<Ptr>, p: Ptr, index: nat)
    requires Consistent(h, edges, roots) && Wired(h) && Live(h, p) && !IsEmptyChild(p)
    ensures forall q :: q in ExclusivePath(h, p, index) && q != p ==> q !in roots
    decreases h[p].shift
  {
    if h[p].shift > 0 {
      var d := Digit(index, h[p].shift);
      assert GoodCell(h, p, d);
      var c := h[p].data[d];
      if !IsEmptyChild(c) && h[c].refCount == 1 {
        assert (p, d) in edges;
        SoleHolder(h, edges, roots, (p, d), c);
        ExclusivePathHasNoRoots(h, edges, roots, c, index);
      }
    }
  }

  /** When only nodes at or below p's level may have changed, p alone at its own level, and
      no cell holds p, everything above keeps its contents. */
  lemma {:induction false} HigherKeepContents(h: Heap, edges: set<Edge>, roots: multiset<Ptr>, h': Heap, p: Ptr, q: Ptr)
    requires Consistent(h, edges, roots) && Wired(h) && Wired(h') && Live(h, p)
    requires forall x :: Live(h, x) ==> Live(h', x) && h'[x].shift == h[x].shift
    requires forall x :: Live(h, x) && h[x].shift > h[p].shift ==> Live(h', x) && h'[x].data == h[x].data
    requires forall x :: Live(h, x) && h[x].shift == h[p].shift && x != p ==> SameContents(h, h', x)
    requires forall e :: e in edges ==> h[e.0].data[e.1] != p
    requires !IsEmptyChild(p) && Live(h, q) && h[q].shift > h[p].shift
    ensures SameContents(h, h', q)
    decreases h[q].shift
  {
    forall i: nat | i < 256
      ensures GoodCell(h, q, i) && GoodCell(h', q, i) && SameContents(h, h', h[q].data[i])
    {
      assert GoodCell(h, q, i) && GoodCell(h', q, i);
      var c := h[q].data[i];
      if IsEmptyChild(q) {
        EmptyNodesHoldEmptyNodes(h, q, i);
      } else {
        assert (q, i) in edges;
      }
      if h[c].shift > h[p].shift {
        HigherKeepContents(h, edges, roots, h', p, c);
      }
    }
    SameChildrenSameContents(h, h', q);
  }

  /** A node that had a holder in h still exists in h' when handles and surviving cells do. */
  lemma {:induction false} HeldNodesSurvive(h: Heap, edges: set<Edge>, roots: multiset<Ptr>,
                         h': Heap, edges': set<Edge>, roots': multiset<Ptr>, q: Ptr)
    requires Consistent(h, edges, roots) && NoDead(h) && Consistent(h', edges', roots') && roots <= roots'
    requires forall e :: e in edges && e.0 in h' ==>
      e in edges' && h'[e.0].data[e.1] == h[e.0].data[e.1]
    requires q in h
    ensures q in h'
    decreases 24 - h[q].shift
  {
    if IsEmptyChild(q) {
      EmptyNodesHoldEmptyNodes(h', q, 0);
    } else if q in roots {
      assert roots[q] <= roots'[q];
    } else {
      var e :| e in Holders(h, edges, q);
      HeldNodesSurvive(h, edges, roots, h', edges', roots', e.0);
    }
  }

  /** Giving up a handle on p: every array that is still held keeps its contents. */
  lemma DestroyIsIsolated(h: Heap, edges: set<Edge>, roots: multiset<Ptr>,
                          h': Heap, edges': set<Edge>, roots': multiset<Ptr>, p: Ptr, q: Ptr)
    requires Consistent(h, edges, roots) && NoDead(h) && Consistent(h', edges', roots')
    requires Released(h, edges, h', edges', p) && q in roots'
    ensures Wired(h) && Wired(h') && NoDead(h') && q in h && q in h' && SameContents(h, h', q)
  {
    ConsistentIsWired(h, edges, roots);
    ConsistentIsWired(h', edges', roots');
    assert q in h' && NULL !in h' && NoDead(h');
    hide Consistent, Wired, Lookup;
    assert SameCells(h', h);
    SameCellsSameContents(h', h, q);
    SameContentsBack(h, h', q);
  }

  /** Every array held by a handle reads in both memories, and reads the same. */
  ghost predicate HeldKept(h: Heap, h': Heap, roots: multiset<Ptr>) {
    && Wired(h) && Wired(h')
    && forall q :: q in roots ==> Live(h, q) && Live(h', q) && SameContents(h, h', q)
  }

  lemma DestroyKeepsHeld(h: Heap, edges: set<Edge>, roots: multiset<Ptr>,
                         h': Heap, edges': set<Edge>, roots': multiset<Ptr>, p: Ptr)
    requires Consistent(h, edges, roots) && Consistent(h', edges', roots') && Released(h, edges, h', edges', p)
    ensures NoDead(h) ==> NoDead(h') && HeldKept(h, h', roots')
  {
    if NoDead(h) {
      ReleasedIsLive(h, edges, roots, h', edges', roots', p);
      hide Consistent, Released, Wired, Lookup, SameContents, NoDead;
      forall q | q in roots'
        ensures Live(h, q) && Live(h', q) && SameContents(h, h', q)
      {
        DestroyIsIsolated(h, edges, roots, h', edges', roots', p, q);
        LiveInBoth(h, h', q);
      }
    }
  }

  lemma LiveInBoth(h: Heap, h': Heap, q: Ptr)
    requires NoDead(h) && NoDead(h') && q in h && q in h'
    ensures Live(h, q) && Live(h', q)
  {
  }

  lemma ReleasedIsLive(h: Heap, edges: set<Edge>, roots: multiset<Ptr>,
                       h': Heap, edges': set<Edge>, roots': multiset<Ptr>, p: Ptr)
    requires Consistent(h, edges, roots) && Consistent(h', edges', roots') && Released(h, edges, h', edges', p) && NoDead(h)
    ensures Wired(h) && Wired(h') && NoDead(h')
  {
    ConsistentIsWired(h, edges, roots);
    ConsistentIsWired(h', edges', roots');
  }

  lemma SameContentsBack(h: Heap, h': Heap, q: Ptr)
    requires Wired(h) && Wired(h') && Live(h, q) && Live(h', q) && SameContents(h', h, q)
    ensures SameContents(h, h', q)
  {
  }

  /** With no handles left, only the shared empty nodes remain: nothing leaks. */
  lemma {:induction false} NoHandlesNoNodes(h: Heap, edges: set<Edge>, p: Ptr)
    requires Consistent(h, edges, multiset{}) && NoDead(h) && p in h
    ensures IsEmptyChild(p)
    decreases 24 - h[p].shift
  {
    if !IsEmptyChild(p) {
      var e :| e in Holders(h, edges, p);
      NoHandlesNoNodes(h, edges, e.0);
      EmptyNodesHoldEmptyNodes(h, e.0, e.1);
    }
  }

  lemma UnusedAddress(keys: set<Ptr>)
    ensures exists p: Ptr :: p !in keys && p != NULL
  {
    var bound := AddressBound(keys);
    assert bound + 1 !in keys;
  }

  lemma {:induction false} AddressBound(keys: set<Ptr>) returns (bound: nat)
    ensures forall p :: p in keys ==> p <= bound
    decreases |keys|
  {
    if keys == {} {
      bound := 0;
    } else {
      var p :| p in keys;
      var rest := keys - {p};
      bound := AddressBound(rest);
      assert keys == rest + {p};
      if bound < p {
        bound := p;
      }
    }
  }

  // ---------------------------------------------------------------------------
  // Insertion
  // ---------------------------------------------------------------------------

  /** What one insert at p may do to memory, whether or not it succeeds: every node keeps
      its place, nodes at p's level or above are untouched apart from p's cells, and at p's
      level or below only the nodes on p's exclusive path change contents. */
  ghost predicate InsertFrame(h: Heap, h': Heap, p: Ptr, index: nat)
    requires Wired(h) && Wired(h') && NoDead(h) && NoDead(h') && p in h
  {
    && (forall q :: q in h ==> q in h' && h'[q].shift == h[q].shift)
    && (forall q :: q in h && q != p && h[q].shift >= h[p].shift ==> h'[q] == h[q])
    && h'[p].refCount == h[p].refCount
    && (forall q :: q in h && h[q].shift <= h[p].shift && q !in ExclusivePath(h, p, index) ==>
          SameContents(h, h', q))
  }

  /** A failed insert changes no cell of any node; a successful one changes one index of p. */
  ghost predicate InsertEffect(h: Heap, h': Heap, p: Ptr, index: nat, value: Ptr, ok: bool)
    requires Wired(h) && Wired(h') && NoDead(h) && NoDead(h') && p in h && InsertFrame(h, h', p, index)
  {
    if ok then Inserted(h, p, h', p, index, value)
    else forall q :: q in h ==> h'[q].data == h[q].data
  }

  /** The full effect of an insert, on consistent memory. */
  ghost predicate InsertDone(h: Heap, edges: set<Edge>, h': Heap, edges': set<Edge>, roots: multiset<Ptr>,
                             p: Ptr, index: nat, value: Ptr, ok: bool)
  {
    && Consistent(h, edges, roots) && NoDead(h) && Wired(h)
    && Consistent(h', edges', roots) && NoDead(h') && Wired(h')
    && p in h && InsertFrame(h, h', p, index) && InsertEffect(h, h', p, index, value, ok)
    && edges <= edges'
  }

  lemma SameCellsKeepAll(h: Heap, h': Heap)
    requires Wired(h) && Wired(h') && NoDead(h) && NoDead(h')
    requires forall q :: q in h ==> q in h' && h'[q].shift == h[q].shift && h'[q].data == h[q].data
    ensures forall q :: q in h ==> SameContents(h, h', q)
  {
    forall q | q in h
      ensures SameContents(h, h', q)
    {
      SameCellsSameContents(h, h', q);
    }
  }

  lemma InsertNothing(h: Heap, edges: set<Edge>, roots: multiset<Ptr>, p: Ptr, index: nat, value: Ptr)
    requires Consistent(h, edges, roots) && NoDead(h) && p in h
    ensures InsertDone(h, edges, h, edges, roots, p, index, value, false)
  {
    ConsistentIsWired(h, edges, roots);
  }

  lemma InsertLeaf(h: Heap, edges: set<Edge>, roots: multiset<Ptr>, p: Ptr, index: nat, value: Ptr)
    requires Consistent(h, edges, roots) && NoDead(h) && p in h && !IsEmptyChild(p) && h[p].shift == 0
    ensures |h[p].data| == 256
    ensures InsertDone(h, edges, h[p := h[p].(data := h[p].data[Digit(index, 0) := value])], edges, roots,
                       p, index, value, true)
  {
    hide Consistent, Digit, Lookup, ExclusivePath, SameContents, Wired, StaticsIntact;
    Shape(h, edges, roots, p);
    var h' := h[p := h[p].(data := h[p].data[Digit(index, 0) := value])];
    ConsistentIsWired(h, edges, roots);
    LeafWriteKeeps(h, edges, roots, p, Digit(index, 0), value);
    ConsistentIsWired(h', edges, roots);
    LeafFrame(h, p, h', index);
    LeafWriteInserts(h, p, h', index, value);
  }

  lemma LeafFrame(h: Heap, p: Ptr, h': Heap, index: nat)
    requires Wired(h) && Wired(h') && NoDead(h) && NoDead(h') && p in h && h[p].shift == 0
    requires p in h' && h' == h[p := h[p].(data := h'[p].data)]
    ensures InsertFrame(h, h', p, index)
  {
    assert p in ExclusivePath(h, p, index);
    forall q | q in h && h[q].shift == 0 && q != p
      ensures SameContents(h, h', q)
    {
    }
  }

  /** Inserting into a child that only p holds is inserting into p. */
  lemma InsertDescends(h: Heap, edges: set<Edge>, h': Heap, edges': set<Edge>, roots: multiset<Ptr>,
                       p: Ptr, c: Ptr, index: nat, value: Ptr, ok: bool)
    requires p in h && !IsEmptyChild(p) && h[p].shift > 0 && |h[p].data| == 256
    requires c == h[p].data[Digit(index, h[p].shift)] && !IsEmptyChild(c)
    requires InsertDone(h, edges, h', edges', roots, c, index, value, ok)
    requires h[c].refCount == 1 && h[c].shift == h[p].shift - 8
    ensures InsertDone(h, edges, h', edges', roots, p, index, value, ok)
  {
    var d := Digit(index, h[p].shift);
    assert (p, d) in edges;
    SoleHolder(h, edges, roots, (p, d), c);
    assert h'[p] == h[p];
    forall q, i: nat | q in h && h[q].shift == h[p].shift && i < 256 && (q != p || i != d)
      ensures GoodCell(h, q, i) && GoodCell(h', q, i) && SameContents(h, h', h[q].data[i])
    {
      DescendSpares(h, edges, h', roots, p, c, index, q, i);
    }
    forall q | q in h && h[q].shift <= h[p].shift && q !in ExclusivePath(h, p, index)
      ensures SameContents(h, h', q)
    {
      assert GoodCell(h, p, d);
      if h[q].shift == h[p].shift {
        SameChildrenSameContents(h, h', q);
      }
    }
    if ok {
      assert GoodCell(h, p, d) && GoodCell(h', p, d);
      ParentInserts(h, p, h', c, index, value);
    }
  }

  lemma DescendSpares(h: Heap, edges: set<Edge>, h': Heap, roots: multiset<Ptr>, p: Ptr, c: Ptr, index: nat, q: Ptr, i: nat)
    requires Consistent(h, edges, roots) && NoDead(h) && Wired(h) && NoDead(h') && Wired(h')
    requires p in h && c in h && !IsEmptyChild(c) && h[p].shift > 0 && h[c].shift == h[p].shift - 8
    requires InsertFrame(h, h', c, index)
    requires c == h[p].data[Digit(index, h[p].shift)]
    requires forall f :: f in edges && h[f.0].data[f.1] == c ==> f == (p, Digit(index, h[p].shift))
    requires q in h && h[q].shift == h[p].shift && i < 256 && (q != p || i != Digit(index, h[p].shift))
    ensures GoodCell(h, q, i) && GoodCell(h', q, i) && SameContents(h, h', h[q].data[i])
  {
    assert GoodCell(h, q, i);
    assert GoodCell(h', q, i);
    if IsEmptyChild(q) {
      EmptyNodesHoldEmptyNodes(h, q, i);
    } else {
      assert (q, i) in edges;
    }
    var x := h[q].data[i];
    assert x != c;
    assert x !in ExclusivePath(h, c, index);
  }

  /** A node r has been prepared to replace the child in cell d of p. */
  ghost predicate Prepared(h: Heap, edges: set<Edge>, h': Heap, edges': set<Edge>, roots: multiset<Ptr>,
                           p: Ptr, r: Ptr, index: nat)
  {
    && Consistent(h, edges, roots) && NoDead(h) && Wired(h)
    && Consistent(h', edges', roots + multiset{r}) && NoDead(h') && Wired(h')
    && p in h && !IsEmptyChild(p) && h[p].shift > 0
    && r !in h && r in h' && !IsEmptyChild(r) && h'[r].shift == h[p].shift - 8 && h'[r].refCount == 1
    && (forall q :: q in h ==> q in h' && h'[q].shift == h[q].shift && h'[q].data == h[q].data)
    && (forall q :: q in h && h[q].shift >= h[p].shift - 8 ==> h'[q] == h[q])
    && edges <= edges'
    && ExclusivePath(h', r, index) == {r}
    && GoodCell(h, p, Digit(index, h[p].shift))
    && (forall j: nat :: Lookup(h', r, j) == Lookup(h, h[p].data[Digit(index, h[p].shift)], j))
  }

  lemma {:induction false} EmptyNodeIsNull(h: Heap, s: Shift, j: nat)
    requires StaticsIntact(h) && Wired(h)
    ensures Lookup(h, EmptyNode(s), j) == NULL
    decreases s
  {
    if s > 0 {
      EmptyNodeIsNull(h, s - 8, j);
    }
  }

  lemma FreshNodeIsNull(h: Heap, p: Ptr, j: nat)
    requires StaticsIntact(h) && Wired(h) && Live(h, p) && h[p].data == InitialData(h[p].shift)
    ensures Lookup(h, p, j) == NULL
  {
    if h[p].shift > 0 {
      EmptyNodeIsNull(h, h[p].shift - 8, j);
    }
  }

  lemma FreshIsPrepared(h: Heap, edges: set<Edge>, roots: multiset<Ptr>, p: Ptr, r: Ptr, index: nat)
    requires Consistent(h, edges, roots) && NoDead(h) && p in h && !IsEmptyChild(p) && h[p].shift > 0
    requires |h[p].data| == 256 && IsEmptyChild(h[p].data[Digit(index, h[p].shift)])
    requires r !in h && r != NULL
    ensures
      var s := h[p].shift - 8;
      Prepared(h, edges, h[r := Node(s, 1, InitialData(s))], edges + CellsOf(r, s), roots, p, r, index)
  {
    hide Consistent, Digit, StaticsIntact, Wired, NoDead, InitialData, Lookup, ExclusivePath, CellsOf, IsEmptyChild;
    var s := h[p].shift - 8;
    var h' := h[r := Node(s, 1, InitialData(s))];
    FreshNodeSound(h, edges, roots, r, s);
    var d := Digit(index, h[p].shift);
    GoodChild(h, p, d);
    EmptyCellReads(h, h', p, r, d);
    FreshPath(h', r, index);
  }

  lemma FreshPath(h: Heap, r: Ptr, index: nat)
    requires Wired(h) && Live(h, r) && h[r].data == InitialData(h[r].shift)
    ensures ExclusivePath(h, r, index) == {r}
  {
  }

  lemma GoodChild(h: Heap, q: Ptr, i: nat)
    requires Wired(h) && Live(h, q) && h[q].shift > 0 && i < 256
    ensures |h[q].data| == 256 && GoodCell(h, q, i)
  {
    assert GoodCell(h, q, i);
  }

  lemma FreshNodeSound(h: Heap, edges: set<Edge>, roots: multiset<Ptr>, r: Ptr, s: Shift)
    requires Consistent(h, edges, roots) && NoDead(h) && r !in h && r != NULL
    ensures
      var h' := h[r := Node(s, 1, InitialData(s))];
      && Consistent(h', edges + CellsOf(r, s), roots + multiset{r}) && NoDead(h') && Wired(h) && Wired(h')
      && StaticsIntact(h) && StaticsIntact(h') && !IsEmptyChild(r) && Live(h', r)
  {
    var h' := h[r := Node(s, 1, InitialData(s))];
    FreshNodeKeeps(h, edges, roots, r, s);
    NotEmptyNode(h, r);
    ConsistentIsWired(h, edges, roots);
    ConsistentIsWired(h', edges + CellsOf(r, s), roots + multiset{r});
  }

  /** A fresh node reads like the shared empty node it replaces. */
  lemma EmptyCellReads(h: Heap, h': Heap, p: Ptr, r: Ptr, d: nat)
    requires Wired(h) && Wired(h') && StaticsIntact(h) && StaticsIntact(h') && Live(h, p) && Live(h', r)
    requires h[p].shift > 0 && d < 256 && IsEmptyChild(h[p].data[d])
    requires h'[r].shift == h[p].shift - 8 && h'[r].data == InitialData(h'[r].shift)
    ensures GoodCell(h, p, d) && forall j: nat :: Lookup(h', r, j) == Lookup(h, h[p].data[d], j)
  {
    assert GoodCell(h, p, d);
    var c, s := h[p].data[d], h[p].shift - 8;
    assert c == EmptyNode(0) || c == EmptyNode(8) || c == EmptyNode(16) || c == EmptyNode(24);
    assert c == EmptyNode(s);
    forall j: nat
      ensures Lookup(h', r, j) == Lookup(h, c, j)
    {
      FreshNodeIsNull(h', r, j);
      EmptyNodeIsNull(h, s, j);
    }
  }

  /** Below a copy every node is held at least twice. */
  lemma CopyIsNotExclusive(h: Heap, edges: set<Edge>, roots: multiset<Ptr>, c: Ptr, r: Ptr, index: nat)
    requires Consistent(h, edges, roots) && Wired(h) && c in h && r in h && c != r
    requires !IsEmptyChild(c) && !IsEmptyChild(r) && h[c].refCount > 0 && h[r].refCount > 0
    requires h[r].data == h[c].data && h[r].shift == h[c].shift
    ensures ExclusivePath(h, r, index) == {r}
  {
    if h[r].shift > 0 {
      var d := Digit(index, h[r].shift);
      assert GoodCell(h, r, d);
      var x := h[r].data[d];
      assert (r, d) in edges && (c, d) in edges;
      if !IsEmptyChild(x) && h[x].refCount == 1 {
        SoleHolder(h, edges, roots, (r, d), x);
      }
    }
  }

  lemma CopyIsPrepared(h: Heap, edges: set<Edge>, h': Heap, edges': set<Edge>, roots: multiset<Ptr>,
                       p: Ptr, c: Ptr, r: Ptr, index: nat)
    requires Consistent(h, edges, roots) && NoDead(h) && p in h && !IsEmptyChild(p) && h[p].shift > 0
    requires |h[p].data| == 256 && c == h[p].data[Digit(index, h[p].shift)] && !IsEmptyChild(c) && c in h
    requires r !in h && Shared(h, h', r) && h'[r] == h[c].(refCount := 1)
    requires edges <= edges' && Consistent(h', edges', roots + multiset{r})
    ensures Prepared(h, edges, h', edges', roots, p, r, index)
  {
    ConsistentIsWired(h, edges, roots);
    ConsistentIsWired(h', edges', roots + multiset{r});
    NotEmptyNode(h, r);
    assert GoodCell(h, p, Digit(index, h[p].shift));
    SameCellsKeepAll(h, h');
    CopyIsNotExclusive(h', edges', roots + multiset{r}, c, r, index);
    CopyHasSameContents(h, h', c, r);
  }

  lemma CopyHasSameContents(h: Heap, h': Heap, c: Ptr, r: Ptr)
    requires Wired(h) && Wired(h') && NoDead(h) && NoDead(h')
    requires c in h && c in h' && r in h' && h'[r].data == h[c].data && h'[r].shift == h[c].shift
    requires forall q :: q in h ==> q in h' && SameContents(h, h', q)
    ensures forall j: nat :: Lookup(h', r, j) == Lookup(h, c, j)
  {
    forall j: nat
      ensures Lookup(h', r, j) == Lookup(h, c, j)
    {
      if h[c].shift > 0 {
        var d := Digit(j, h[c].shift);
        assert GoodCell(h, c, d) && GoodCell(h', r, d);
        assert SameContents(h, h', h[c].data[d]);
      }
    }
  }

  /** A lazy copy c of p has p's contents and changes those of no other node. */
  lemma CopyIsIsolated(h: Heap, edges: set<Edge>, roots: multiset<Ptr>, h': Heap, edges': set<Edge>, roots': multiset<Ptr>, p: Ptr, c: Ptr)
    requires Consistent(h, edges, roots) && NoDead(h) && Consistent(h', edges', roots') && p in h
    requires c !in h && Shared(h, h', c) && h'[c] == h[p].(refCount := 1)
    ensures Wired(h) && Wired(h') && NoDead(h')
    ensures forall q :: q in h ==> q in h' && SameContents(h, h', q)
    ensures forall j: nat :: Lookup(h', c, j) == Lookup(h, p, j)
  {
    ConsistentIsWired(h, edges, roots);
    ConsistentIsWired(h', edges', roots');
    assert NoDead(h') by {
      NotEmptyNode(h, c);
    }
    hide Consistent, Wired, Lookup, NoDead, SameContents;
    SameCellsKeepAll(h, h');
    CopyHasSameContents(h, h', p, c);
  }

  /** Nodes below p's level do not see a write to p's cells or a change of counts. */
  lemma {:induction false} LowerKeepContents(h: Heap, h': Heap, level: Shift, q: Ptr)
    requires Wired(h) && Wired(h') && Live(h, q) && h[q].shift < level
    requires forall x :: Live(h, x) && h[x].shift < level ==> Live(h', x) && h'[x].shift == h[x].shift && h'[x].data == h[x].data
    ensures SameContents(h, h', q)
    decreases h[q].shift
  {
    if h[q].shift > 0 {
      forall i: nat | i < 256
        ensures GoodCell(h, q, i) && GoodCell(h', q, i) && SameContents(h, h', h[q].data[i])
      {
        assert GoodCell(h, q, i) && GoodCell(h', q, i);
        LowerKeepContents(h, h', level, h[q].data[i]);
      }
      SameChildrenSameContents(h, h', q);
    }
  }

  /** A replacement that could not be filled is released again. */
  lemma InsertUndone(h: Heap, edges: set<Edge>, hc: Heap, ec: set<Edge>, hr: Heap, er: set<Edge>,
                     h': Heap, edges': set<Edge>, roots: multiset<Ptr>, p: Ptr, r: Ptr, index: nat, value: Ptr)
    requires Prepared(h, edges, hc, ec, roots, p, r, index)
    requires InsertDone(hc, ec, hr, er, roots + multiset{r}, r, index, value, false)
    requires Released(hr, er, h', edges', r) && Consistent(h', edges', roots)
    ensures InsertDone(h, edges, h', edges', roots, p, index, value, false)
  {
    assert NoDead(h');
    ConsistentIsWired(h', edges', roots);
    forall q | q in h
      ensures q in h' && h'[q].shift == h[q].shift && h'[q].data == h[q].data
    {
      HeldNodesSurvive(h, edges, roots, h', edges', roots, q);
    }
    forall q | q in h && h[q].shift >= h[p].shift
      ensures h'[q] == h[q]
    {
      assert hr[q] == hc[q];
    }
    SameCellsKeepAll(h, h');
  }

  lemma PublishedContents(h: Heap, edges: set<Edge>, hc: Heap, ec: set<Edge>, hr: Heap, er: set<Edge>,
                          h': Heap, roots: multiset<Ptr>, p: Ptr, r: Ptr, index: nat, value: Ptr, q: Ptr)
    requires Prepared(h, edges, hc, ec, roots, p, r, index)
    requires InsertDone(hc, ec, hr, er, roots + multiset{r}, r, index, value, true)
    requires Wired(h') && NoDead(h') && hr.Keys == h'.Keys
    requires forall x :: x in hr && x != p ==> h'[x].shift == hr[x].shift && h'[x].data == hr[x].data
    requires q in h && h[q].shift < h[p].shift
    ensures SameContents(h, h', q)
  {
    SameCellsKeepAll(h, hc);
    assert SameContents(h, hc, q);
    assert SameContents(hc, hr, q);
    assert hr[p] == hc[p];
    LowerKeepContents(hr, h', h[p].shift, q);
  }

  /** An unchanged node whose lower levels read the same reads the same. */
  lemma LevelKept(h: Heap, h': Heap, q: Ptr)
    requires Wired(h) && Wired(h') && NoDead(h) && NoDead(h') && q in h && q in h' && h[q] == h'[q] && h[q].shift > 0
    requires forall x :: x in h && h[x].shift < h[q].shift ==> x in h' && SameContents(h, h', x)
    ensures SameContents(h, h', q)
  {
    forall i: nat | i < 256
      ensures GoodCell(h, q, i) && GoodCell(h', q, i) && SameContents(h, h', h[q].data[i])
    {
      assert GoodCell(h, q, i) && GoodCell(h', q, i);
    }
    SameChildrenSameContents(h, h', q);
  }

  /** The filled replacement is stored in p's cell and the old child loses p's reference. */
  lemma InsertPublished(h: Heap, edges: set<Edge>, hc: Heap, ec: set<Edge>, hr: Heap, er: set<Edge>,
                        h': Heap, roots: multiset<Ptr>, p: Ptr, r: Ptr, index: nat, value: Ptr)
    requires Prepared(h, edges, hc, ec, roots, p, r, index)
    requires InsertDone(hc, ec, hr, er, roots + multiset{r}, r, index, value, true)
    requires Consistent(h', er, roots) && p in hr && hr[p] == h[p] && |hr[p].data| == 256
    requires PublishedCells(hr, h', p, Digit(index, h[p].shift), r)
    ensures InsertDone(h, edges, h', er, roots, p, index, value, true)
  {
    hide Consistent, Lookup, SameContents, Inserted;
    ConsistentIsWired(h', er, roots);
    assert hr[p] == hc[p] == h[p];
    assert forall q :: q in h && h[q].shift >= h[p].shift && q != p ==> h'[q] == hr[q] == hc[q] == h[q];
    forall q | q in h && h[q].shift < h[p].shift
      ensures SameContents(h, h', q)
    {
      PublishedContents(h, edges, hc, ec, hr, er, h', roots, p, r, index, value, q);
    }
    forall q | q in h && h[q].shift == h[p].shift && q != p
      ensures SameContents(h, h', q)
    {
      LevelKept(h, h', q);
    }
    PublishedInserts(h, edges, hc, ec, hr, er, h', roots, p, r, index, value);
  }

  /** With the filled replacement r in its cell, p reads the new value at the index. */
  lemma PublishedInserts(h: Heap, edges: set<Edge>, hc: Heap, ec: set<Edge>, hr: Heap, er: set<Edge>,
                         h': Heap, roots: multiset<Ptr>, p: Ptr, r: Ptr, index: nat, value: Ptr)
    requires Prepared(h, edges, hc, ec, roots, p, r, index)
    requires InsertDone(hc, ec, hr, er, roots + multiset{r}, r, index, value, true)
    requires Wired(h') && p in hr && hr[p] == h[p] && |hr[p].data| == 256
    requires PublishedCells(hr, h', p, Digit(index, h[p].shift), r)
    requires forall q :: q in h && h[q].shift < h[p].shift ==> q in h' && SameContents(h, h', q)
    ensures Inserted(h, p, h', p, index, value)
  {
    hide Consistent;
    var d := Digit(index, h[p].shift);
    forall i: nat | i < 256 && i != d
      ensures GoodCell(h, p, i) && GoodCell(h', p, i) && SameContents(h, h', h[p].data[i])
    {
      assert GoodCell(h, p, i) && GoodCell(h', p, i);
    }
    assert GoodCell(h', p, d);
    LowerKeepContents(hr, h', h[p].shift, r);
    ParentInserts(h, p, h', r, index, value);
  }

  lemma InsertDoneIsValid(h: Heap, edges: set<Edge>, h': Heap, edges': set<Edge>, roots: multiset<Ptr>,
                          p: Ptr, index: nat, value: Ptr, ok: bool)
    requires InsertDone(h, edges, h', edges', roots, p, index, value, ok)
    ensures Consistent(h', edges', roots) && NoDead(h')
  {
  }

  lemma PreparedIsValid(h: Heap, edges: set<Edge>, h': Heap, edges': set<Edge>, roots: multiset<Ptr>,
                        p: Ptr, r: Ptr, index: nat)
    requires Prepared(h, edges, h', edges', roots, p, r, index)
    ensures Consistent(h', edges', roots + multiset{r}) && NoDead(h')
    ensures r in h' && !IsEmptyChild(r) && h'[r].refCount == 1 && h'[r].shift < h[p].shift
  {
  }

  lemma ChildShape(h: Heap, edges: set<Edge>, roots: multiset<Ptr>, p: Ptr, i: nat)
    requires Consistent(h, edges, roots) && NoDead(h) && p in h && !IsEmptyChild(p) && h[p].shift > 0 && i < 256
    ensures |h[p].data| == 256
    ensures h[p].data[i] in h && h[h[p].data[i]].shift == h[p].shift - 8 && h[p].data[i] != NULL
    ensures Live(h, h[p].data[i])
  {
    ConsistentIsWired(h, edges, roots);
    assert GoodCell(h, p, i);
  }

  /** The memory in which the filled replacement r is about to be stored in p's cell. */
  lemma PublishSteps(h: Heap, edges: set<Edge>, hc: Heap, ec: set<Edge>, hr: Heap, er: set<Edge>,
                     roots: multiset<Ptr>, p: Ptr, r: Ptr, index: nat, value: Ptr)
    requires Prepared(h, edges, hc, ec, roots, p, r, index)
    requires InsertDone(hc, ec, hr, er, roots + multiset{r}, r, index, value, true)
    ensures p in hr && hr[p] == h[p] && |h[p].data| == 256
    ensures
      var d := Digit(index, h[p].shift);
      && h[p].data[d] != NULL && h[p].data[d] in hr && hr[h[p].data[d]] == h[h[p].data[d]]
      && Consistent(hr[p := hr[p].(data := hr[p].data[d := r])], er,
                    roots + Handle(h[p].data[d]))
  {
    var d := Digit(index, h[p].shift);
    assert GoodCell(h, p, d);
    assert hr[p] == hc[p] == h[p];
    assert roots + multiset{r} - multiset{r} == roots;
    PublishKeeps(hr, er, roots + multiset{r}, p, d, r);
  }

  /** Storing r and dropping one reference to the old child changes p's cells and one count. */
  ghost predicate PublishedCells(hr: Heap, h': Heap, p: Ptr, i: nat, r: Ptr)
    requires p in hr && i < |hr[p].data|
  {
    && hr.Keys == h'.Keys && NoDead(h')
    && h'[p] == hr[p].(data := hr[p].data[i := r])
    && forall x :: x in hr && x != p ==>
         h'[x].shift == hr[x].shift && h'[x].data == hr[x].data && (hr[x].shift >= hr[p].shift ==> h'[x] == hr[x])
  }

  lemma PublishReleases(hr: Heap, er: set<Edge>, h': Heap, edges': set<Edge>, p: Ptr, i: nat, r: Ptr, child: Ptr)
    requires p in hr && NoDead(hr) && i < |hr[p].data| && child in hr && child != p && child != NULL
    requires hr[child].shift < hr[p].shift && forall e :: e in er ==> e.0 in hr
    requires
      var hp := hr[p := hr[p].(data := hr[p].data[i := r])];
      if IsEmptyChild(child) then h' == hp && edges' == er
      else hr[child].refCount > 1 && Released(hp, er, h', edges', child)
    ensures PublishedCells(hr, h', p, i, r) && edges' == er
  {
  }

  lemma PublishEnds(h: Heap, edges: set<Edge>, hc: Heap, ec: set<Edge>, hr: Heap, er: set<Edge>,
                    h': Heap, edges': set<Edge>, roots: multiset<Ptr>, p: Ptr, r: Ptr, index: nat, value: Ptr)
    requires Prepared(h, edges, hc, ec, roots, p, r, index)
    requires InsertDone(hc, ec, hr, er, roots + multiset{r}, r, index, value, true)
    requires p in hr && hr[p] == h[p] && |h[p].data| == 256
    requires Consistent(h', edges', roots)
    requires
      var i := Digit(index, h[p].shift);
      var child, hp := h[p].data[i], hr[p := hr[p].(data := hr[p].data[i := r])];
      if IsEmptyChild(child) then h' == hp && edges' == er
      else child in h && h[child].refCount > 1 && Released(hp, er, h', edges', child)
    ensures InsertDone(h, edges, h', edges', roots, p, index, value, true)
  {
    var i := Digit(index, h[p].shift);
    PublishSteps(h, edges, hc, ec, hr, er, roots, p, r, index, value);
    assert h[p].data[i] != p && h[p].data[i] != NULL && h[h[p].data[i]].shift < h[p].shift by {
      assert GoodCell(h, p, i);
    }
    assert NoDead(hr) && forall e :: e in er ==> e.0 in hr;
    hide *;
    PublishReleases(hr, er, h', edges', p, i, r, h[p].data[i]);
    InsertPublished(h, edges, hc, ec, hr, er, h', roots, p, r, index, value);
  }

  /** The whole of an insert into an array that a handle holds: no other array changes. */
  lemma InsertIsIsolated(h: Heap, edges: set<Edge>, h': Heap, edges': set<Edge>, roots: multiset<Ptr>,
                         p: Ptr, index: nat, value: Ptr, ok: bool, q: Ptr)
    requires InsertDone(h, edges, h', edges', roots, p, index, value, ok)
    requires p in roots && Sole(h, roots) && q in roots && q != p
    ensures q in h && q in h' && SameContents(h, h', q)
  {
    if h[q].shift <= h[p].shift {
      ExclusivePathHasNoRoots(h, edges, roots, p, index);
    } else {
      assert |Holders(h, edges, p)| == 0;
      forall e | e in edges
        ensures h[e.0].data[e.1] != p
      {
        assert e !in Holders(h, edges, p);
      }
      forall x | x in h && h[x].shift == h[p].shift && x != p
        ensures SameContents(h, h', x)
      {
        assert x !in ExclusivePath(h, p, index);
      }
      HigherKeepContents(h, edges, roots, h', p, q);
    }
  }

  // ---------------------------------------------------------------------------
  // Handles stay the only holders of their arrays
  // ---------------------------------------------------------------------------

  /** Each handle is the only reference to its array: the invariant between operations. */
  ghost predicate Sole(h: Heap, roots: multiset<Ptr>) {
    forall p :: p in roots ==> p in h && h[p].refCount == 1
  }

  /** No counted cell points at q. */
  ghost predicate Unheld(h: Heap, edges: set<Edge>, q: Ptr) {
    forall e :: e in edges && e.0 in h && e.1 < |h[e.0].data| ==> h[e.0].data[e.1] != q
  }

  /** A node that no cell pointed at is still pointed at by none. */
  ghost predicate UnheldKept(h: Heap, edges: set<Edge>, h': Heap, edges': set<Edge>) {
    forall q :: q in h && !IsEmptyChild(q) && Unheld(h, edges, q) ==> Unheld(h', edges', q)
  }

  lemma UnheldComposes(h: Heap, e: set<Edge>, h1: Heap, e1: set<Edge>, h2: Heap, e2: set<Edge>)
    requires UnheldKept(h, e, h1, e1) && UnheldKept(h1, e1, h2, e2) && h.Keys <= h1.Keys
    ensures UnheldKept(h, e, h2, e2)
  {
  }

  /** A node counted once that a handle holds is pointed at by no cell, and conversely. */
  lemma SoleIsUnheld(h: Heap, edges: set<Edge>, roots: multiset<Ptr>, q: Ptr)
    requires Consistent(h, edges, roots) && q in roots
    ensures q in h && !IsEmptyChild(q)
    ensures h[q].refCount == 1 <==> Unheld(h, edges, q) && roots[q] == 1
  {
    if Unheld(h, edges, q) {
      assert Holders(h, edges, q) == {};
    } else {
      var e :| e in edges && e.0 in h && e.1 < |h[e.0].data| && h[e.0].data[e.1] == q;
      assert e in Holders(h, edges, q);
    }
    if h[q].refCount == 1 {
      assert |Holders(h, edges, q)| == 0;
      forall e | e in edges && e.0 in h && e.1 < |h[e.0].data|
        ensures h[e.0].data[e.1] != q
      {
        assert e !in Holders(h, edges, q);
      }
    }
  }

  /** So a step that brings no new cell to point at a handle's array keeps the handle alone. */
  lemma HandleStaysSole(h: Heap, edges: set<Edge>, roots: multiset<Ptr>, h': Heap, edges': set<Edge>, roots': multiset<Ptr>, q: Ptr)
    requires Consistent(h, edges, roots) && Consistent(h', edges', roots') && UnheldKept(h, edges, h', edges')
    requires q in roots && h[q].refCount == 1 && q in roots' && roots'[q] <= roots[q]
    ensures q in h' && h'[q].refCount == 1
  {
    hide Consistent;
    SoleIsUnheld(h, edges, roots, q);
    SoleIsUnheld(h', edges', roots', q);
  }

  /** After a step with the same handles, or one more that is alone. */
  lemma SoleKept(h: Heap, edges: set<Edge>, roots: multiset<Ptr>, h': Heap, edges': set<Edge>, roots': multiset<Ptr>, added: Ptr)
    requires Consistent(h, edges, roots) && Consistent(h', edges', roots') && UnheldKept(h, edges, h', edges') && Sole(h, roots)
    requires roots' == roots || (roots' == roots + multiset{added} && added !in h && added in h' && h'[added].refCount == 1)
    ensures Sole(h', roots')
  {
    hide Consistent, UnheldKept;
    forall q | q in roots'
      ensures q in h' && h'[q].refCount == 1
    {
      if q in roots {
        HandleStaysSole(h, edges, roots, h', edges', roots', q);
      }
    }
  }

  lemma FreshUnheld(h: Heap, edges: set<Edge>, r: Ptr, s: Shift)
    requires EdgesIn(h, edges) && r !in h
    ensures UnheldKept(h, edges, h[r := Node(s, 1, InitialData(s))], edges + CellsOf(r, s))
  {
    var h', edges' := h[r := Node(s, 1, InitialData(s))], edges + CellsOf(r, s);
    forall q, e | q in h && !IsEmptyChild(q) && Unheld(h, edges, q) && e in edges' && e.0 in h' && e.1 < |h'[e.0].data|
      ensures h'[e.0].data[e.1] != q
    {
    }
  }

  lemma CopyUnheld(h: Heap, edges: set<Edge>, roots: multiset<Ptr>, h': Heap, edges': set<Edge>, p: Ptr, c: Ptr)
    requires Consistent(h, edges, roots) && Live(h, p) && c !in h && Shared(h, h', c) && h'[c] == h[p].(refCount := 1)
    requires edges' == edges + if h'[c].shift > 0 then FirstCells(c, 256) else {}
    ensures UnheldKept(h, edges, h', edges')
  {
    forall q, e | q in h && !IsEmptyChild(q) && Unheld(h, edges, q) && e in edges' && e.0 in h' && e.1 < |h'[e.0].data|
      ensures h'[e.0].data[e.1] != q
    {
      if e !in edges {
        if IsEmptyChild(p) {
          EmptyNodesHoldEmptyNodes(h, p, e.1);
        } else {
          assert (p, e.1) in edges;
        }
      }
    }
  }

  lemma ReleasedUnheld(h: Heap, edges: set<Edge>, h': Heap, edges': set<Edge>, p: Ptr)
    requires Released(h, edges, h', edges', p)
    ensures UnheldKept(h, edges, h', edges')
  {
    forall q, e | q in h && Unheld(h, edges, q) && e in edges' && e.0 in h' && e.1 < |h'[e.0].data|
      ensures h'[e.0].data[e.1] != q
    {
    }
  }

  lemma LeafUnheld(h: Heap, edges: set<Edge>, p: Ptr, data: seq<Ptr>)
    requires EdgesIn(h, edges) && p in h && h[p].shift == 0
    ensures UnheldKept(h, edges, h[p := h[p].(data := data)], edges)
  {
    var h' := h[p := h[p].(data := data)];
    forall q, e | Unheld(h, edges, q) && e in edges && e.0 in h' && e.1 < |h'[e.0].data|
      ensures h'[e.0].data[e.1] != q
    {
    }
  }

  /** Storing r in a cell of p: only r itself gets a holder. */
  lemma StoreUnheld(h: Heap, edges: set<Edge>, p: Ptr, i: nat, r: Ptr, q: Ptr)
    requires p in h && i < |h[p].data| && q != r && Unheld(h, edges, q)
    ensures Unheld(h[p := h[p].(data := h[p].data[i := r])], edges, q)
  {
  }

  /** The whole of a published insert: prepared, filled, stored, old child released. */
  lemma PublishUnheld(h: Heap, es: set<Edge>, hc: Heap, ec: set<Edge>, hr: Heap, er: set<Edge>, h': Heap, edges': set<Edge>,
                      p: Ptr, i: nat, r: Ptr)
    requires UnheldKept(h, es, hc, ec) && UnheldKept(hc, ec, hr, er) && h.Keys <= hc.Keys <= hr.Keys && r !in h
    requires p in hr && i < |hr[p].data| && UnheldKept(hr[p := hr[p].(data := hr[p].data[i := r])], er, h', edges')
    ensures UnheldKept(h, es, h', edges')
  {
    hide Unheld;
    forall q | q in h && !IsEmptyChild(q) && Unheld(h, es, q)
      ensures Unheld(h', edges', q)
    {
      StoreUnheld(hr, er, p, i, r, q);
    }
  }

  lemma InsertKeepsNodes(h: Heap, edges: set<Edge>, h': Heap, edges': set<Edge>, roots: multiset<Ptr>, p: Ptr, index: nat, value: Ptr, ok: bool)
    requires InsertDone(h, edges, h', edges', roots, p, index, value, ok)
    ensures h.Keys <= h'.Keys
  {
  }

  lemma PreparedKeepsNodes(h: Heap, edges: set<Edge>, h': Heap, edges': set<Edge>, roots: multiset<Ptr>, p: Ptr, r: Ptr, index: nat)
    requires Prepared(h, edges, h', edges', roots, p, r, index)
    ensures h.Keys <= h'.Keys && r !in h
  {
  }

  /** Every array that a handle other than p holds reads the same in both memories. */
  ghost predicate OthersKept(h: Heap, h': Heap, roots: multiset<Ptr>, p: Ptr) {
    && Wired(h) && Wired(h')
    && forall q :: q in roots && q != p ==> Live(h, q) && Live(h', q) && SameContents(h, h', q)
  }

  lemma InsertKeepsOthers(h: Heap, edges: set<Edge>, h': Heap, edges': set<Edge>, roots: multiset<Ptr>, p: Ptr, index: nat, value: Ptr, ok: bool)
    requires InsertDone(h, edges, h', edges', roots, p, index, value, ok) && p in roots && Sole(h, roots)
    ensures OthersKept(h, h', roots, p)
  {
    forall q | q in roots && q != p
      ensures q in h && q in h' && SameContents(h, h', q)
    {
      InsertIsIsolated(h, edges, h', edges', roots, p, index, value, ok, q);
    }
  }

  lemma DestroyKeepsSole(h: Heap, edges: set<Edge>, roots: multiset<Ptr>, h': Heap, edges': set<Edge>, roots': multiset<Ptr>, p: Ptr)
    requires Consistent(h, edges, roots) && Consistent(h', edges', roots') && Released(h, edges, h', edges', p) && roots' <= roots
    ensures Sole(h, roots) ==> Sole(h', roots')
  {
    ReleasedUnheld(h, edges, h', edges', p);
    hide Consistent, Released, UnheldKept;
    if Sole(h, roots) {
      forall q | q in roots'
        ensures q in h' && h'[q].refCount == 1
      {
        assert q in roots;
        HandleStaysSole(h, edges, roots, h', edges', roots', q);
      }
    }
  }

  // ---------------------------------------------------------------------------
  // Expansion
  // ---------------------------------------------------------------------------

  function ExpandedNode(shift: Shift, root: Ptr): Node
    requires shift > 0
  {
    Node(shift, 1, InitialData(shift)[0 := root])
  }

  lemma HoldersAfterExpand(h: Heap, edges: set<Edge>, p: Ptr, e: Ptr, h': Heap, q: Ptr)
    requires EdgesIn(h, edges) && e !in h && EdgesIn(h', edges + FirstCells(e, 256))
    requires forall x :: x in h ==> x in h' && h'[x] == h[x]
    requires e in h' && h'[e].data[0] == p && forall i: nat :: 0 < i < 256 ==> IsEmptyChild(h'[e].data[i])
    requires !IsEmptyChild(q)
    ensures (e, 0) !in Holders(h, edges, q)
    ensures Holders(h', edges + FirstCells(e, 256), q) ==
            if q == p then Holders(h, edges, q) + {(e, 0)} else Holders(h, edges, q)
  {
    assert (e, 0) in FirstCells(e, 256);
  }

  lemma ExpandShape(h: Heap, edges: set<Edge>, roots: multiset<Ptr>, p: Ptr, e: Ptr, h': Heap)
    requires Consistent(h, edges, roots) && p in h && h[p].shift < 24 && e !in h && e != NULL
    requires h' == h[e := ExpandedNode(h[p].shift + 8, p)]
    ensures StaticsIntact(h') && EdgesIn(h', edges + FirstCells(e, 256))
    ensures EdgesWired(h', edges + FirstCells(e, 256)) && EdgesComplete(h', edges + FirstCells(e, 256), {})
  {
    hide Counted, Holders;
    NotEmptyNode(h, e);
    assert StaticsIntact(h') && EdgesIn(h', edges + FirstCells(e, 256));
    forall x | x in edges + FirstCells(e, 256)
      ensures h'[x.0].data[x.1] in h' && h'[h'[x.0].data[x.1]].shift == h'[x.0].shift - 8
    {
      if x !in edges && x.1 > 0 {
        assert h'[x.0].data[x.1] == EmptyNode(h[p].shift);
      }
    }
    hide StaticsIntact, EdgesWired, EdgesIn;
    assert forall i: nat :: i < 256 ==> (e, i) in FirstCells(e, 256);
  }

  /** One more level on top of the array p: the handle moves to the new node. */
  lemma ExpandKeeps(h: Heap, edges: set<Edge>, roots: multiset<Ptr>, p: Ptr, e: Ptr)
    requires Consistent(h, edges, roots) && NoDead(h) && p in roots && h[p].shift < 24 && e !in h && e != NULL
    ensures
      var h' := h[e := ExpandedNode(h[p].shift + 8, p)];
      Consistent(h', edges + FirstCells(e, 256), roots - multiset{p} + multiset{e}) && NoDead(h')
  {
    var h', edges' := h[e := ExpandedNode(h[p].shift + 8, p)], edges + FirstCells(e, 256);
    NotEmptyNode(h, e);
    assert Holders(h, edges, e) == {};
    hide StaticsIntact, EdgesWired, EdgesComplete, Holders, FirstCells;
    ExpandShape(h, edges, roots, p, e, h');
    forall q | q in h' && !IsEmptyChild(q)
      ensures h'[q].refCount == |Holders(h', edges', q)| + (roots - multiset{p} + multiset{e})[q]
    {
      ExpandCount(h, edges, roots, p, e, h', q);
    }
  }

  lemma ExpandCount(h: Heap, edges: set<Edge>, roots: multiset<Ptr>, p: Ptr, e: Ptr, h': Heap, q: Ptr)
    requires EdgesIn(h, edges) && Counted(h, edges, roots) && EdgesIn(h', edges + FirstCells(e, 256)) && Holders(h, edges, e) == {}
    requires p in roots && h[p].shift < 24 && e !in h && q in h' && !IsEmptyChild(q)
    requires h' == h[e := ExpandedNode(h[p].shift + 8, p)]
    ensures h'[q].refCount == |Holders(h', edges + FirstCells(e, 256), q)| + (roots - multiset{p} + multiset{e})[q]
  {
    HoldersAfterExpand(h, edges, p, e, h', q);
    hide Holders, EdgesIn, FirstCells;
  }

  /** The array p of h, seen at the larger shift: its own indices, and NULL above them. */
  ghost predicate Expanded(h: Heap, p: Ptr, h': Heap, r: Ptr)
    requires Wired(h) && Wired(h') && Live(h, p) && Live(h', r)
  {
    forall j: nat :: Lookup(h', r, j) ==
                     if j % Capacity(h'[r].shift) < Capacity(h[p].shift) then Lookup(h, p, j) else NULL
  }

  lemma ExpandedIndex(j: nat, shift: Shift, shift0: Shift)
    requires shift0 < shift
    ensures j % Capacity(shift) < Capacity(shift0) <==>
            Digit(j, shift) == 0 && j % Capacity(shift - 8) < Capacity(shift0)
  {
    DigitSplits(j, shift);
    assert Capacity(shift0) <= Base(shift);
  }

  lemma ExpandStep(h0: Heap, p: Ptr, h: Heap, r: Ptr, h': Heap, e: Ptr)
    requires Wired(h0) && Wired(h) && Wired(h') && StaticsIntact(h') && NoDead(h) && NoDead(h')
    requires p in h0 && Live(h0, p) && r in h && h[r].shift < 24 && h0[p].shift <= h[r].shift
    requires e !in h && h' == h[e := ExpandedNode(h[r].shift + 8, r)]
    requires Expanded(h0, p, h, r)
    ensures Expanded(h0, p, h', e)
  {
    var s := h[r].shift + 8;
    SameCellsSameContents(h, h', r);
    forall j: nat
      ensures Lookup(h', e, j) == if j % Capacity(s) < Capacity(h0[p].shift) then Lookup(h0, p, j) else NULL
    {
      var d := Digit(j, s);
      assert GoodCell(h', e, d);
      ExpandedIndex(j, s, h0[p].shift);
      if d > 0 {
        EmptyNodeIsNull(h', h[r].shift, j);
        assert h'[e].data[d] == EmptyNode(h[r].shift);
      }
    }
  }

  // ---------------------------------------------------------------------------
  // Ranges of indices below a node
  // ---------------------------------------------------------------------------

  lemma DigitInRange(prefix: nat, slot: nat, k: nat, shift: Shift)
    requires prefix % Capacity(shift) == 0 && slot < 256
    requires prefix + slot * Base(shift) <= k < prefix + slot * Base(shift) + Base(shift)
    ensures Digit(k, shift) == slot
  {
    assert 0 <= slot * Base(shift) && slot * Base(shift) + Base(shift) <= Capacity(shift);
    hide Digit;
    hide Base, Capacity;
    RemainderFromMultiple(prefix, k, Capacity(shift));
    DigitSplits(k, shift);
    SplitIsUnique(Digit(k, shift), k % Base(shift), slot, k - prefix - slot * Base(shift), shift);
  }

  ghost predicate NullBetween(h: Heap, p: Ptr, lo: nat, hi: nat)
    requires Wired(h) && Live(h, p)
  {
    forall k: nat :: lo <= k < hi ==> Lookup(h, p, k) == NULL
  }
}
