/**
  Dispatch tables as sparse arrays: what links the finite maps of the dispatch
  modules to the radix trees that hold them.
 */
module TableArrays {
  import opened Basics
  import opened Arithmetic
  import opened SparseNodes
  import opened SparseArray
  import opened Hierarchy
  import opened DispatchTables

  /** The array p holds the table: the address of a method at its selector, NULL elsewhere. */
  ghost predicate Represents(h: Heap, p: Ptr, t: Table)
    requires Wired(h) && Live(h, p)
  {
    && (forall s: Sel :: s in t ==> s < Capacity(h[p].shift) && t[s].id != NULL)
    && (forall s: Sel :: s < Capacity(h[p].shift) ==> Lookup(h, p, s) == if s in t then t[s].id else NULL)
  }

  /** Inserting a method into the array is adding it to the table. */
  lemma InsertRepresents(h: Heap, edges: set<Edge>, h': Heap, edges': set<Edge>, roots: multiset<Ptr>, p: Ptr, t: Table, m: Method)
    requires InsertDone(h, edges, h', edges', roots, p, m.sel, m.id, true)
    requires Live(h, p) && Represents(h, p, t) && m.sel < Capacity(h[p].shift) && m.id != NULL
    ensures Live(h', p) && Represents(h', p, With(t, m))
  {
    forall s: Sel | s < Capacity(h[p].shift)
      ensures Lookup(h', p, s) == if s in With(t, m) then With(t, m)[s].id else NULL
    {
      SameCellIsCongruence(s, m.sel, h[p].shift);
      SmallRemainder(s, Capacity(h[p].shift));
      SmallRemainder(m.sel, Capacity(h[p].shift));
    }
  }

  /** Storing NULL takes the entry out. */
  lemma RemoveRepresents(h: Heap, edges: set<Edge>, h': Heap, edges': set<Edge>, roots: multiset<Ptr>, p: Ptr, t: Table, sel: Sel)
    requires InsertDone(h, edges, h', edges', roots, p, sel, NULL, true)
    requires Live(h, p) && Represents(h, p, t) && sel < Capacity(h[p].shift)
    ensures Live(h', p) && Represents(h', p, t - {sel})
  {
    forall s: Sel | s < Capacity(h[p].shift)
      ensures Lookup(h', p, s) == if s in t - {sel} then (t - {sel})[s].id else NULL
    {
      SameCellIsCongruence(s, sel, h[p].shift);
      SmallRemainder(s, Capacity(h[p].shift));
      SmallRemainder(sel, Capacity(h[p].shift));
    }
  }

  /** Whatever array reads like p at every index holds the same table: a copy, and an array that an
      operation on another one has left alone. */
  lemma SameReadsRepresent(h: Heap, p: Ptr, h': Heap, q: Ptr, t: Table)
    requires Wired(h) && Wired(h') && Live(h, p) && Live(h', q) && h'[q].shift == h[p].shift
    requires forall j: nat :: Lookup(h', q, j) == Lookup(h, p, j)
    requires Represents(h, p, t)
    ensures Represents(h', q, t)
  {
  }

  /** What message dispatch reads from the array is what the table says. */
  lemma DispatchReads(h: Heap, p: Ptr, t: Table, s: Sel)
    requires Wired(h) && Live(h, p) && Represents(h, p, t) && s < Capacity(h[p].shift) && s <= UINT32_MAX
    ensures UnrolledLookup(h, p, s) == if s in t then t[s].id else NULL
  {
  }

  /** So a dispatch on an array that holds the table of a class finds the nearest definition. */
  lemma DispatchFindsNearest(st: State, c: Cls, h: Heap, p: Ptr, s: Sel)
    requires Agreement(st) && c in st.tables && Wired(h) && Live(h, p) && Represents(h, p, st.tables[c])
    requires s < Capacity(h[p].shift) && s <= UINT32_MAX
    ensures
      var nearest := Nearest(st, c, s);
      UnrolledLookup(h, p, s) == if nearest.Some? then nearest.value.id else NULL
  {
    assert Agrees(st, c);
    assert Entry(st.tables[c], s) == Nearest(st, c, s);
    DispatchReads(h, p, st.tables[c], s);
  }

  /** One step of a loop over the entries, from the start or from an entry: SparseArrayNext finds
      what the enumeration of the table finds. */
  method NextInArray(mem: Memory, p: Ptr, idx: nat, ghost t: Table) returns (found: bool, next: Sel)
    requires mem.Valid() && p in mem.heap && Wired(mem.heap) && Live(mem.heap, p)
    requires Represents(mem.heap, p, t) && LastIsSafe(mem.heap, p)
    requires idx == 0 || (idx < Capacity(mem.heap[p].shift) && Lookup(mem.heap, p, idx) != NULL)
    ensures IsNext(t, idx, found, next)
  {
    var value, index := mem.Next(p, idx);
    found := value != NULL;
    next := if value != NULL then index else 1;
  }

  /** Where the last index is occupied and the depth is 16 or 24, the step after it does not end the
      loop, as the enumeration of the table would. */
  method WrapsAtLast(mem: Memory, p: Ptr, ghost t: Table) returns (value: Ptr)
    requires mem.Valid() && p in mem.heap && Wired(mem.heap) && Live(mem.heap, p)
    requires Represents(mem.heap, p, t) && !LastIsSafe(mem.heap, p)
    ensures IsNext(t, Capacity(mem.heap[p].shift) - 1, false, 1) && value != NULL
  {
    var index;
    value, index := mem.Next(p, Capacity(mem.heap[p].shift) - 1);
  }
}
