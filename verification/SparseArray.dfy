/**
  The operations on sparse arrays: creation, copy-on-write insertion, lazy copy,
  release, expansion to a larger depth, the unrolled lookup and the enumeration.
 */
module SparseArray {
  import opened Arithmetic
  import opened SparseNodes

  predicate ValidDepth(depth: nat) {
    8 <= depth <= 32 && depth % 8 == 0
  }

  /** The nodes added[1..] stand on the array added[0] == p, each holding the one before in its
      first cell; apart from them h is h0. */
  ghost predicate Tower(h0: Heap, h: Heap, p: Ptr, added: seq<Ptr>) {
    && p in h0 && |added| > 0 && added[0] == p
    && (forall i, j :: 0 <= i < j < |added| ==> added[i] != added[j])
    && (forall q :: q in h <==> q in h0 || q in added)
    && (forall i :: 0 < i < |added| ==> added[i] !in h0)
    && (forall q :: q in h0 ==> q in h && h[q] == h0[q])
    && (forall i :: 0 < i < |added| ==>
          added[i] in h && |h[added[i]].data| == 256 && h[added[i]].data[0] == added[i - 1])
  }

  lemma TowerTop(h0: Heap, h: Heap, p: Ptr, added: seq<Ptr>)
    requires Tower(h0, h, p, added) && added[|added| - 1] != p
    ensures |added| > 1 && added[|added| - 1] in h
    ensures |h[added[|added| - 1]].data| == 256 && h[added[|added| - 1]].data[0] == added[|added| - 2]
    ensures Tower(h0, h - {added[|added| - 1]}, p, added[..|added| - 1])
  {
    var top, rest := added[|added| - 1], added[..|added| - 1];
    var h' := h - {top};
    WithoutTop(added);
    forall q
      ensures q in h' <==> q in h0 || q in rest
      ensures q in h0 ==> q in h' && h'[q] == h0[q]
    {
    }
    forall i | 0 < i < |rest|
      ensures rest[i] !in h0 && rest[i] in h' && |h'[rest[i]].data| == 256 && h'[rest[i]].data[0] == rest[i - 1]
    {
      TowerCell(h0, h, p, added, i);
    }
    assert forall i, j :: 0 <= i < j < |rest| ==> rest[i] != rest[j];
  }

  lemma TowerCell(h0: Heap, h: Heap, p: Ptr, added: seq<Ptr>, i: nat)
    requires Tower(h0, h, p, added) && 0 < i < |added| - 1
    ensures added[i] !in h0 && added[i] in h && added[i] != added[|added| - 1]
    ensures |h[added[i]].data| == 256 && h[added[i]].data[0] == added[i - 1]
  {
  }

  lemma WithoutTop(added: seq<Ptr>)
    requires |added| > 0 && forall i, j :: 0 <= i < j < |added| ==> added[i] != added[j]
    ensures forall q :: q in added[..|added| - 1] <==> q in added && q != added[|added| - 1]
  {
    var rest, top := added[..|added| - 1], added[|added| - 1];
    assert added == rest + [top];
    assert forall i :: 0 <= i < |rest| ==> rest[i] == added[i] && rest[i] != top;
  }

  lemma TowerBottom(h0: Heap, h: Heap, p: Ptr, added: seq<Ptr>)
    requires Tower(h0, h, p, added) && added[|added| - 1] == p
    ensures h == h0
  {
    assert |added| == 1;
    assert h.Keys == h0.Keys;
  }

  lemma TowerGrows(h0: Heap, h: Heap, p: Ptr, added: seq<Ptr>, h': Heap, e: Ptr)
    requires Tower(h0, h, p, added) && e !in h && added[|added| - 1] in h && h[added[|added| - 1]].shift < 24
    requires h' == h[e := ExpandedNode(h[added[|added| - 1]].shift + 8, added[|added| - 1])]
    ensures Tower(h0, h', p, added + [e])
  {
    hide ExpandedNode;
    TowerKeys(h0, h, p, added, h', e);
    var w := added + [e];
    assert forall i :: 0 <= i < |added| ==> added[i] in added && w[i] == added[i] && w[i] != e;
    forall i | 0 < i < |w|
      ensures w[i] !in h0 && w[i] in h' && |h'[w[i]].data| == 256 && h'[w[i]].data[0] == w[i - 1]
    {
      if i == |added| {
        NewTop(h, added[|added| - 1]);
      }
    }
  }

  lemma NewTop(h: Heap, root: Ptr)
    requires root in h && h[root].shift < 24
    ensures |ExpandedNode(h[root].shift + 8, root).data| == 256 && ExpandedNode(h[root].shift + 8, root).data[0] == root
  {
  }

  lemma TowerKeys(h0: Heap, h: Heap, p: Ptr, added: seq<Ptr>, h': Heap, e: Ptr)
    requires Tower(h0, h, p, added) && e !in h && h'.Keys == h.Keys + {e}
    ensures forall q :: q in h' <==> q in h0 || q in added + [e]
    ensures e !in added && e !in h0
  {
    forall q
      ensures q in h' <==> q in h0 || q in added + [e]
    {
      assert q in added + [e] <==> q in added || q == e;
    }
  }

  /** An expanded array: the handle on p has become one on r, which has the new depth and p's
      contents with NULL above them; every old node keeps its contents. */
  ghost predicate ExpandDone(h0: Heap, roots0: multiset<Ptr>, p: Ptr, h: Heap, roots: multiset<Ptr>, r: Ptr, newDepth: nat) {
    && Wired(h0) && Wired(h) && Live(h0, p) && Live(h, r) && h[r].shift + 8 == newDepth && h[r].refCount == 1
    && (r == p || r !in h0)
    && roots == roots0 - multiset{p} + multiset{r}
    && Expanded(h0, p, h, r)
    && forall q :: q in h0 ==> q in h && h[q] == h0[q] && (Live(h0, q) ==> SameContents(h0, h, q))
  }

  /** The state of an expansion of p that has got as far as root. */
  ghost predicate Expanding(h0: Heap, roots0: multiset<Ptr>, p: Ptr, h: Heap, edges: set<Edge>, roots: multiset<Ptr>,
                            added: seq<Ptr>, root: Ptr)
  {
    && Wired(h0) && NoDead(h0) && Live(h0, p)
    && Consistent(h, edges, roots) && NoDead(h) && Wired(h)
    && roots == roots0 - multiset{p} + multiset{root} && root in roots
    && |added| > 0 && root == added[|added| - 1] && Tower(h0, h, p, added)
    && Live(h, root) && h[root].refCount == 1 && h0[p].shift <= h[root].shift && Expanded(h0, p, h, root)
  }

  lemma ExpandStarts(h: Heap, edges: set<Edge>, roots: multiset<Ptr>, p: Ptr)
    requires Consistent(h, edges, roots) && NoDead(h) && p in roots && Sole(h, roots)
    ensures p in h && Expanding(h, roots, p, h, edges, roots, [p], p)
  {
    ConsistentIsWired(h, edges, roots);
    assert forall q :: q in [p] ==> q == p;
    forall j: nat
      ensures j % Capacity(h[p].shift) < Capacity(h[p].shift)
    {
    }
  }

  lemma ExpandAdvances(h0: Heap, roots0: multiset<Ptr>, p: Ptr, h: Heap, edges: set<Edge>, roots: multiset<Ptr>,
                       added: seq<Ptr>, root: Ptr, e: Ptr)
    requires Expanding(h0, roots0, p, h, edges, roots, added, root) && h[root].shift < 24 && e !in h && e != NULL
    ensures Expanding(h0, roots0, p, h[e := ExpandedNode(h[root].shift + 8, root)], edges + FirstCells(e, 256),
                      roots0 - multiset{p} + multiset{e}, added + [e], e)
  {
    var h', edges' := h[e := ExpandedNode(h[root].shift + 8, root)], edges + FirstCells(e, 256);
    var roots' := roots0 - multiset{p} + multiset{e};
    assert roots - multiset{root} + multiset{e} == roots';
    TowerGrows(h0, h, p, added, h', e);
    hide *;
    ExpandKeeps(h, edges, roots, root, e);
    ConsistentIsWired(h', edges', roots');
    ConsistentHasStatics(h', edges', roots');
    ExpandStep(h0, p, h, root, h', e);
  }

  lemma OwnDepth(shift: Shift)
    ensures ValidDepth(shift + 8)
  {
  }

  lemma NextLevel(shift: Shift, newDepth: nat, root: Ptr)
    requires ValidDepth(newDepth) && shift + 8 < newDepth
    ensures shift < 24 && shift + 16 <= newDepth && ExpandedNode(shift + 8, root).shift == shift + 8
  {
  }

  lemma ExpandingTower(h0: Heap, roots0: multiset<Ptr>, p: Ptr, h: Heap, edges: set<Edge>, roots: multiset<Ptr>,
                       added: seq<Ptr>, root: Ptr)
    requires Expanding(h0, roots0, p, h, edges, roots, added, root)
    ensures |added| > 0 && root == added[|added| - 1] && Tower(h0, h, p, added)
    ensures Consistent(h, edges, roots) && NoDead(h)
  {
  }

  lemma ExpandEnds(h0: Heap, roots0: multiset<Ptr>, p: Ptr, h: Heap, edges: set<Edge>, roots: multiset<Ptr>,
                   added: seq<Ptr>, root: Ptr)
    requires Expanding(h0, roots0, p, h, edges, roots, added, root)
    ensures root in h && root != NULL && ExpandDone(h0, roots0, p, h, roots, root, h[root].shift + 8)
  {
    SameCellsKeepAll(h0, h);
  }

  /** The other handles stay alone, and their arrays as they were. */
  lemma ExpandKeepsOthers(h0: Heap, roots0: multiset<Ptr>, p: Ptr, h: Heap, roots: multiset<Ptr>, r: Ptr, newDepth: nat)
    requires ExpandDone(h0, roots0, p, h, roots, r, newDepth) && Sole(h0, roots0) && NoDead(h0) && NoDead(h)
    ensures Sole(h, roots) && OthersKept(h0, h, roots, r)
  {
    hide Expanded, SameContents, Lookup, Wired;
    assert forall q :: q in roots && q != r ==> q in roots0;
  }

  lemma ConsistentHasStatics(h: Heap, edges: set<Edge>, roots: multiset<Ptr>)
    requires Consistent(h, edges, roots)
    ensures StaticsIntact(h)
  {
  }

  // ---------------------------------------------------------------------------
  // Enumeration
  // ---------------------------------------------------------------------------

  const UINT32_MAX: nat := 0xffff_ffff

  ghost predicate InRange(h: Heap, p: Ptr, start: nat, prefix: nat)
    requires p in h
  {
    prefix <= start < prefix + Capacity(h[p].shift)
  }

  /** The start lies past the node and wraps to its first cell. */
  ghost predicate Beyond(h: Heap, p: Ptr, start: nat, prefix: nat)
    requires p in h
  {
    prefix + Capacity(h[p].shift) <= start && start % Capacity(h[p].shift) == 0
  }

  ghost predicate FoundInRange(h: Heap, p: Ptr, start: nat, prefix: nat, value: Ptr, found: nat)
    requires Wired(h) && Live(h, p)
  {
    value != NULL ==> prefix <= found < prefix + Capacity(h[p].shift) && value == Lookup(h, p, found)
  }

  ghost predicate FoundFirst(h: Heap, p: Ptr, start: nat, prefix: nat, value: Ptr, found: nat)
    requires Wired(h) && Live(h, p)
  {
    InRange(h, p, start, prefix) ==>
      if value != NULL then start <= found && NullBetween(h, p, start, found)
      else NullBetween(h, p, start, prefix + Capacity(h[p].shift))
  }

  /** After a wrap every cell but the first is searched in full. */
  ghost predicate FoundBeyond(h: Heap, p: Ptr, start: nat, prefix: nat, value: Ptr)
    requires Wired(h) && Live(h, p)
  {
    Beyond(h, p, start, prefix) ==>
      if h[p].shift == 0 then value == NULL
      else value == NULL ==> NullBetween(h, p, prefix + Base(h[p].shift), prefix + Capacity(h[p].shift))
  }

  /** No entry was found in the cells from first up to slot. */
  ghost predicate Scanned(h: Heap, p: Ptr, start: nat, prefix: nat, first: nat, slot: nat)
    requires Wired(h) && Live(h, p)
  {
    var end := prefix + slot * Base(h[p].shift);
    && (InRange(h, p, start, prefix) ==> NullBetween(h, p, start, end))
    && (Beyond(h, p, start, prefix) && h[p].shift > 0 ==> NullBetween(h, p, prefix + Base(h[p].shift), end))
  }

  lemma FirstSlot(start: nat, prefix: nat, shift: Shift)
    requires prefix % Capacity(shift) == 0
    ensures prefix <= start < prefix + Capacity(shift) ==>
      prefix + Digit(start, shift) * Base(shift) <= start < prefix + Digit(start, shift) * Base(shift) + Base(shift)
    ensures start % Capacity(shift) == 0 ==> Digit(start, shift) == 0
  {
    assert Base(shift) > 0 && Capacity(shift) > 0;
    hide Base, Capacity, Digit;
    DigitSplits(start, shift);
    if prefix <= start < prefix + Capacity(shift) {
      RemainderFromMultiple(prefix, start, Capacity(shift));
    }
    FirstDigit(start, shift);
  }

  lemma FirstDigit(start: nat, shift: Shift)
    ensures start % Capacity(shift) == 0 ==> Digit(start, shift) == 0
  {
    DigitSplits(start, shift);
    hide Digit;
  }

  lemma NothingBefore(h: Heap, p: Ptr, start: nat, prefix: nat)
    requires Wired(h) && Live(h, p) && prefix % Capacity(h[p].shift) == 0
    ensures Scanned(h, p, start, prefix, Digit(start, h[p].shift), Digit(start, h[p].shift))
  {
    FirstSlot(start, prefix, h[p].shift);
  }

  lemma LeafSlot(h: Heap, p: Ptr, start: nat, prefix: nat, first: nat, slot: nat)
    requires Wired(h) && Live(h, p) && h[p].shift == 0 && prefix % 256 == 0 && slot < 256
    requires Scanned(h, p, start, prefix, first, slot)
    ensures Lookup(h, p, prefix + slot) == h[p].data[slot]
    ensures h[p].data[slot] == NULL || prefix + slot < start ==> Scanned(h, p, start, prefix, first, slot + 1)
  {
    DigitInRange(prefix, slot, prefix + slot, 0);
  }

  lemma LeafFound(h: Heap, p: Ptr, start: nat, prefix: nat, first: nat, slot: nat)
    requires Wired(h) && Live(h, p) && h[p].shift == 0 && prefix % 256 == 0 && slot < 256
    requires Scanned(h, p, start, prefix, first, slot) && start <= prefix + slot && h[p].data[slot] != NULL
    ensures FoundInRange(h, p, start, prefix, h[p].data[slot], prefix + slot)
    ensures FoundFirst(h, p, start, prefix, h[p].data[slot], prefix + slot)
    ensures FoundBeyond(h, p, start, prefix, h[p].data[slot])
  {
    LeafSlot(h, p, start, prefix, first, slot);
  }

  lemma AllScanned(h: Heap, p: Ptr, start: nat, prefix: nat, first: nat)
    requires Wired(h) && Live(h, p) && Scanned(h, p, start, prefix, first, 256)
    ensures FoundInRange(h, p, start, prefix, NULL, 0)
    ensures FoundFirst(h, p, start, prefix, NULL, 0)
    ensures FoundBeyond(h, p, start, prefix, NULL)
  {
  }

  lemma SlotIsAligned(prefix: nat, slot: nat, shift: Shift)
    requires shift > 0 && prefix % Capacity(shift) == 0
    ensures (prefix + slot * Base(shift)) % Capacity(shift - 8) == 0
  {
    var m := prefix / Capacity(shift);
    assert prefix == m * Capacity(shift);
    assert Base(shift) == Capacity(shift - 8);
    var k := 256 * m + slot;
    assert prefix + slot * Base(shift) == k * Base(shift);
    RemainderIsUnique(prefix + slot * Base(shift), Base(shift), k, 0);
  }

  lemma ChildSlot(h: Heap, p: Ptr, prefix: nat, slot: nat)
    requires Wired(h) && Live(h, p) && h[p].shift > 0 && prefix % Capacity(h[p].shift) == 0 && slot < 256
    ensures GoodCell(h, p, slot)
    ensures (prefix + slot * Base(h[p].shift)) % Capacity(h[p].shift - 8) == 0
    ensures forall k: nat ::
      prefix + slot * Base(h[p].shift) <= k < prefix + slot * Base(h[p].shift) + Base(h[p].shift) ==>
        Lookup(h, p, k) == Lookup(h, h[p].data[slot], k)
  {
    assert GoodCell(h, p, slot);
    SlotIsAligned(prefix, slot, h[p].shift);
    forall k: nat | prefix + slot * Base(h[p].shift) <= k < prefix + slot * Base(h[p].shift) + Base(h[p].shift)
      ensures Lookup(h, p, k) == Lookup(h, h[p].data[slot], k)
    {
      DigitInRange(prefix, slot, k, h[p].shift);
    }
  }

  lemma EmptySlot(h: Heap, p: Ptr, start: nat, prefix: nat, first: nat, slot: nat)
    requires Wired(h) && StaticsIntact(h) && Live(h, p) && h[p].shift > 0
    requires prefix % Capacity(h[p].shift) == 0 && slot < 256
    requires IsEmptyChild(h[p].data[slot]) && Scanned(h, p, start, prefix, first, slot)
    ensures Scanned(h, p, start, prefix, first, slot + 1)
  {
    ChildSlot(h, p, prefix, slot);
    forall k: nat | prefix + slot * Base(h[p].shift) <= k < prefix + slot * Base(h[p].shift) + Base(h[p].shift)
      ensures Lookup(h, p, k) == NULL
    {
      var c := h[p].data[slot];
      assert c == EmptyNode(0) || c == EmptyNode(8) || c == EmptyNode(16) || c == EmptyNode(24);
      EmptyNodeIsNull(h, h[c].shift, k);
    }
  }

  /** What a search of the child in a slot says about the node itself. */
  lemma SlotResult(h: Heap, p: Ptr, start: nat, prefix: nat, first: nat, slot: nat, childStart: nat, value: Ptr, found: nat)
    requires Wired(h) && Live(h, p) && h[p].shift > 0 && prefix % Capacity(h[p].shift) == 0
    requires first == Digit(start, h[p].shift) && first <= slot < 256
    requires Scanned(h, p, start, prefix, first, slot) && GoodCell(h, p, slot)
    requires
      var c, slotPrefix := h[p].data[slot], prefix + slot * Base(h[p].shift);
      && childStart == (if slot == first then start else slotPrefix)
      && FoundInRange(h, c, childStart, slotPrefix, value, found)
      && FoundFirst(h, c, childStart, slotPrefix, value, found)
    ensures value == NULL ==> Scanned(h, p, start, prefix, first, slot + 1)
    ensures FoundInRange(h, p, start, prefix, value, found)
    ensures value != NULL ==> FoundFirst(h, p, start, prefix, value, found)
    ensures value != NULL ==> FoundBeyond(h, p, start, prefix, value)
  {
    ChildSlot(h, p, prefix, slot);
    FirstSlot(start, prefix, h[p].shift);
  }

  /** Masking and then shifting selects the same digit as shifting and then masking. */
  lemma DigitsByMask(i: nat)
    requires i <= UINT32_MAX
    ensures i % 0x100 == Digit(i, 0)
    ensures (i % 0x1_0000) / 0x100 == Digit(i, 8)
    ensures (i % 0x100_0000) / 0x1_0000 == Digit(i, 16)
    ensures i / 0x100_0000 == Digit(i, 24)
  {
    DigitSplits(i, 8);
    DigitSplits(i, 16);
  }

  /** The enumeration of the array ends: its last index is empty, or needs no wrap. */
  ghost predicate LastIsSafe(h: Heap, p: Ptr)
    requires Wired(h) && Live(h, p)
  {
    h[p].shift == 0 || h[p].shift == 24 || Lookup(h, p, Capacity(h[p].shift) - 1) == NULL
  }

  /** The indices from 1 up to end whose entry points into the given memory range. */
  ghost function HooksInRange(h: Heap, p: Ptr, end: nat, base: nat, size: nat): set<nat>
    requires Wired(h) && Live(h, p)
  {
    set k: nat | 1 <= k < end && Lookup(h, p, k) != NULL && base <= Lookup(h, p, k) < base + size
  }

  lemma NoHooksYet(h: Heap, p: Ptr, base: nat, size: nat)
    requires Wired(h) && Live(h, p)
    ensures HooksInRange(h, p, 1, base, size) == {}
  {
  }

  lemma OneMoreHook(h: Heap, p: Ptr, idx: nat, base: nat, size: nat)
    requires Wired(h) && Live(h, p) && idx >= 1 && Lookup(h, p, idx) != NULL
    ensures |HooksInRange(h, p, idx + 1, base, size)| ==
            |HooksInRange(h, p, idx, base, size)| + if base <= Lookup(h, p, idx) < base + size then 1 else 0
  {
    var old', new' := HooksInRange(h, p, idx, base, size), HooksInRange(h, p, idx + 1, base, size);
    if base <= Lookup(h, p, idx) < base + size {
      assert new' == old' + {idx};
    } else {
      assert new' == old';
    }
  }

  lemma NoHooksBetween(h: Heap, p: Ptr, lo: nat, hi: nat, base: nat, size: nat)
    requires Wired(h) && Live(h, p) && lo <= hi && NullBetween(h, p, lo, hi)
    ensures HooksInRange(h, p, hi, base, size) == HooksInRange(h, p, lo, base, size)
  {
  }

  /** The copy c of p when its first n children have been counted. */
  ghost predicate Copying(h0: Heap, edges0: set<Edge>, roots0: multiset<Ptr>, h: Heap, edges: set<Edge>, roots: multiset<Ptr>,
                          p: Ptr, c: Ptr, n: nat)
  {
    && Consistent(h0, edges0, roots0) && Live(h0, p) && c !in h0
    && ConsistentBut(h, edges, roots, c) && roots == roots0 + multiset{c} && edges == edges0 + FirstCells(c, n)
    && Shared(h0, h, c) && h[c] == h0[p].(refCount := 1)
  }

  lemma CopyingStarts(h: Heap, edges: set<Edge>, roots: multiset<Ptr>, p: Ptr, c: Ptr)
    requires Consistent(h, edges, roots) && Live(h, p) && c !in h
    requires ConsistentBut(h[c := h[p].(refCount := 1)], edges, roots + multiset{c}, c)
    ensures Copying(h, edges, roots, h[c := h[p].(refCount := 1)], edges, roots + multiset{c}, p, c, 0)
  {
    FirstCellsGrow(c, 0);
  }

  lemma CopyingStep(h0: Heap, edges0: set<Edge>, roots0: multiset<Ptr>, h: Heap, edges: set<Edge>, roots: multiset<Ptr>,
                    p: Ptr, c: Ptr, i: nat)
    requires Copying(h0, edges0, roots0, h, edges, roots, p, c, i) && h[c].shift > 0 && i < 256
    ensures |h[c].data| == 256 && h[c].data[i] in h
    ensures Copying(h0, edges0, roots0, Raised(h, h[c].data[i]), edges + {(c, i)}, roots, p, c, i + 1)
    ensures Raised(h, h[c].data[i])[c] == h[c]
  {
    hide Consistent, ConsistentBut;
    CopiedCellIsGood(h0, edges0, roots0, h, p, c, i);
    NotYetCounted(h0, edges0, roots0, c, i);
    FirstCellsGrow(c, i);
    ShareCellKeeps(h, edges, roots, c, i);
    SharedStep(h0, h, c, i);
    hide Shared, FirstCells, Live;
    assert edges + {(c, i)} == edges0 + FirstCells(c, i + 1);
  }

  lemma CopyingEnds(h0: Heap, edges0: set<Edge>, roots0: multiset<Ptr>, h: Heap, edges: set<Edge>, roots: multiset<Ptr>,
                    p: Ptr, c: Ptr)
    requires Copying(h0, edges0, roots0, h, edges, roots, p, c, if c in h && h[c].shift > 0 then 256 else 0)
    ensures Consistent(h, edges, roots) && Shared(h0, h, c) && h[c] == h0[p].(refCount := 1)
    ensures roots == roots0 + multiset{c} && edges == edges0 + if h[c].shift > 0 then FirstCells(c, 256) else {}
  {
    hide Consistent, ConsistentBut;
    FirstCellsGrow(c, 0);
    CopyComplete(h, edges, roots, c);
  }

  lemma CopyIsValid(h0: Heap, edges0: set<Edge>, roots0: multiset<Ptr>, h: Heap, edges: set<Edge>, roots: multiset<Ptr>, p: Ptr, c: Ptr)
    requires Consistent(h0, edges0, roots0) && NoDead(h0) && Sole(h0, roots0) && Live(h0, p) && c !in h0
    requires Consistent(h, edges, roots) && Shared(h0, h, c) && h[c] == h0[p].(refCount := 1)
    requires roots == roots0 + multiset{c} && edges == edges0 + if h[c].shift > 0 then FirstCells(c, 256) else {}
    ensures NoDead(h) && Sole(h, roots) && UnheldKept(h0, edges0, h, edges)
  {
    CopyUnheld(h0, edges0, roots0, h, edges, p, c);
    hide Consistent, UnheldKept;
    SoleKept(h0, edges0, roots0, h, edges, roots, c);
  }

  /** After a release the arrays still held read as before, and handles stay alone. */
  ghost predicate Destroyed(h: Heap, roots: multiset<Ptr>, h': Heap, roots': multiset<Ptr>) {
    && (NoDead(h) ==> NoDead(h') && HeldKept(h, h', roots'))
    && (Sole(h, roots) ==> Sole(h', roots'))
  }

  lemma DestroyEnds(h: Heap, edges: set<Edge>, roots: multiset<Ptr>, h': Heap, edges': set<Edge>, roots': multiset<Ptr>, p: Ptr)
    requires Consistent(h, edges, roots) && Consistent(h', edges', roots') && Released(h, edges, h', edges', p)
    requires roots' == roots || roots' == roots - multiset{p}
    ensures Destroyed(h, roots, h', roots')
  {
    hide Consistent, Released, NoDead, HeldKept, Sole;
    DestroyKeepsHeld(h, edges, roots, h', edges', roots', p);
    DestroyKeepsSole(h, edges, roots, h', edges', roots', p);
  }

  lemma UnheldAtOnce(h: Heap, edges: set<Edge>)
    ensures UnheldKept(h, edges, h, edges)
  {
  }

  lemma FreshIsSole(h: Heap, edges: set<Edge>, roots: multiset<Ptr>, r: Ptr, s: Shift)
    requires Consistent(h, edges, roots) && NoDead(h) && Sole(h, roots) && r !in h && r != NULL
    ensures
      var h', edges' := h[r := Node(s, 1, InitialData(s))], edges + CellsOf(r, s);
      UnheldKept(h, edges, h', edges') && NoDead(h') && Sole(h', roots + multiset{r})
  {
    FreshUnheld(h, edges, r, s);
    FreshNodeKeeps(h, edges, roots, r, s);
    hide Consistent, UnheldKept, CellsOf, InitialData;
    var h', edges' := h[r := Node(s, 1, InitialData(s))], edges + CellsOf(r, s);
    SoleKept(h, edges, roots, h', edges', roots + multiset{r}, r);
  }

  lemma NullIsNoHandle(h: Heap, edges: set<Edge>, roots: multiset<Ptr>)
    requires Consistent(h, edges, roots)
    ensures NULL !in roots
  {
  }

  lemma LeafIsUnheld(h: Heap, edges: set<Edge>, roots: multiset<Ptr>, p: Ptr, data: seq<Ptr>)
    requires Consistent(h, edges, roots) && p in h && h[p].shift == 0
    ensures UnheldKept(h, edges, h[p := h[p].(data := data)], edges)
  {
    LeafUnheld(h, edges, p, data);
  }

  /** What an insert leaves behind is valid memory again. */
  lemma InsertEnds(h: Heap, edges: set<Edge>, h': Heap, edges': set<Edge>, roots: multiset<Ptr>, p: Ptr, index: nat, value: Ptr, ok: bool)
    requires InsertDone(h, edges, h', edges', roots, p, index, value, ok) && UnheldKept(h, edges, h', edges') && Sole(h, roots)
    ensures Consistent(h', edges', roots) && NoDead(h') && Sole(h', roots)
    ensures p in roots ==> OthersKept(h, h', roots, p)
  {
    InsertDoneIsValid(h, edges, h', edges', roots, p, index, value, ok);
    InsertWasValid(h, edges, h', edges', roots, p, index, value, ok);
    SoleKept(h, edges, roots, h', edges', roots, p);
    if p in roots {
      InsertKeepsOthers(h, edges, h', edges', roots, p, index, value, ok);
    }
    hide *;
  }

  lemma InsertWasValid(h: Heap, edges: set<Edge>, h': Heap, edges': set<Edge>, roots: multiset<Ptr>, p: Ptr, index: nat, value: Ptr, ok: bool)
    requires InsertDone(h, edges, h', edges', roots, p, index, value, ok)
    ensures Consistent(h, edges, roots)
  {
  }

  lemma HandlesAreArrays(h: Heap, edges: set<Edge>, roots: multiset<Ptr>)
    requires Consistent(h, edges, roots)
    ensures Wired(h) && forall p :: p in roots ==> p in h && p != NULL && !IsEmptyChild(p)
  {
    ConsistentIsWired(h, edges, roots);
  }

  /** Nodes were added at most. */
  lemma GrownHeapKeeps(h: Heap, edges: set<Edge>, roots: multiset<Ptr>, h': Heap, edges': set<Edge>, roots': multiset<Ptr>,
                       held: multiset<Ptr>, p: Ptr)
    requires Consistent(h, edges, roots) && NoDead(h) && Consistent(h', edges', roots') && NoDead(h') && held <= roots
    requires forall q :: q in h ==> q in h' && h'[q] == h[q]
    ensures OthersKept(h, h', held, p)
  {
    HandlesAreArrays(h, edges, roots);
    ConsistentIsWired(h', edges', roots');
    hide Consistent, Wired, Lookup;
    SameCellsKeepAll(h, h');
    hide SameContents;
    assert forall q :: q in held ==> q in roots;
  }

  lemma CopyKeepsOthers(h: Heap, edges: set<Edge>, roots: multiset<Ptr>, h': Heap, edges': set<Edge>, roots': multiset<Ptr>,
                        p: Ptr, c: Ptr, held: multiset<Ptr>)
    requires Consistent(h, edges, roots) && NoDead(h) && Consistent(h', edges', roots') && p in h && held <= roots
    requires c !in h && Shared(h, h', c) && h'[c] == h[p].(refCount := 1)
    ensures OthersKept(h, h', held, p)
  {
    HandlesAreArrays(h, edges, roots);
    hide Consistent, Wired, Lookup, SameContents;
    CopyIsIsolated(h, edges, roots, h', edges', roots', p, c);
    assert forall q :: q in held ==> q in roots;
  }

  lemma FewerKept(h: Heap, h': Heap, roots: multiset<Ptr>, held: multiset<Ptr>, p: Ptr, p': Ptr)
    requires OthersKept(h, h', roots, p) && held <= roots && (p == p' || p !in held)
    ensures OthersKept(h, h', held, p')
  {
    hide Wired, SameContents;
    assert forall q :: q in held ==> q in roots;
  }

  lemma HeldAreKept(h: Heap, h': Heap, roots: multiset<Ptr>, held: multiset<Ptr>, p: Ptr)
    requires HeldKept(h, h', roots) && held <= roots
    ensures OthersKept(h, h', held, p)
  {
    hide Wired, SameContents;
    assert forall q :: q in held ==> q in roots;
  }

  lemma GrownArray(h: Heap, roots: multiset<Ptr>, p: Ptr, h': Heap, roots': multiset<Ptr>, r: Ptr, newDepth: nat)
    requires ExpandDone(h, roots, p, h', roots', r, newDepth) && forall q :: q in roots ==> q in h
    ensures r == p || r !in roots * roots'
  {
  }

  /** The operations on arrays that a caller holds. */
  datatype Operation =
    | New(depth: nat)
    | CopyOf(handle: Ptr)
    | InsertAt(handle: Ptr, index: nat, value: Ptr)
    | Drop(handle: Ptr)
    | Grow(handle: Ptr, newDepth: nat)

  class Memory {
    var heap: Heap
    /** Handles held outside the trees: one for each array a caller owns. */
    ghost var roots: multiset<Ptr>
    /** The cells that hold a counted reference. */
    ghost var edges: set<Edge>
    /** How many allocations have failed so far. */
    ghost var failures: nat

    ghost predicate Valid()
      reads this
    {
      Consistent(heap, edges, roots) && NoDead(heap) && Sole(heap, roots)
    }

    constructor ()
      ensures Valid() && heap == STATICS && roots == multiset{}
    {
      heap, roots, edges, failures := STATICS, multiset{}, {}, 0;
    }

    /** calloc: an unused address, or NULL when memory is exhausted. */
    method Calloc() returns (p: Ptr)
      modifies this`failures
      ensures p == NULL || p !in heap
      ensures failures == old(failures) + if p == NULL then 1 else 0
    {
      if * {
        p, failures := NULL, failures + 1;
      } else {
        UnusedAddress(heap.Keys);
        p :| p !in heap && p != NULL;
      }
    }

    method NewNode(shift: Shift) returns (p: Ptr)
      requires Consistent(heap, edges, roots)
      modifies this
      ensures Consistent(heap, edges, roots)
      ensures p == NULL <==> failures > old(failures)
      ensures failures >= old(failures)
      ensures p == NULL ==> heap == old(heap) && roots == old(roots) && edges == old(edges)
      ensures p != NULL ==>
        && p !in old(heap)
        && heap == old(heap)[p := Node(shift, 1, InitialData(shift))]
        && roots == old(roots) + multiset{p}
        && edges == old(edges) + CellsOf(p, shift)
    {
      p := Calloc();
      if p == NULL {
        return;
      }
      FreshNodeKeeps(heap, edges, roots, p, shift);
      heap := heap[p := Node(shift, 1, InitialData(shift))];
      roots := roots + multiset{p};
      edges := edges + CellsOf(p, shift);
    }

    method Copy(p: Ptr) returns (c: Ptr)
      requires Valid()
      requires p != NULL ==> Live(heap, p)
      modifies this
      ensures Valid()
      ensures c == NULL <==> p == NULL || failures > old(failures)
      ensures failures >= old(failures)
      ensures c == NULL ==> heap == old(heap) && roots == old(roots) && edges == old(edges)
      ensures c != NULL ==>
        && c !in old(heap) && Shared(old(heap), heap, c)
        && heap[c] == old(heap)[p].(refCount := 1)
        && roots == old(roots) + multiset{c}
        && edges == old(edges) + (if heap[c].shift > 0 then FirstCells(c, 256) else {})
        && UnheldKept(old(heap), old(edges), heap, edges)
    {
      hide Consistent, ConsistentBut, UnheldKept, Sole, NoDead;
      if p == NULL {
        return NULL;
      }
      c := Calloc();
      if c == NULL {
        return;
      }
      CopyRootKeeps(heap, edges, roots, p, c);
      heap := heap[c := heap[p].(refCount := 1)];
      roots := roots + multiset{c};
      CopyingStarts(old(heap), old(edges), old(roots), p, c);
      hide Copying, Shared, Live;
      if heap[p].shift > 0 {
        for i := 0 to 256
          invariant Copying(old(heap), old(edges), old(roots), heap, edges, roots, p, c, i) && failures == old(failures)
          invariant c in heap && heap[c].shift > 0
        {
          CopyingStep(old(heap), old(edges), old(roots), heap, edges, roots, p, c, i);
          var child := heap[c].data[i];
          if !IsEmptyChild(child) {
            heap := heap[child := heap[child].(refCount := heap[child].refCount + 1)];
          }
          edges := edges + {(c, i)};
        }
      }
      CopyingEnds(old(heap), old(edges), old(roots), heap, edges, roots, p, c);
      CopyIsValid(old(heap), old(edges), old(roots), heap, edges, roots, p, c);
    }

    /** Gives up one handle on p; the last one frees the node and releases its children. */
    method Destroy(p: Ptr)
      requires Consistent(heap, edges, roots)
      requires p == NULL || IsEmptyChild(p) || p in roots
      modifies this`heap, this`roots, this`edges
      ensures Consistent(heap, edges, roots)
      ensures roots == if p == NULL then old(roots) else old(roots) - Handle(p)
      ensures Released(old(heap), old(edges), heap, edges, p)
      ensures Destroyed(old(heap), old(roots), heap, roots)
      decreases if p in heap then heap[p].shift else 0
    {
      hide Consistent, Released, Releasing, Destroyed;
      if p == NULL || IsEmptyChild(p) {
        DecrementReleases(heap, edges, roots, p);
        DestroyEnds(heap, edges, roots, heap, edges, roots, p);
        return;
      }
      DecrementKeeps(heap, edges, roots, p);
      if heap[p].refCount > 1 {
        DecrementReleases(heap, edges, roots, p);
      } else {
        ReleasingStarts(heap, edges, roots, heap[p := heap[p].(refCount := 0)], p);
        Shape(heap, edges, roots, p);
      }
      heap := heap[p := heap[p].(refCount := heap[p].refCount - 1)];
      roots := roots - multiset{p};
      if heap[p].refCount > 0 {
        DestroyEnds(old(heap), old(edges), old(roots), heap, edges, roots, p);
        return;
      }
      ghost var node, released := heap[p], 0;
      if heap[p].shift > 0 {
        for i := 0 to 256
          invariant Consistent(heap, edges, roots)
          invariant roots == old(roots) - multiset{p}
          invariant Releasing(old(heap), old(edges), heap, edges, p, node, i)
          invariant released == i
        {
          ReleasingCell(old(heap), old(edges), heap, edges, roots, p, node, i);
          ReleaseCellKeeps(heap, edges, roots, (p, i));
          ghost var h, es, rs := heap, edges, roots;
          edges := edges - {(p, i)};
          roots := roots + Handle(node.data[i]);
          Destroy(heap[p].data[i]);
          ReleasingAdvances(old(heap), old(edges), h, es, rs, p, node, i, heap, edges);
          released := i + 1;
        }
      }
      ReleasingEnds(old(heap), old(edges), old(roots), heap, edges, p, node, released);
      FreeKeeps(heap, edges, roots, p);
      heap := heap - {p};
      DestroyEnds(old(heap), old(edges), old(roots), heap, edges, roots, p);
    }

    /** Stores the filled replacement r in p's cell and gives up p's reference to the old child. */
    method Publish(p: Ptr, r: Ptr, index: nat, value: Ptr,
                   ghost h: Heap, ghost es: set<Edge>, ghost rs: multiset<Ptr>, ghost hc: Heap, ghost ec: set<Edge>)
      requires Prepared(h, es, hc, ec, rs, p, r, index)
      requires InsertDone(hc, ec, heap, edges, rs + multiset{r}, r, index, value, true)
      requires roots == rs + multiset{r}
      requires UnheldKept(h, es, hc, ec) && UnheldKept(hc, ec, heap, edges)
      requires |h[p].data| == 256
      requires
        var child := h[p].data[Digit(index, h[p].shift)];
        IsEmptyChild(child) || (child in h && h[child].refCount > 1)
      modifies this`heap, this`roots, this`edges
      ensures InsertDone(h, es, heap, edges, rs, p, index, value, true) && roots == rs
      ensures UnheldKept(h, es, heap, edges)
    {
      hide Consistent, NoDead, InsertDone, Prepared, Released, Wired, Sole, Destroyed, UnheldKept;
      ghost var hr, er := heap, edges;
      PublishSteps(h, es, hc, ec, hr, er, rs, p, r, index, value);
      var i := Digit(index, heap[p].shift);
      var child := heap[p].data[i];
      heap := heap[p := heap[p].(data := heap[p].data[i := r])];
      roots := rs + Handle(child);
      ghost var hp, ep := heap, edges;
      UnheldAtOnce(hp, ep);
      if !IsEmptyChild(child) {
        Destroy(child);
        ReleasedUnheld(hp, ep, heap, edges, child);
      }
      assert roots == rs;
      PreparedKeepsNodes(h, es, hc, ec, rs, p, r, index);
      InsertKeepsNodes(hc, ec, hr, er, rs + multiset{r}, r, index, value, true);
      PublishUnheld(h, es, hc, ec, hr, er, heap, edges, p, i, r);
      PublishEnds(h, es, hc, ec, hr, er, heap, edges, rs, p, r, index, value);
    }

    /** Releases a replacement that could not be filled. */
    method Abandon(p: Ptr, r: Ptr, index: nat, value: Ptr,
                   ghost h: Heap, ghost es: set<Edge>, ghost rs: multiset<Ptr>, ghost hc: Heap, ghost ec: set<Edge>)
      requires Prepared(h, es, hc, ec, rs, p, r, index)
      requires InsertDone(hc, ec, heap, edges, rs + multiset{r}, r, index, value, false)
      requires roots == rs + multiset{r} && r != NULL
      requires UnheldKept(h, es, hc, ec) && UnheldKept(hc, ec, heap, edges)
      modifies this`heap, this`roots, this`edges
      ensures InsertDone(h, es, heap, edges, rs, p, index, value, false) && roots == rs
      ensures UnheldKept(h, es, heap, edges)
    {
      hide Consistent, NoDead, InsertDone, Prepared, Released, Wired, Destroyed, Sole, UnheldKept;
      ghost var hr, er := heap, edges;
      PreparedIsValid(h, es, hc, ec, rs, p, r, index);
      InsertDoneIsValid(hc, ec, hr, er, rs + multiset{r}, r, index, value, false);
      Destroy(r);
      ReleasedUnheld(hr, er, heap, edges, r);
      PreparedKeepsNodes(h, es, hc, ec, rs, p, r, index);
      InsertKeepsNodes(hc, ec, hr, er, rs + multiset{r}, r, index, value, false);
      UnheldComposes(h, es, hc, ec, hr, er);
      UnheldComposes(h, es, hr, er, heap, edges);
      assert roots == rs;
      InsertUndone(h, es, hc, ec, hr, er, heap, edges, rs, p, r, index, value);
    }

    /** The child that an insert into p descends to: the child itself if only p holds it, otherwise
        a fresh or copied node that is to replace it. */
    method OwnChild(p: Ptr, index: nat) returns (replacement: Ptr, publish: bool)
      requires Valid() && p in heap && !IsEmptyChild(p) && heap[p].shift > 0
      modifies this
      ensures |old(heap)[p].data| == 256
      ensures replacement == NULL <==> failures > old(failures)
      ensures failures >= old(failures)
      ensures replacement == NULL || !publish ==> heap == old(heap) && edges == old(edges) && roots == old(roots)
      ensures replacement != NULL && !publish ==>
        && replacement == heap[p].data[Digit(index, heap[p].shift)] && replacement in heap && !IsEmptyChild(replacement)
        && heap[replacement].refCount == 1 && heap[replacement].shift == heap[p].shift - 8
      ensures UnheldKept(old(heap), old(edges), heap, edges) && Sole(heap, roots)
      ensures replacement != NULL && publish ==>
        && Prepared(old(heap), old(edges), heap, edges, old(roots), p, replacement, index)
        && roots == old(roots) + multiset{replacement}
        && var child := old(heap)[p].data[Digit(index, old(heap)[p].shift)];
           IsEmptyChild(child) || (child in old(heap) && old(heap)[child].refCount > 1)
    {
      hide Consistent, NoDead, Prepared, Wired, Shared, Sole, UnheldKept;
      UnheldAtOnce(heap, edges);
      Shape(heap, edges, roots, p);
      var i := Digit(index, heap[p].shift);
      var child := heap[p].data[i];
      ChildShape(heap, edges, roots, p, i);
      replacement, publish := child, false;
      if IsEmptyChild(child) {
        replacement := NewNode(heap[p].shift - 8);
        publish := true;
        if replacement != NULL {
          FreshIsPrepared(old(heap), old(edges), old(roots), p, replacement, index);
          FreshIsSole(old(heap), old(edges), old(roots), replacement, old(heap)[p].shift - 8);
        }
      } else if heap[child].refCount > 1 {
        replacement := Copy(child);
        publish := true;
        if replacement != NULL {
          CopyIsPrepared(old(heap), old(edges), heap, edges, old(roots), p, child, replacement, index);
        }
      }
    }

    /** Stores value at index, copying every node on the way that another array also holds. */
    method Insert(p: Ptr, index: nat, value: Ptr) returns (ok: bool)
      requires Valid()
      requires p != NULL ==> p in heap && !IsEmptyChild(p) && heap[p].refCount == 1
      modifies this
      ensures Valid() && roots == old(roots)
      ensures p != NULL ==> (!ok <==> failures > old(failures))
      ensures failures >= old(failures)
      ensures p == NULL ==> !ok && heap == old(heap) && edges == old(edges)
      ensures p != NULL ==> InsertDone(old(heap), old(edges), heap, edges, roots, p, index, value, ok)
      ensures UnheldKept(old(heap), old(edges), heap, edges)
      ensures p in roots ==> OthersKept(old(heap), heap, roots, p)
      decreases if p in heap then heap[p].shift else 0
    {
      hide Consistent, NoDead, InsertDone, Prepared, Released, Wired, Shared, HeldKept, Live, Sole, UnheldKept, OthersKept;
      UnheldAtOnce(heap, edges);
      if p == NULL {
        NullIsNoHandle(heap, edges, roots);
        return false;
      }
      Shape(heap, edges, roots, p);
      InsertNothing(heap, edges, roots, p, index, value);
      if heap[p].shift == 0 {
        InsertLeaf(heap, edges, roots, p, index, value);
        heap := heap[p := heap[p].(data := heap[p].data[Digit(index, 0) := value])];
        LeafIsUnheld(old(heap), old(edges), old(roots), p, heap[p].data);
        InsertEnds(old(heap), old(edges), heap, edges, roots, p, index, value, true);
        return true;
      }
      ghost var child := heap[p].data[Digit(index, heap[p].shift)];
      var replacement, publish := OwnChild(p, index);
      if replacement == NULL {
        InsertEnds(old(heap), old(edges), heap, edges, roots, p, index, value, false);
        return false;
      }
      ghost var hc, ec := heap, edges;
      if publish {
        PreparedIsValid(old(heap), old(edges), heap, edges, old(roots), p, replacement, index);
      }
      ok := Insert(replacement, index, value);
      if !ok {
        if publish {
          Abandon(p, replacement, index, value, old(heap), old(edges), old(roots), hc, ec);
        } else {
          InsertDescends(old(heap), old(edges), heap, edges, old(roots), p, child, index, value, false);
        }
        InsertEnds(old(heap), old(edges), heap, edges, old(roots), p, index, value, false);
        return false;
      }
      if publish {
        Publish(p, replacement, index, value, old(heap), old(edges), old(roots), hc, ec);
      } else {
        InsertDescends(old(heap), old(edges), heap, edges, old(roots), p, child, index, value, true);
      }
      InsertEnds(old(heap), old(edges), heap, edges, old(roots), p, index, value, true);
      return true;
    }

    method NewWithDepth(depth: nat) returns (p: Ptr)
      requires Valid()
      modifies this
      ensures Valid()
      ensures p == NULL <==> !ValidDepth(depth) || failures > old(failures)
      ensures p == NULL ==> heap == old(heap) && roots == old(roots) && edges == old(edges)
      ensures p != NULL ==>
        && p !in old(heap) && heap == old(heap)[p := Node(depth - 8, 1, InitialData(depth - 8))]
        && roots == old(roots) + multiset{p}
        && Wired(heap) && forall j: nat :: Lookup(heap, p, j) == NULL
    {
      if !ValidDepth(depth) {
        return NULL;
      }
      p := NewNode(depth - 8);
      if p != NULL {
        FreshIsSole(old(heap), old(edges), old(roots), p, depth - 8);
        ConsistentIsWired(heap, edges, roots);
        forall j: nat
          ensures Lookup(heap, p, j) == NULL
        {
          FreshNodeIsNull(heap, p, j);
        }
      }
    }

    /** Any operation on an array the caller holds keeps memory valid, so that the next may follow,
        and leaves every other array that is held before and after as it was. */
    method Perform(op: Operation) returns (result: Ptr)
      requires Valid() && (op.New? || op.handle in roots)
      modifies this
      ensures Valid()
      ensures OthersKept(old(heap), heap, old(roots) * roots, if op.New? then NULL else op.handle)
    {
      hide Consistent, Released, InsertDone, ExpandDone, OthersKept, HeldKept, Wired, SameContents, NoDead;
      ghost var h, es, rs := heap, edges, roots;
      HandlesAreArrays(h, es, rs);
      result := NULL;
      match op
      case New(depth) =>
        result := NewWithDepth(depth);
        GrownHeapKeeps(h, es, rs, heap, edges, roots, rs * roots, NULL);
      case CopyOf(p) =>
        result := Copy(p);
        if result == NULL {
          GrownHeapKeeps(h, es, rs, heap, edges, roots, rs * roots, p);
        } else {
          CopyKeepsOthers(h, es, rs, heap, edges, roots, p, result, rs * roots);
        }
      case InsertAt(p, index, value) =>
        var _ := Insert(p, index, value);
        FewerKept(h, heap, roots, rs * roots, p, p);
      case Drop(p) =>
        Destroy(p);
        HeldAreKept(h, heap, roots, rs * roots, p);
      case Grow(p, depth) =>
        result := Expand(p, depth);
        if result == NULL {
          GrownHeapKeeps(h, es, rs, heap, edges, roots, rs * roots, p);
        } else {
          GrownArray(h, rs, p, heap, roots, result, depth);
          FewerKept(h, heap, roots, rs * roots, result, p);
        }
    }

    /** Frees the levels that an expansion had added so far. */
    method TakeDown(top: Ptr, p: Ptr, ghost h0: Heap, ghost tower: seq<Ptr>)
      requires |tower| > 0 && top == tower[|tower| - 1] && Tower(h0, heap, p, tower)
      modifies this`heap
      ensures heap == h0
    {
      hide Tower;
      var root := top;
      ghost var added := tower;
      while root != p
        invariant |added| > 0 && root == added[|added| - 1] && Tower(h0, heap, p, added)
        decreases |added|
      {
        TowerTop(h0, heap, p, added);
        var child := heap[root].data[0];
        heap := heap - {root};
        root := child;
        added := added[..|added| - 1];
      }
      TowerBottom(h0, heap, p, added);
    }

    /** Stacks levels on top of the array p until it has the new depth; a failed allocation
        takes them all down again. */
    method Expand(p: Ptr, newDepth: nat) returns (r: Ptr)
      requires Valid()
      requires p != NULL ==> p in roots
      modifies this
      ensures Valid()
      ensures r == NULL ==> heap == old(heap) && roots == old(roots) && edges == old(edges)
      ensures r == NULL <==>
        p == NULL || !ValidDepth(newDepth) || newDepth < old(heap)[p].shift + 8 || failures > old(failures)
      ensures p != NULL && newDepth == old(heap)[p].shift + 8 ==> r == p && heap == old(heap)
      ensures r != NULL ==> ExpandDone(old(heap), old(roots), p, heap, roots, r, newDepth) && OthersKept(old(heap), heap, roots, r)
    {
      hide ValidDepth, ExpandedNode, OthersKept, Sole, Live, SameContents, Expanding, ExpandDone, Consistent, NoDead, Tower, FirstCells, Capacity, Lookup, Wired, InitialData;
      if p != NULL {
        ExpandStarts(heap, edges, roots, p);
        OwnDepth(heap[p].shift);
      }
      if p == NULL || !ValidDepth(newDepth) || newDepth < heap[p].shift + 8 {
        return NULL;
      }
      var root := p;
      ghost var added := [p];
      while heap[root].shift + 8 < newDepth
        invariant root in heap && heap[root].shift <= newDepth - 8
        invariant Expanding(old(heap), old(roots), p, heap, edges, roots, added, root) && failures == old(failures)
        invariant heap[root].shift > old(heap)[p].shift || (root == p && heap == old(heap))
        decreases newDepth - heap[root].shift
      {
        NextLevel(heap[root].shift, newDepth, root);
        var e := Calloc();
        if e == NULL {
          ExpandingTower(old(heap), old(roots), p, heap, edges, roots, added, root);
          TakeDown(root, p, old(heap), added);
          roots, edges := old(roots), old(edges);
          return NULL;
        }
        ExpandAdvances(old(heap), old(roots), p, heap, edges, roots, added, root, e);
        heap := heap[e := ExpandedNode(heap[root].shift + 8, root)];
        edges := edges + FirstCells(e, 256);
        roots := old(roots) - multiset{p} + multiset{e};
        added := added + [e];
        root := e;
      }
      ExpandingTower(old(heap), old(roots), p, heap, edges, roots, added, root);
      ExpandEnds(old(heap), old(roots), p, heap, edges, roots, added, root);
      ExpandKeepsOthers(old(heap), old(roots), p, heap, roots, root, heap[root].shift + 8);
      return root;
    }

    /** The first entry at or after start below node p, which covers the indices from prefix. */
    method FindFrom(p: Ptr, start: nat, prefix: nat) returns (value: Ptr, found: nat)
      requires Wired(heap) && StaticsIntact(heap) && Live(heap, p) && prefix % Capacity(heap[p].shift) == 0
      ensures FoundInRange(heap, p, start, prefix, value, found)
      ensures FoundFirst(heap, p, start, prefix, value, found)
      ensures FoundBeyond(heap, p, start, prefix, value)
      decreases heap[p].shift
    {
      var shift := heap[p].shift;
      var first := Digit(start, shift);
      FirstSlot(start, prefix, shift);
      NothingBefore(heap, p, start, prefix);
      hide FoundInRange, FoundFirst, FoundBeyond, Scanned, Wired, StaticsIntact, Capacity, Base, Digit;
      for slot := first to 256
        invariant Scanned(heap, p, start, prefix, first, slot)
      {
        var slotPrefix := prefix + slot * Base(shift);
        if shift == 0 {
          value := heap[p].data[slot];
          LeafSlot(heap, p, start, prefix, first, slot);
          if value != NULL && slotPrefix >= start {
            found := slotPrefix;
            LeafFound(heap, p, start, prefix, first, slot);
            return;
          }
        } else {
          ChildSlot(heap, p, prefix, slot);
          var child := heap[p].data[slot];
          if IsEmptyChild(child) {
            EmptySlot(heap, p, start, prefix, first, slot);
          } else {
            var childStart := if slot == first then start else slotPrefix;
            value, found := FindFrom(child, childStart, slotPrefix);
            SlotResult(heap, p, start, prefix, first, slot, childStart, value, found);
            if value != NULL {
              return;
            }
          }
        }
      }
      value, found := NULL, 0;
      AllScanned(heap, p, start, prefix, first);
    }

    /** The entry after idx.  The new idx is that entry's index, or UINT32_MAX when there is none. */
    method Next(p: Ptr, idx: nat) returns (value: Ptr, idx': nat)
      requires Valid() && idx <= UINT32_MAX && (p != NULL ==> p in heap)
      ensures p == NULL || idx == UINT32_MAX ==> value == NULL && idx' == idx
      ensures p != NULL ==> Wired(heap)
      ensures p != NULL && idx < UINT32_MAX ==>
        && (value == NULL ==> idx' == UINT32_MAX)
        && (value != NULL ==> idx' < Capacity(heap[p].shift) && value == Lookup(heap, p, idx'))
      // Below the last index: the least entry above idx.
      ensures p != NULL && idx + 1 < Capacity(heap[p].shift) ==>
        if value == NULL then NullBetween(heap, p, idx + 1, Capacity(heap[p].shift))
        else idx < idx' && NullBetween(heap, p, idx + 1, idx')
      // At an occupied last index the enumeration stops for depths 8 and 32 only.
      ensures p != NULL && idx + 1 == Capacity(heap[p].shift) && Lookup(heap, p, idx) != NULL ==>
        (value == NULL <==> heap[p].shift == 0 || heap[p].shift == 24)
    {
      ConsistentIsWired(heap, edges, roots);
      if p == NULL || idx == UINT32_MAX {
        return NULL, idx;
      }
      value, idx' := FindFrom(p, idx + 1, 0);
      if value == NULL {
        idx' := UINT32_MAX;
      }
    }

    /** Counts the tracing hooks that lie in an image, by enumerating the table of hooks. */
    method CountHookReferences(p: Ptr, base: nat, size: nat) returns (count: nat)
      requires Valid() && p in heap && Wired(heap)
      requires LastIsSafe(heap, p)
      ensures count == |HooksInRange(heap, p, Capacity(heap[p].shift), base, size)|
    {
      hide HooksInRange, NullBetween;
      count := 0;
      var idx := 0;
      var hook := NULL;
      hook, idx := Next(p, idx);
      NoHooksYet(heap, p, base, size);
      NoHooksBetween(heap, p, 1, if hook == NULL then Capacity(heap[p].shift) else idx, base, size);
      while hook != NULL
        invariant hook == NULL ==> count == |HooksInRange(heap, p, Capacity(heap[p].shift), base, size)|
        invariant hook != NULL ==>
          && 0 < idx < Capacity(heap[p].shift) && hook == Lookup(heap, p, idx)
          && count == |HooksInRange(heap, p, idx, base, size)|
        decreases hook != NULL, Capacity(heap[p].shift) - idx
      {
        OneMoreHook(heap, p, idx, base, size);
        if hook >= base && hook - base < size {
          count := count + 1;
        }
        ghost var before := idx;
        EndIsEmpty(heap, p);
        hook, idx := Next(p, idx);
        NoHooksBetween(heap, p, before + 1, if hook == NULL then Capacity(heap[p].shift) else idx, base, size);
      }
    }

    /** The loop over all entries that starts at 0 and calls Next until it returns NULL: every
        entry above 0 once, in ascending order. */
    method Enumerate(p: Ptr) returns (visited: seq<nat>)
      requires Valid() && p in heap && Wired(heap)
      requires LastIsSafe(heap, p)
      ensures Visits(heap, p, visited, Capacity(heap[p].shift))
    {
      hide Visits, NullBetween;
      visited := [];
      NothingVisited(heap, p);
      var value, idx := Next(p, 0);
      VisitsSkip(heap, p, visited, 1, if value == NULL then Capacity(heap[p].shift) else idx);
      while value != NULL
        invariant value == NULL ==> Visits(heap, p, visited, Capacity(heap[p].shift))
        invariant value != NULL ==>
          0 < idx < Capacity(heap[p].shift) && value == Lookup(heap, p, idx) && Visits(heap, p, visited, idx)
        decreases value != NULL, Capacity(heap[p].shift) - idx
      {
        VisitsOne(heap, p, visited, idx);
        visited := visited + [idx];
        ghost var before := idx;
        EndIsEmpty(heap, p);
        value, idx := Next(p, idx);
        VisitsSkip(heap, p, visited, before + 1, if value == NULL then Capacity(heap[p].shift) else idx);
      }
    }
  }

  /** The indices from 1 up to end that hold an entry, in ascending order. */
  ghost predicate Visits(h: Heap, p: Ptr, visited: seq<nat>, end: nat)
    requires Wired(h) && Live(h, p)
  {
    && (forall i, j :: 0 <= i < j < |visited| ==> visited[i] < visited[j])
    && (forall k: nat :: k in visited <==> 1 <= k < end && Lookup(h, p, k) != NULL)
  }

  lemma NothingVisited(h: Heap, p: Ptr)
    requires Wired(h) && Live(h, p)
    ensures Visits(h, p, [], 1)
  {
  }

  lemma EndIsEmpty(h: Heap, p: Ptr)
    requires Wired(h) && Live(h, p)
    ensures NullBetween(h, p, Capacity(h[p].shift), Capacity(h[p].shift))
  {
  }

  lemma VisitsSkip(h: Heap, p: Ptr, visited: seq<nat>, lo: nat, hi: nat)
    requires Wired(h) && Live(h, p) && lo <= hi && NullBetween(h, p, lo, hi) && Visits(h, p, visited, lo)
    ensures Visits(h, p, visited, hi)
  {
  }

  lemma VisitsOne(h: Heap, p: Ptr, visited: seq<nat>, k: nat)
    requires Wired(h) && Live(h, p) && k >= 1 && Visits(h, p, visited, k) && Lookup(h, p, k) != NULL
    ensures Visits(h, p, visited + [k], k + 1)
  {
    assert forall i :: 0 <= i < |visited| ==> visited[i] in visited;
    assert forall x :: x in visited + [k] <==> x in visited || x == k;
  }

  /** The unrolled lookup that message dispatch inlines, one case for each depth. */
  function UnrolledLookup(h: Heap, p: Ptr, i: nat): (value: Ptr)
    requires Wired(h) && Live(h, p) && i <= UINT32_MAX
    ensures value == Lookup(h, p, i)
  {
    DigitsByMask(i);
    if h[p].shift == 0 then
      h[p].data[i % 0x100]
    else if h[p].shift == 8 then
      assert GoodCell(h, p, Digit(i, 8));
      var p1 := h[p].data[(i % 0x1_0000) / 0x100];
      h[p1].data[i % 0x100]
    else if h[p].shift == 16 then
      assert GoodCell(h, p, Digit(i, 16));
      var p1 := h[p].data[(i % 0x100_0000) / 0x1_0000];
      assert GoodCell(h, p1, Digit(i, 8));
      var p2 := h[p1].data[(i % 0x1_0000) / 0x100];
      assert Lookup(h, p, i) == Lookup(h, p1, i) == Lookup(h, p2, i);
      h[p2].data[i % 0x100]
    else
      assert GoodCell(h, p, Digit(i, 24));
      var p1 := h[p].data[i / 0x100_0000];
      assert GoodCell(h, p1, Digit(i, 16));
      var p2 := h[p1].data[(i % 0x100_0000) / 0x1_0000];
      assert GoodCell(h, p2, Digit(i, 8));
      var p3 := h[p2].data[(i % 0x1_0000) / 0x100];
      assert Lookup(h, p, i) == Lookup(h, p1, i) == Lookup(h, p2, i) == Lookup(h, p3, i);
      h[p3].data[i % 0x100]
  }
}
