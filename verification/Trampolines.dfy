/**
  Binding blocks to trampolines and back: imp_implementationWithBlock, imp_getBlock,
  imp_removeBlock, and the count of references that keeps an image from being
  unloaded while a bound or retiring block still points into it.
 */
module Trampolines {
  import opened Basics
  import opened Arithmetic
  import opened TrampolinePages

  const SNAPSHOT_CAPACITY: nat := 7

  /** What a block object refers to.  A descriptor without helpers may still have a signature. */
  datatype Block = Block(invoke: Addr, descriptor: Addr, hasHelpers: bool, copyHelper: Addr, disposeHelper: Addr,
                         hasSignature: bool, encoding: Addr)

  /** A removed block whose release has not returned yet. */
  datatype Retiring = Retiring(ticket: nat, refs: seq<Addr>)

  type Pages = map<Addr, Page>

  // ---------------------------------------------------------------------------
  // References of a bound block
  // ---------------------------------------------------------------------------

  /** Everything a bound block keeps in use. */
  ghost function References(fnptr: Addr, block: Addr, b: Block): set<Addr> {
    {fnptr, block, b.invoke, b.descriptor}
    + (if b.descriptor != NULL && b.hasHelpers then {b.copyHelper, b.disposeHelper} else {})
    + (if b.descriptor != NULL && b.hasSignature then {b.encoding} else {})
    - {NULL}
  }

  /** block_snapshot_add: drops NULL, and anything past the capacity. */
  function SnapshotAdd(refs: seq<Addr>, a: Addr): seq<Addr> {
    if a == NULL || |refs| >= SNAPSHOT_CAPACITY then refs else refs + [a]
  }

  ghost function Elements(refs: seq<Addr>): set<Addr> {
    set a | a in refs
  }

  /** Below the capacity nothing but NULL is dropped. */
  lemma SnapshotHolds(refs: seq<Addr>, a: Addr)
    requires |refs| < SNAPSHOT_CAPACITY
    ensures Elements(SnapshotAdd(refs, a)) == Elements(refs) + ({a} - {NULL})
    ensures |SnapshotAdd(refs, a)| <= |refs| + 1
  {
    assert forall x :: x in refs + [a] <==> x in refs || x == a;
  }

  /** block_snapshot_capture: seven entries are enough, nothing is truncated.  The addresses are
      those of the block's code, of the block and its descriptor, and of what the descriptor has. */
  method Capture(fnptr: Addr, block: Addr, b: Block) returns (refs: seq<Addr>)
    ensures Elements(refs) == References(fnptr, block, b) && |refs| <= SNAPSHOT_CAPACITY
    ensures forall a :: a in refs <==>
      && a != NULL
      && (|| a == fnptr || a == block || a == b.invoke || a == b.descriptor
          || (b.descriptor != NULL && b.hasHelpers && (a == b.copyHelper || a == b.disposeHelper))
          || (b.descriptor != NULL && b.hasSignature && a == b.encoding))
  {
    NothingHeld();
    hide Elements, SnapshotAdd;
    refs := [];
    SnapshotHolds(refs, fnptr);
    refs := SnapshotAdd(refs, fnptr);
    SnapshotHolds(refs, block);
    refs := SnapshotAdd(refs, block);
    SnapshotHolds(refs, b.invoke);
    refs := SnapshotAdd(refs, b.invoke);
    SnapshotHolds(refs, b.descriptor);
    refs := SnapshotAdd(refs, b.descriptor);
    assert Elements(refs) == {fnptr, block, b.invoke, b.descriptor} - {NULL};
    if b.descriptor == NULL {
      WrittenOut(fnptr, block, b, refs);
      return;
    }
    if b.hasHelpers {
      SnapshotHolds(refs, b.copyHelper);
      refs := SnapshotAdd(refs, b.copyHelper);
      SnapshotHolds(refs, b.disposeHelper);
      refs := SnapshotAdd(refs, b.disposeHelper);
      assert Elements(refs) == {fnptr, block, b.invoke, b.descriptor, b.copyHelper, b.disposeHelper} - {NULL};
      if b.hasSignature {
        SnapshotHolds(refs, b.encoding);
        refs := SnapshotAdd(refs, b.encoding);
      }
    } else if b.hasSignature {
      SnapshotHolds(refs, b.encoding);
      refs := SnapshotAdd(refs, b.encoding);
    }
    WrittenOut(fnptr, block, b, refs);
  }

  lemma WrittenOut(fnptr: Addr, block: Addr, b: Block, refs: seq<Addr>)
    requires Elements(refs) == References(fnptr, block, b)
    ensures forall a :: a in refs <==>
      && a != NULL
      && (|| a == fnptr || a == block || a == b.invoke || a == b.descriptor
          || (b.descriptor != NULL && b.hasHelpers && (a == b.copyHelper || a == b.disposeHelper))
          || (b.descriptor != NULL && b.hasSignature && a == b.encoding))
  {
    assert forall a :: a in refs <==> a in Elements(refs);
  }

  lemma NothingHeld()
    ensures Elements([]) == {}
  {
  }

  predicate InRange(a: Addr, base: Addr, size: nat) {
    base <= a < base + size
  }

  /** The address is NULL or not in the range. */
  ghost predicate Outside(a: Addr, base: Addr, size: nat) {
    a == NULL || a < base || base + size <= a
  }

  ghost predicate Hits(refs: set<Addr>, base: Addr, size: nat) {
    exists a :: a in refs && InRange(a, base, size)
  }

  /** count_block_snapshot: the counter stops at its maximum instead of wrapping. */
  method CountSnapshot(refs: seq<Addr>, base: Addr, size: nat, before: nat) returns (count: nat)
    requires before <= SIZE_MAX
    ensures before <= count <= SIZE_MAX
    ensures count == 0 <==> before == 0 && !Hits(Elements(refs), base, size)
  {
    count := before;
    for i := 0 to |refs|
      invariant before <= count <= SIZE_MAX
      invariant count == 0 <==> before == 0 && forall k :: 0 <= k < i ==> !InRange(refs[k], base, size)
    {
      if count != SIZE_MAX && InRange(refs[i], base, size) {
        count := count + 1;
      }
    }
    assert forall k :: 0 <= k < |refs| ==> refs[k] in Elements(refs);
  }

  // ---------------------------------------------------------------------------
  // The pages together
  // ---------------------------------------------------------------------------

  ghost predicate Apart(y: Layout, a: Addr, b: Addr) {
    a + 2 * PageSize(y) <= b || b + 2 * PageSize(y) <= a
  }

  ghost predicate PagesOk(y: Layout, pages: Pages, free: map<Addr, seq<nat>>) {
    && pages.Keys == free.Keys
    && (forall r :: r in pages ==> pages[r].region == r && PageOk(y, pages[r], free[r]))
    && (forall r, q :: r in pages && q in pages && r != q ==> Apart(y, r, q))
  }

  ghost predicate LiveSlot(y: Layout, pages: Pages, free: map<Addr, seq<nat>>, r: Addr, i: nat) {
    r in pages && r in free && i < y.slots && i < |pages[r].headers| && i !in free[r]
  }

  /** The live map is what the occupied slots hold. */
  ghost predicate LiveOk(y: Layout, pages: Pages, free: map<Addr, seq<nat>>, live: map<Addr, Addr>) {
    && (forall r, i: nat :: LiveSlot(y, pages, free, r, i) ==>
          ImpAddr(y, r, i) in live && live[ImpAddr(y, r, i)] == pages[r].headers[i].block)
    && (forall imp :: imp in live ==> exists r, i: nat :: LiveSlot(y, pages, free, r, i) && ImpAddr(y, r, i) == imp)
  }

  /** A page of the list has a free slot. */
  ghost predicate HasFree(pages: Pages, list: seq<Addr>) {
    exists r :: r in list && r in pages && pages[r].firstFree != -1
  }

  /** An implementation address belongs to one slot of one page. */
  lemma ImpIsUnique(y: Layout, pages: Pages, free: map<Addr, seq<nat>>, r: Addr, i: nat, q: Addr, j: nat)
    requires GoodLayout(y) && PagesOk(y, pages, free) && r in pages && q in pages && i < y.slots && j < y.slots
    requires ImpAddr(y, r, i) == ImpAddr(y, q, j)
    ensures r == q && i == j
  {
    hide ImpAddr, SlotAt, PageSize, PageOk, GoodLayout;
    ImpIsInCode(y, r, i);
    ImpIsInCode(y, q, j);
  }

  /** The code page of r contains the address. */
  predicate InCode(y: Layout, r: Addr, imp: Addr) {
    r + PageSize(y) <= imp < r + 2 * PageSize(y)
  }

  lemma ImpIsInCode(y: Layout, r: Addr, i: nat)
    requires GoodLayout(y) && i < y.slots
    ensures InCode(y, r, ImpAddr(y, r, i)) && SlotAt(y, ImpAddr(y, r, i) - (r + PageSize(y))) == i
  {
    SlotRoundTrip(y, i);
  }

  /** A page changes, everything else stays. */
  lemma UpdatePage(y: Layout, pages: Pages, free: map<Addr, seq<nat>>, r: Addr, p: Page, list: seq<nat>)
    requires PagesOk(y, pages, free) && r in pages && p.region == r && PageOk(y, p, list)
    ensures PagesOk(y, pages[r := p], free[r := list])
  {
  }

  lemma BindKeepsLive(y: Layout, pages: Pages, free: map<Addr, seq<nat>>, live: map<Addr, Addr>, r: Addr, p: Page, block: Addr)
    requires GoodLayout(y) && PagesOk(y, pages, free) && LiveOk(y, pages, free, live) && r in pages && free[r] != []
    requires p.region == r && PageOk(y, p, free[r][1..]) && |p.headers| == |pages[r].headers| && free[r][0] < y.slots
    requires forall i: nat :: i < |p.headers| && i != free[r][0] ==> p.headers[i].block == pages[r].headers[i].block
    requires p.headers[free[r][0]].block == block
    ensures ImpAddr(y, r, free[r][0]) !in live
    ensures LiveOk(y, pages[r := p], free[r := free[r][1..]], live[ImpAddr(y, r, free[r][0]) := block])
  {
    var slot, imp := free[r][0], ImpAddr(y, r, free[r][0]);
    var pages', free', live' := pages[r := p], free[r := free[r][1..]], live[imp := block];
    TailMembers(free[r]);
    assert slot !in free'[r];
    UpdatePage(y, pages, free, r, p, free'[r]);
    hide PageOk, ImpAddr, PageSize, GoodLayout, PagesOk;
    if imp in live {
      var q, j: nat :| LiveSlot(y, pages, free, q, j) && ImpAddr(y, q, j) == imp;
      ImpIsUnique(y, pages, free, r, slot, q, j);
    }
    forall q, j: nat | LiveSlot(y, pages', free', q, j)
      ensures ImpAddr(y, q, j) in live' && live'[ImpAddr(y, q, j)] == pages'[q].headers[j].block
    {
      if q == r && j == slot {
      } else {
        assert LiveSlot(y, pages, free, q, j);
        if ImpAddr(y, q, j) == imp {
          ImpIsUnique(y, pages, free, r, slot, q, j);
        }
      }
    }
    forall x | x in live'
      ensures exists q, j: nat :: LiveSlot(y, pages', free', q, j) && ImpAddr(y, q, j) == x
    {
      if x == imp {
        assert LiveSlot(y, pages', free', r, slot);
      } else {
        var q, j: nat :| LiveSlot(y, pages, free, q, j) && ImpAddr(y, q, j) == x;
        assert LiveSlot(y, pages', free', q, j);
      }
    }
  }

  lemma FreeKeepsLive(y: Layout, pages: Pages, free: map<Addr, seq<nat>>, live: map<Addr, Addr>, r: Addr, slot: nat, p: Page)
    requires GoodLayout(y) && PagesOk(y, pages, free) && LiveOk(y, pages, free, live) && LiveSlot(y, pages, free, r, slot)
    requires p.region == r && PageOk(y, p, [slot] + free[r])
    requires forall i: nat :: i < |p.headers| && i < |pages[r].headers| && i != slot ==> p.headers[i].block == pages[r].headers[i].block
    ensures LiveOk(y, pages[r := p], free[r := [slot] + free[r]], live - {ImpAddr(y, r, slot)})
  {
    var imp := ImpAddr(y, r, slot);
    var pages', free', live' := pages[r := p], free[r := [slot] + free[r]], live - {imp};
    PageOf(y, pages, free, r);
    assert |p.headers| == y.slots;
    hide PageOk, ImpAddr, PageSize, GoodLayout, PagesOk;
    forall q, j: nat
      ensures LiveSlot(y, pages', free', q, j) <==> LiveSlot(y, pages, free, q, j) && (q != r || j != slot)
    {
      SlotsAfterFree(y, pages, free, r, slot, p, q, j);
    }
    forall q, j: nat | LiveSlot(y, pages', free', q, j)
      ensures ImpAddr(y, q, j) in live' && live'[ImpAddr(y, q, j)] == pages'[q].headers[j].block
    {
      if ImpAddr(y, q, j) == imp {
        ImpIsUnique(y, pages, free, r, slot, q, j);
      }
    }
    hide LiveSlot;
    forall x | x in live'
      ensures exists q, j: nat :: LiveSlot(y, pages', free', q, j) && ImpAddr(y, q, j) == x
    {
      var q, j: nat :| LiveSlot(y, pages, free, q, j) && ImpAddr(y, q, j) == x;
      assert LiveSlot(y, pages', free', q, j);
    }
  }

  lemma SlotsAfterFree(y: Layout, pages: Pages, free: map<Addr, seq<nat>>, r: Addr, slot: nat, p: Page, q: Addr, j: nat)
    requires r in pages && r in free && |p.headers| == |pages[r].headers|
    ensures LiveSlot(y, pages[r := p], free[r := [slot] + free[r]], q, j) <==>
            LiveSlot(y, pages, free, q, j) && (q != r || j != slot)
  {
    var longer := [slot] + free[r];
    assert longer[1..] == free[r];
    TailMembers(longer);
  }

  lemma NewPageKeepsLive(y: Layout, pages: Pages, free: map<Addr, seq<nat>>, live: map<Addr, Addr>, r: Addr)
    requires GoodLayout(y) && PagesOk(y, pages, free) && LiveOk(y, pages, free, live) && r !in pages && r > 0
    requires forall q :: q in pages ==> Apart(y, q, r)
    ensures
      var pages', free' := pages[r := Page(r, FreshHeaders(y, r), 0)], free[r := AllSlots(y)];
      PagesOk(y, pages', free') && LiveOk(y, pages', free', live)
  {
    var pages', free' := pages[r := Page(r, FreshHeaders(y, r), 0)], free[r := AllSlots(y)];
    FreshPageOk(y, r);
    AllSlotsHold(y);
    hide AllSlots, FreshHeaders, PageOk, ImpAddr, PageSize, GoodLayout;
    forall q, j: nat
      ensures LiveSlot(y, pages', free', q, j) <==> LiveSlot(y, pages, free, q, j)
    {
    }
    assert PagesOk(y, pages', free');
    hide PagesOk;
    forall imp | imp in live
      ensures exists q, j: nat :: LiveSlot(y, pages', free', q, j) && ImpAddr(y, q, j) == imp
    {
      var q, j: nat :| LiveSlot(y, pages, free, q, j) && ImpAddr(y, q, j) == imp;
      assert LiveSlot(y, pages', free', q, j);
    }
  }

  // ---------------------------------------------------------------------------
  // The allocator
  // ---------------------------------------------------------------------------

  class Allocator {
    const layout: Layout
    /** All trampoline sets, by the address of their region. */
    var pages: Pages
    var trampolines: seq<Addr>
    var sretTrampolines: seq<Addr>
    /** The block objects that headers point to. */
    var blocks: map<Addr, Block>
    var retiring: seq<Retiring>
    ghost var free: map<Addr, seq<nat>>
    ghost var live: map<Addr, Addr>

    ghost predicate Valid()
      reads this
    {
      && GoodLayout(layout) && PagesOk(layout, pages, free) && LiveOk(layout, pages, free, live)
      && (forall r :: r in pages <==> r in trampolines || r in sretTrampolines)
      && (forall imp :: imp in live ==> live[imp] in blocks)
      && TicketsDistinct(retiring)
    }

    constructor (layout: Layout)
      requires GoodLayout(layout)
      ensures Valid() && live == map[] && retiring == [] && this.layout == layout
    {
      this.layout := layout;
      pages, trampolines, sretTrampolines, blocks, retiring := map[], [], [], map[], [];
      free, live := map[], map[];
    }

    /** indexForIMP on one of the two lists. */
    method IndexForImp(imp: Addr, list: seq<Addr>) returns (found: bool, r: Addr, i: nat)
      requires Valid() && forall q :: q in list ==> q in pages
      ensures found ==> r in list && InCode(layout, r, imp) && i == SlotAt(layout, imp - (r + PageSize(layout)))
      ensures !found ==> forall q :: q in list ==> !InCode(layout, q, imp)
    {
      for k := 0 to |list|
        invariant forall j :: 0 <= j < k ==> !InCode(layout, list[j], imp)
      {
        r := list[k];
        if InCode(layout, r, imp) {
          return true, r, SlotAt(layout, imp - (r + PageSize(layout)));
        }
      }
      return false, 0, 0;
    }

    /** The slot of an address, looked for in both lists; a live address is found at its slot. */
    method Locate(imp: Addr) returns (found: bool, r: Addr, i: nat)
      requires Valid()
      ensures found ==> r in pages && InCode(layout, r, imp) && i < layout.slots && i < |pages[r].headers|
      ensures found ==> i == SlotAt(layout, imp - (r + PageSize(layout)))
      ensures !found ==> forall q :: q in pages ==> !InCode(layout, q, imp)
      ensures imp in live ==> found && LiveSlot(layout, pages, free, r, i) && ImpAddr(layout, r, i) == imp
    {
      hide LiveOk, PagesOk, GoodLayout, TicketsDistinct, SlotAt, PageSize, ImpAddr, LiveSlot;
      found, r, i := IndexForImp(imp, trampolines);
      if !found {
        found, r, i := IndexForImp(imp, sretTrampolines);
      }
      if imp in live {
        LocateLive(layout, pages, free, live, imp, found, r, i);
      }
      if found {
        PageOf(layout, pages, free, r);
        SlotInPage(layout, imp - (r + PageSize(layout)));
      }
    }

    /** imp_getBlock inverts the binding. */
    method GetBlock(imp: Addr) returns (block: Addr)
      requires Valid()
      ensures imp in live ==> block == live[imp]
      ensures (forall r :: r in pages ==> !InCode(layout, r, imp)) ==> block == NULL
      ensures forall r, i: nat :: r in pages && r in free && i < layout.slots && i in free[r] && imp == ImpAddr(layout, r, i) ==>
        block == NULL || InHeaders(layout, r, block)
    {
      hide LiveOk, PagesOk, PageOk, TicketsDistinct, GoodLayout;
      var found, r, i := Locate(imp);
      if found && imp in live {
        LiveBlock(layout, pages, free, live, r, i);
      }
      forall q, j: nat | q in pages && q in free && j < layout.slots && j in free[q] && imp == ImpAddr(layout, q, j)
        ensures found && (pages[r].headers[i].block == NULL || InHeaders(layout, q, pages[r].headers[i].block))
      {
        StaleImp(layout, pages, free, imp, q, j, found, r, i);
      }
      return if found then pages[r].headers[i].block else NULL;
    }

    /** The first set of a list with a free slot. */
    method PickPage(list: seq<Addr>) returns (found: bool, r: Addr)
      requires forall q :: q in list ==> q in pages
      ensures found ==> r in list && pages[r].firstFree != -1
      ensures !found ==> forall q :: q in list ==> pages[q].firstFree == -1
    {
      for k := 0 to |list|
        invariant forall j :: 0 <= j < k ==> pages[list[j]].firstFree == -1
      {
        if pages[list[k]].firstFree != -1 {
          return true, list[k];
        }
      }
      return false, 0;
    }

    /** imp_implementationWithBlock for a copied block; region is what the page allocator would
        give (NULL when it has nothing).  The new address was not live, and only it becomes live. */
    method Bind(block: Addr, info: Block, sret: bool, region: Addr) returns (imp: Addr)
      requires Valid()
      requires region != NULL ==> region !in pages && forall q :: q in pages ==> Apart(layout, q, region)
      requires forall q :: q in pages || q == region ==> !InHeaders(layout, q, block)
      modifies this
      ensures Valid() && retiring == old(retiring)
      ensures imp == NULL ==> live == old(live) && pages == old(pages)
      ensures imp != NULL ==> imp !in old(live) && live == old(live)[imp := block] && blocks == old(blocks)[block := info]
      ensures imp != NULL <==>
              && block != NULL
              && (region != NULL || HasFree(old(pages), if sret then old(sretTrampolines) else old(trampolines)))
    {
      if block == NULL {
        return NULL;
      }
      hide LiveOk, PagesOk, InHeaders, Apart;
      var list := if sret then sretTrampolines else trampolines;
      var found, r := PickPage(list);
      if !found {
        if region == NULL {
          return NULL;
        }
        AddPage(region, sret);
        r := region;
      }
      imp := TakeSlot(r, block, info);
    }

    /** alloc_trampolines: a new set with every slot free goes to the head of its list. */
    method AddPage(r: Addr, sret: bool)
      requires Valid() && r != NULL && r !in pages && forall q :: q in pages ==> Apart(layout, q, r)
      modifies this`pages, this`free, this`trampolines, this`sretTrampolines
      ensures Valid() && r in pages && pages[r].firstFree == 0
    {
      hide LiveOk, PagesOk, GoodLayout, TicketsDistinct, FreshHeaders, AllSlots, Apart;
      NewPageKeepsLive(layout, pages, free, live, r);
      assert forall q :: (q in [r] + trampolines <==> q == r || q in trampolines) && (q in [r] + sretTrampolines <==> q == r || q in sretTrampolines);
      pages := pages[r := Page(r, FreshHeaders(layout, r), 0)];
      free := free[r := AllSlots(layout)];
      if sret {
        sretTrampolines := [r] + sretTrampolines;
      } else {
        trampolines := [r] + trampolines;
      }
    }

    /** Takes the first free slot of a page for a block. */
    method TakeSlot(r: Addr, block: Addr, info: Block) returns (imp: Addr)
      requires Valid() && r in pages && pages[r].firstFree != -1 && block != NULL && !InHeaders(layout, r, block)
      modifies this`pages, this`blocks, this`free, this`live
      ensures Valid() && imp != NULL && imp !in old(live) && live == old(live)[imp := block]
      ensures blocks == old(blocks)[block := info]
    {
      hide LiveOk, PageOk, PagesOk, TicketsDistinct, InHeaders, PageSize, SlotAt;
      PageOf(layout, pages, free, r);
      var p, list := pages[r], free[r];
      NextFree(layout, p, list);
      BindKeepsPage(layout, p, list, block, info.invoke);
      var next := p.headers[p.firstFree].block;
      var slot := p.firstFree;
      var first := if next == NULL then -1 else SlotAt(layout, next - p.region);
      var p' := Page(p.region, p.headers[slot := Header(block, info.invoke)], first);
      BindKeepsLive(layout, pages, free, live, r, p', block);
      UpdatePage(layout, pages, free, r, p', list[1..]);
      imp := ImpAddr(layout, r, slot);
      pages := pages[r := p'];
      blocks := blocks[block := info];
      free := free[r := list[1..]];
      live := live[imp := block];
    }

    /** imp_removeBlock up to the release of the block: the slot is free again, and a snapshot of
        the block's references is on the retiring list before anything else can see the change. */
    method BeginRemove(imp: Addr, ticket: nat, memory: bool) returns (ok: bool)
      requires Valid() && FreshTicket(retiring, ticket)
      requires imp in live || forall r :: r in pages ==> !InCode(layout, r, imp)
      modifies this`pages, this`retiring, this`free, this`live
      ensures Valid() && ok == (memory && imp in old(live))
      ensures !ok ==> live == old(live) && retiring == old(retiring)
      ensures ok ==>
        && live == old(live) - {imp} && |retiring| > 0
        && retiring == [Retiring(ticket, retiring[0].refs)] + old(retiring)
        && exists r, i: nat ::
             && LiveSlot(layout, old(pages), old(free), r, i) && ImpAddr(layout, r, i) == imp
             && var h := old(pages)[r].headers[i];
                && h.block in blocks
                && var b := blocks[h.block];
                   forall a :: a in retiring[0].refs <==>
                     && a != NULL
                     && (|| a == h.fnptr || a == h.block || a == b.invoke || a == b.descriptor
                         || (b.descriptor != NULL && b.hasHelpers && (a == b.copyHelper || a == b.disposeHelper))
                         || (b.descriptor != NULL && b.hasSignature && a == b.encoding))
    {
      hide LiveOk, PagesOk, IsSnapshot, LiveSlot, InCode, TicketsDistinct, FreshTicket;
      if !memory {
        return false;
      }
      var found, r, idx, refs := Snapshot(imp);
      if !found {
        return false;
      }
      SnapshotWrittenOut(layout, pages, free, imp, blocks, refs);
      FreeSlot(r, idx);
      PushTicket(retiring, ticket, refs);
      retiring := [Retiring(ticket, refs)] + retiring;
      return true;
    }

    /** The slot of a live address and what its block refers to. */
    method Snapshot(imp: Addr) returns (found: bool, r: Addr, idx: nat, refs: seq<Addr>)
      requires Valid() && (imp in live || forall r :: r in pages ==> !InCode(layout, r, imp))
      ensures found == (imp in live)
      ensures found ==> LiveSlot(layout, pages, free, r, idx) && ImpAddr(layout, r, idx) == imp
      ensures found ==> IsSnapshot(layout, pages, free, imp, blocks, refs)
    {
      refs := [];
      found, r, idx := Locate(imp);
      if found {
        var header := pages[r].headers[idx];
        assert live[imp] == header.block;
        refs := Capture(header.fnptr, header.block, blocks[header.block]);
      }
    }

    /** Puts a live slot back on its page's free list. */
    method FreeSlot(r: Addr, idx: nat)
      requires Valid() && LiveSlot(layout, pages, free, r, idx)
      modifies this`pages, this`free, this`live
      ensures Valid() && live == old(live) - {ImpAddr(layout, r, idx)}
    {
      hide LiveOk, PageOk;
      var p := pages[r];
      ghost var list := free[r];
      FreeKeepsPage(layout, p, list, idx);
      var link := if p.firstFree < 0 then NULL else HeaderAddr(layout, p.region, p.firstFree);
      var p' := Page(p.region, p.headers[idx := Header(link, INVALID)], idx);
      FreeKeepsLive(layout, pages, free, live, r, idx, p');
      UpdatePage(layout, pages, free, r, p', [idx] + list);
      pages := pages[r := p'];
      free := free[r := [idx] + list];
      live := live - {ImpAddr(layout, r, idx)};
    }

    /** The end of imp_removeBlock, after the release has returned: the snapshot is unlinked. */
    method EndRemove(ticket: nat)
      requires Valid()
      modifies this`retiring
      ensures Valid()
      ensures forall e :: e in retiring <==> e in old(retiring) && e.ticket != ticket
    {
      var cursor := 0;
      while cursor < |retiring| && retiring[cursor].ticket != ticket
        invariant 0 <= cursor <= |retiring| && retiring == old(retiring)
        invariant forall k :: 0 <= k < cursor ==> retiring[k].ticket != ticket
      {
        cursor := cursor + 1;
      }
      if cursor < |retiring| {
        CutRetiring(retiring, cursor);
        retiring := retiring[..cursor] + retiring[cursor + 1..];
      }
    }

    /** Some bound or retiring block refers to the given range. */
    ghost predicate InUse(base: Addr, size: nat)
      requires Valid()
      reads this
    {
      || (exists r, i: nat :: LiveSlot(layout, pages, free, r, i) && HeaderHits(pages[r].headers[i], blocks, base, size))
      || (exists k :: 0 <= k < |retiring| && Hits(Elements(retiring[k].refs), base, size))
    }

    /** count_block_set_references for one page. */
    method CountPage(r: Addr, base: Addr, size: nat, before: nat) returns (count: nat)
      requires Valid() && r in pages && before <= SIZE_MAX
      ensures before <= count <= SIZE_MAX
      ensures count == 0 <==> before == 0 && forall i: nat :: LiveSlot(layout, pages, free, r, i) ==> !HeaderHits(pages[r].headers[i], blocks, base, size)
    {
      hide LiveOk, PagesOk, PageOk, TicketsDistinct, HeaderIsFree, HeaderAddr, ImpAddr, PageSize;
      PageOf(layout, pages, free, r);
      count := before;
      for i := 0 to layout.slots
        invariant before <= count <= SIZE_MAX
        invariant count == 0 <==> before == 0 && forall j: nat :: j < i && LiveSlot(layout, pages, free, r, j) ==> !HeaderHits(pages[r].headers[j], blocks, base, size)
      {
        FreeTestIsExact(layout, pages[r], free[r], i);
        if !HeaderIsFree(layout, pages[r], i) {
          LiveBlock(layout, pages, free, live, r, i);
          var header := pages[r].headers[i];
          var refs := Capture(header.fnptr, header.block, blocks[header.block]);
          count := CountSnapshot(refs, base, size, count);
        }
      }
    }

    method CountList(list: seq<Addr>, base: Addr, size: nat, before: nat) returns (count: nat)
      requires Valid() && before <= SIZE_MAX && forall q :: q in list ==> q in pages
      ensures before <= count <= SIZE_MAX
      ensures count == 0 <==> before == 0 && forall r, i: nat ::
        r in list && LiveSlot(layout, pages, free, r, i) ==> !HeaderHits(pages[r].headers[i], blocks, base, size)
    {
      count := before;
      for k := 0 to |list|
        invariant before <= count <= SIZE_MAX
        invariant count == 0 <==> before == 0 && forall j, i: nat ::
          0 <= j < k && LiveSlot(layout, pages, free, list[j], i) ==> !HeaderHits(pages[list[j]].headers[i], blocks, base, size)
      {
        count := CountPage(list[k], base, size, count);
      }
    }

    /** objc2_countBlockTrampolineReferences: zero exactly when no bound block and no block whose
        release is still under way refers to the range. */
    method CountReferences(base: Addr, size: nat) returns (count: nat)
      requires Valid()
      ensures count == 0 <==> size == 0 || !InUse(base, size)
      ensures size == 0 ==> count == 0
      ensures size > 0 ==> (count == 0 <==>
        && (forall r, i: nat :: LiveSlot(layout, pages, free, r, i) ==>
              var h := pages[r].headers[i];
              && h.block in blocks
              && var b := blocks[h.block];
                 && Outside(h.fnptr, base, size) && Outside(h.block, base, size)
                 && Outside(b.invoke, base, size) && Outside(b.descriptor, base, size)
                 && (b.descriptor != NULL && b.hasHelpers ==>
                       Outside(b.copyHelper, base, size) && Outside(b.disposeHelper, base, size))
                 && (b.descriptor != NULL && b.hasSignature ==> Outside(b.encoding, base, size)))
        && forall k, a :: 0 <= k < |retiring| && a in retiring[k].refs ==> a < base || base + size <= a)
    {
      if size == 0 {
        return 0;
      }
      hide LiveOk, PagesOk, GoodLayout, TicketsDistinct, Hits, Elements;
      count := CountList(trampolines, base, size, 0);
      count := CountList(sretTrampolines, base, size, count);
      ghost var bound := count;
      for k := 0 to |retiring|
        invariant count <= SIZE_MAX
        invariant count == 0 <==> bound == 0 && forall j :: 0 <= j < k ==> !Hits(Elements(retiring[j].refs), base, size)
      {
        count := CountSnapshot(retiring[k].refs, base, size, count);
      }
      assert bound == 0 <==> forall r, i: nat :: LiveSlot(layout, pages, free, r, i) ==> !HeaderHits(pages[r].headers[i], blocks, base, size);
      forall r, i: nat | LiveSlot(layout, pages, free, r, i) {
        LiveBlock(layout, pages, free, live, r, i);
      }
      forall h: Header | h.block in blocks {
        HeaderWrittenOut(h, blocks, base, size);
      }
      forall k | 0 <= k < |retiring| {
        HitsWrittenOut(retiring[k].refs, base, size);
      }
    }
  }

  lemma SlotInPage(y: Layout, offset: nat)
    requires GoodLayout(y) && offset < PageSize(y)
    ensures SlotAt(y, offset) < y.slots
  {
    var q, r := Divide(offset, y.header);
    if q >= y.slots {
      if q > y.slots {
        MultiplesAreApart(y.slots, q, y.header);
      }
    }
    assert q == SlotAt(y, offset) by {
      QuotientIsUnique(offset, y.header, q, r);
    }
  }

  lemma QuotientIsUnique(x: nat, n: nat, q: nat, r: nat)
    requires n > 0 && x == q * n + r && r < n
    ensures x / n == q
  {
    var q' := x / n;
    assert x == q' * n + x % n;
    if q' < q {
      MultiplesAreApart(q', q, n);
    } else if q < q' {
      MultiplesAreApart(q, q', n);
    }
  }

  lemma LiveBlock(y: Layout, pages: Pages, free: map<Addr, seq<nat>>, live: map<Addr, Addr>, r: Addr, i: nat)
    requires LiveOk(y, pages, free, live) && LiveSlot(y, pages, free, r, i)
    ensures ImpAddr(y, r, i) in live && live[ImpAddr(y, r, i)] == pages[r].headers[i].block
  {
  }

  /** The address of a free slot is found at that slot, whose header holds a link. */
  lemma StaleImp(y: Layout, pages: Pages, free: map<Addr, seq<nat>>, imp: Addr, q: Addr, j: nat, found: bool, r: Addr, i: nat)
    requires GoodLayout(y) && PagesOk(y, pages, free) && q in pages && j < y.slots && j in free[q] && imp == ImpAddr(y, q, j)
    requires found ==> r in pages && InCode(y, r, imp) && i == SlotAt(y, imp - (r + PageSize(y))) && i < |pages[r].headers|
    requires !found ==> forall x :: x in pages ==> !InCode(y, x, imp)
    ensures found && (pages[r].headers[i].block == NULL || InHeaders(y, q, pages[r].headers[i].block))
  {
    ImpIsInCode(y, q, j);
    hide ImpAddr, SlotAt, PageSize, PageOk, InHeaders;
    assert found && r == q && i == j;
    PageOf(y, pages, free, q);
    FreeSlotHoldsLink(y, pages[q], free[q], j);
  }

  /** Only the page of a live address contains it. */
  lemma LocateLive(y: Layout, pages: Pages, free: map<Addr, seq<nat>>, live: map<Addr, Addr>, imp: Addr, found: bool, r: Addr, i: nat)
    requires GoodLayout(y) && PagesOk(y, pages, free) && LiveOk(y, pages, free, live) && imp in live
    requires found ==> r in pages && InCode(y, r, imp) && i == SlotAt(y, imp - (r + PageSize(y)))
    requires !found ==> forall q :: q in pages ==> !InCode(y, q, imp)
    ensures found && LiveSlot(y, pages, free, r, i) && ImpAddr(y, r, i) == imp
  {
    hide ImpAddr, SlotAt, PageSize, PageOk, GoodLayout;
    var q, j: nat :| LiveSlot(y, pages, free, q, j) && ImpAddr(y, q, j) == imp;
    ImpIsInCode(y, q, j);
    assert found && r == q;
  }

  ghost predicate HeaderHits(header: Header, blocks: map<Addr, Block>, base: Addr, size: nat) {
    header.block in blocks && Hits(References(header.fnptr, header.block, blocks[header.block]), base, size)
  }

  /** The references are those of the block bound to the address. */
  ghost predicate IsSnapshot(y: Layout, pages: Pages, free: map<Addr, seq<nat>>, imp: Addr, blocks: map<Addr, Block>, refs: seq<Addr>) {
    exists r, i: nat ::
      && LiveSlot(y, pages, free, r, i) && ImpAddr(y, r, i) == imp && pages[r].headers[i].block in blocks
      && Elements(refs) == References(pages[r].headers[i].fnptr, pages[r].headers[i].block, blocks[pages[r].headers[i].block])
  }

  lemma HeaderWrittenOut(h: Header, blocks: map<Addr, Block>, base: Addr, size: nat)
    requires h.block in blocks
    ensures !HeaderHits(h, blocks, base, size) <==>
      var b := blocks[h.block];
      && Outside(h.fnptr, base, size) && Outside(h.block, base, size)
      && Outside(b.invoke, base, size) && Outside(b.descriptor, base, size)
      && (b.descriptor != NULL && b.hasHelpers ==>
            Outside(b.copyHelper, base, size) && Outside(b.disposeHelper, base, size))
      && (b.descriptor != NULL && b.hasSignature ==> Outside(b.encoding, base, size))
  {
    var b := blocks[h.block];
    var refs := References(h.fnptr, h.block, b);
    assert !Hits(refs, base, size) <==> forall a :: a in refs ==> Outside(a, base, size);
  }

  lemma HitsWrittenOut(refs: seq<Addr>, base: Addr, size: nat)
    ensures !Hits(Elements(refs), base, size) <==> forall a :: a in refs ==> a < base || base + size <= a
  {
    assert forall a :: a in refs <==> a in Elements(refs);
  }

  lemma SnapshotWrittenOut(y: Layout, pages: Pages, free: map<Addr, seq<nat>>, imp: Addr, blocks: map<Addr, Block>, refs: seq<Addr>)
    requires IsSnapshot(y, pages, free, imp, blocks, refs)
    ensures exists r, i: nat ::
      && LiveSlot(y, pages, free, r, i) && ImpAddr(y, r, i) == imp
      && var h := pages[r].headers[i];
         && h.block in blocks
         && var b := blocks[h.block];
            forall a :: a in refs <==>
              && a != NULL
              && (|| a == h.fnptr || a == h.block || a == b.invoke || a == b.descriptor
                  || (b.descriptor != NULL && b.hasHelpers && (a == b.copyHelper || a == b.disposeHelper))
                  || (b.descriptor != NULL && b.hasSignature && a == b.encoding))
  {
    var r, i: nat :|
      && LiveSlot(y, pages, free, r, i) && ImpAddr(y, r, i) == imp && pages[r].headers[i].block in blocks
      && Elements(refs) == References(pages[r].headers[i].fnptr, pages[r].headers[i].block, blocks[pages[r].headers[i].block]);
    var h := pages[r].headers[i];
    WrittenOut(h.fnptr, h.block, blocks[h.block], refs);
  }

  lemma PageOf(y: Layout, pages: Pages, free: map<Addr, seq<nat>>, r: Addr)
    requires PagesOk(y, pages, free) && r in pages
    ensures r in free && pages[r].region == r && PageOk(y, pages[r], free[r])
    ensures r > 0 && |pages[r].headers| == y.slots && forall k :: 0 <= k < |free[r]| ==> free[r][k] < y.slots
  {
    hide PageSize, HeaderAddr;
  }

  /** The address of a snapshot identifies it. */
  ghost predicate TicketsDistinct(s: seq<Retiring>) {
    forall i, j :: 0 <= i < j < |s| ==> s[i].ticket != s[j].ticket
  }

  ghost predicate FreshTicket(s: seq<Retiring>, ticket: nat) {
    forall k :: 0 <= k < |s| ==> s[k].ticket != ticket
  }

  lemma PushTicket(s: seq<Retiring>, ticket: nat, refs: seq<Addr>)
    requires TicketsDistinct(s) && FreshTicket(s, ticket)
    ensures TicketsDistinct([Retiring(ticket, refs)] + s)
  {
  }

  lemma CutRetiring(s: seq<Retiring>, k: nat)
    requires k < |s| && TicketsDistinct(s)
    ensures
      var w := s[..k] + s[k + 1..];
      TicketsDistinct(w) && forall e :: e in w <==> e in s && e.ticket != s[k].ticket
  {
    var w := s[..k] + s[k + 1..];
    assert forall i :: 0 <= i < |w| ==> w[i] == if i < k then s[i] else s[i + 1];
    forall e
      ensures e in w <==> e in s && e.ticket != s[k].ticket
    {
      if e in s && e.ticket != s[k].ticket {
        var i :| 0 <= i < |s| && s[i] == e;
        assert w[if i < k then i else i - 1] == e;
      }
    }
  }
}
