/**
  Pages of block trampolines.  A region is two pages: headers, then trampoline
  code, slot i of one belonging to slot i of the other.  The free slots of a page
  form a list threaded through the headers' own block field.
 */
module TrampolinePages {
  import opened Arithmetic

  type Addr = nat
  const NULL: Addr := 0
  /** The function that a call through an unbound trampoline reaches. */
  const INVALID: Addr := 1

  datatype Header = Header(block: Addr, fnptr: Addr)

  /** region is the address of the headers; firstFree is -1 when no slot is free. */
  datatype Page = Page(region: Addr, headers: seq<Header>, firstFree: int)

  /** slots per page and bytes per header. */
  datatype Layout = Layout(slots: nat, header: nat)

  ghost predicate GoodLayout(y: Layout) {
    y.slots > 0 && y.header > 0
  }

  function PageSize(y: Layout): nat {
    y.slots * y.header
  }

  function HeaderAddr(y: Layout, region: Addr, i: nat): Addr {
    region + i * y.header
  }

  function ImpAddr(y: Layout, region: Addr, i: nat): Addr {
    region + PageSize(y) + i * y.header
  }

  /** The slot whose header or code starts at the given offset into its page. */
  function SlotAt(y: Layout, offset: nat): nat
    requires GoodLayout(y)
  {
    offset / y.header
  }

  lemma SlotRoundTrip(y: Layout, i: nat)
    requires GoodLayout(y) && i < y.slots
    ensures SlotAt(y, i * y.header) == i && i * y.header < PageSize(y)
  {
    MultiplesAreApart(i, y.slots, y.header);
    var q, r := i * y.header / y.header, (i * y.header) % y.header;
    assert i * y.header == q * y.header + r;
    if q < i {
      MultiplesAreApart(q, i, y.header);
    } else if i < q {
      MultiplesAreApart(i, q, y.header);
    }
  }

  // ---------------------------------------------------------------------------
  // One page
  // ---------------------------------------------------------------------------

  ghost predicate InHeaders(y: Layout, region: Addr, a: Addr) {
    region <= a < region + PageSize(y)
  }

  /** The header of the k-th free slot points at the next one, the last at nothing. */
  ghost predicate LinkOk(y: Layout, p: Page, free: seq<nat>, k: int)
    requires 0 <= k < |free| && free[k] < |p.headers|
  {
    p.headers[free[k]].block == if k + 1 < |free| then HeaderAddr(y, p.region, free[k + 1]) else NULL
  }

  /** The free list of a page visits exactly the slots of `free`, each once. */
  ghost predicate FreeList(y: Layout, p: Page, free: seq<nat>) {
    && |p.headers| == y.slots
    && (forall k :: 0 <= k < |free| ==> free[k] < y.slots)
    && (forall j, k :: 0 <= j < k < |free| ==> free[j] != free[k])
    && p.firstFree == (if free == [] then -1 else free[0])
    && (forall k :: 0 <= k < |free| ==> LinkOk(y, p, free, k))
  }

  /** Every slot is on the free list or holds a block, and a block never looks like a link. */
  ghost predicate PageOk(y: Layout, p: Page, free: seq<nat>) {
    && p.region > 0 && FreeList(y, p, free)
    && forall i: nat :: i < y.slots && i !in free ==>
         p.headers[i].block != NULL && !InHeaders(y, p.region, p.headers[i].block)
  }

  /** block_header_is_free. */
  predicate HeaderIsFree(y: Layout, p: Page, i: nat)
    requires i < |p.headers|
  {
    p.headers[i].block == NULL || p.region <= p.headers[i].block < p.region + PageSize(y)
  }

  /** The test by address recognises exactly the slots on the free list. */
  lemma FreeTestIsExact(y: Layout, p: Page, free: seq<nat>, i: nat)
    requires GoodLayout(y) && PageOk(y, p, free) && i < y.slots
    ensures HeaderIsFree(y, p, i) <==> i in free
  {
    if i in free {
      var k :| 0 <= k < |free| && free[k] == i;
      assert LinkOk(y, p, free, k);
      if k + 1 < |free| {
        SlotRoundTrip(y, free[k + 1]);
      }
    }
  }

  /** A fresh page: every slot free, in order. */
  ghost function AllSlots(y: Layout): seq<nat> {
    seq(y.slots, i => i)
  }

  function FreshHeaders(y: Layout, region: Addr): (hs: seq<Header>)
    ensures |hs| == y.slots
  {
    seq(y.slots, i requires 0 <= i < y.slots => Header(if i + 1 < y.slots then HeaderAddr(y, region, i + 1) else NULL, INVALID))
  }

  lemma FreshPageOk(y: Layout, region: Addr)
    requires GoodLayout(y) && region > 0
    ensures PageOk(y, Page(region, FreshHeaders(y, region), 0), AllSlots(y))
  {
    AllSlotsHold(y);
    hide AllSlots, PageSize, HeaderAddr, InHeaders;
  }

  lemma AllSlotsHold(y: Layout)
    ensures |AllSlots(y)| == y.slots && forall k :: 0 <= k < y.slots ==> AllSlots(y)[k] == k
    ensures forall i: nat :: i < y.slots ==> i in AllSlots(y)
  {
    forall i: nat | i < y.slots
      ensures i in AllSlots(y)
    {
      assert AllSlots(y)[i] == i;
    }
  }

  lemma TailMembers(s: seq<nat>)
    requires s != []
    ensures forall i :: i in s <==> i == s[0] || i in s[1..]
  {
    assert s == [s[0]] + s[1..];
  }

  /** The link of the first free slot, read as an address, leads to the second. */
  lemma NextFree(y: Layout, p: Page, free: seq<nat>)
    requires GoodLayout(y) && PageOk(y, p, free) && p.firstFree != -1
    ensures free != [] && p.firstFree == free[0] && free[0] < |p.headers|
    ensures
      var next := p.headers[free[0]].block;
      if |free| == 1 then next == NULL
      else next != NULL && next >= p.region && SlotAt(y, next - p.region) == free[1]
  {
    assert LinkOk(y, p, free, 0);
    if |free| > 1 {
      SlotRoundTrip(y, free[1]);
    }
  }

  /** Binding a block takes the first slot off the list. */
  lemma BindKeepsPage(y: Layout, p: Page, free: seq<nat>, block: Addr, fnptr: Addr)
    requires GoodLayout(y) && PageOk(y, p, free) && free != []
    requires block != NULL && !InHeaders(y, p.region, block)
    ensures PageOk(y, Page(p.region, p.headers[free[0] := Header(block, fnptr)], if |free| > 1 then free[1] else -1), free[1..])
  {
    hide PageSize, HeaderAddr, InHeaders;
    var p' := Page(p.region, p.headers[free[0] := Header(block, fnptr)], if |free| > 1 then free[1] else -1);
    var rest := free[1..];
    TailMembers(free);
    assert forall k :: 0 <= k < |rest| ==> rest[k] == free[k + 1];
    forall k | 0 <= k < |rest|
      ensures rest[k] < y.slots && LinkOk(y, p', rest, k)
    {
      assert LinkOk(y, p, free, k + 1);
    }
  }

  /** The page after a slot has been freed. */
  function Freed(y: Layout, p: Page, i: nat): Page
    requires i < |p.headers|
  {
    Page(p.region, p.headers[i := Header(if p.firstFree < 0 then NULL else HeaderAddr(y, p.region, p.firstFree), INVALID)], i)
  }

  /** Freeing a slot puts it at the head of the list. */
  lemma FreeKeepsPage(y: Layout, p: Page, free: seq<nat>, i: nat)
    requires GoodLayout(y) && PageOk(y, p, free) && i < y.slots && i !in free
    ensures PageOk(y, Freed(y, p, i), [i] + free)
  {
    hide PageSize, HeaderAddr, InHeaders, LinkOk, GoodLayout;
    var longer := [i] + free;
    assert longer[1..] == free;
    TailMembers(longer);
    forall k | 0 <= k < |longer|
      ensures longer[k] < y.slots && LinkOk(y, Freed(y, p, i), longer, k)
    {
      FreedLink(y, p, free, i, k);
    }
    assert forall k :: 0 < k < |longer| ==> longer[k] == free[k - 1] && longer[k] != i;
  }

  lemma FreedLink(y: Layout, p: Page, free: seq<nat>, i: nat, k: nat)
    requires PageOk(y, p, free) && i < y.slots && i !in free && k <= |free|
    ensures ([i] + free)[k] < y.slots && LinkOk(y, Freed(y, p, i), [i] + free, k)
  {
    hide PageSize, HeaderAddr, InHeaders;
    if k > 0 {
      assert ([i] + free)[k] == free[k - 1];
      assert LinkOk(y, p, free, k - 1);
    }
  }

  lemma HeaderAddrIsInjective(y: Layout, region: Addr, i: nat, j: nat)
    requires GoodLayout(y) && HeaderAddr(y, region, i) == HeaderAddr(y, region, j)
    ensures i == j
  {
    if i < j {
      MultiplesAreApart(i, j, y.header);
    } else if j < i {
      MultiplesAreApart(j, i, y.header);
    }
  }

  /** After freeing the slot free[k] a second time, the list runs from it through the slots that
      were before it and back to it. */
  lemma {:induction false} SecondListFollows(y: Layout, p: Page, free: seq<nat>, k: nat, again: seq<nat>, j: nat)
    requires GoodLayout(y) && PageOk(y, p, free) && k < |free| && free[k] < |p.headers| && j <= k
    requires FreeList(y, Freed(y, p, free[k]), again)
    ensures j + 1 < |again| && again[j + 1] == free[j]
  {
    var p' := Freed(y, p, free[k]);
    hide PageSize, HeaderAddr, InHeaders;
    if j > 0 {
      SecondListFollows(y, p, free, k, again, j - 1);
      assert LinkOk(y, p, free, j - 1) && free[j - 1] != free[k];
      assert p'.headers[again[j]].block == HeaderAddr(y, p.region, free[j]);
    } else {
      assert again[0] == free[k];
      assert p'.headers[again[0]].block == HeaderAddr(y, p.region, free[0]);
    }
    assert LinkOk(y, p', again, j);
    HeaderIsNotNull(y, p.region, free[j]);
    HeaderAddrIsInjective(y, p.region, again[j + 1], free[j]);
  }

  lemma HeaderIsNotNull(y: Layout, region: Addr, i: nat)
    requires region > 0
    ensures HeaderAddr(y, region, i) != NULL
  {
  }

  /** Freeing a slot that is free already leaves a page without a free list: its links go round. */
  lemma SecondFreeBreaksList(y: Layout, p: Page, free: seq<nat>, i: nat, again: seq<nat>)
    requires GoodLayout(y) && PageOk(y, p, free) && i in free && i < |p.headers|
    ensures !FreeList(y, Freed(y, p, i), again)
  {
    var k :| 0 <= k < |free| && free[k] == i;
    if FreeList(y, Freed(y, p, i), again) {
      SecondListFollows(y, p, free, k, again, k);
    }
  }

  /** The header of a free slot holds a link: NULL or the address of another header. */
  lemma FreeSlotHoldsLink(y: Layout, p: Page, free: seq<nat>, i: nat)
    requires GoodLayout(y) && PageOk(y, p, free) && i in free && i < |p.headers|
    ensures p.headers[i].block == NULL || InHeaders(y, p.region, p.headers[i].block)
  {
    FreeTestIsExact(y, p, free, i);
  }
}
