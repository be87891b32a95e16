/**
  The cells of a hopscotch hash table and what makes them well formed.  A cell
  holds a value and the set of hops, the offsets from it at which values of its own
  hash were placed because it was full.  (The source keeps the hops as bits of a
  32-bit word; the first hop is the lowest bit set.)
 */
module HopscotchCells {
  import opened Basics
  import opened Arithmetic

  const HOPS: nat := 32
  const UINT32: nat := 0x1_0000_0000

  datatype Value = Value(key: nat, data: nat)
  datatype Cell = Cell(hops: set<nat>, value: Option<Value>)

  const EMPTY_CELL := Cell({}, None)

  type Hash = nat -> nat

  /** Table sizes are powers of two. */
  ghost predicate GoodSize(n: nat) {
    exists k: nat :: k <= 32 && n == Pow2(k)
  }

  lemma HashRange()
    ensures Pow2(32) == UINT32
  {
    assert Pow2(4) == 16;
    Pow2Adds(4, 4);
    Pow2Adds(8, 8);
    Pow2Adds(16, 16);
  }

  /** So they divide the range of a hash. */
  lemma SizeDividesHashRange(n: nat)
    requires GoodSize(n)
    ensures 0 < n && UINT32 % n == 0
  {
    var k: nat :| k <= 32 && n == Pow2(k);
    HashRange();
    Pow2Adds(32 - k, k);
    RemainderIsUnique(UINT32, n, Pow2(32 - k), 0);
  }

  lemma DoubleIsGood(n: nat)
    requires GoodSize(n) && n <= 0xffff_ffff / 2
    ensures GoodSize(2 * n)
  {
    var k: nat :| k <= 32 && n == Pow2(k);
    HashRange();
    assert Pow2(k + 1) == 2 * n;
    assert k != 32;
  }

  /** The cell at an offset from a hash, with the source's 32-bit wrap-around. */
  function Slot(hash: nat, offset: nat, n: nat): (i: nat)
    requires n > 0
    ensures i < n
  {
    ((hash + offset) % UINT32) % n
  }

  function Home(h: Hash, key: nat, n: nat): (i: nat)
    requires n > 0
    ensures i < n
  {
    Slot(h(key), 0, n)
  }

  /** The cell that lies a hop after another, around the end of the table. */
  function Hop(i: nat, hop: nat, n: nat): (j: nat)
    requires n > 0
    ensures j < n
  {
    (i + hop) % n
  }

  function Distance(i: nat, j: nat, n: nat): (d: nat)
    requires i < n && j < n
    ensures d < n && Hop(i, d, n) == j
    ensures d == 0 <==> i == j
  {
    SmallRemainder(j + n - i, n);
    var d := (j + n - i) % n;
    SmallRemainder(i + d, n);
    d
  }

  lemma HopIsInjective(i: nat, a: nat, b: nat, n: nat)
    requires i < n && a < n && b < n && Hop(i, a, n) == Hop(i, b, n)
    ensures a == b
  {
    SmallRemainder(i + a, n);
    SmallRemainder(i + b, n);
  }

  lemma HopZero(i: nat, n: nat)
    requires i < n
    ensures Hop(i, 0, n) == i
  {
    SmallRemainder(i, n);
  }

  /** A hop of at least the table's size lands where a shorter one does. */
  lemma HopWraps(i: nat, hop: nat, n: nat)
    requires n > 0 && hop >= n
    ensures Hop(i, hop, n) == Hop(i, hop - n, n)
  {
    var q, r := Divide(i + hop - n, n);
    Distribute(q, 1, n);
    RemainderIsUnique(i + hop, n, q + 1, r);
  }

  /** Because the size divides the hash range, wrapping the hash does not matter. */
  lemma SlotIsHop(hash: nat, offset: nat, n: nat)
    requires GoodSize(n)
    ensures n > 0 && Slot(hash, offset, n) == Hop(Slot(hash, 0, n), offset, n)
  {
    SizeDividesHashRange(n);
    RemainderOfRemainder(hash + offset, n, UINT32);
    RemainderOfRemainder(hash, n, UINT32);
    AddToRemainder(hash, offset, n);
  }

  // ---------------------------------------------------------------------------
  // Well-formed cells
  // ---------------------------------------------------------------------------

  /** Every hop of cell i leads to a value of that home, and only a full cell has hops; the cell
      `hole`, whose own value is about to be overwritten, may have hops without a value. */
  ghost predicate HopOk(h: Hash, cells: seq<Cell>, hole: Option<nat>, i: nat, hop: nat)
    requires |cells| > 0 && i < |cells|
  {
    var target := cells[Hop(i, hop, |cells|)];
    && 1 <= hop <= HOPS && hop < |cells|
    && (cells[i].value.Some? || hole == Some(i))
    && target.value.Some? && Home(h, target.value.value.key, |cells|) == i
  }

  ghost predicate HopsOk(h: Hash, cells: seq<Cell>, hole: Option<nat>)
    requires |cells| > 0
  {
    forall i: nat, hop :: i < |cells| && hop in cells[i].hops ==> HopOk(h, cells, hole, i, hop)
  }

  /** The value in cell j is at its home or a hop away from it. */
  ghost predicate Reachable(h: Hash, cells: seq<Cell>, j: nat)
    requires |cells| > 0 && j < |cells| && cells[j].value.Some?
  {
    var home := Home(h, cells[j].value.value.key, |cells|);
    home == j || Distance(home, j, |cells|) in cells[home].hops
  }

  ghost predicate AllReachable(h: Hash, cells: seq<Cell>)
    requires |cells| > 0
  {
    forall j: nat :: j < |cells| && cells[j].value.Some? ==> Reachable(h, cells, j)
  }

  ghost predicate KeysDistinct(cells: seq<Cell>) {
    forall i, j :: 0 <= i < j < |cells| && cells[i].value.Some? && cells[j].value.Some? ==>
      cells[i].value.value.key != cells[j].value.value.key
  }

  ghost predicate Cells(h: Hash, cells: seq<Cell>, hole: Option<nat>) {
    && |cells| > 0 && GoodSize(|cells|) && HopsOk(h, cells, hole) && AllReachable(h, cells) && KeysDistinct(cells)
    && (hole.Some? ==> hole.value < |cells| && cells[hole.value].value.None?)
  }

  /** The values in the table: its abstract contents. */
  ghost function Values(cells: seq<Cell>): set<Value> {
    set i | 0 <= i < |cells| && cells[i].value.Some? :: cells[i].value.value
  }

  lemma ValueAt(cells: seq<Cell>, v: Value) returns (i: nat)
    requires v in Values(cells)
    ensures i < |cells| && cells[i].value == Some(v)
  {
    i :| i < |cells| && cells[i].value == Some(v);
  }

  // ---------------------------------------------------------------------------
  // Moves
  // ---------------------------------------------------------------------------

  lemma FillHomeValues(cells: seq<Cell>, i: nat, c: Cell)
    requires i < |cells| && cells[i].value.None? && c.value.Some?
    ensures Values(cells[i := c]) == Values(cells) + {c.value.value}
  {
    var after := cells[i := c];
    assert after[i].value == c.value;
    forall v
      ensures v in Values(after) <==> v in Values(cells) || v == c.value.value
    {
      if v in Values(cells) {
        var j := ValueAt(cells, v);
        assert after[j].value == Some(v);
      }
    }
  }

  lemma EmptyCellHasNoHops(h: Hash, cells: seq<Cell>, i: nat)
    requires Cells(h, cells, None) && i < |cells| && cells[i].value.None?
    ensures cells[i].hops == {}
  {
    assert forall hop :: hop in cells[i].hops ==> HopOk(h, cells, None, i, hop);
  }

  /** A value goes to its empty home. */
  lemma PlaceAtHome(h: Hash, cells: seq<Cell>, v: Value)
    requires Cells(h, cells, None) && (forall w :: w in Values(cells) ==> w.key != v.key)
    requires cells[Home(h, v.key, |cells|)].value.None?
    ensures
      var after := cells[Home(h, v.key, |cells|) := Cell({}, Some(v))];
      Cells(h, after, None) && Values(after) == Values(cells) + {v}
  {
    var b := Home(h, v.key, |cells|);
    var after := cells[b := Cell({}, Some(v))];
    FillHomeValues(cells, b, Cell({}, Some(v)));
    EmptyCellHasNoHops(h, cells, b);
    forall i: nat, hop | i < |after| && hop in after[i].hops
      ensures HopOk(h, after, None, i, hop)
    {
      assert HopOk(h, cells, None, i, hop);
    }
    forall j: nat | j < |after| && after[j].value.Some?
      ensures Reachable(h, after, j)
    {
      if j != b {
        assert Reachable(h, cells, j);
      }
    }
    KeysStayDistinct(cells, b, Cell({}, Some(v)));
  }

  lemma KeysStayDistinct(cells: seq<Cell>, i: nat, c: Cell)
    requires KeysDistinct(cells) && i < |cells| && c.value.Some?
    requires forall w :: w in Values(cells) ==> w.key != c.value.value.key
    ensures KeysDistinct(cells[i := c])
  {
    forall j: nat | j < |cells| && cells[j].value.Some?
      ensures cells[j].value.value.key != c.value.value.key
    {
      assert cells[j].value.value in Values(cells);
    }
  }

  /** A value goes to the empty cell a hop after its full home. */
  lemma PlaceAway(h: Hash, cells: seq<Cell>, v: Value, hop: nat)
    requires Cells(h, cells, None) && (forall w :: w in Values(cells) ==> w.key != v.key)
    requires 1 <= hop <= HOPS && hop < |cells|
    requires
      var b := Home(h, v.key, |cells|);
      cells[b].value.Some? && cells[Hop(b, hop, |cells|)].value.None?
    ensures
      var b := Home(h, v.key, |cells|);
      var s := Hop(b, hop, |cells|);
      var after := cells[b := cells[b].(hops := cells[b].hops + {hop})][s := cells[s].(value := Some(v))];
      b != s && Cells(h, after, None) && Values(after) == Values(cells) + {v}
  {
    var b := Home(h, v.key, |cells|);
    var s := Hop(b, hop, |cells|);
    var marked := cells[b := cells[b].(hops := cells[b].hops + {hop})];
    var after := marked[s := cells[s].(value := Some(v))];
    HopZero(b, |cells|);
    assert b != s;
    MarkValues(cells, b, cells[b].hops + {hop});
    FillHomeValues(marked, s, cells[s].(value := Some(v)));
    forall i: nat, k | i < |after| && k in after[i].hops
      ensures HopOk(h, after, None, i, k)
    {
      if i == b && k == hop {
      } else {
        assert HopOk(h, cells, None, i, k);
      }
    }
    forall j: nat | j < |after| && after[j].value.Some?
      ensures Reachable(h, after, j)
    {
      if j == s {
        HopIsInjective(b, hop, Distance(b, s, |cells|), |cells|);
      } else {
        assert Reachable(h, cells, j);
      }
    }
    KeysStayDistinct(marked, s, cells[s].(value := Some(v)));
  }

  // ---------------------------------------------------------------------------
  // Where a value goes
  // ---------------------------------------------------------------------------

  /** The cell k after the key's home is empty. */
  predicate Free(h: Hash, cells: seq<Cell>, key: nat, k: nat)
    requires |cells| > 0
  {
    cells[Hop(Home(h, key, |cells|), k, |cells|)].value.None?
  }

  /** The home of the key or one of the 32 cells after it is empty. */
  ghost predicate HasRoom(h: Hash, cells: seq<Cell>, key: nat)
    requires |cells| > 0
  {
    exists k: nat :: k <= HOPS && Free(h, cells, key, k)
  }

  /** The least such distance from k on, or one more than the greatest. */
  function FirstFree(h: Hash, cells: seq<Cell>, key: nat, k: nat): nat
    requires |cells| > 0 && k <= HOPS + 1
    decreases HOPS + 1 - k
  {
    if k > HOPS || Free(h, cells, key, k) then k else FirstFree(h, cells, key, k + 1)
  }

  lemma {:induction false} FirstFreeIsLeast(h: Hash, cells: seq<Cell>, key: nat, k: nat, j: nat)
    requires |cells| > 0 && k <= j <= HOPS + 1
    requires forall i: nat :: k <= i < j ==> !Free(h, cells, key, i)
    requires j <= HOPS ==> Free(h, cells, key, j)
    ensures FirstFree(h, cells, key, k) == j
    decreases j - k
  {
    if k < j {
      FirstFreeIsLeast(h, cells, key, k + 1, j);
    }
  }

  lemma {:induction false} FirstFreeIsFree(h: Hash, cells: seq<Cell>, key: nat, k: nat)
    requires |cells| > 0 && k <= HOPS + 1
    ensures
      var j := FirstFree(h, cells, key, k);
      && k <= j <= HOPS + 1 && (j <= HOPS ==> Free(h, cells, key, j))
      && forall i: nat :: k <= i < j ==> !Free(h, cells, key, i)
    decreases HOPS + 1 - k
  {
    if k <= HOPS && !Free(h, cells, key, k) {
      FirstFreeIsFree(h, cells, key, k + 1);
    }
  }

  lemma RoomIsFirstFree(h: Hash, cells: seq<Cell>, key: nat)
    requires |cells| > 0
    ensures HasRoom(h, cells, key) <==> FirstFree(h, cells, key, 0) <= HOPS
  {
    FirstFreeIsFree(h, cells, key, 0);
  }

  /** The cells with the value in the nearest empty cell from its home on. */
  function Put(h: Hash, cells: seq<Cell>, v: Value): seq<Cell>
    requires |cells| > 0
  {
    var b, k := Home(h, v.key, |cells|), FirstFree(h, cells, v.key, 0);
    var s := Hop(b, k, |cells|);
    if k == 0 then cells[b := Cell({}, Some(v))]
    else
      var marked := cells[b := cells[b].(hops := cells[b].hops + {k})];
      marked[s := marked[s].(value := Some(v))]
  }

  /** In terms of the 32-bit hash: there is room if one of these 33 cells is empty. */
  lemma RoomWithinReach(h: Hash, cells: seq<Cell>, key: nat)
    requires GoodSize(|cells|)
    ensures |cells| > 0
    ensures HasRoom(h, cells, key) <==> exists k: nat :: k <= 32 && cells[Slot(h(key), k, |cells|)].value.None?
  {
    forall k: nat
      ensures |cells| > 0 && Slot(h(key), k, |cells|) == Hop(Home(h, key, |cells|), k, |cells|)
    {
      SlotIsHop(h(key), k, |cells|);
    }
    hide Slot, Hop, Home;
    if HasRoom(h, cells, key) {
      var k: nat :| k <= HOPS && Free(h, cells, key, k);
      assert cells[Slot(h(key), k, |cells|)].value.None?;
    }
    if k: nat :| k <= 32 && cells[Slot(h(key), k, |cells|)].value.None? {
      assert Free(h, cells, key, k);
    }
  }

  /** The value goes to the nearest of them, and every other cell keeps its value. */
  lemma PutIsNearest(h: Hash, cells: seq<Cell>, v: Value, k: nat)
    requires GoodSize(|cells|) && |cells| > 0 && k <= 32 && cells[Slot(h(v.key), k, |cells|)].value.None?
    requires forall j: nat :: j < k ==> cells[Slot(h(v.key), j, |cells|)].value.Some?
    ensures |Put(h, cells, v)| == |cells|
    ensures
      var s := Slot(h(v.key), k, |cells|);
      && Put(h, cells, v)[s].value == Some(v)
      && forall i: nat :: i < |cells| && i != s ==> Put(h, cells, v)[i].value == cells[i].value
  {
    forall j: nat
      ensures Slot(h(v.key), j, |cells|) == Hop(Home(h, v.key, |cells|), j, |cells|)
    {
      SlotIsHop(h(v.key), j, |cells|);
    }
    HopZero(Home(h, v.key, |cells|), |cells|);
    hide Slot, Hop, Home;
    FirstFreeIsLeast(h, cells, v.key, 0, k);
  }

  lemma PutKeeps(h: Hash, cells: seq<Cell>, v: Value)
    requires Cells(h, cells, None) && (forall w :: w in Values(cells) ==> w.key != v.key) && HasRoom(h, cells, v.key)
    ensures Cells(h, Put(h, cells, v), None) && Values(Put(h, cells, v)) == Values(cells) + {v}
    ensures |Put(h, cells, v)| == |cells|
  {
    var n := |cells|;
    var b, k := Home(h, v.key, n), FirstFree(h, cells, v.key, 0);
    RoomIsFirstFree(h, cells, v.key);
    FirstFreeIsFree(h, cells, v.key, 0);
    HopZero(b, n);
    hide Cells, Values, FirstFree, Home, Hop;
    if k == 0 {
      PlaceAtHome(h, cells, v);
    } else {
      assert !Free(h, cells, v.key, 0);
      FirstHopIsShort(h, cells, v.key, k);
      PlaceAway(h, cells, v, k);
    }
  }

  /** The nearest empty cell is less than once around the table away. */
  lemma FirstHopIsShort(h: Hash, cells: seq<Cell>, key: nat, k: nat)
    requires |cells| > 0 && Free(h, cells, key, k) && forall i: nat :: i < k ==> !Free(h, cells, key, i)
    ensures k < |cells|
  {
    if k >= |cells| {
      HopWraps(Home(h, key, |cells|), k, |cells|);
      assert Free(h, cells, key, k - |cells|);
    }
  }

  // ---------------------------------------------------------------------------
  // Refilling a table of twice the size
  // ---------------------------------------------------------------------------

  function EmptyTable(n: nat): seq<Cell> {
    seq(n, _ => EMPTY_CELL)
  }

  /** Twice as many cells, filled with the values of the first i of the given ones, or None when
      a value has no room on the way. */
  ghost function Refill(h: Hash, cells: seq<Cell>, i: nat): (r: Option<seq<Cell>>)
    requires |cells| > 0 && i <= |cells|
    ensures r.Some? ==> |r.value| == 2 * |cells|
  {
    if i == 0 then Some(EmptyTable(2 * |cells|)) else
      var t := Refill(h, cells, i - 1);
      if t.None? || cells[i - 1].value.None? then t
      else if HasRoom(h, t.value, cells[i - 1].value.value.key) then Some(Put(h, t.value, cells[i - 1].value.value))
      else None
  }

  lemma RefillBase(h: Hash, cells: seq<Cell>)
    requires |cells| > 0
    ensures Refill(h, cells, 0) == Some(EmptyTable(2 * |cells|))
    ensures forall c :: 0 <= c < 2 * |cells| ==> EmptyTable(2 * |cells|)[c].value.None?
  {
  }

  lemma RefillStep(h: Hash, cells: seq<Cell>, i: nat)
    requires i < |cells| && Refill(h, cells, i).Some?
    ensures
      var t := Refill(h, cells, i).value;
      Refill(h, cells, i + 1) ==
        if cells[i].value.None? then Some(t)
        else if HasRoom(h, t, cells[i].value.value.key) then Some(Put(h, t, cells[i].value.value))
        else None
  {
  }

  lemma {:induction false} RefillGoesOn(h: Hash, cells: seq<Cell>, i: nat, j: nat)
    requires |cells| > 0 && i <= j <= |cells| && Refill(h, cells, i).None?
    ensures Refill(h, cells, j).None?
    decreases j - i
  {
    if i < j {
      RefillGoesOn(h, cells, i, j - 1);
    }
  }

  /** No value lies before its home, that is, none was placed around the end of the table. */
  ghost predicate Unwrapped(h: Hash, cells: seq<Cell>) {
    forall j :: 0 <= j < |cells| && cells[j].value.Some? ==> Home(h, cells[j].value.value.key, |cells|) <= j
  }

  /** The values so far lie below i in either half of the table. */
  ghost predicate Below(t: seq<Cell>, n: nat, i: nat) {
    forall c :: 0 <= c < |t| && t[c].value.Some? ==> c < i || n <= c < n + i
  }

  lemma HomeInDouble(h: Hash, key: nat, n: nat)
    requires n > 0
    ensures Home(h, key, 2 * n) == Home(h, key, n) || Home(h, key, 2 * n) == Home(h, key, n) + n
  {
    var x := h(key) % UINT32;
    RemainderIsUnique(2 * n, n, 2, 0);
    RemainderOfRemainder(x, n, 2 * n);
    SmallRemainder(x % (2 * n), n);
  }

  /** A value that lies k after its home has room at the same distance in the larger table. */
  lemma RoomAtSameDistance(h: Hash, cells: seq<Cell>, t: seq<Cell>, i: nat)
    requires Cells(h, cells, None) && i < |cells| && cells[i].value.Some? && Home(h, cells[i].value.value.key, |cells|) <= i
    requires |t| == 2 * |cells| && Below(t, |cells|, i)
    ensures HasRoom(h, t, cells[i].value.value.key)
    ensures Below(Put(h, t, cells[i].value.value), |cells|, i + 1)
  {
    var n, v := |cells|, cells[i].value.value;
    var k := i - Home(h, v.key, n);
    DistanceIsShort(h, cells, i);
    HomeInDouble(h, v.key, n);
    hide Cells, Home, Put, FirstFree;
    FreeAtSameDistance(h, t, v.key, n, k, i);
    PutBelow(h, t, v, n, k, i);
  }

  lemma DistanceIsShort(h: Hash, cells: seq<Cell>, i: nat)
    requires Cells(h, cells, None) && i < |cells| && cells[i].value.Some? && Home(h, cells[i].value.value.key, |cells|) <= i
    ensures i - Home(h, cells[i].value.value.key, |cells|) <= HOPS
  {
    var b := Home(h, cells[i].value.value.key, |cells|);
    assert Reachable(h, cells, i);
    if b != i {
      assert HopOk(h, cells, None, b, Distance(b, i, |cells|));
      SmallRemainder(i + |cells| - b, |cells|);
    }
  }

  lemma FreeAtSameDistance(h: Hash, t: seq<Cell>, key: nat, n: nat, k: nat, i: nat)
    requires |t| == 2 * n > 0 && Below(t, n, i) && i < n && k <= HOPS
    requires Home(h, key, 2 * n) + k == i || Home(h, key, 2 * n) + k == i + n
    ensures Free(h, t, key, k) && HasRoom(h, t, key)
  {
    SmallRemainder(Home(h, key, 2 * n) + k, 2 * n);
    hide Home;
    assert Free(h, t, key, k);
  }

  lemma PutBelow(h: Hash, t: seq<Cell>, v: Value, n: nat, k: nat, i: nat)
    requires |t| == 2 * n > 0 && Below(t, n, i) && i < n && k <= HOPS && Free(h, t, v.key, k)
    requires Home(h, v.key, 2 * n) + k == i || Home(h, v.key, 2 * n) + k == i + n
    requires Home(h, v.key, 2 * n) < n <==> Home(h, v.key, 2 * n) + k == i
    ensures Below(Put(h, t, v), n, i + 1)
  {
    FirstFreeIsFree(h, t, v.key, 0);
    var home, first := Home(h, v.key, 2 * n), FirstFree(h, t, v.key, 0);
    assert first <= k;
    SmallRemainder(home + first, 2 * n);
    var s := Hop(home, first, 2 * n);
    assert s == home + first && (s <= i || n <= s <= n + i);
    hide FirstFree, Home, Hop, Free;
    forall c | 0 <= c < 2 * n && Put(h, t, v)[c].value.Some?
      ensures c < i + 1 || n <= c < n + (i + 1)
    {
    }
  }

  /** Growing a table in which nothing wrapped around always succeeds. */
  lemma {:induction false} UnwrappedRefills(h: Hash, cells: seq<Cell>, i: nat)
    requires Cells(h, cells, None) && Unwrapped(h, cells) && i <= |cells|
    ensures Refill(h, cells, i).Some? && Below(Refill(h, cells, i).value, |cells|, i)
  {
    hide Refill, Put, HasRoom, Home, HopsOk, AllReachable, KeysDistinct, GoodSize;
    RefillBase(h, cells);
    if i > 0 {
      UnwrappedRefills(h, cells, i - 1);
      RefillStep(h, cells, i - 1);
      if cells[i - 1].value.Some? {
        RoomAtSameDistance(h, cells, Refill(h, cells, i - 1).value, i - 1);
      }
    }
  }

  /** The wrap-around of the hash agrees with the hops exactly for sizes that divide its range. */
  lemma HopsNeedDivisor(n: nat)
    requires n > 0
    ensures (forall hash: nat, offset: nat :: Slot(hash, offset, n) == Hop(Slot(hash, 0, n), offset, n)) <==> UINT32 % n == 0
  {
    if UINT32 % n == 0 {
      forall hash: nat, offset: nat
        ensures Slot(hash, offset, n) == Hop(Slot(hash, 0, n), offset, n)
      {
        RemainderOfRemainder(hash + offset, n, UINT32);
        RemainderOfRemainder(hash, n, UINT32);
        AddToRemainder(hash, offset, n);
      }
    } else {
      LastHashBreaks(n);
    }
  }

  /** At the last hash the cell after the home is the first one, wherever the home is. */
  lemma LastHashBreaks(n: nat)
    requires n > 0 && UINT32 % n != 0
    ensures Slot(0xffff_ffff, 1, n) != Hop(Slot(0xffff_ffff, 0, n), 1, n)
  {
    AddToRemainder(0xffff_ffff, 1, n);
    SmallRemainder(0, n);
    assert (0xffff_ffff + 1) % UINT32 == 0 && 0xffff_ffff % UINT32 == 0xffff_ffff;
  }

  lemma MarkValues(cells: seq<Cell>, i: nat, hops: set<nat>)
    requires i < |cells|
    ensures
      var after := cells[i := cells[i].(hops := hops)];
      && Values(after) == Values(cells)
      && (KeysDistinct(cells) ==> KeysDistinct(after))
  {
    var after := cells[i := cells[i].(hops := hops)];
    assert forall j :: 0 <= j < |cells| ==> after[j].value == cells[j].value;
  }

  function Vacated(cells: seq<Cell>, i: nat): seq<Cell>
    requires i < |cells|
  {
    cells[i := cells[i].(value := None)]
  }

  /** The table without the value of cell j, whose home forgets the hop to it. */
  function Opened(h: Hash, cells: seq<Cell>, j: nat): seq<Cell>
    requires |cells| > 0 && j < |cells| && cells[j].value.Some?
  {
    var home := Home(h, cells[j].value.value.key, |cells|);
    if home == j then cells
    else cells[home := cells[home].(hops := cells[home].hops - {Distance(home, j, |cells|)})]
  }

  lemma VacatedValues(cells: seq<Cell>, j: nat)
    requires j < |cells| && cells[j].value.Some? && KeysDistinct(cells)
    ensures Values(Vacated(cells, j)) == Values(cells) - {cells[j].value.value}
    ensures KeysDistinct(Vacated(cells, j)) && cells[j].value.value in Values(cells)
  {
    var after, v := Vacated(cells, j), cells[j].value.value;
    forall w
      ensures w in Values(after) <==> w in Values(cells) && w != v
    {
      if w in Values(cells) && w != v {
        var i := ValueAt(cells, w);
        assert after[i].value == Some(w);
      }
      if w in Values(after) {
        var i := ValueAt(after, w);
        assert cells[i].value == Some(w) && i != j;
      }
    }
  }

  /** Two different hops do not lead to the same cell. */
  lemma OneHopToEach(h: Hash, cells: seq<Cell>, hole: Option<nat>, i: nat, k: nat, j: nat)
    requires Cells(h, cells, hole) && i < |cells| && k in cells[i].hops && j < |cells|
    requires Hop(i, k, |cells|) == j
    ensures cells[j].value.Some? && Home(h, cells[j].value.value.key, |cells|) == i && k == Distance(i, j, |cells|) && i != j
  {
    assert HopOk(h, cells, hole, i, k);
    HopIsInjective(i, k, Distance(i, j, |cells|), |cells|);
  }

  lemma OpenHole(h: Hash, cells: seq<Cell>, j: nat)
    requires Cells(h, cells, None) && j < |cells| && cells[j].value.Some?
    ensures
      var after := Vacated(Opened(h, cells, j), j);
      && Opened(h, cells, j)[j] == cells[j]
      && Cells(h, after, Some(j)) && Values(after) == Values(cells) - {cells[j].value.value}
  {
    var n := |cells|;
    var b := Home(h, cells[j].value.value.key, n);
    var cut := Opened(h, cells, j);
    var after := Vacated(cut, j);
    MarkValues(cells, b, cut[b].hops);
    VacatedValues(cut, j);
    forall i: nat, k | i < n && k in after[i].hops
      ensures HopOk(h, after, Some(j), i, k)
    {
      assert HopOk(h, cells, None, i, k);
      if Hop(i, k, n) == j {
        OneHopToEach(h, cells, None, i, k, j);
      }
    }
    forall i: nat | i < n && after[i].value.Some?
      ensures Reachable(h, after, i)
    {
      assert Reachable(h, cells, i);
    }
  }

  /** The value a hop after the hole moves into it, and its cell becomes the hole. */
  lemma MoveUp(h: Hash, cells: seq<Cell>, e: nat, hop: nat)
    requires e < |cells| && Cells(h, Vacated(cells, e), Some(e)) && hop in cells[e].hops
    ensures
      var s := Hop(e, hop, |cells|);
      var after := cells[e := Cell(cells[e].hops - {hop}, cells[s].value)];
      && s != e && cells[s].value.Some? && after[s] == cells[s]
      && Cells(h, Vacated(after, s), Some(s))
      && Values(Vacated(after, s)) == Values(Vacated(cells, e))
  {
    var n := |cells|;
    var before := Vacated(cells, e);
    var s := Hop(e, hop, n);
    OneHopToEach(h, before, Some(e), e, hop, s);
    var after := cells[e := Cell(cells[e].hops - {hop}, cells[s].value)];
    var moved := Vacated(after, s);
    MovedValues(cells, e, s, moved);
    forall i: nat, k | i < n && k in moved[i].hops
      ensures HopOk(h, moved, Some(s), i, k)
    {
      assert HopOk(h, before, Some(e), i, k);
      if Hop(i, k, n) == s {
        OneHopToEach(h, before, Some(e), i, k, s);
      }
    }
    forall i: nat | i < n && moved[i].value.Some?
      ensures Reachable(h, moved, i)
    {
      if i != e {
        assert Reachable(h, before, i);
        HopIsInjective(e, hop, Distance(e, s, n), n);
      }
    }
  }

  lemma MovedValues(cells: seq<Cell>, e: nat, s: nat, moved: seq<Cell>)
    requires e < |cells| && s < |cells| && e != s && cells[s].value.Some? && KeysDistinct(Vacated(cells, e))
    requires |moved| == |cells| && moved[e].value == cells[s].value && moved[s].value == None
    requires forall i :: 0 <= i < |cells| && i != e && i != s ==> moved[i].value == cells[i].value
    ensures Values(moved) == Values(Vacated(cells, e)) && KeysDistinct(moved)
  {
    var before := Vacated(cells, e);
    assert before[s].value == cells[s].value;
    forall w
      ensures w in Values(moved) <==> w in Values(before)
    {
      if w in Values(before) {
        var i := ValueAt(before, w);
        assert moved[if i == s then e else i].value == Some(w);
      }
      if w in Values(moved) {
        var i := ValueAt(moved, w);
        assert before[if i == e then s else i].value == Some(w);
      }
    }
    forall i, j | 0 <= i < j < |moved| && moved[i].value.Some? && moved[j].value.Some?
      ensures moved[i].value.value.key != moved[j].value.value.key
    {
      var a, b := if i == e then s else i, if j == e then s else j;
      assert before[a].value == moved[i].value && before[b].value == moved[j].value;
      assert a < b || b < a;
    }
  }

  lemma CloseHole(h: Hash, cells: seq<Cell>, e: nat)
    requires e < |cells| && Cells(h, cells, Some(e)) && cells[e].hops == {}
    ensures Cells(h, cells, None)
  {
    forall i: nat, k | i < |cells| && k in cells[i].hops
      ensures HopOk(h, cells, None, i, k)
    {
      assert HopOk(h, cells, Some(e), i, k);
    }
  }

  /** All hops of all cells; each move uses one up. */
  ghost function AllHops(cells: seq<Cell>): set<(nat, nat)> {
    set i: nat, k | i < |cells| && k in cells[i].hops :: (i, k)
  }

  lemma MoveUsesHop(cells: seq<Cell>, e: nat, hop: nat, v: Option<Value>)
    requires e < |cells| && hop in cells[e].hops
    ensures AllHops(cells[e := Cell(cells[e].hops - {hop}, v)]) < AllHops(cells)
  {
    var after := cells[e := Cell(cells[e].hops - {hop}, v)];
    assert (e, hop) in AllHops(cells);
    assert (e, hop) !in AllHops(after);
    forall p | p in AllHops(after)
      ensures p in AllHops(cells)
    {
      assert p.1 in cells[p.0].hops;
    }
  }

  /** A value that is in the table is found from its home. */
  lemma FoundFromHome(h: Hash, cells: seq<Cell>, key: nat, j: nat)
    requires Cells(h, cells, None) && j < |cells| && cells[j].value.Some? && cells[j].value.value.key == key
    ensures
      var b := Home(h, key, |cells|);
      cells[b].value.Some? && (b == j || exists hop :: hop in cells[b].hops && Hop(b, hop, |cells|) == j)
  {
    var b := Home(h, key, |cells|);
    assert Reachable(h, cells, j);
    if b != j {
      var d := Distance(b, j, |cells|);
      assert HopOk(h, cells, None, b, d);
    }
  }

  /** A fresh table of empty cells. */
  lemma EmptyCells(h: Hash, cells: seq<Cell>)
    requires GoodSize(|cells|) && forall i :: 0 <= i < |cells| ==> cells[i] == EMPTY_CELL
    ensures Cells(h, cells, None) && Values(cells) == {}
  {
    SizeDividesHashRange(|cells|);
  }
}
