/**
  The hopscotch hash table: probing insertion, lookup through the hops, removal
  with the values of the vacated home shuffled up, and growth.
 */
module Hopscotch {
  import opened Basics
  import opened HopscotchCells

  datatype Outcome =
    | Done      // the value is in the table
    | Refused   // no memory, or the table cannot grow: nothing changed
    | Crowded   // no empty cell within 32 of some home: the rebalancing path begins

  class Table {
    const hash: Hash
    var cells: seq<Cell>
    var used: nat

    ghost predicate Valid()
      reads this
    {
      Cells(hash, cells, None) && used == |Values(cells)|
    }

    constructor (hash: Hash, capacity: nat)
      requires GoodSize(capacity)
      ensures Valid() && this.hash == hash && Values(cells) == {} && |cells| == capacity
    {
      this.hash := hash;
      cells := seq(capacity, _ => EMPTY_CELL);
      used := 0;
      new;
      EmptyCells(hash, cells);
    }

    /** The least of the hops, as ffs finds it. */
    static method FirstHop(hops: set<nat>) returns (hop: nat)
      requires hops != {}
      ensures hop in hops && forall k :: k in hops ==> hop <= k
    {
      ghost var some :| some in hops;
      LeastExists(hops, some);
      hop :| hop in hops && forall k :: k in hops ==> hop <= k;
    }

    /** The cell of a key, or None: a key is found exactly when the table holds a value for it. */
    method GetCell(key: nat) returns (found: Option<nat>)
      requires Valid()
      ensures found.Some? ==>
        && found.value < |cells| && cells[found.value].value.Some? && cells[found.value].value.value.key == key
        && cells[found.value].value.value in Values(cells)
      ensures found.None? ==> forall v :: v in Values(cells) ==> v.key != key
    {
      var n := |cells|;
      var h := hash(key);
      var b := Slot(h, 0, n);
      if cells[b].value.Some? {
        if cells[b].value.value.key == key {
          assert cells[b].value.value in Values(cells);
          return Some(b);
        }
        var jump := cells[b].hops;
        while jump != {}
          invariant jump <= cells[b].hops
          invariant forall k :: k in cells[b].hops && k !in jump ==>
            cells[Hop(b, k, n)].value.Some? && cells[Hop(b, k, n)].value.value.key != key
          decreases jump
        {
          var hop := FirstHop(jump);
          SlotIsHop(h, hop, n);
          assert HopOk(hash, cells, None, b, hop);
          var c := Slot(h, hop, n);
          if cells[c].value.value.key == key {
            assert cells[c].value.value in Values(cells);
            return Some(c);
          }
          jump := jump - {hop};
        }
      }
      NotFound(hash, cells, key);
      return None;
    }

    /** Puts a value into its home or into the first empty cell of the 32 after it. */
    method Probe(v: Value) returns (placed: bool)
      requires Valid() && forall w :: w in Values(cells) ==> w.key != v.key
      modifies this`cells, this`used
      ensures Valid() && |cells| == |old(cells)|
      ensures placed <==> HasRoom(hash, old(cells), v.key)
      ensures placed <==> exists k: nat :: k <= 32 && old(cells)[Slot(hash(v.key), k, |old(cells)|)].value.None?
      ensures placed ==> cells == Put(hash, old(cells), v)
      ensures placed ==> Values(cells) == old(Values(cells)) + {v} && used == old(used) + 1
      ensures !placed ==> cells == old(cells) && used == old(used)
    {
      hide Cells, Values;
      CellsHaveSize(hash, cells);
      var n := |cells|;
      var h := hash(v.key);
      var b := Slot(h, 0, n);
      NewValue(cells, v);
      HopZero(b, n);
      RoomIsFirstFree(hash, cells, v.key);
      RoomWithinReach(hash, cells, v.key);
      hide HasRoom, FirstFree;
      if cells[b].value.None? {
        FirstFreeIsLeast(hash, cells, v.key, 0, 0);
        PutKeeps(hash, cells, v);
        cells := cells[b := Cell({}, Some(v))];
        used := used + 1;
        return true;
      }
      for i := 1 to 33
        invariant cells == old(cells) && used == old(used)
        invariant forall k: nat :: k < i ==> !Free(hash, cells, v.key, k)
      {
        SlotIsHop(h, i, n);
        var second := Slot(h, i, n);
        if cells[second].value.None? {
          FirstFreeIsLeast(hash, cells, v.key, 0, i);
          PutKeeps(hash, cells, v);
          cells := cells[b := cells[b].(hops := cells[b].hops + {i})];
          cells := cells[second := cells[second].(value := Some(v))];
          used := used + 1;
          return true;
        }
      }
      FirstFreeIsLeast(hash, cells, v.key, 0, 33);
      return false;
    }

    /** _table_move_second: fills the vacated cell e with the first value displaced from it, then
        goes on with the cell that value came from, until a cell without hops is left empty. */
    method MoveSecond(e: nat)
      requires e < |cells| && Cells(hash, Vacated(cells, e), Some(e)) && cells[e].hops != {}
      modifies this`cells
      ensures Cells(hash, cells, None) && |cells| == |old(cells)|
      ensures Values(cells) == Values(Vacated(old(cells), e))
      decreases AllHops(cells)
    {
      hide Cells, Values, AllHops;
      var hop := FirstHop(cells[e].hops);
      var s := Hop(e, hop, |cells|);
      MoveUp(hash, cells, e, hop);
      MoveUsesHop(cells, e, hop, cells[s].value);
      cells := cells[e := Cell(cells[e].hops - {hop}, cells[s].value)];
      if cells[s].hops == {} {
        CloseHole(hash, Vacated(cells, s), s);
        cells := cells[s := cells[s].(value := None)];
      } else {
        MoveSecond(s);
      }
    }

    /** Removes a key's value; other keys keep theirs. */
    method Remove(key: nat)
      requires Valid()
      modifies this`cells, this`used
      ensures Valid() && |cells| == |old(cells)|
      ensures Values(cells) == set v | v in old(Values(cells)) && v.key != key
    {
      var found := GetCell(key);
      if found == None {
        assert Values(cells) == set v | v in Values(cells) && v.key != key;
        return;
      }
      var cell := found.value;
      KeyIsUnique(cells, cell);
      OpenHole(hash, cells, cell);
      RemoveOne(Values(cells), cells[cell].value.value);
      hide Cells, Values;
      var b := Slot(hash(key), 0, |cells|);
      if b != cell {
        var displacement := Distance(b, cell, |cells|);
        if displacement in cells[b].hops {
          cells := cells[b := cells[b].(hops := cells[b].hops - {displacement})];
        }
      }
      assert cells == Opened(hash, old(cells), cell);
      if cells[cell].hops == {} {
        CloseHole(hash, Vacated(cells, cell), cell);
        cells := cells[cell := cells[cell].(value := None)];
      } else {
        MoveSecond(cell);
      }
      used := used - 1;
    }

    /** _table_resize: moves every value to a table twice as large. */
    method Resize(memory: bool) returns (outcome: Outcome)
      requires Valid()
      modifies this`cells, this`used
      ensures outcome == Refused <==> !memory || |old(cells)| > 0xffff_ffff / 2
      ensures outcome == Refused ==> cells == old(cells) && used == old(used)
      ensures outcome != Refused ==> (outcome == Done <==> Refill(hash, old(cells), |old(cells)|).Some?)
      ensures Unwrapped(hash, old(cells)) ==> outcome != Crowded
      ensures outcome == Done ==>
        && Valid() && cells == Refill(hash, old(cells), |old(cells)|).value
        && |cells| == 2 * |old(cells)| && Values(cells) == old(Values(cells)) && used == old(used)
      ensures outcome == Crowded ==>
        Valid() && exists i: nat :: StopsAt(hash, old(cells), i) && cells == Refill(hash, old(cells), i).value
    {
      hide Cells, Values, KeysDistinct, Refill, HasRoom, Put, EmptyTable, GoodSize;
      if |cells| > 0xffff_ffff / 2 || !memory {
        return Refused;
      }
      var copy := cells;
      if Unwrapped(hash, copy) {
        UnwrappedRefills(hash, copy, |copy|);
      }
      hide Unwrapped;
      RefillStarts(hash, copy);
      cells := EmptyTable(2 * |copy|);
      used := 0;
      for i := 0 to |copy|
        invariant Valid() && |cells| == 2 * |copy|
        invariant Values(cells) == Values(copy[..i]) && Refill(hash, copy, i) == Some(cells)
      {
        PrefixValues(copy, i);
        RefillStep(hash, copy, i);
        if copy[i].value.Some? {
          var placed := Probe(copy[i].value.value);
          if !placed {
            RefillGoesOn(hash, copy, i + 1, |copy|);
            assert StopsAt(hash, copy, i);
            return Crowded;
          }
        }
      }
      assert copy[..|copy|] == copy;
      return Done;
    }

    /** _insert up to the point where rebalancing would begin.  A table that is more than four fifths
        full is doubled, if there is memory and the size can double. */
    method Insert(v: Value, memory: bool) returns (outcome: Outcome)
      requires Valid() && forall w :: w in Values(cells) ==> w.key != v.key
      modifies this`cells, this`used
      ensures Valid() && outcome != Refused
      ensures outcome == Done <==>
        || HasRoom(hash, old(cells), v.key)
        || (old(used) * 5 > old(|cells|) * 4 && memory && old(|cells|) <= 0x7fff_ffff
            && RoomAfterGrowth(hash, old(cells), v.key))
      ensures outcome == Done ==> Values(cells) == old(Values(cells)) + {v}
      ensures outcome == Done && HasRoom(hash, old(cells), v.key) ==> cells == Put(hash, old(cells), v)
      ensures outcome == Crowded && !(old(used) * 5 > old(|cells|) * 4 && memory && old(|cells|) <= 0x7fff_ffff) ==>
        cells == old(cells) && used == old(used)
      ensures outcome == Crowded && Refill(hash, old(cells), |old(cells)|).Some? ==>
        Values(cells) == old(Values(cells)) && used == old(used)
    {
      hide Cells, Values, HasRoom, Refill;
      CellsHaveSize(hash, cells);
      var placed := Probe(v);
      if placed {
        return Done;
      }
      if used * 5 > |cells| * 4 {
        outcome := Resize(memory);
        if outcome == Done {
          placed := Probe(v);
          return if placed then Done else Crowded;
        }
      }
      return Crowded;
    }
  }

  /** The value in cell i is the first for which the table of twice the size has no room. */
  ghost predicate StopsAt(h: Hash, cells: seq<Cell>, i: nat) {
    && i < |cells| && cells[i].value.Some? && Refill(h, cells, i).Some?
    && !HasRoom(h, Refill(h, cells, i).value, cells[i].value.value.key)
  }

  ghost predicate RoomAfterGrowth(h: Hash, cells: seq<Cell>, key: nat)
    requires |cells| > 0
  {
    var t := Refill(h, cells, |cells|);
    t.Some? && HasRoom(h, t.value, key)
  }

  lemma NotFound(h: Hash, cells: seq<Cell>, key: nat)
    requires Cells(h, cells, None)
    requires
      var b := Home(h, key, |cells|);
      cells[b].value.Some? ==>
        && cells[b].value.value.key != key
        && forall k :: k in cells[b].hops ==> cells[Hop(b, k, |cells|)].value.Some? && cells[Hop(b, k, |cells|)].value.value.key != key
    ensures forall v :: v in Values(cells) ==> v.key != key
  {
    forall v | v in Values(cells)
      ensures v.key != key
    {
      var j := ValueAt(cells, v);
      if v.key == key {
        FoundFromHome(h, cells, key, j);
      }
    }
  }

  lemma CellsHaveSize(h: Hash, cells: seq<Cell>)
    requires Cells(h, cells, None)
    ensures |cells| > 0 && GoodSize(|cells|)
  {
  }

  lemma NewValue(cells: seq<Cell>, v: Value)
    requires forall w :: w in Values(cells) ==> w.key != v.key
    ensures v !in Values(cells) && |Values(cells) + {v}| == |Values(cells)| + 1
  {
  }

  lemma KeyIsUnique(cells: seq<Cell>, i: nat)
    requires KeysDistinct(cells) && i < |cells| && cells[i].value.Some?
    ensures
      var v := cells[i].value.value;
      Values(cells) - {v} == set w | w in Values(cells) && w.key != v.key
  {
    var v := cells[i].value.value;
    forall w | w in Values(cells) && w != v
      ensures w.key != v.key
    {
      var j := ValueAt(cells, w);
      assert i < j || j < i;
    }
  }

  lemma RemoveOne(s: set<Value>, v: Value)
    requires v in s
    ensures |s - {v}| == |s| - 1
  {
  }

  lemma RefillStarts(h: Hash, cells: seq<Cell>)
    requires Cells(h, cells, None) && |cells| <= 0xffff_ffff / 2
    ensures
      var t := EmptyTable(2 * |cells|);
      && KeysDistinct(cells) && |cells| > 0 && |t| == 2 * |cells| && Refill(h, cells, 0) == Some(t)
      && Cells(h, t, None) && Values(t) == Values(cells[..0]) == {}
  {
    DoubleIsGood(|cells|);
    EmptyCells(h, EmptyTable(2 * |cells|));
  }

  lemma PrefixValues(cells: seq<Cell>, i: nat)
    requires i < |cells| && KeysDistinct(cells)
    ensures Values(cells[..i + 1]) == Values(cells[..i]) + if cells[i].value.Some? then {cells[i].value.value} else {}
    ensures cells[i].value.Some? ==> forall w :: w in Values(cells[..i]) ==> w.key != cells[i].value.value.key
  {
    var a, b := cells[..i], cells[..i + 1];
    forall w
      ensures w in Values(b) <==> w in Values(a) || cells[i].value == Some(w)
    {
      if w in Values(a) {
        var j := ValueAt(a, w);
        assert b[j].value == Some(w);
      }
      if cells[i].value == Some(w) {
        assert b[i].value == Some(w);
      }
      if w in Values(b) {
        var j := ValueAt(b, w);
        assert j < i ==> a[j].value == Some(w);
      }
    }
    forall w | w in Values(a) && cells[i].value.Some?
      ensures w.key != cells[i].value.value.key
    {
      var j := ValueAt(a, w);
      assert cells[j].value == Some(w);
    }
  }
}
