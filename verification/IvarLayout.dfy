/**
  Non-fragile instance variables: the offsets that the runtime gives the ivars of a
  late-bound class, after those of its superclass, and what they mean in memory.
 */
module IvarLayout {
  import opened Arithmetic

  /** offset is relative to the class until the layout is computed, and to the object after it. */
  datatype Ivar = Ivar(offset: int, size: nat, flags: nat, isBool: bool)

  const REFCOUNT_SIZE := 8
  const ALLOC_ALIGN := 64
  const LONG_MIN: int := -0x8000_0000_0000_0000

  /** Six bits of the flags above the three lowest. */
  function Exponent(v: Ivar): nat {
    v.flags / 8 % 64
  }

  function Align(v: Ivar): (r: nat)
    ensures r > 0
  {
    Pow2(Exponent(v))
  }

  /** Where the exponent stands in the flags: above the two ownership bits and the one for an
      extended encoding, below whatever follows the sixth bit. */
  lemma AlignField(v: Ivar, high: nat, e: nat, low: nat)
    requires v.flags == high * 512 + e * 8 + low && e < 64 && low < 8
    ensures Align(v) == Pow2(e)
  {
    ExponentField(v, high, e, low);
  }

  lemma ExponentField(v: Ivar, high: nat, e: nat, low: nat)
    requires v.flags == high * 512 + e * 8 + low && e < 64 && low < 8
    ensures Exponent(v) == e
  {
    assert v.flags / 8 == high * 64 + e;
    RemainderIsUnique(high * 64 + e, 64, high, e);
  }

  /** The position of the highest bit, 63 less the leading zeros of a 64-bit word. */
  function HighestBit(x: nat): (r: nat)
    requires x > 0
    ensures Pow2(r) <= x < 2 * Pow2(r)
  {
    if x == 1 then 0 else 1 + HighestBit(x / 2)
  }

  /** ivarSetAlign: the new flags. */
  function SetAlign(flags: nat, align: nat): nat {
    flags / 512 * 512 + (if align == 0 then 0 else HighestBit(align)) * 8 + flags % 8
  }

  lemma {:induction false} BitsBelow(x: nat, n: nat)
    requires 0 < x < Pow2(n)
    ensures HighestBit(x) < n
  {
    if x > 1 {
      BitsBelow(x / 2, n - 1);
    }
  }

  lemma {:induction false} HighestBitOfPower(e: nat)
    ensures HighestBit(Pow2(e)) == e
  {
    if e > 0 {
      HighestBitOfPower(e - 1);
      assert Pow2(e) / 2 == Pow2(e - 1);
    }
  }

  /** What ivarSetAlign stores, ivarGetAlign reads back: the greatest power of two that is no
      greater, 1 for 0.  The ownership and the other flags stay. */
  lemma SetAlignIsRead(v: Ivar, flags: nat, align: nat)
    requires v.flags == SetAlign(flags, align) && align < Pow2(64)
    ensures align == 0 ==> Align(v) == 1
    ensures align > 0 ==> Align(v) <= align < 2 * Align(v)
    ensures forall e :: align == Pow2(e) ==> Align(v) == align
    ensures v.flags % 8 == flags % 8 && v.flags / 512 == flags / 512
  {
    var e := if align == 0 then 0 else HighestBit(align);
    if align > 0 {
      BitsBelow(align, 64);
    }
    hide Pow2;
    AlignField(v, flags / 512, e, flags % 8);
    assert Align(v) == Pow2(e);
    FlagsApart(flags / 512, e, flags % 8);
    forall d | align == Pow2(d)
      ensures Align(v) == align
    {
      HighestBitOfPower(d);
    }
    assert align == 0 ==> Align(v) == 1 by {
      assert Pow2(0) == 1 by { PowerZero(); }
    }
  }

  lemma PowerZero()
    ensures Pow2(0) == 1
  {
  }

  lemma FlagsApart(high: nat, e: nat, low: nat)
    requires e < 64 && low < 8
    ensures (high * 512 + e * 8 + low) % 8 == low && (high * 512 + e * 8 + low) / 512 == high
  {
    RemainderIsUnique(high * 512 + e * 8 + low, 8, high * 64 + e, low);
  }

  /** Some compilers give a _Bool the size 0. */
  function Size(v: Ivar): nat {
    if v.size == 0 && v.isBool then 1 else v.size
  }

  /** The place of an ivar of alignment a at or after next. */
  function Rounded(next: nat, a: nat): (r: nat)
    requires a > 0
    ensures next <= r < next + a && (r + REFCOUNT_SIZE) % a == 0
  {
    var m := (next + REFCOUNT_SIZE) % a;
    if m != 0 then
      PaddingAligns(next + REFCOUNT_SIZE, a);
      next + (a - m)
    else next
  }

  // ---------------------------------------------------------------------------
  // The layout of one class
  // ---------------------------------------------------------------------------

  /** The ivar whose storage ivar i shares: the first of the run of equal raw offsets around it. */
  function Leader(raw: seq<Ivar>, i: nat): (r: nat)
    requires i < |raw|
    ensures r <= i
  {
    if i == 0 then 0 else
      var l := Leader(raw, i - 1);
      if raw[i].offset == raw[l].offset then l else i
  }

  ghost predicate Leads(raw: seq<Ivar>, i: nat) {
    i < |raw| && Leader(raw, i) == i
  }

  /** The first byte after the first n ivars. */
  function End(start: nat, raw: seq<Ivar>, n: nat): nat
    requires n <= |raw|
  {
    if n == 0 then start else
      if Leader(raw, n - 1) == n - 1 then Rounded(End(start, raw, n - 1), Align(raw[n - 1])) + Size(raw[n - 1])
      else End(start, raw, n - 1)
  }

  function Offset(start: nat, raw: seq<Ivar>, i: nat): nat
    requires i < |raw|
  {
    var l := Leader(raw, i);
    Rounded(End(start, raw, l), Align(raw[l]))
  }

  lemma {:induction false} LeaderLeads(raw: seq<Ivar>, i: nat)
    requires i < |raw|
    ensures Leads(raw, Leader(raw, i)) && raw[Leader(raw, i)].offset == raw[i].offset
  {
    if i > 0 {
      LeaderLeads(raw, i - 1);
    }
  }

  lemma {:induction false} EndGrows(start: nat, raw: seq<Ivar>, m: nat, n: nat)
    requires m <= n <= |raw|
    ensures End(start, raw, m) <= End(start, raw, n)
  {
    if m < n {
      EndGrows(start, raw, m, n - 1);
    }
  }

  /** Every leader starts after whatever was placed before it and ends before whatever follows. */
  lemma LeaderExtent(start: nat, raw: seq<Ivar>, i: nat, m: nat, n: nat)
    requires Leads(raw, i) && m <= i < n <= |raw|
    ensures End(start, raw, m) <= Offset(start, raw, i)
    ensures Offset(start, raw, i) + Size(raw[i]) <= End(start, raw, n)
    ensures (Offset(start, raw, i) + REFCOUNT_SIZE) % Align(raw[i]) == 0
  {
    EndGrows(start, raw, m, i);
    EndGrows(start, raw, i + 1, n);
  }

  lemma LeadersAreApart(start: nat, raw: seq<Ivar>, i: nat, j: nat)
    requires Leads(raw, i) && Leads(raw, j) && i < j
    ensures Offset(start, raw, i) + Size(raw[i]) <= Offset(start, raw, j)
  {
    LeaderExtent(start, raw, i, i, j);
    LeaderExtent(start, raw, j, j, |raw|);
  }

  /** An alias begins where its leader does, and lies inside it exactly if it is no larger. */
  lemma AliasInsideLeader(start: nat, raw: seq<Ivar>, i: nat)
    requires i < |raw|
    ensures
      var l := Leader(raw, i);
      && Offset(start, raw, i) == Offset(start, raw, l)
      && (Offset(start, raw, i) + Size(raw[i]) <= Offset(start, raw, l) + Size(raw[l]) <==> Size(raw[i]) <= Size(raw[l]))
  {
    LeaderLeads(raw, i);
  }

  /** An alias is aligned if it asks for no more than its leader. */
  lemma AliasAligned(start: nat, raw: seq<Ivar>, i: nat)
    requires i < |raw| && Exponent(raw[i]) <= Exponent(raw[Leader(raw, i)])
    ensures (Offset(start, raw, i) + REFCOUNT_SIZE) % Align(raw[i]) == 0
  {
    OffsetIsAligned(start, raw, i);
    hide Offset, Leader, Exponent, Pow2;
    LowerPower(Offset(start, raw, i) + REFCOUNT_SIZE, Exponent(raw[i]), Exponent(raw[Leader(raw, i)]));
  }

  lemma OffsetIsAligned(start: nat, raw: seq<Ivar>, i: nat)
    requires i < |raw|
    ensures (Offset(start, raw, i) + REFCOUNT_SIZE) % Align(raw[Leader(raw, i)]) == 0
  {
  }

  lemma LowerPower(x: nat, a: nat, b: nat)
    requires a <= b && x % Pow2(b) == 0
    ensures x % Pow2(a) == 0
  {
    hide Pow2;
    PowersDivide(a, b);
    RemainderOfRemainder(x, Pow2(a), Pow2(b));
  }

  /** For an alias of a class's first ivar, where nothing else decides the offset, that is also
      necessary: it is aligned below every superclass exactly if it asks for no more. */
  lemma FirstAliasAligned(raw: seq<Ivar>, i: nat)
    requires i < |raw| && Leader(raw, i) == 0
    ensures
      (forall start: nat :: (Offset(start, raw, i) + REFCOUNT_SIZE) % Align(raw[i]) == 0)
      <==> Exponent(raw[i]) <= Exponent(raw[0])
  {
    if Exponent(raw[i]) <= Exponent(raw[0]) {
      forall start: nat
        ensures (Offset(start, raw, i) + REFCOUNT_SIZE) % Align(raw[i]) == 0
      {
        AliasAligned(start, raw, i);
      }
    } else {
      var start := 9 * Align(raw[0]) - REFCOUNT_SIZE;
      OddMultiple(Exponent(raw[0]), Exponent(raw[i]));
      RemainderIsUnique(9 * Align(raw[0]), Align(raw[0]), 9, 0);
      assert Offset(start, raw, i) == start;
    }
  }

  lemma OddMultiple(a: nat, b: nat)
    requires a < b
    ensures (9 * Pow2(a)) % Pow2(b) != 0
  {
    if (9 * Pow2(a)) % Pow2(b) == 0 {
      var q, r := Divide(9 * Pow2(a), Pow2(b));
      Pow2Adds(b - a - 1, a + 1);
      assert Pow2(a + 1) == 2 * Pow2(a);
      hide Pow2;
      NineIsOdd(q, Pow2(b - a - 1), Pow2(a));
    }
  }

  lemma NineIsOdd(q: nat, d: nat, p: nat)
    requires p > 0
    ensures 9 * p != q * (d * (2 * p))
  {
    var e := q * d;
    assert q * (d * (2 * p)) == (2 * e) * p by {
      assert q * (d * (2 * p)) == (q * d) * (2 * p);
      assert e * (2 * p) == (2 * e) * p;
    }
    if 9 * p == (2 * e) * p {
      CancelFactor(9, 2 * e, p);
    }
  }

  lemma CancelFactor(x: int, y: int, p: int)
    requires p > 0 && x * p == y * p
    ensures x == y
  {
    assert (x - y) * p == 0;
  }

  /** The ivars after the layout. */
  ghost predicate Placed(start: nat, raw: seq<Ivar>, v: seq<Ivar>, n: nat) {
    && |v| == |raw| && n <= |raw|
    && (forall i :: 0 <= i < n ==> v[i] == raw[i].(offset := Offset(start, raw, i), size := Size(raw[i])))
    && (forall i :: n <= i < |raw| ==> v[i] == raw[i])
  }

  lemma NextIvar(start: nat, raw: seq<Ivar>, i: nat)
    requires i < |raw|
    ensures
      if i > 0 && raw[i].offset == raw[Leader(raw, i - 1)].offset
      then raw[Leader(raw, i)].offset == raw[i].offset && Offset(start, raw, i) == Offset(start, raw, i - 1) && End(start, raw, i + 1) == End(start, raw, i)
      else Leader(raw, i) == i && Offset(start, raw, i) == Rounded(End(start, raw, i), Align(raw[i])) && End(start, raw, i + 1) == Offset(start, raw, i) + Size(raw[i])
  {
  }

  lemma NothingPlaced(start: nat, raw: seq<Ivar>)
    ensures Placed(start, raw, raw, 0) && End(start, raw, 0) == start
  {
  }

  lemma PlaceNext(start: nat, raw: seq<Ivar>, v: seq<Ivar>, i: nat)
    requires Placed(start, raw, v, i) && i < |raw|
    ensures v[i] == raw[i]
    ensures Placed(start, raw, v[i := raw[i].(offset := Offset(start, raw, i), size := Size(raw[i]))], i + 1)
  {
  }

  /** The loop of objc_compute_ivar_offsets. */
  method PlaceIvars(raw: seq<Ivar>, start: nat) returns (v: seq<Ivar>, instanceSize: nat)
    ensures Placed(start, raw, v, |raw|) && instanceSize == End(start, raw, |raw|)
  {
    hide Placed, End, Offset, Leader, Align;
    v, instanceSize := raw, start;
    NothingPlaced(start, raw);
    var next, lastOffset, lastComputed := start, LONG_MIN, -1;
    var i := 0;
    while i < |v|
      invariant i <= |v| == |raw| && Placed(start, raw, v, i)
      invariant next == instanceSize == End(start, raw, i)
      invariant i > 0 ==> lastOffset == raw[Leader(raw, i - 1)].offset && lastComputed == Offset(start, raw, i - 1)
    {
      NextIvar(start, raw, i);
      PlaceNext(start, raw, v, i);
      var ivar := v[i];
      if ivar.size == 0 && ivar.isBool {
        ivar := ivar.(size := 1);
      }
      if i != 0 && ivar.offset == lastOffset {
        v := v[i := ivar.(offset := lastComputed)];
      } else {
        lastOffset := ivar.offset;
        var offset := next;
        next := next + ivar.size;
        var align := Align(raw[i]);
        if (offset + REFCOUNT_SIZE) % align != 0 {
          var padding := align - (offset + REFCOUNT_SIZE) % align;
          offset := offset + padding;
          instanceSize := instanceSize + padding;
          next := next + padding;
        }
        lastComputed := offset;
        v := v[i := ivar.(offset := offset)];
        assert (offset + REFCOUNT_SIZE) % align == 0;
        instanceSize := instanceSize + ivar.size;
      }
      i := i + 1;
    }
  }

  // ---------------------------------------------------------------------------
  // The layout of a chain of classes
  // ---------------------------------------------------------------------------

  type Cls = nat
  const NIL: Cls := 0

  datatype Ivars = NoList | List(ivars: seq<Ivar>)

  datatype Class = Class(superclass: Cls, instanceSize: int, list: Ivars)

  /** The classes, their ivar lists as compiled, those laid out, and ranks above superclasses. */
  datatype World = World(classes: map<Cls, Class>, raw: map<Cls, Ivars>, done: set<Cls>, rank: map<Cls, nat>)

  ghost predicate Known(w: World, c: Cls) {
    && c != NIL && c in w.classes && c in w.raw && c in w.rank
    && (w.classes[c].superclass != NIL ==>
          w.classes[c].superclass in w.done && w.classes[c].superclass in w.rank && w.rank[w.classes[c].superclass] < w.rank[c])
  }

  /** Where the ivars of c begin. */
  ghost function Start(w: World, c: Cls): nat
    requires c in w.classes
  {
    var p := w.classes[c].superclass;
    if p != NIL && p in w.classes && w.classes[p].instanceSize > 0 then w.classes[p].instanceSize else 0
  }

  ghost predicate LaidOut(w: World, c: Cls) {
    Known(w, c) &&
    match w.raw[c]
    case NoList => w.classes[c].list.NoList? && w.classes[c].instanceSize == Start(w, c)
    case List(raw) =>
      && w.classes[c].list.List? && Placed(Start(w, c), raw, w.classes[c].list.ivars, |raw|)
      && w.classes[c].instanceSize == End(Start(w, c), raw, |raw|)
  }

  ghost predicate WorldOk(w: World) {
    forall c :: c in w.done ==> LaidOut(w, c)
  }

  /** A class as the compiler left it: a late-bound instance size, raw offsets. */
  ghost predicate Compiled(w: World, c: Cls) {
    && c != NIL && c in w.classes && c in w.raw && c in w.rank
    && c !in w.done && w.classes[c].instanceSize <= 0 && w.classes[c].list == w.raw[c]
    && var p := w.classes[c].superclass;
       if p == NIL then w.raw[c].NoList? ==> w.classes[c].instanceSize == 0
       else p in w.classes && p in w.rank && w.rank[p] < w.rank[c]
  }

  /** The layout of c can be computed: superclasses still to be laid out are laid out on the way,
      except below a class without an ivar list, which only copies a size. */
  ghost predicate Ready(w: World, c: Cls)
    decreases if c in w.rank then w.rank[c] else 0
  {
    c in w.done ||
    (Compiled(w, c) &&
     var p := w.classes[c].superclass;
     p == NIL || p in w.done || (w.raw[c].List? && Ready(w, p)))
  }

  /** A class without an ivar list whose superclass has not been laid out. */
  ghost predicate Stranded(w: World, c: Cls) {
    && Compiled(w, c) && w.raw[c].NoList?
    && w.classes[c].superclass != NIL && Compiled(w, w.classes[c].superclass)
  }

  /** What computing the layout of c lays out: c and the superclasses still to do. */
  ghost function Chain(w: World, c: Cls): (r: set<Cls>)
    decreases if c in w.rank then w.rank[c] else 0
  {
    if c in w.done || !Compiled(w, c) then {}
    else if w.classes[c].superclass == NIL then {c}
    else {c} + Chain(w, w.classes[c].superclass)
  }

  lemma {:induction false} ChainRanks(w: World, c: Cls, d: Cls)
    requires d in Chain(w, c)
    ensures c in w.rank && d in w.rank && w.rank[d] <= w.rank[c] && d !in w.done
    decreases if c in w.rank then w.rank[c] else 0
  {
    if d != c {
      ChainRanks(w, w.classes[c].superclass, d);
    }
  }

  lemma SizesOnlyGrow(w: World, c: Cls)
    requires WorldOk(w) && c in w.done
    ensures 0 <= Start(w, c) <= w.classes[c].instanceSize
  {
    assert LaidOut(w, c);
    if w.raw[c].List? {
      EndGrows(Start(w, c), w.raw[c].ivars, 0, |w.raw[c].ivars|);
    }
  }

  lemma StartIsSuperSize(w: World, c: Cls)
    requires WorldOk(w) && Known(w, c)
    ensures var p := w.classes[c].superclass; Start(w, c) == if p == NIL then 0 else w.classes[p].instanceSize
  {
    var p := w.classes[c].superclass;
    if p != NIL {
      assert LaidOut(w, p);
      SizesOnlyGrow(w, p);
    }
  }

  /** a is a proper ancestor of c. */
  ghost predicate Above(w: World, a: Cls, c: Cls)
    requires WorldOk(w) && c in w.done
    decreases if c in w.rank then w.rank[c] else 0
  {
    assert LaidOut(w, c);
    var p := w.classes[c].superclass;
    p != NIL && (a == p || (assert LaidOut(w, p); Above(w, a, p)))
  }

  lemma {:induction false} AncestorsEndBefore(w: World, a: Cls, c: Cls)
    requires WorldOk(w) && c in w.done && Above(w, a, c)
    ensures a in w.done && w.classes[a].instanceSize <= Start(w, c)
    decreases if c in w.rank then w.rank[c] else 0
  {
    assert LaidOut(w, c);
    var p := w.classes[c].superclass;
    assert LaidOut(w, p);
    StartIsSuperSize(w, c);
    if a != p {
      AncestorsEndBefore(w, a, p);
      SizesOnlyGrow(w, p);
    }
  }

  /** Ivar i of a laid-out class. */
  ghost predicate HasIvar(w: World, c: Cls, i: nat) {
    WorldOk(w) && c in w.done && w.raw[c].List? && i < |w.raw[c].ivars| && w.classes[c].list.List? && i < |w.classes[c].list.ivars|
  }

  ghost function IvarOf(w: World, c: Cls, i: nat): Ivar
    requires HasIvar(w, c, i)
  {
    w.classes[c].list.ivars[i]
  }

  ghost predicate IsLeader(w: World, c: Cls, i: nat)
    requires HasIvar(w, c, i)
  {
    Leads(w.raw[c].ivars, i)
  }

  /** An ivar that is not an alias lies between its superclass's and its own instance size, aligned;
      its size is at least one byte if it is a _Bool. */
  lemma IvarExtent(w: World, c: Cls, i: nat)
    requires HasIvar(w, c, i) && IsLeader(w, c, i)
    ensures
      var v := IvarOf(w, c, i);
      && Start(w, c) <= v.offset && v.offset + v.size <= w.classes[c].instanceSize
      && (v.offset + REFCOUNT_SIZE) % Align(v) == 0
      && v.flags == w.raw[c].ivars[i].flags
      && v.size == (if w.raw[c].ivars[i].size == 0 && w.raw[c].ivars[i].isBool then 1 else w.raw[c].ivars[i].size)
  {
    assert LaidOut(w, c);
    LeaderExtent(Start(w, c), w.raw[c].ivars, i, 0, |w.raw[c].ivars|);
  }

  /** Nothing is wasted: such an ivar begins less than its alignment after the superclass or the
      ivars before it, and the object ends with the last of them. */
  lemma IvarsArePacked(w: World, c: Cls, i: nat)
    requires HasIvar(w, c, i) && IsLeader(w, c, i)
    ensures
      var v, raw := IvarOf(w, c, i), w.raw[c].ivars;
      && (i == 0 ==> v.offset < Start(w, c) + Align(v))
      && (i > 0 ==>
            && HasIvar(w, c, Leader(raw, i - 1))
            && v.offset < IvarOf(w, c, Leader(raw, i - 1)).offset + IvarOf(w, c, Leader(raw, i - 1)).size + Align(v))
      && (Leader(raw, |raw| - 1) == i ==> v.offset + v.size == w.classes[c].instanceSize)
  {
    hide LaidOut, WorldOk, Align, Leader, Offset, Rounded, Pow2;
    IvarAsPlaced(w, c, i);
    var raw, start := w.raw[c].ivars, Start(w, c);
    RawArePacked(start, raw, i);
    if i > 0 {
      IvarAsPlaced(w, c, Leader(raw, i - 1));
    }
  }

  lemma IvarAsPlaced(w: World, c: Cls, i: nat)
    requires HasIvar(w, c, i)
    ensures c in w.classes && c in w.raw
    ensures
      var v, raw := IvarOf(w, c, i), w.raw[c].ivars;
      && v.offset == Offset(Start(w, c), raw, i) && v.size == Size(raw[i]) && Align(v) == Align(raw[i])
      && |w.classes[c].list.ivars| == |raw| && w.classes[c].instanceSize == End(Start(w, c), raw, |raw|)
  {
    assert LaidOut(w, c);
    hide Offset, End, Align, Size;
    SameAlign(w.raw[c].ivars[i], IvarOf(w, c, i));
  }

  lemma RawArePacked(start: nat, raw: seq<Ivar>, i: nat)
    requires Leads(raw, i)
    ensures i == 0 ==> Offset(start, raw, i) < start + Align(raw[i])
    ensures i > 0 ==>
      var l := Leader(raw, i - 1);
      Offset(start, raw, i) < Offset(start, raw, l) + Size(raw[l]) + Align(raw[i])
    ensures Leader(raw, |raw| - 1) == i ==> Offset(start, raw, i) + Size(raw[i]) == End(start, raw, |raw|)
  {
    hide Align, Size;
    if i > 0 {
      EndOfLeader(start, raw, i - 1);
    }
    EndOfLeader(start, raw, |raw| - 1);
  }

  /** After an ivar the object ends where its leader does. */
  lemma {:induction false} EndOfLeader(start: nat, raw: seq<Ivar>, i: nat)
    requires i < |raw|
    ensures End(start, raw, i + 1) == Offset(start, raw, Leader(raw, i)) + Size(raw[Leader(raw, i)])
  {
    LeaderLeads(raw, i);
    if Leader(raw, i) != i {
      EndOfLeader(start, raw, i - 1);
    }
  }

  /** Along a superclass chain ivars that are not aliases never overlap. */
  lemma IvarsNeverOverlap(w: World, c: Cls, i: nat, a: Cls, j: nat)
    requires HasIvar(w, c, i) && HasIvar(w, a, j) && IsLeader(w, c, i) && IsLeader(w, a, j)
    requires (a == c && j < i) || (a != c && Above(w, a, c))
    ensures IvarOf(w, a, j).offset + IvarOf(w, a, j).size <= IvarOf(w, c, i).offset
  {
    assert LaidOut(w, c) && LaidOut(w, a);
    if a == c {
      LeadersAreApart(Start(w, c), w.raw[c].ivars, j, i);
    } else {
      IvarExtent(w, c, i);
      IvarExtent(w, a, j);
      AncestorsEndBefore(w, a, c);
    }
  }

  /** An alias has its leader's offset, and lies inside it exactly if it is no larger. */
  lemma AliasesShareStorage(w: World, c: Cls, i: nat)
    requires HasIvar(w, c, i)
    ensures
      var l := Leader(w.raw[c].ivars, i);
      && HasIvar(w, c, l) && IsLeader(w, c, l) && w.raw[c].ivars[l].offset == w.raw[c].ivars[i].offset
      && IvarOf(w, c, i).offset == IvarOf(w, c, l).offset
      && (IvarOf(w, c, i).offset + IvarOf(w, c, i).size <= IvarOf(w, c, l).offset + IvarOf(w, c, l).size
          <==> IvarOf(w, c, i).size <= IvarOf(w, c, l).size)
  {
    assert LaidOut(w, c);
    LeaderLeads(w.raw[c].ivars, i);
    AliasInsideLeader(Start(w, c), w.raw[c].ivars, i);
  }

  /** An ivar of size 0 makes an alias of the next one, which then escapes the object. */
  lemma LargerAliasEscapes()
    ensures
      var raw := [Ivar(0, 0, 0, false), Ivar(0, 4, 16, false)];
      Offset(0, raw, 1) + Size(raw[1]) > End(0, raw, |raw|)
  {
    var raw := [Ivar(0, 0, 0, false), Ivar(0, 4, 16, false)];
    assert Leader(raw, 1) == 0;
    assert Leader(raw, 0) == 0 && Pow2(0) == 1;
    assert End(0, raw, 0) == 0 && End(0, raw, 1) == 0 && End(0, raw, 2) == 0;
  }

  /** A class without an ivar list below one that still has to be laid out copies a size that is
      not positive: -8 here, where eight bytes of ivars are to come.  A subclass with ivars would
      then start before the object. */
  ghost function StrandedWorld(): World {
    var word := Ivar(0, 8, 24, false);
    World(map[1 := Class(NIL, -8, List([word])), 2 := Class(1, 0, NoList), 3 := Class(2, -8, List([word]))],
          map[1 := List([word]), 2 := NoList, 3 := List([word])], {}, map[1 := 0, 2 := 1, 3 := 2])
  }

  lemma StrandedCopiesNegativeSize()
    ensures
      var w := StrandedWorld();
      && WorldOk(w) && Stranded(w, 2) && !Ready(w, 2) && !Ready(w, 3)
      && w.classes[w.classes[2].superclass].instanceSize == -8
  {
    var w := StrandedWorld();
    assert Compiled(w, 1) && Compiled(w, 2) && Compiled(w, 3);
    assert !Ready(w, 2);
  }

  /** It is also misaligned when it asks for more than its leader: below a superclass of size 1 an
      int that shares the place of an empty ivar ends up at offset 1. */
  lemma StricterAliasIsMisaligned(allocation: nat)
    requires allocation % ALLOC_ALIGN == 0
    ensures
      var raw := [Ivar(0, 0, 0, false), Ivar(0, 4, 16, false)];
      && Offset(1, raw, 1) == 1 && Align(raw[1]) == 4
      && (allocation + (Offset(1, raw, 1) + REFCOUNT_SIZE)) % Align(raw[1]) != 0
  {
    StricterAliasOffset();
    hide Offset, Align;
    var q, r := Divide(allocation, ALLOC_ALIGN);
    assert (allocation + 9) % 4 == 1;
  }

  lemma StricterAliasOffset()
    ensures
      var raw := [Ivar(0, 0, 0, false), Ivar(0, 4, 16, false)];
      Offset(1, raw, 1) == 1 && Align(raw[1]) == 4
  {
    var raw := [Ivar(0, 0, 0, false), Ivar(0, 4, 16, false)];
    assert Leader(raw, 1) == 0 && Leader(raw, 0) == 0;
    assert Pow2(0) == 1 && Pow2(1) == 2 && Pow2(2) == 4;
    assert End(1, raw, 0) == 1;
  }

  /** The address of an ivar: the allocation, one word of reference count, the offset. */
  function Address(allocation: nat, v: Ivar): int {
    allocation + (v.offset + REFCOUNT_SIZE)
  }

  /** The ivar asks for no greater alignment than the one whose storage it shares, if any. */
  ghost predicate AlignFits(w: World, c: Cls, i: nat)
    requires HasIvar(w, c, i)
  {
    Exponent(w.raw[c].ivars[i]) <= Exponent(w.raw[c].ivars[Leader(w.raw[c].ivars, i)])
  }

  lemma FitsIsAligned(w: World, c: Cls, i: nat)
    requires HasIvar(w, c, i) && AlignFits(w, c, i)
    ensures IvarOf(w, c, i).offset >= 0 && (IvarOf(w, c, i).offset + REFCOUNT_SIZE) % Align(IvarOf(w, c, i)) == 0
  {
    assert LaidOut(w, c);
    AliasAligned(Start(w, c), w.raw[c].ivars, i);
    SameAlign(w.raw[c].ivars[i], IvarOf(w, c, i));
    hide Align, Offset;
  }

  /** An ivar, alias or not, is aligned in memory exactly if the allocation is aligned for it. */
  lemma AlignedWithAllocation(w: World, c: Cls, i: nat, allocation: nat)
    requires HasIvar(w, c, i) && AlignFits(w, c, i)
    ensures Address(allocation, IvarOf(w, c, i)) % Align(IvarOf(w, c, i)) == 0 <==> allocation % Align(IvarOf(w, c, i)) == 0
  {
    hide WorldOk, Align, Leads, LaidOut, Address, AlignFits;
    FitsIsAligned(w, c, i);
    AlignedAddress(IvarOf(w, c, i), allocation);
  }

  lemma AlignedAddress(v: Ivar, allocation: nat)
    requires v.offset >= 0 && (v.offset + REFCOUNT_SIZE) % Align(v) == 0
    ensures Address(allocation, v) % Align(v) == 0 <==> allocation % Align(v) == 0
  {
    hide Align;
    AddToMultiple(v.offset + REFCOUNT_SIZE, allocation, Align(v));
  }

  lemma AddToMultiple(x: nat, y: nat, a: nat)
    requires a > 0 && x % a == 0
    ensures (y + x) % a == 0 <==> y % a == 0
  {
    AddToRemainder(x, y, a);
  }

  /** Up to the allocator's alignment that always holds. */
  lemma AlignedInMemory(w: World, c: Cls, i: nat, allocation: nat)
    requires HasIvar(w, c, i) && AlignFits(w, c, i) && Align(IvarOf(w, c, i)) <= ALLOC_ALIGN && allocation % ALLOC_ALIGN == 0
    ensures Address(allocation, IvarOf(w, c, i)) % Align(IvarOf(w, c, i)) == 0
  {
    var e := Exponent(IvarOf(w, c, i));
    SmallPowers(e);
    RemainderOfRemainder(allocation, Pow2(e), ALLOC_ALIGN);
    AlignedWithAllocation(w, c, i, allocation);
  }

  /** An ivar declared with an alignment of up to 64 bytes is aligned for it in every allocation,
      and so is an alias of one that was declared with no less. */
  lemma DeclaredAlignmentHolds(w: World, c: Cls, i: nat, allocation: nat, e: nat, flags: nat, d: nat, flags': nat)
    requires HasIvar(w, c, i) && e <= 6 && e <= d < 64 && allocation % 64 == 0
    requires w.raw[c].ivars[i].flags == SetAlign(flags, Pow2(e))
    requires w.raw[c].ivars[Leader(w.raw[c].ivars, i)].flags == SetAlign(flags', Pow2(d))
    ensures (IvarOf(w, c, i).offset + 8) % Pow2(e) == 0
    ensures (allocation + IvarOf(w, c, i).offset + 8) % Pow2(e) == 0
  {
    hide WorldOk, LaidOut, AlignFits, SetAlign, Pow2, Align, Leader, Exponent;
    DeclaredFits(w, c, i, e, flags, d, flags');
    FitsIsAligned(w, c, i);
    AlignedInMemory(w, c, i, allocation);
  }

  lemma DeclaredFits(w: World, c: Cls, i: nat, e: nat, flags: nat, d: nat, flags': nat)
    requires HasIvar(w, c, i) && e <= 6 && e <= d < 64
    requires w.raw[c].ivars[i].flags == SetAlign(flags, Pow2(e))
    requires w.raw[c].ivars[Leader(w.raw[c].ivars, i)].flags == SetAlign(flags', Pow2(d))
    ensures AlignFits(w, c, i) && Align(IvarOf(w, c, i)) == Pow2(e) <= 64
  {
    var v, l := w.raw[c].ivars[i], w.raw[c].ivars[Leader(w.raw[c].ivars, i)];
    IvarAsPlaced(w, c, i);
    hide WorldOk, SetAlign, Exponent, Align, Leader;
    EncodedExponent(v, flags, e);
    EncodedExponent(l, flags', d);
    SixthPower(e);
  }

  lemma EncodedExponent(v: Ivar, flags: nat, e: nat)
    requires v.flags == SetAlign(flags, Pow2(e)) && e < 64
    ensures Exponent(v) == e && Align(v) == Pow2(e)
  {
    HighestBitOfPower(e);
    hide Exponent, Pow2;
    ExponentField(v, flags / 512, e, flags % 8);
  }

  lemma SixthPower(e: nat)
    requires e <= 6
    ensures Pow2(e) <= 64
  {
    assert Pow2(3) == 8 && Pow2(6) == 64;
    PowersGrow(e, 6);
  }

  lemma SmallPowers(e: nat)
    requires Pow2(e) <= 64
    ensures 64 % Pow2(e) == 0
  {
    assert Pow2(0) == 1 && Pow2(1) == 2 && Pow2(2) == 4 && Pow2(3) == 8;
    assert Pow2(4) == 16 && Pow2(5) == 32 && Pow2(6) == 64;
    if e > 6 {
      assert Pow2(7) == 128;
      PowersGrow(7, e);
    }
  }

  lemma {:induction false} PowersGrow(a: nat, b: nat)
    requires a <= b
    ensures Pow2(a) <= Pow2(b)
  {
    if a < b {
      PowersGrow(a, b - 1);
    }
  }

  lemma ZeroOffset(raw: seq<Ivar>, i: nat)
    requires i < |raw| && End(0, raw, |raw|) == 0
    ensures Offset(0, raw, i) == 0 && Size(raw[0]) == 0 && Rounded(0, Align(raw[0])) == 0
  {
    var l := Leader(raw, i);
    LeaderLeads(raw, i);
    LeaderExtent(0, raw, l, 0, |raw|);
    LeaderExtent(0, raw, 0, 0, |raw|);
  }

  lemma {:induction false} ZeroLeader(v: seq<Ivar>, i: nat)
    requires i < |v| && forall k :: 0 <= k < |v| ==> v[k].offset == 0
    ensures Leader(v, i) == 0
  {
    if i > 0 {
      ZeroLeader(v, i - 1);
    }
  }

  lemma {:induction false} ZeroEnd(v: seq<Ivar>, n: nat)
    requires n <= |v| && forall k :: 0 <= k < |v| ==> v[k].offset == 0
    requires |v| > 0 ==> Size(v[0]) == 0 && Rounded(0, Align(v[0])) == 0
    ensures End(0, v, n) == 0
  {
    if n > 0 {
      ZeroEnd(v, n - 1);
      ZeroLeader(v, n - 1);
    }
  }

  /** Computing the layout of a class of size 0 again changes nothing. */
  lemma EmptyLayoutIsStable(raw: seq<Ivar>, v: seq<Ivar>, v': seq<Ivar>)
    requires Placed(0, raw, v, |raw|) && End(0, raw, |raw|) == 0 && Placed(0, v, v', |v|)
    ensures v' == v && End(0, v, |v|) == 0
  {
    hide Offset, End, Leader, Align, Rounded;
    forall i | 0 <= i < |v|
      ensures v[i].offset == 0 && Size(v[0]) == 0 && Rounded(0, Align(v[0])) == 0
    {
      ZeroOffset(raw, i);
      SameAlign(raw[0], v[0]);
    }
    forall i | 0 <= i < |v|
      ensures v'[i] == v[i]
    {
      ZeroLeader(v, i);
      OffsetOfFirst(v, i);
    }
    ZeroEnd(v, |v|);
  }

  lemma SameAlign(a: Ivar, b: Ivar)
    requires a.flags == b.flags
    ensures Align(a) == Align(b)
  {
  }

  lemma OffsetOfFirst(v: seq<Ivar>, i: nat)
    requires i < |v| && Leader(v, i) == 0
    ensures Offset(0, v, i) == Rounded(0, Align(v[0]))
  {
  }

  /** Laying out one more class leaves the others as they were. */
  lemma LayingOutKeeps(w: World, c: Cls, cls: Class)
    requires WorldOk(w) && c !in w.done && c in w.classes && cls.superclass == w.classes[c].superclass
    requires LaidOut(w.(classes := w.classes[c := cls]), c)
    ensures WorldOk(w.(classes := w.classes[c := cls], done := w.done + {c}))
  {
    var w' := w.(classes := w.classes[c := cls], done := w.done + {c});
    forall d | d in w'.done
      ensures LaidOut(w', d)
    {
      if d != c {
        assert LaidOut(w, d);
      }
    }
  }

  class Runtime {
    var classes: map<Cls, Class>
    ghost var raw: map<Cls, Ivars>
    ghost var done: set<Cls>
    ghost var rank: map<Cls, nat>

    ghost function View(): World
      reads this
    {
      World(classes, raw, done, rank)
    }

    /** objc_compute_ivar_offsets: lays out a late-bound class after its superclasses, those still
        to be done first; a class that is laid out already stays as it is, even though a size of 0
        makes the code do it again.  A class without an ivar list whose superclass has not been
        laid out gets that class's unfinished size. */
    method ComputeIvarOffsets(c: Cls)
      requires WorldOk(View()) && (Ready(View(), c) || Stranded(View(), c))
      modifies this`classes, this`done
      ensures WorldOk(View()) && classes.Keys == old(classes).Keys
      ensures old(Ready(View(), c)) ==>
        && done == old(done) + Chain(old(View()), c) && c in done
        && forall d :: d in classes && d !in Chain(old(View()), c) ==> classes[d] == old(classes)[d]
      ensures old(Stranded(View(), c)) && !old(Ready(View(), c)) ==>
        && done == old(done) && classes == old(classes)[c := classes[c]]
        && classes[c] == old(classes[c]).(instanceSize := old(classes)[old(classes[c]).superclass].instanceSize)
        && classes[c].instanceSize <= 0
      decreases if c in rank then rank[c] else 0
    {
      hide Placed, End;
      ghost var w := View();
      assert c in done ==> LaidOut(w, c);
      var cls := classes[c];
      if cls.list.NoList? {
        CopySize(c);
        return;
      }
      if cls.instanceSize <= 0 {
        var start := 0;
        if cls.superclass != NIL {
          if classes[cls.superclass].instanceSize <= 0 {
            SuperReady(w, c);
            ComputeIvarOffsets(cls.superclass);
          }
          start := classes[cls.superclass].instanceSize;
        }
        AfterSuper(w, View(), c);
        var v, size := PlaceIvars(cls.list.ivars, start);
        if c in done {
          SizesOnlyGrow(View(), c);
          EmptyLayoutIsStable(raw[c].ivars, cls.list.ivars, v);
        }
        Finish(c, cls.(instanceSize := size, list := List(v)));
      }
    }

    /** The size of a class without an ivar list. */
    method CopySize(c: Cls)
      requires WorldOk(View()) && (Ready(View(), c) || Stranded(View(), c)) && c in classes && classes[c].list.NoList?
      modifies this`classes, this`done
      ensures WorldOk(View()) && classes.Keys == old(classes).Keys
      ensures old(Ready(View(), c)) ==>
        && done == old(done) + Chain(old(View()), c) && c in done
        && forall d :: d in classes && d !in Chain(old(View()), c) ==> classes[d] == old(classes)[d]
      ensures !old(Ready(View(), c)) ==>
        && done == old(done) && classes == old(classes)[c := classes[c]]
        && classes[c] == old(classes[c]).(instanceSize := old(classes)[old(classes[c]).superclass].instanceSize)
        && classes[c].instanceSize <= 0
    {
      hide Placed, End;
      ghost var w := View();
      if Ready(w, c) {
        CopiedSize(w, c);
      }
      var cls := classes[c];
      if cls.superclass != NIL {
        cls := cls.(instanceSize := classes[cls.superclass].instanceSize);
      }
      classes := classes[c := cls];
      if Ready(w, c) {
        assert c in done ==> classes == w.classes;
        if c !in done {
          LayingOutKeeps(w, c, cls);
          done := done + {c};
        }
      } else {
        OthersLaidOut(w, c, cls);
      }
    }

    method Finish(c: Cls, cls: Class)
      requires WorldOk(View()) && c in classes
      requires c in done ==> cls == classes[c]
      requires c !in done ==> cls.superclass == classes[c].superclass && LaidOut(View().(classes := classes[c := cls]), c)
      modifies this`classes, this`done
      ensures WorldOk(View()) && done == old(done) + {c} && classes == old(classes)[c := cls]
    {
      hide LaidOut, WorldOk;
      if c in done {
        assert classes == classes[c := cls];
        assert done == done + {c};
      } else {
        LayingOutKeeps(View(), c, cls);
      }
      classes := classes[c := cls];
      done := done + {c};
    }
  }

  /** A class without an ivar list takes over the size of its laid-out superclass. */
  lemma CopiedSize(w: World, c: Cls)
    requires WorldOk(w) && Ready(w, c) && c in w.classes && w.classes[c].list.NoList?
    ensures
      var cls := w.classes[c];
      var p := cls.superclass;
      var copied := if p == NIL then cls else cls.(instanceSize := if p in w.classes then w.classes[p].instanceSize else 0);
      && (p != NIL ==> p in w.classes)
      && (c in w.done ==> copied == cls && Chain(w, c) == {})
      && (c !in w.done ==> LaidOut(w.(classes := w.classes[c := copied]), c) && Chain(w, c) == {c})
  {
    if c in w.done {
      assert LaidOut(w, c);
      StartIsSuperSize(w, c);
    } else if w.classes[c].superclass != NIL {
      assert LaidOut(w, w.classes[c].superclass);
      SizesOnlyGrow(w, w.classes[c].superclass);
    }
  }

  lemma OthersLaidOut(w: World, c: Cls, cls: Class)
    requires WorldOk(w) && Stranded(w, c) && c !in w.done
    ensures WorldOk(w.(classes := w.classes[c := cls]))
  {
    hide Placed, End;
    forall d | d in w.done
      ensures LaidOut(w.(classes := w.classes[c := cls]), d)
    {
      assert LaidOut(w, d);
    }
  }

  lemma SuperReady(w: World, c: Cls)
    requires WorldOk(w) && Ready(w, c) && c in w.classes && w.classes[c].list.List? && w.classes[c].superclass != NIL
    ensures
      var p := w.classes[c].superclass;
      p in w.classes && Ready(w, p) && c in w.rank && p in w.rank && w.rank[p] < w.rank[c]
  {
    if c in w.done {
      assert LaidOut(w, c);
      assert LaidOut(w, w.classes[c].superclass);
    } else if w.classes[c].superclass in w.done {
      assert LaidOut(w, w.classes[c].superclass);
    }
  }

  /** With its superclass laid out, what is left to do for c. */
  lemma AfterSuper(w: World, w': World, c: Cls)
    requires WorldOk(w) && WorldOk(w') && Ready(w, c) && c in w.classes && w.classes[c].list.List? && w.classes[c].instanceSize <= 0
    requires w'.raw == w.raw && w'.rank == w.rank && w'.classes.Keys == w.classes.Keys
    requires
      var p := w.classes[c].superclass;
      if p == NIL || (p in w.classes && w.classes[p].instanceSize > 0) then w' == w
      else
        && w'.done == w.done + Chain(w, p) && p in w'.done
        && forall d :: d in w.classes && d !in Chain(w, p) ==> w'.classes[d] == w.classes[d]
    ensures w'.classes[c] == w.classes[c] && Known(w', c) && w'.done + {c} == w.done + Chain(w, c) + {c}
    ensures c in w'.done <==> c in w.done
    ensures forall d :: d in w.classes && d !in Chain(w, c) && d != c ==> w'.classes[d] == w.classes[d]
    ensures
      var p := w.classes[c].superclass;
      && (p != NIL ==> p in w'.classes && w'.classes[p].instanceSize >= 0)
      && Start(w', c) == (if p == NIL then 0 else w'.classes[p].instanceSize)
  {
    hide Placed, End;
    var p := w.classes[c].superclass;
    if c in w.done {
      assert LaidOut(w, c);
      assert Chain(w, c) == {} && (p != NIL ==> p in w.done && Chain(w, p) == {});
      assert w'.done == w.done && w'.classes == w.classes;
    } else {
      WaitingChain(w, c);
      if p != NIL && c in Chain(w, p) {
        ChainRanks(w, p, c);
      }
    }
    hide Chain, Ready;
    assert Known(w', c);
    StartIsSuperSize(w', c);
    if p != NIL {
      SizesOnlyGrow(w', p);
    }
  }

  lemma WaitingChain(w: World, c: Cls)
    requires WorldOk(w) && Ready(w, c) && c !in w.done && w.raw[c].List?
    ensures
      var p := w.classes[c].superclass;
      && Compiled(w, c) && Chain(w, c) == {c} + (if p == NIL then {} else Chain(w, p))
      && (p != NIL && w.classes[p].instanceSize > 0 ==> p in w.done && Chain(w, p) == {})
  {
  }
}
