/**
  What each operation on classes does to their dispatch tables, as relations
  between states, and the laws of every run of such operations: tables agree with
  the reference meaning, and a cached slot is good while the version stands.
 */
module Dispatch {
  import opened Basics
  import opened Hierarchy
  import opened Installation

  // ---------------------------------------------------------------------------
  // The operations
  // ---------------------------------------------------------------------------

  /** What the superclass's table holds for s, as the installer reads it. */
  function SuperEntry(st: State, c: Cls, s: Sel): Option<Method> {
    if c in st.superclass && st.superclass[c] in st.tables
    then Entry(st.tables[st.superclass[c]], s) else None
  }

  /** A new method for a selector the class does not define yet. */
  ghost predicate AddStep(st: State, st': State, c: Cls, m: Method, added: bool) {
    && Acyclic(st) && c in st.rank
    && (added ==> Own(st.methods[c], m.sel).None?)
    && if !added then st' == st
       else
         && st' == st.(methods := st.methods[c := [m] + st.methods[c]], tables := st'.tables, version := st'.version)
         && if c in st.tables && MayInstall(st.tables[c], m, SuperEntry(st, c, m.sel), true)
            then st'.tables == Installed(st, c, m) && VersionAdvances(st, st'.version, Entry(st.tables[c], m.sel))
            else st'.tables == st.tables && st'.version == st.version
  }

  /** One method of the class's own, put on top of a copy of the superclass's table. */
  function BuildOne(base: Table, t: Table, m: Method): Table {
    if MayInstall(t, m, Entry(base, m.sel), true) then With(t, m) else t
  }

  function Build(base: Table, ms: seq<Method>): Table {
    if ms == [] then base else BuildOne(base, Build(base, ms[..|ms| - 1]), ms[|ms| - 1])
  }

  /** The class gets its first dispatch table. */
  ghost predicate CreateStep(st: State, st': State, c: Cls) {
    && c in st.methods && c !in st.tables
    && (c in st.superclass ==> st.superclass[c] in st.tables)
    && st' == st.(tables := st'.tables, version := st'.version)
    && st'.tables == st.tables[c := Build(BaseTable(st, c), st.methods[c])]
    && st.version <= st'.version
  }

  function BaseTable(st: State, c: Cls): Table {
    if c in st.superclass && st.superclass[c] in st.tables then st.tables[st.superclass[c]] else map[]
  }

  function Without(s: seq<Cls>, c: Cls): seq<Cls> {
    if s == [] then [] else if s[0] == c then s[1..] else [s[0]] + Without(s[1..], c)
  }

  /** c is taken out of its superclass's list and put at the head of p's. */
  ghost predicate Relinked(st: State, mid: State, c: Cls, p: Cls)
    requires Acyclic(st)
  {
    && c in st.rank && p in st.rank && !Below(st, p, c)
    && mid == st.(superclass := st.superclass[c := p], subclasses := mid.subclasses, rank := mid.rank)
    && Acyclic(mid)
    && var cut := if c in st.superclass
                  then st.subclasses[st.superclass[c] := Without(st.subclasses[st.superclass[c]], c)]
                  else st.subclasses;
       mid.subclasses == cut[p := [c] + cut[p]]
  }

  /** Each table below c keeps its own methods and takes every other entry from its parent's
      new table; entries that neither has are gone. */
  ghost predicate RebasedAt(st: State, tables: map<Cls, Table>, x: Cls)
    requires x in st.tables && x in tables && x in st.methods
  {
    && x in st.superclass && st.superclass[x] in tables
    && forall s: Sel :: Entry(tables[x], s) ==
         if Own(st.methods[x], s).Some? then Entry(st.tables[x], s) else Entry(tables[st.superclass[x]], s)
  }

  ghost predicate Rebased(st: State, tables: map<Cls, Table>, c: Cls)
    requires Acyclic(st) && Closed(st)
  {
    && tables.Keys == st.tables.Keys
    && forall x :: x in st.tables ==>
         if Below(st, x, c) then RebasedAt(st, tables, x) else tables[x] == st.tables[x]
  }

  /** a gets its first table while c, which is below it or beside it, already has one: the tables
      below c may change, but not where their classes define the selector themselves. */
  ghost predicate CreateUnderStep(st: State, st': State, a: Cls, c: Cls)
    requires Acyclic(st)
  {
    && a in st.methods && a !in st.tables && !Below(st, a, c)
    && (a in st.superclass ==> st.superclass[a] in st.tables)
    && st' == st.(tables := st'.tables, version := st'.version) && st.version <= st'.version
    && st'.tables.Keys == st.tables.Keys + {a}
    && st'.tables[a] == Build(BaseTable(st, a), st.methods[a])
    && TablesKept(st, st'.tables, c)
  }

  ghost predicate TablesKept(st: State, tables: map<Cls, Table>, c: Cls)
    requires Acyclic(st)
  {
    && st.tables.Keys <= tables.Keys
    && (forall x :: x in st.tables && !Below(st, x, c) ==> tables[x] == st.tables[x])
    && (forall x, s: Sel :: x in st.tables && x in st.methods && Own(st.methods[x], s).Some? ==>
          Entry(tables[x], s) == Entry(st.tables[x], s))
  }

  /** a and the superclasses it needs get their tables, from the top down. */
  ghost predicate Initialized(st: State, st': State, a: Cls, c: Cls)
    requires Acyclic(st)
    decreases if a in st.rank then st.rank[a] else 0
  {
    if a in st.tables then st' == st
    else
      exists mid ::
        && (if a in st.superclass then Initialized(st, mid, st.superclass[a], c) else mid == st)
        && Acyclic(mid) && CreateUnderStep(mid, st', a, c)
  }

  /** c is relinked; if it has a table, its new superclass gets one where it had none, and then the
      tables below c are rebased. */
  ghost predicate SetSuperclassStep(st: State, st': State, c: Cls, p: Cls) {
    && Acyclic(st) && c in st.rank && p in st.rank
    && if c in st.superclass && st.superclass[c] == p then st' == st
       else
         var mid := st'.(tables := st.tables, version := st.version);
         && Relinked(st, mid, c, p)
         && if c in st.tables
            then exists init :: Initialized(mid, init, p, c) && RebaseStep(init, st', c)
            else st' == mid
  }

  ghost predicate RebaseStep(init: State, st': State, c: Cls) {
    && Acyclic(init) && Closed(init) && Rebased(init, st'.tables, c)
    && st' == init.(tables := st'.tables, version := st'.version) && init.version < st'.version
  }

  // ---------------------------------------------------------------------------
  // Adding a method
  // ---------------------------------------------------------------------------

  lemma OwnAfterAdd(ms: seq<Method>, m: Method, s: Sel)
    ensures Own([m] + ms, s) == if m.sel == s then Some(m) else Own(ms, s)
  {
    assert ([m] + ms)[1..] == ms;
  }

  lemma {:induction false} OtherSelectorsKeepMeaning(st: State, st': State, c: Cls, m: Method, x: Cls, s: Sel)
    requires Acyclic(st) && Acyclic(st') && c in st.rank && x in st.rank && s != m.sel
    requires st'.superclass == st.superclass && st'.methods == st.methods[c := [m] + st.methods[c]]
    ensures Nearest(st', x, s) == Nearest(st, x, s)
    decreases st.rank[x]
  {
    OwnAfterAdd(st.methods[c], m, s);
    if x in st.superclass {
      OtherSelectorsKeepMeaning(st, st', c, m, st.superclass[x], s);
    }
  }

  /** A class that overrides the selector does not follow the class the method is added to. */
  lemma OverridesDoNotFollow(st: State, c: Cls, x: Cls, s: Sel)
    requires Agreement(st) && c in st.tables && x in st.tables && x != c && Own(st.methods[x], s).Some?
    ensures !Follows(st, x, c, s, Entry(st.tables[c], s))
  {
    var before := Entry(st.tables[c], s);
    if Follows(st, x, c, s, before) {
      FollowsIsBelow(st, x, c, s, before);
      assert Agrees(st, x) && Agrees(st, c);
      var a := NearestIsOwned(st, c, s);
      OwnIsMember(st.methods[a], s);
      OwnIsMember(st.methods[x], s);
      assert a == x;
      BelowRank(st, x, c);
      BelowRank(st, c, x);
    }
  }

  /** After m is added to c, a class means m exactly when it followed c's old entry. */
  lemma {:induction false} AddedMeaning(st: State, st': State, c: Cls, m: Method, x: Cls)
    requires Agreement(st) && c in st.tables && x in st.tables && Own(st.methods[c], m.sel).None?
    requires Acyclic(st') && st'.superclass == st.superclass && st'.methods == st.methods[c := [m] + st.methods[c]]
    ensures Nearest(st', x, m.sel) ==
            if Follows(st, x, c, m.sel, Entry(st.tables[c], m.sel)) then Some(m) else Nearest(st, x, m.sel)
    decreases st.rank[x]
  {
    OwnAfterAdd(st.methods[c], m, m.sel);
    if x != c {
      if Own(st.methods[x], m.sel).Some? {
        OverridesDoNotFollow(st, c, x, m.sel);
      } else if x in st.superclass {
        var p := st.superclass[x];
        AddedMeaning(st, st', c, m, p);
        assert Agrees(st, x) && Agrees(st, p);
        if Follows(st, p, c, m.sel, Entry(st.tables[c], m.sel)) {
          assert Entry(st.tables[p], m.sel) == Entry(st.tables[c], m.sel);
        }
      }
    }
  }

  /** m shares its implementation with the definition it would override. */
  ghost predicate SharesInherited(st: State, c: Cls, m: Method)
    requires Acyclic(st) && c in st.rank
  {
    var inherited := Inherited(st, c, m.sel);
    inherited.Some? && inherited.value.imp == m.imp
  }

  ghost predicate FreshMethod(st: State, m: Method) {
    forall d :: d in st.methods ==> m !in st.methods[d]
  }

  lemma AddKeepsForest(st: State, st': State, c: Cls, m: Method, added: bool)
    requires Agreement(st) && FreshMethod(st, m) && AddStep(st, st', c, m, added)
    ensures Forest(st') && Owned(st')
  {
    assert st'.tables.Keys == st.tables.Keys;
    if added {
      forall d, e, k | d in st'.methods && e in st'.methods && k in st'.methods[d] && k in st'.methods[e]
        ensures d == e
      {
        assert forall a :: a in st.methods && k in st'.methods[a] ==> k in st.methods[a] || (a == c && k == m);
      }
    }
  }

  lemma AddGuardIsFreshImp(st: State, c: Cls, m: Method)
    requires Agreement(st) && c in st.tables && Own(st.methods[c], m.sel).None?
    ensures MayInstall(st.tables[c], m, SuperEntry(st, c, m.sel), true) <==> !SharesInherited(st, c, m)
    ensures Entry(st.tables[c], m.sel) == Inherited(st, c, m.sel)
  {
    assert Agrees(st, c);
    if c in st.superclass {
      assert Agrees(st, st.superclass[c]);
    }
  }

  /** Adding a method keeps the agreement exactly when the new method does not share its
      implementation with the definition it overrides: otherwise the installer takes it for
      already installed and leaves the inherited record in place. */
  lemma AddKeepsAgreement(st: State, st': State, c: Cls, m: Method)
    requires Agreement(st) && FreshMethod(st, m) && AddStep(st, st', c, m, true)
    ensures Agreement(st') <==> c !in st.tables || !SharesInherited(st, c, m)
  {
    AddKeepsForest(st, st', c, m, true);
    if c !in st.tables {
      forall x | x in st'.tables
        ensures Agrees(st', x)
      {
        AddUnseen(st, st', c, m, x);
      }
    } else {
      AddGuardIsFreshImp(st, c, m);
      if SharesInherited(st, c, m) {
        OwnAfterAdd(st.methods[c], m, m.sel);
        NearestIsNotFresh(st, c, m);
        assert Nearest(st', c, m.sel) != Entry(st'.tables[c], m.sel);
        assert !Agrees(st', c);
      } else {
        forall x | x in st'.tables
          ensures Agrees(st', x)
        {
          AddSeen(st, st', c, m, x);
        }
      }
    }
  }

  lemma NearestIsNotFresh(st: State, c: Cls, m: Method)
    requires Acyclic(st) && c in st.rank && FreshMethod(st, m)
    ensures Inherited(st, c, m.sel) != Some(m)
  {
    if c in st.superclass && Nearest(st, st.superclass[c], m.sel).Some? {
      var a := NearestIsOwned(st, st.superclass[c], m.sel);
      OwnIsMember(st.methods[a], m.sel);
    }
  }

  lemma AddSeen(st: State, st': State, c: Cls, m: Method, x: Cls)
    requires Agreement(st) && AddStep(st, st', c, m, true) && Forest(st') && c in st.tables && x in st.tables
    requires st'.tables == Installed(st, c, m)
    ensures Agrees(st', x)
  {
    AddedMeaning(st, st', c, m, x);
    assert Agrees(st, x);
    forall s: Sel
      ensures Entry(st'.tables[x], s) == Nearest(st', x, s)
    {
      if s != m.sel {
        OtherSelectorsKeepMeaning(st, st', c, m, x, s);
      }
    }
  }

  /** A class without a table has no class with one below it. */
  lemma {:induction false} ClosedBelow(st: State, x: Cls, c: Cls)
    requires Forest(st) && x in st.tables && Below(st, x, c)
    ensures c in st.tables
    decreases st.rank[x]
  {
    if x != c {
      ClosedBelow(st, st.superclass[x], c);
    }
  }

  lemma AddUnseen(st: State, st': State, c: Cls, m: Method, x: Cls)
    requires Agreement(st) && AddStep(st, st', c, m, true) && Forest(st') && c !in st.tables && x in st.tables
    ensures Agrees(st', x)
  {
    assert Agrees(st, x);
    forall s: Sel
      ensures Entry(st'.tables[x], s) == Nearest(st', x, s)
    {
      forall a | a in st.rank && Below(st, x, a)
        ensures a != c
      {
        if Below(st, x, c) {
          ClosedBelow(st, x, c);
        }
      }
      NearestDependsOnAncestors(st, st', x, s);
    }
  }

  // ---------------------------------------------------------------------------
  // Creating a table
  // ---------------------------------------------------------------------------

  lemma {:induction false} OwnAppended(ms: seq<Method>, x: Method, s: Sel)
    ensures Own(ms + [x], s) ==
            if Own(ms, s).Some? then Own(ms, s) else if x.sel == s then Some(x) else None
  {
    if ms == [] {
      assert (ms + [x])[1..] == [];
    } else {
      assert (ms + [x])[1..] == ms[1..] + [x];
      OwnAppended(ms[1..], x, s);
    }
  }

  /** The built table holds the first own definition, unless that shares its implementation
      with the inherited one; then it certainly does not. */
  lemma {:induction false} BuiltEntry(base: Table, ms: seq<Method>, s: Sel)
    requires forall m :: m in ms ==> Entry(base, s) != Some(m)
    ensures
      var own, inherited := Own(ms, s), Entry(base, s);
      if own.None? then Entry(Build(base, ms), s) == inherited
      else if inherited.Some? && inherited.value.imp == own.value.imp then Entry(Build(base, ms), s) != own
      else Entry(Build(base, ms), s) == own
  {
    if ms != [] {
      var rest, x := ms[..|ms| - 1], ms[|ms| - 1];
      assert ms == rest + [x];
      OwnAppended(rest, x, s);
      BuiltEntry(base, rest, s);
      OwnIsMember(rest, s);
    }
  }

  /** No first definition of c shares its implementation with what it overrides. */
  ghost predicate NoneShared(st: State, c: Cls)
    requires Acyclic(st) && c in st.rank
  {
    forall s: Sel :: Own(st.methods[c], s).Some? ==> !SharesInherited(st, c, Own(st.methods[c], s).value)
  }

  lemma BaseIsInherited(st: State, c: Cls, s: Sel)
    requires Acyclic(st) && Owned(st) && c in st.rank
    requires c in st.superclass ==> st.superclass[c] in st.tables && Agrees(st, st.superclass[c])
    ensures Entry(BaseTable(st, c), s) == Inherited(st, c, s)
    ensures forall m :: m in st.methods[c] ==> Inherited(st, c, s) != Some(m)
  {
    if c in st.superclass {
      if Inherited(st, c, s).Some? {
        var a := NearestIsOwned(st, st.superclass[c], s);
        OwnIsMember(st.methods[a], s);
        BelowRank(st, st.superclass[c], a);
      }
    }
  }

  /** Creating a table keeps the agreement exactly when no definition of the class shares its
      implementation with the one it overrides. */
  lemma CreateKeepsAgreement(st: State, st': State, c: Cls)
    requires Agreement(st) && CreateStep(st, st', c)
    ensures Agreement(st') <==> NoneShared(st, c)
  {
    assert Forest(st') && Owned(st');
    forall x, s: Sel | x in st.rank
      ensures Nearest(st', x, s) == Nearest(st, x, s)
    {
      NearestDependsOnAncestors(st, st', x, s);
    }
    assert forall x :: x in st.tables ==> Agrees(st, x);
    forall s: Sel
      ensures Entry(st'.tables[c], s) == Nearest(st', c, s) <==>
              Own(st.methods[c], s).None? || !SharesInherited(st, c, Own(st.methods[c], s).value)
    {
      BaseIsInherited(st, c, s);
      OwnIsMember(st.methods[c], s);
      BuiltEntry(BaseTable(st, c), st.methods[c], s);
    }
    if !NoneShared(st, c) {
      assert !Agrees(st', c);
    }
  }

  /** Three classes in a chain; the top one and the bottom one define selector 1 with the same
      implementation 7, the bottom one has no table yet. */
  ghost function SharedImpChain(): State {
    var top := Method(0, 1, 7);
    State(map[1 := 0, 2 := 1], map[0 := [1], 1 := [2], 2 := []],
          map[0 := [top], 1 := [], 2 := [Method(2, 1, 7)]],
          map[0 := map[1 := top], 1 := map[1 := top]], 0, map[0 := 0, 1 := 1, 2 := 2])
  }

  /** Why the condition matters: in that chain, creating the bottom table and then adding
      implementation 9 to the middle class dispatches the bottom class to 9, although it
      defines 7 itself. */
  lemma SharedImpLosesOverride(st: State, st': State)
    requires CreateStep(SharedImpChain(), st, 2) && AddStep(st, st', 1, Method(1, 1, 9), true)
    ensures Acyclic(st') && 2 in st'.rank && 2 in st'.tables
    ensures Entry(st'.tables[2], 1) == Some(Method(1, 1, 9)) && Nearest(st', 2, 1) == Some(Method(2, 1, 7))
  {
    var st0, top := SharedImpChain(), Method(0, 1, 7);
    var own := st0.methods[2];
    assert own[..0] == [] && Build(st0.tables[1], []) == st0.tables[1];
    assert Build(st0.tables[1], own) == st0.tables[1];
    assert st.tables[2] == map[1 := top];
    assert Follows(st, 1, 1, 1, Some(top));
    assert Follows(st, 2, 1, 1, Some(top));
    assert Own(st'.methods[2], 1) == Some(Method(2, 1, 7));
  }

  // ---------------------------------------------------------------------------
  // Changing the superclass
  // ---------------------------------------------------------------------------

  lemma {:induction false} WithoutKeepsOthers(s: seq<Cls>, c: Cls)
    requires NoRepeats(s)
    ensures forall x :: x in Without(s, c) <==> x in s && x != c
    ensures NoRepeats(Without(s, c))
  {
    if s != [] {
      assert forall x :: x in s <==> x == s[0] || x in s[1..];
      WithoutKeepsOthers(s[1..], c);
      var rest := Without(s[1..], c);
      assert s[0] !in s[1..];
      assert forall k :: 0 <= k < |rest| ==> rest[k] in rest;
    }
  }

  lemma ListAfterRelink(st: State, mid: State, c: Cls, p: Cls, d: Cls)
    requires Forest(st) && Relinked(st, mid, c, p) && d in st.subclasses
    requires c in st.superclass ==> st.superclass[c] != p
    ensures forall x :: x in mid.subclasses[d] <==> (d == p && x == c) || (x in st.subclasses[d] && x != c)
    ensures NoRepeats(mid.subclasses[d])
  {
    assert NoRepeats(st.subclasses[d]);
    WithoutKeepsOthers(st.subclasses[d], c);
    if c in st.subclasses[d] {
      var i :| 0 <= i < |st.subclasses[d]| && st.subclasses[d][i] == c;
      assert st.superclass[c] == d;
    }
    if d == p {
      assert mid.subclasses[p] == [c] + st.subclasses[p];
    } else if c in st.superclass && d == st.superclass[c] {
      assert mid.subclasses[d] == Without(st.subclasses[d], c);
    } else {
      assert mid.subclasses[d] == st.subclasses[d];
    }
  }

  lemma ListedIsLinked(st: State, mid: State, c: Cls, p: Cls, d: Cls, i: int)
    requires Forest(st) && Relinked(st, mid, c, p) && d in mid.subclasses && 0 <= i < |mid.subclasses[d]|
    requires c in st.superclass ==> st.superclass[c] != p
    ensures mid.subclasses[d][i] in mid.superclass && mid.superclass[mid.subclasses[d][i]] == d
  {
    ListAfterRelink(st, mid, c, p, d);
    var x := mid.subclasses[d][i];
    assert x in mid.subclasses[d];
    if x != c {
      var k :| 0 <= k < |st.subclasses[d]| && st.subclasses[d][k] == x;
    }
  }

  lemma LinkedIsListed(st: State, mid: State, c: Cls, p: Cls, x: Cls)
    requires Forest(st) && Relinked(st, mid, c, p) && x in mid.superclass
    requires c in st.superclass ==> st.superclass[c] != p
    ensures mid.superclass[x] in mid.subclasses && x in mid.subclasses[mid.superclass[x]]
  {
    ListAfterRelink(st, mid, c, p, mid.superclass[x]);
  }

  lemma RelinkKeepsLinks(st: State, mid: State, c: Cls, p: Cls)
    requires Forest(st) && Relinked(st, mid, c, p)
    requires c in st.superclass ==> st.superclass[c] != p
    ensures Linked(mid)
  {
    hide Forest, Relinked;
    forall d, i | d in mid.subclasses && 0 <= i < |mid.subclasses[d]|
      ensures mid.subclasses[d][i] in mid.superclass && mid.superclass[mid.subclasses[d][i]] == d
    {
      ListedIsLinked(st, mid, c, p, d, i);
    }
    forall x | x in mid.superclass
      ensures mid.superclass[x] in mid.subclasses && x in mid.subclasses[mid.superclass[x]]
    {
      LinkedIsListed(st, mid, c, p, x);
    }
    forall d | d in mid.subclasses
      ensures NoRepeats(mid.subclasses[d])
    {
      RelinkKeepsKeys(st, mid, c, p);
      ListAfterRelink(st, mid, c, p, d);
    }
  }

  lemma RelinkKeepsKeys(st: State, mid: State, c: Cls, p: Cls)
    requires Forest(st) && Relinked(st, mid, c, p)
    ensures mid.subclasses.Keys == st.subclasses.Keys
  {
  }

  /** Classes that are not below c keep their ancestors. */
  lemma {:induction false} RelinkKeepsOutside(st: State, mid: State, c: Cls, p: Cls, x: Cls)
    requires Acyclic(st) && Relinked(st, mid, c, p) && x in st.rank
    ensures Below(mid, x, c) <==> Below(st, x, c)
    decreases st.rank[x]
  {
    if x != c && x in st.superclass {
      RelinkKeepsOutside(st, mid, c, p, st.superclass[x]);
    }
  }

  lemma {:induction false} RelinkKeepsMeaning(st: State, mid: State, c: Cls, p: Cls, x: Cls, s: Sel)
    requires Acyclic(st) && Relinked(st, mid, c, p) && x in st.rank && !Below(st, x, c)
    ensures Nearest(mid, x, s) == Nearest(st, x, s)
    decreases st.rank[x]
  {
    if x in st.superclass {
      RelinkKeepsMeaning(st, mid, c, p, st.superclass[x], s);
    }
  }

  // ---------------------------------------------------------------------------
  // Between relinking and rebasing
  // ---------------------------------------------------------------------------

  ghost predicate OwnKept(st: State, x: Cls)
    requires x in st.tables && x in st.methods
  {
    forall s: Sel :: Own(st.methods[x], s).Some? ==> Entry(st.tables[x], s) == Own(st.methods[x], s)
  }

  /** c hangs below its new superclass and has not been rebased: the tables that are not below it
      agree, those below it are right where their classes define the selector. */
  ghost predicate Pending(st: State, c: Cls) {
    && Tree(st) && Owned(st) && c in st.superclass
    && (forall x :: x in st.tables && x in st.superclass && x != c ==> st.superclass[x] in st.tables)
    && (forall x :: x in st.tables && !Below(st, x, c) ==> Agrees(st, x))
    && (forall x :: x in st.tables && Below(st, x, c) ==> OwnKept(st, x))
  }

  lemma RelinkIsPending(st: State, mid: State, c: Cls, p: Cls)
    requires Agreement(st) && Relinked(st, mid, c, p) && (c in st.superclass ==> st.superclass[c] != p)
    ensures Pending(mid, c)
  {
    RelinkKeepsLinks(st, mid, c, p);
    forall x | x in mid.tables
      ensures if Below(mid, x, c) then OwnKept(mid, x) else Agrees(mid, x)
    {
      PendingAt(st, mid, c, p, x);
    }
  }

  lemma PendingAt(st: State, mid: State, c: Cls, p: Cls, x: Cls)
    requires Agreement(st) && Relinked(st, mid, c, p) && x in mid.tables
    ensures if Below(mid, x, c) then OwnKept(mid, x) else Agrees(mid, x)
  {
    hide Linked, Owned;
    assert Agrees(st, x);
    RelinkKeepsOutside(st, mid, c, p, x);
    if !Below(mid, x, c) {
      forall s: Sel
        ensures Entry(mid.tables[x], s) == Nearest(mid, x, s)
      {
        RelinkKeepsMeaning(st, mid, c, p, x, s);
      }
    } else {
      forall s: Sel | Own(mid.methods[x], s).Some?
        ensures Entry(mid.tables[x], s) == Own(mid.methods[x], s)
      {
        assert Entry(st.tables[x], s) == Nearest(st, x, s);
      }
    }
  }

  /** Rebased tables are the meaning of the hierarchy, whatever the other entries were before. */
  lemma {:induction false} RebaseMeaning(mid: State, tables: map<Cls, Table>, c: Cls, x: Cls, s: Sel)
    requires Pending(mid, c) && Closed(mid) && Rebased(mid, tables, c) && x in mid.tables
    ensures Entry(tables[x], s) == Nearest(mid, x, s)
    decreases mid.rank[x]
  {
    hide Linked, Owned;
    if Below(mid, x, c) {
      assert RebasedAt(mid, tables, x) && OwnKept(mid, x);
      if Own(mid.methods[x], s).None? {
        RebaseMeaning(mid, tables, c, mid.superclass[x], s);
      }
    } else {
      assert Agrees(mid, x);
    }
  }

  lemma RebaseRestores(init: State, st': State, c: Cls)
    requires Pending(init, c) && RebaseStep(init, st', c)
    ensures Agreement(st')
  {
    forall x | x in st'.tables
      ensures Agrees(st', x)
    {
      forall s: Sel
        ensures Entry(st'.tables[x], s) == Nearest(st', x, s)
      {
        RebaseMeaning(init, st'.tables, c, x, s);
        NearestDependsOnAncestors(init, st', x, s);
      }
    }
  }

  /** No class that still needs a table has a definition that shares its implementation with what
      it overrides. */
  ghost predicate Unshared(st: State, a: Cls)
    requires Acyclic(st) && a in st.rank
    decreases st.rank[a]
  {
    a in st.tables || (NoneShared(st, a) && (a in st.superclass ==> Unshared(st, st.superclass[a])))
  }

  lemma {:induction false} RelinkKeepsUnshared(st: State, mid: State, c: Cls, p: Cls, a: Cls)
    requires Acyclic(st) && Relinked(st, mid, c, p) && a in st.rank && !Below(st, a, c) && Unshared(st, a)
    ensures Unshared(mid, a)
    decreases st.rank[a]
  {
    if a !in st.tables {
      if a in st.superclass {
        RelinkKeepsUnshared(st, mid, c, p, st.superclass[a]);
      }
      forall s: Sel | Own(mid.methods[a], s).Some?
        ensures !SharesInherited(mid, a, Own(mid.methods[a], s).value)
      {
        OwnIsMember(mid.methods[a], s);
        if a in st.superclass {
          RelinkKeepsMeaning(st, mid, c, p, st.superclass[a], s);
        }
      }
    }
  }

  /** Tables and version do not matter to it, except that more tables need less. */
  lemma {:induction false} MoreTablesUnshared(st: State, st': State, a: Cls)
    requires Acyclic(st) && a in st.rank && Unshared(st, a)
    requires st' == st.(tables := st'.tables, version := st'.version) && st.tables.Keys <= st'.tables.Keys
    ensures Acyclic(st') && Unshared(st', a)
    decreases st.rank[a]
  {
    if a !in st'.tables {
      if a in st.superclass {
        MoreTablesUnshared(st, st', st.superclass[a]);
      }
      forall s: Sel | Own(st'.methods[a], s).Some?
        ensures !SharesInherited(st', a, Own(st'.methods[a], s).value)
      {
        OwnIsMember(st'.methods[a], s);
        if a in st.superclass {
          NearestDependsOnAncestors(st, st', st.superclass[a], s);
        }
      }
    }
  }

  /** A table below a class without one is below c. */
  lemma {:induction false} PendingBelow(st: State, x: Cls, a: Cls, c: Cls)
    requires Pending(st, c) && x in st.tables && a !in st.tables && Below(st, x, a)
    ensures Below(st, x, c)
    decreases st.rank[x]
  {
    if x != c {
      PendingBelow(st, st.superclass[x], a, c);
    }
  }

  lemma BuiltAgrees(st: State, a: Cls, s: Sel)
    requires Acyclic(st) && Owned(st) && a in st.rank && NoneShared(st, a)
    requires a in st.superclass ==> st.superclass[a] in st.tables && Agrees(st, st.superclass[a])
    ensures Entry(Build(BaseTable(st, a), st.methods[a]), s) == Nearest(st, a, s)
  {
    BaseIsInherited(st, a, s);
    OwnIsMember(st.methods[a], s);
    BuiltEntry(BaseTable(st, a), st.methods[a], s);
  }

  /** A superclass table is created in between: still pending. */
  lemma CreateKeepsPending(st: State, st': State, a: Cls, c: Cls)
    requires Pending(st, c) && CreateUnderStep(st, st', a, c) && NoneShared(st, a)
    ensures Pending(st', c)
  {
    forall x | x in st'.tables
      ensures if Below(st', x, c) then OwnKept(st', x) else Agrees(st', x)
    {
      CreatePendingAt(st, st', a, c, x);
    }
  }

  lemma CreatePendingAt(st: State, st': State, a: Cls, c: Cls, x: Cls)
    requires Pending(st, c) && CreateUnderStep(st, st', a, c) && NoneShared(st, a) && x in st'.tables
    ensures if Below(st', x, c) then OwnKept(st', x) else Agrees(st', x)
  {
    hide Linked;
    SameBelow(st, st', x, c);
    if Below(st, x, c) {
      assert OwnKept(st, x);
    } else {
      forall s: Sel
        ensures Entry(st'.tables[x], s) == Nearest(st', x, s)
      {
        NearestDependsOnAncestors(st, st', x, s);
        if x == a {
          assert a in st.superclass ==> Agrees(st, st.superclass[a]);
          BuiltAgrees(st, a, s);
        } else {
          assert Agrees(st, x);
        }
      }
    }
  }

  lemma {:induction false} InitializedIsPending(st: State, st': State, a: Cls, c: Cls)
    requires Pending(st, c) && a in st.rank && !Below(st, a, c) && Unshared(st, a) && Initialized(st, st', a, c)
    ensures Pending(st', c) && a in st'.tables && st' == st.(tables := st'.tables, version := st'.version)
    ensures st.version <= st'.version && st.tables.Keys <= st'.tables.Keys
    decreases st.rank[a]
  {
    if a !in st.tables {
      var mid :|
        && (if a in st.superclass then Initialized(st, mid, st.superclass[a], c) else mid == st)
        && Acyclic(mid) && CreateUnderStep(mid, st', a, c);
      if a in st.superclass {
        InitializedIsPending(st, mid, st.superclass[a], c);
      }
      MoreTablesUnshared(st, mid, a);
      CreateKeepsPending(mid, st', a, c);
    }
  }

  ghost predicate BelowSubclass(st: State, x: Cls, c: Cls, k: nat)
    requires Acyclic(st) && c in st.subclasses && k <= |st.subclasses[c]|
  {
    exists j :: 0 <= j < k && Below(st, x, st.subclasses[c][j])
  }

  /** The state of a rebase of c that has visited the first k subclasses. */
  ghost predicate RebasedUpTo(st: State, tables: map<Cls, Table>, c: Cls, k: nat)
    requires Forest(st) && c in st.subclasses && k <= |st.subclasses[c]|
  {
    && tables.Keys == st.tables.Keys
    && forall x :: x in st.tables ==>
         if x == c || BelowSubclass(st, x, c, k) then RebasedAt(st, tables, x) else tables[x] == st.tables[x]
  }

  lemma {:induction false} BelowThroughSubclass(st: State, x: Cls, c: Cls)
    requires Forest(st) && x in st.rank && x != c && c in st.subclasses
    ensures Below(st, x, c) <==> BelowSubclass(st, x, c, |st.subclasses[c]|)
    decreases st.rank[x]
  {
    var subs := st.subclasses[c];
    if x in st.superclass {
      var p := st.superclass[x];
      if p == c {
        var j :| 0 <= j < |subs| && subs[j] == x;
        assert Below(st, x, subs[j]);
      } else {
        BelowThroughSubclass(st, p, c);
        if Below(st, x, c) {
          var j :| 0 <= j < |subs| && Below(st, p, subs[j]);
          assert Below(st, x, subs[j]);
        }
        if BelowSubclass(st, x, c, |subs|) {
          var j :| 0 <= j < |subs| && Below(st, x, subs[j]);
          assert x != subs[j];
          assert Below(st, p, subs[j]);
        }
      }
    } else {
      forall j | 0 <= j < |subs|
        ensures !Below(st, x, subs[j])
      {
        assert subs[j] in st.superclass;
      }
    }
  }

  lemma RebaseStarts(st: State, t: Table, c: Cls)
    requires Forest(st) && c in st.tables && c in st.superclass
    requires forall s: Sel :: Entry(t, s) == (if Own(st.methods[c], s).Some? then Entry(st.tables[c], s)
                                              else Entry(st.tables[st.superclass[c]], s))
    ensures RebasedUpTo(st, st.tables[c := t], c, 0)
  {
  }

  /** A class below an earlier subclass is not below this one, and neither is its parent. */
  lemma VisitedIsApart(st: State, c: Cls, k: nat, x: Cls)
    requires Forest(st) && c in st.subclasses && k < |st.subclasses[c]| && x in st.rank
    requires x == c || BelowSubclass(st, x, c, k)
    ensures !Below(st, x, st.subclasses[c][k])
    ensures x != c ==> x in st.superclass && !Below(st, st.superclass[x], st.subclasses[c][k])
    ensures x == c && c in st.superclass ==> !Below(st, st.superclass[c], st.subclasses[c][k])
  {
    var sub := st.subclasses[c][k];
    assert sub in st.superclass && st.superclass[sub] == c;
    if Below(st, c, sub) {
      BelowRank(st, c, sub);
    }
    if x != c {
      var j :| 0 <= j < k && Below(st, x, st.subclasses[c][j]);
      assert st.subclasses[c][j] in st.superclass && st.superclass[st.subclasses[c][j]] == c;
      if Below(st, x, sub) {
        SiblingsAreApart(st, x, st.subclasses[c][j], sub);
      }
    }
  }

  lemma RebaseAdvancesAt(st: State, cur: State, tables: map<Cls, Table>, c: Cls, k: nat, x: Cls)
    requires Forest(st) && c in st.tables && c in st.superclass && k < |st.subclasses[c]| && x in st.tables
    requires cur == st.(tables := cur.tables) && RebasedUpTo(st, cur.tables, c, k) && Forest(cur)
    requires Rebased(cur, tables, st.subclasses[c][k])
    ensures if x == c || BelowSubclass(st, x, c, k + 1) then RebasedAt(st, tables, x) else tables[x] == st.tables[x]
  {
    var sub := st.subclasses[c][k];
    SameBelow(st, cur, x, sub);
    if x == c || BelowSubclass(st, x, c, k) {
      VisitedIsApart(st, c, k, x);
      assert RebasedAt(st, cur.tables, x);
      SameBelow(st, cur, st.superclass[x], sub);
      assert x == c || BelowSubclass(st, x, c, k + 1);
    } else if Below(st, x, sub) {
      assert BelowSubclass(st, x, c, k + 1);
      assert RebasedAt(cur, tables, x);
    }
  }

  lemma RebaseAdvances(st: State, cur: State, tables: map<Cls, Table>, c: Cls, k: nat)
    requires Forest(st) && c in st.tables && c in st.superclass && k < |st.subclasses[c]|
    requires cur == st.(tables := cur.tables) && RebasedUpTo(st, cur.tables, c, k) && Forest(cur)
    requires Rebased(cur, tables, st.subclasses[c][k])
    ensures RebasedUpTo(st, tables, c, k + 1)
  {
    forall x | x in st.tables
      ensures if x == c || BelowSubclass(st, x, c, k + 1) then RebasedAt(st, tables, x) else tables[x] == st.tables[x]
    {
      RebaseAdvancesAt(st, cur, tables, c, k, x);
    }
  }

  /** Below a subclass without a table there is nothing to rebase. */
  lemma RebaseSkips(st: State, tables: map<Cls, Table>, c: Cls, k: nat)
    requires Forest(st) && c in st.subclasses && k < |st.subclasses[c]| && st.subclasses[c][k] !in st.tables
    requires RebasedUpTo(st, tables, c, k)
    ensures RebasedUpTo(st, tables, c, k + 1)
  {
    forall x | x in st.tables
      ensures BelowSubclass(st, x, c, k + 1) <==> BelowSubclass(st, x, c, k)
    {
      if Below(st, x, st.subclasses[c][k]) {
        ClosedBelow(st, x, st.subclasses[c][k]);
      }
    }
  }

  lemma RebaseEnds(st: State, tables: map<Cls, Table>, c: Cls)
    requires Forest(st) && c in st.subclasses && RebasedUpTo(st, tables, c, |st.subclasses[c]|)
    ensures Rebased(st, tables, c)
  {
    forall x | x in st.tables && x != c
      ensures Below(st, x, c) <==> BelowSubclass(st, x, c, |st.subclasses[c]|)
    {
      BelowThroughSubclass(st, x, c);
    }
  }

  /** Changing a superclass to a class that is not below restores the agreement. */
  lemma SetSuperclassKeepsAgreement(st: State, st': State, c: Cls, p: Cls)
    requires Agreement(st) && SetSuperclassStep(st, st', c, p)
    requires c in st.tables && p !in st.tables ==> Unshared(st, p)
    ensures Agreement(st')
  {
    if !(c in st.superclass && st.superclass[c] == p) {
      var mid := st'.(tables := st.tables, version := st.version);
      RelinkIsPending(st, mid, c, p);
      if c in st.tables {
        var init :| Initialized(mid, init, p, c) && RebaseStep(init, st', c);
        RelinkKeepsOutside(st, mid, c, p, p);
        RelinkKeepsUnshared(st, mid, c, p, p);
        InitializedIsPending(mid, init, p, c);
        RebaseRestores(init, st', c);
      } else {
        WithoutTableAgrees(st, mid, c, p);
      }
    }
  }

  /** Without a table of its own there is none below c, and nothing is pending. */
  lemma WithoutTableAgrees(st: State, mid: State, c: Cls, p: Cls)
    requires Agreement(st) && Relinked(st, mid, c, p) && Pending(mid, c) && c !in st.tables
    ensures Agreement(mid)
  {
    forall x | x in mid.tables
      ensures Agrees(mid, x)
    {
      if Below(mid, x, c) {
        RelinkKeepsOutside(st, mid, c, p, x);
        ClosedBelow(st, x, c);
      }
    }
  }

  // ---------------------------------------------------------------------------
  // Runs
  // ---------------------------------------------------------------------------

  datatype Operation = Add(c: Cls, m: Method, added: bool) | Create(c: Cls) | SetSuperclass(c: Cls, p: Cls)

  ghost predicate Steps(st: State, op: Operation, st': State) {
    match op
    case Add(c, m, added) => AddStep(st, st', c, m, added)
    case Create(c) => CreateStep(st, st', c)
    case SetSuperclass(c, p) => SetSuperclassStep(st, st', c, p)
  }

  /** What the callers must see to: a new method is a new record, and no definition shares its
      implementation with the definition it overrides. */
  ghost predicate Distinct(st: State, op: Operation) {
    match op
    case Add(c, m, added) =>
      added ==> FreshMethod(st, m) && (c in st.tables && Acyclic(st) && c in st.rank ==> !SharesInherited(st, c, m))
    case Create(c) => Acyclic(st) && c in st.rank ==> NoneShared(st, c)
    case SetSuperclass(c, p) => c in st.tables && p !in st.tables && Acyclic(st) && p in st.rank ==> Unshared(st, p)
  }

  ghost predicate Run(states: seq<State>, ops: seq<Operation>) {
    && |states| == |ops| + 1
    && forall i :: 0 <= i < |ops| ==> Steps(states[i], ops[i], states[i + 1])
  }

  lemma StepKeepsAgreement(st: State, op: Operation, st': State)
    requires Agreement(st) && Steps(st, op, st') && Distinct(st, op)
    ensures Agreement(st')
  {
    match op
    case Add(c, m, added) =>
      if added {
        AddKeepsAgreement(st, st', c, m);
      }
    case Create(c) => CreateKeepsAgreement(st, st', c);
    case SetSuperclass(c, p) => SetSuperclassKeepsAgreement(st, st', c, p);
  }

  /** In every run every dispatch table always is the reference meaning of its class. */
  lemma {:induction false} RunsAgree(states: seq<State>, ops: seq<Operation>, n: nat)
    requires Run(states, ops) && n < |states| && Agreement(states[0])
    requires forall i :: 0 <= i < n ==> Distinct(states[i], ops[i])
    ensures Agreement(states[n])
  {
    hide Agreement, Steps, Distinct;
    if n > 0 {
      RunsAgree(states, ops, n - 1);
      StepKeepsAgreement(states[n - 1], ops[n - 1], states[n]);
    }
  }

  /** One step that leaves the version alone leaves every entry of every table alone. */
  lemma StepKeepsCachedSlots(st: State, op: Operation, st': State)
    requires Steps(st, op, st')
    ensures st.version <= st'.version
    ensures st'.version == st.version ==>
      forall c, s: Sel :: c in st.tables && s in st.tables[c] ==>
        c in st'.tables && Entry(st'.tables[c], s) == Entry(st.tables[c], s)
  {
    hide SetSuperclassStep;
    match op
    case Add(c, m, added) =>
      if added && c in st.tables && MayInstall(st.tables[c], m, SuperEntry(st, c, m.sel), true) && st'.version == st.version {
        forall x, s: Sel | x in st.tables && s in st.tables[x]
          ensures x in st'.tables && Entry(st'.tables[x], s) == Entry(st.tables[x], s)
        {
          InstalledKeepsEntries(st, c, m, x, s);
        }
      }
    case Create(c) =>
    case SetSuperclass(c, p) => SetSuperclassVersion(st, st', c, p);
  }

  lemma {:induction false} InitializedVersion(st: State, st': State, a: Cls, c: Cls)
    requires Acyclic(st) && Initialized(st, st', a, c)
    ensures st.version <= st'.version
    decreases if a in st.rank then st.rank[a] else 0
  {
    if a !in st.tables && a in st.superclass {
      var mid :| Initialized(st, mid, st.superclass[a], c) && Acyclic(mid) && CreateUnderStep(mid, st', a, c);
      InitializedVersion(st, mid, st.superclass[a], c);
    }
  }

  /** A change of superclass advances the version, or there was no table to change. */
  lemma SetSuperclassVersion(st: State, st': State, c: Cls, p: Cls)
    requires SetSuperclassStep(st, st', c, p)
    ensures st.version < st'.version || (st.version == st'.version && st'.tables == st.tables)
  {
    hide Initialized, Relinked, Rebased;
    if !(c in st.superclass && st.superclass[c] == p) && c in st.tables {
      var mid := st'.(tables := st.tables, version := st.version);
      var init :| Initialized(mid, init, p, c) && RebaseStep(init, st', c);
      InitializedVersion(mid, init, p, c);
    }
  }

  /** Safe caching: a slot looked up at version v is still the slot a fresh lookup finds at any
      later moment of the run at which the version is v.  No assumption on implementations. */
  lemma {:induction false} CachedSlotIsSafe(states: seq<State>, ops: seq<Operation>, i: nat, j: nat, c: Cls, s: Sel)
    requires Run(states, ops) && i <= j < |states|
    requires c in states[i].tables && s in states[i].tables[c]
    ensures states[i].version <= states[j].version
    ensures states[j].version == states[i].version ==>
      c in states[j].tables && Entry(states[j].tables[c], s) == Entry(states[i].tables[c], s)
    decreases j - i
  {
    hide Steps;
    if i < j {
      StepKeepsCachedSlots(states[i], ops[i], states[i + 1]);
      if states[i + 1].version == states[i].version {
        CachedSlotIsSafe(states, ops, i + 1, j, c, s);
      } else {
        VersionsGrow(states, ops, i + 1, j);
      }
    }
  }

  lemma {:induction false} VersionsGrow(states: seq<State>, ops: seq<Operation>, i: nat, j: nat)
    requires Run(states, ops) && i <= j < |states|
    ensures states[i].version <= states[j].version
    decreases j - i
  {
    hide Steps;
    if i < j {
      StepKeepsCachedSlots(states[i], ops[i], states[i + 1]);
      VersionsGrow(states, ops, i + 1, j);
    }
  }
}
