/**
  The operations themselves, updating the hierarchy, the method lists, the
  dispatch tables and the global version counter in place.
 */
module DispatchTables {
  import opened Basics
  import opened Hierarchy
  import opened Installation
  import opened Dispatch

  /** The classes ranked above c: what a walk down the subclass lists still has before it. */
  ghost function Higher(rank: map<Cls, nat>, c: Cls): set<Cls>
    requires c in rank
  {
    set x | x in rank && rank[x] > rank[c]
  }

  lemma HigherShrinks(rank: map<Cls, nat>, c: Cls, d: Cls)
    requires c in rank && d in rank && rank[c] < rank[d]
    ensures Higher(rank, d) < Higher(rank, c)
  {
    assert d in Higher(rank, c) && d !in Higher(rank, d);
  }

  lemma SubclassFacts(st: State, c: Cls, i: int)
    requires Tree(st) && c in st.subclasses && 0 <= i < |st.subclasses[c]|
    ensures
      var sub := st.subclasses[c][i];
      && sub in st.superclass && st.superclass[sub] == c && c in st.rank && sub in st.rank
      && Higher(st.rank, sub) < Higher(st.rank, c)
  {
    HigherShrinks(st.rank, c, st.subclasses[c][i]);
  }

  lemma ForestKeysDecide(st: State, tables: map<Cls, Table>, version: nat)
    requires Forest(st) && tables.Keys == st.tables.Keys
    ensures Forest(st.(tables := tables, version := version))
  {
  }

  lemma TreeKeysDecide(st: State, tables: map<Cls, Table>, version: nat)
    requires Tree(st) && tables.Keys == st.tables.Keys
    ensures Tree(st.(tables := tables, version := version))
  {
  }

  lemma ForestIsAcyclic(st: State)
    requires Forest(st)
    ensures Acyclic(st)
  {
  }

  lemma ForestIsTree(st: State)
    requires Forest(st)
    ensures Tree(st)
  {
  }

  lemma InstallStarts(st: State, c: Cls, m: Method)
    requires Tree(st) && c in st.tables
    ensures Acyclic(st) && c in st.subclasses && c in st.rank
    ensures st.tables[c := With(st.tables[c], m)] == InstalledUpTo(st, c, m, Entry(st.tables[c], m.sel), 0)
  {
  }

  /** An enumeration that has come to idx finds the least entry above it, if there is one. */
  ghost predicate IsNext(t: Table, idx: nat, found: bool, next: Sel) {
    if found then next in t && next > idx && forall k: Sel :: k in t && k > idx ==> next <= k
    else forall k: Sel :: k in t ==> k <= idx
  }

  ghost function Rest(t: Table, idx: nat): set<Sel> {
    set k: Sel | k in t && k > idx
  }

  lemma RestShrinks(t: Table, idx: nat, next: Sel)
    requires next in t && next > idx
    ensures Rest(t, next) < Rest(t, idx)
  {
    assert next in Rest(t, idx) && next !in Rest(t, next);
  }

  class Runtime {
    var superclass: map<Cls, Cls>
    var subclasses: map<Cls, seq<Cls>>
    var methods: map<Cls, seq<Method>>
    var tables: map<Cls, Table>
    var version: nat
    ghost var rank: map<Cls, nat>

    ghost function View(): State
      reads this
    {
      State(superclass, subclasses, methods, tables, version, rank)
    }

    /** Installs m in c's table under the guard, then in every subclass table that holds the
        entry m replaced; a replaced entry advances the version. */
    method InstallMethodInDtable(c: Cls, m: Method, toReplace: Option<Method>, replaceExisting: bool)
      returns (installed: bool)
      requires Tree(View()) && c in tables
      modifies this`tables, this`version
      ensures installed == MayInstall(old(tables)[c], m, toReplace, replaceExisting)
      ensures !installed ==> tables == old(tables) && version == old(version)
      ensures installed ==>
        && tables == Installed(old(View()), c, m)
        && VersionAdvances(old(View()), version, Entry(old(tables)[c], m.sel))
      decreases if c in rank then Higher(rank, c) else {}
    {
      hide Tree, Acyclic, Installed, InstalledUpTo;
      var before := Entry(tables[c], m.sel);
      if replaceExisting && toReplace != before {
        return false;
      }
      if !replaceExisting && before.Some? {
        return false;
      }
      if before.Some? && before.value.imp == m.imp {
        return false;
      }
      ghost var st := View();
      InstallStarts(st, c, m);
      tables := tables[c := With(tables[c], m)];
      for i := 0 to |subclasses[c]|
        invariant tables == InstalledUpTo(st, c, m, before, i)
        invariant if before.Some? then st.version <= version else st.version == version
      {
        var subclass := subclasses[c][i];
        SubclassFacts(st, c, i);
        ghost var cur := View();
        UpToKeys(st, c, m, before, i);
        TreeKeysDecide(st, tables, version);
        if subclass in tables {
          var _ := InstallMethodInDtable(subclass, m, before, true);
        }
        InstallAdvances(st, cur, c, m, before, i, tables);
      }
      InstallEnds(st, c, m);
      if before.Some? {
        version := version + 1;
      }
      return true;
    }

    /** class_addMethod: refuses a selector the class already defines. */
    method AddMethod(c: Cls, m: Method, memory: bool) returns (added: bool)
      requires Forest(View()) && c in methods
      modifies this`methods, this`tables, this`version
      ensures added <==> memory && Own(old(methods)[c], m.sel).None?
      ensures AddStep(old(View()), View(), c, m, added)
    {
      var list := methods[c];
      for i := 0 to |list|
        invariant methods == old(methods) && Own(list[..i], m.sel).None?
        invariant tables == old(tables) && version == old(version)
      {
        OwnOfPrefix(list, i, m.sel);
        if list[i].sel == m.sel {
          OwnStays(list, i + 1, m.sel);
          return false;
        }
      }
      assert list[..|list|] == list;
      if !memory {
        return false;
      }
      ghost var st := View();
      methods := methods[c := [m] + methods[c]];
      if c in tables {
        AddMethodToTable(c, m, st);
      }
      return true;
    }

    /** add_method_list_to_class for a list of one method. */
    method AddMethodToTable(c: Cls, m: Method, ghost st: State)
      requires Forest(View()) && Acyclic(st) && c in tables && View() == st.(methods := methods)
      modifies this`tables, this`version
      ensures if MayInstall(st.tables[c], m, SuperEntry(st, c, m.sel), true)
              then tables == Installed(st, c, m) && VersionAdvances(st, version, Entry(st.tables[c], m.sel))
              else tables == st.tables && version == st.version
    {
      var toReplace := if c in superclass && superclass[c] in tables then Entry(tables[superclass[c]], m.sel) else None;
      var _ := InstallMethodInDtable(c, m, toReplace, true);
      InstalledIgnoresMethods(st, old(View()), c, m);
    }

    /** create_dtable_for_class: a copy of the superclass's table with the class's own methods on top. */
    method CreateDtable(c: Cls)
      requires Forest(View()) && c in methods && c !in tables
      requires c in superclass ==> superclass[c] in tables
      modifies this`tables, this`version
      ensures CreateStep(old(View()), View(), c)
    {
      hide Forest, Installed, MayInstall, With, Build, BuildOne;
      ghost var st := View();
      var base := if c in superclass then tables[superclass[c]] else map[];
      tables := tables[c := base];
      BuildStarts(base);
      for i := 0 to |methods[c]|
        invariant tables == st.tables[c := Build(base, methods[c][..i])] && st.version <= version
      {
        var m := methods[c][i];
        var superMethod := if c in superclass then Entry(base, m.sel) else None;
        BuildStep(base, methods[c], i);
        ghost var cur := View();
        ForestWithTable(st, cur, c);
        ForestIsTree(cur);
        var _ := InstallMethodInDtable(c, m, superMethod, true);
        NothingBelowNewTable(st, cur, c, m);
      }
      assert methods[c][..|methods[c]|] == methods[c];
    }

    /** safe_remove_from_subclass_list. */
    method RemoveFromSubclassList(c: Cls)
      requires Forest(View()) && c in rank
      modifies this`subclasses
      ensures subclasses == if c in superclass
                            then old(subclasses)[superclass[c] := Without(old(subclasses)[superclass[c]], c)]
                            else old(subclasses)
    {
      if c !in superclass {
        return;
      }
      var list := subclasses[superclass[c]];
      var i := 0;
      while i < |list| && list[i] != c
        invariant 0 <= i <= |list| && c !in list[..i]
      {
        i := i + 1;
      }
      WithoutCuts(list, i, c);
      subclasses := subclasses[superclass[c] := list[..i] + list[i + 1..]];
    }

    /** The least entry above idx, as the enumeration of a table finds it. */
    method NextEntry(t: Table, idx: nat) returns (found: bool, next: Sel)
      ensures IsNext(t, idx, found, next)
    {
      found, next := LeastAbove(t.Keys, idx);
    }

    /** The least of the keys above idx. */
    static method LeastAbove(keys: set<nat>, idx: nat) returns (found: bool, least: nat)
      ensures least > 0 && if found then least in keys && least > idx && forall k :: k in keys && k > idx ==> least <= k
                           else forall k :: k in keys ==> k <= idx
    {
      var rest := set k | k in keys && k > idx;
      assert forall k :: k in keys && k > idx ==> k in rest;
      if rest == {} {
        return false, 1;
      }
      ghost var some :| some in rest;
      LeastExists(rest, some);
      least :| least in rest && forall k :: k in rest ==> least <= k;
      found := true;
    }

    /** One class's part of a rebase: its own methods stay, every other entry comes from the parent. */
    method RebaseTable(c: Cls, parent: Table) returns (t: Table)
      requires c in methods && c in tables
      ensures forall s: Sel :: Entry(t, s) == (if Own(methods[c], s).Some? then Entry(tables[c], s) else Entry(parent, s))
    {
      var temporary: Table := map[];
      for i := 0 to |methods[c]|
        invariant forall s: Sel :: Entry(temporary, s) == Own(methods[c][..i], s)
      {
        var m := methods[c][i];
        ghost var before := temporary;
        if m.sel !in temporary {
          temporary := With(temporary, m);
        }
        forall s: Sel
          ensures Entry(temporary, s) == Own(methods[c][..i + 1], s)
        {
          OwnOfPrefix(methods[c], i, s);
          assert Entry(before, s) == Own(methods[c][..i], s);
        }
      }
      assert methods[c][..|methods[c]|] == methods[c];
      t := tables[c];
      t, temporary := TakeFromParent(t, temporary, parent);
      t := DropStale(t, temporary);
    }

    /** Installs every entry of the parent that the class does not define itself. */
    method TakeFromParent(table: Table, own: Table, parent: Table) returns (t: Table, kept: Table)
      ensures kept.Keys == own.Keys + parent.Keys
      ensures forall s: Sel :: Entry(t, s) == (if s !in own && s in parent then Entry(parent, s) else Entry(table, s))
    {
      t, kept := table, own;
      var idx: nat := 0;
      var found, next := NextEntry(parent, idx);
      while found
        invariant IsNext(parent, idx, found, next)
        invariant forall s: Sel :: s in kept <==> s in own || (s in parent && s <= idx)
        invariant forall s: Sel :: Entry(t, s) == (if s !in own && s in parent && s <= idx then Entry(parent, s) else Entry(table, s))
        decreases Rest(parent, idx)
      {
        RestShrinks(parent, idx, next);
        idx := next;
        if next !in kept {
          t := t[next := parent[next]];
          kept := kept[next := parent[next]];
        }
        found, next := NextEntry(parent, idx);
      }
    }

    /** Removes the entries that neither the class nor its new parent provides. */
    method DropStale(table: Table, kept: Table) returns (t: Table)
      ensures forall s: Sel :: Entry(t, s) == if s in kept then Entry(table, s) else None
    {
      t := table;
      var idx: nat := 0;
      var found, next := NextEntry(t, idx);
      while found
        invariant IsNext(t, idx, found, next)
        invariant forall s: Sel :: Entry(t, s) == if s in kept || s > idx then Entry(table, s) else None
        decreases Rest(table, idx)
      {
        assert Entry(t, next) == Entry(table, next);
        RestShrinks(table, idx, next);
        idx := next;
        if next !in kept {
          t := t - {next};
        }
        found, next := NextEntry(t, idx);
      }
    }

    /** rebaseDtableRecursive: rebuilds c's table on its new parent's, then those of its subclasses. */
    method RebaseDtableRecursive(c: Cls)
      requires Forest(View()) && c in tables && c in superclass
      modifies this`tables
      ensures Rebased(old(View()), tables, c)
      decreases if c in rank then Higher(rank, c) else {}
    {
      hide Rebased, RebasedUpTo;
      ghost var st := View();
      var t := RebaseTable(c, tables[superclass[c]]);
      RebaseStarts(st, t, c);
      tables := tables[c := t];
      for i := 0 to |subclasses[c]|
        invariant RebasedUpTo(st, tables, c, i)
      {
        var subclass := subclasses[c][i];
        SubclassFacts(st, c, i);
        RebaseKeys(st, tables, c, i);
        ForestKeysDecide(st, tables, version);
        if subclass in tables {
          ghost var cur := View();
          RebaseDtableRecursive(subclass);
          RebaseAdvances(st, cur, tables, c, i);
        } else {
          RebaseSkips(st, tables, c, i);
        }
      }
      RebaseEnds(st, tables, c);
    }

    /** create_dtable_for_class for a class a that is not below c, while c waits to be rebased: a's
        methods are also pushed to the tables below c, where they do no lasting harm. */
    method CreateDtableAbove(a: Cls, ghost c: Cls)
      requires Pending(View(), c) && a in methods && a !in tables && !Below(View(), a, c)
      requires a in superclass ==> superclass[a] in tables
      modifies this`tables, this`version
      ensures Acyclic(old(View())) && CreateUnderStep(old(View()), View(), a, c)
    {
      hide Pending, Installed, MayInstall, Building, CreateUnderStep, Below, Tree, Acyclic;
      ghost var st := View();
      PendingIsTree(st, c);
      var base := if a in superclass then tables[superclass[a]] else map[];
      tables := tables[a := base];
      BuildingStarts(st, View(), a, c, base);
      for i := 0 to |methods[a]|
        invariant Building(st, View(), a, c, base, i)
      {
        var m := methods[a][i];
        var superMethod := if a in superclass then Entry(base, m.sel) else None;
        ghost var cur := View();
        BuildingIsTree(st, cur, a, c, base, i);
        var installed := InstallMethodInDtable(a, m, superMethod, true);
        BuildingAdvances(st, cur, View(), a, c, base, i, installed);
      }
      BuildingEnds(st, View(), a, c, base);
    }

    /** objc_send_initialize, as far as the tables go: superclasses first. */
    method InitializeAbove(a: Cls, ghost c: Cls)
      requires Pending(View(), c) && a in rank && !Below(View(), a, c) && Unshared(View(), a)
      modifies this`tables, this`version
      ensures Acyclic(old(View())) && Initialized(old(View()), View(), a, c)
      ensures Pending(View(), c) && a in tables && old(tables).Keys <= tables.Keys
      decreases if a in rank then rank[a] else 0
    {
      hide Pending, CreateUnderStep, Below, Unshared;
      ghost var st := View();
      PendingIsTree(st, c);
      if a in tables {
        return;
      }
      UnsharedAbove(st, a, c);
      if a in superclass && superclass[a] !in tables {
        InitializeAbove(superclass[a], c);
      }
      ghost var mid := View();
      StillUnshared(st, mid, a, c);
      CreateDtableAbove(a, c);
      CreateKeepsPending(mid, View(), a, c);
      InitializedByCreate(st, mid, View(), a, c);
      InitializedIsPending(st, View(), a, c);
    }

    /** class_setSuperclass for one node of the hierarchy: relink it, make sure that the new
        superclass has a table if the class has one, then rebase the tables below. */
    method SetSuperclass(c: Cls, p: Cls)
      requires Forest(View()) && c in rank && p in rank && !Below(View(), p, c)
      requires c in tables && p !in tables ==> Agreement(View()) && Unshared(View(), p)
      modifies this
      ensures SetSuperclassStep(old(View()), View(), c, p)
    {
      hide Forest, Tree, Acyclic, Relinked, Rebased, Pending, Initialized, Unshared, Agreement, Below, Closed;
      ghost var st := View();
      ForestIsAcyclic(st);
      if c in superclass && superclass[c] == p {
        return;
      }
      Relink(c, p);
      if c !in tables {
        return;
      }
      ghost var mid := View();
      if p !in tables {
        RelinkedIsPending(st, mid, c, p);
        InitializeAbove(p, c);
        PendingIsClosed(View(), c);
      } else {
        NothingToInitialize(mid, p, c);
      }
      ghost var init := View();
      RebaseDtableRecursive(c);
      version := version + 1;
      assert RebaseStep(init, View(), c);
      assert View().(tables := mid.tables, version := mid.version) == mid;
    }

    /** Moves c from its superclass's subclass list to the head of p's. */
    method Relink(c: Cls, p: Cls)
      requires Forest(View()) && c in rank && p in rank && !Below(View(), p, c)
      requires c in superclass ==> superclass[c] != p
      modifies this`superclass, this`subclasses, this`rank
      ensures Acyclic(old(View())) && Relinked(old(View()), View(), c, p)
      ensures Tree(View()) && Acyclic(View()) && (c !in tables || p in tables ==> Forest(View()) && Closed(View()))
      ensures c in superclass && superclass[c] == p
    {
      ghost var st := View();
      assert Acyclic(st) && p in subclasses && (c in superclass ==> superclass[c] in subclasses);
      hide Forest, Tree, Acyclic, Linked, Closed, Relinked, Below, Reranked, Without;
      RemoveFromSubclassList(c);
      superclass := superclass[c := p];
      subclasses := subclasses[p := [c] + subclasses[p]];
      rank := Reranked(st, c, p);
      RelinkedState(st, View(), c, p);
    }

    /** objc_get_slot2: the version, read before the table, and the slot the table holds. */
    method GetSlot(c: Cls, s: Sel) returns (slot: Option<Method>, v: nat)
      requires c in methods
      ensures v == version && slot == if c in tables then Entry(tables[c], s) else None
      ensures Agreement(View()) && c in tables ==> slot == Nearest(View(), c, s)
    {
      v := version;
      slot := if c in tables then Entry(tables[c], s) else None;
      if Agreement(View()) && c in tables {
        assert Agrees(View(), c);
      }
    }
  }

  lemma UpToKeys(st: State, c: Cls, m: Method, before: Option<Method>, k: nat)
    requires Acyclic(st) && c in st.subclasses && k <= |st.subclasses[c]|
    ensures InstalledUpTo(st, c, m, before, k).Keys == st.tables.Keys
  {
  }

  lemma {:induction false} OwnOfPrefix(ms: seq<Method>, i: nat, s: Sel)
    requires i < |ms|
    ensures Own(ms[..i + 1], s) ==
            if Own(ms[..i], s).Some? then Own(ms[..i], s) else if ms[i].sel == s then Some(ms[i]) else None
  {
    assert ms[..i + 1] == ms[..i] + [ms[i]];
    OwnAppended(ms[..i], ms[i], s);
  }

  lemma {:induction false} OwnStays(ms: seq<Method>, i: nat, s: Sel)
    requires i <= |ms| && Own(ms[..i], s).Some?
    ensures Own(ms, s) == Own(ms[..i], s)
    decreases |ms| - i
  {
    if i == |ms| {
      assert ms[..i] == ms;
    } else {
      OwnOfPrefix(ms, i, s);
      OwnStays(ms, i + 1, s);
    }
  }

  /** Who follows whom does not depend on the method lists. */
  lemma {:induction false} FollowsIgnoresMethods(st: State, st': State, x: Cls, c: Cls, s: Sel, before: Option<Method>)
    requires Acyclic(st) && Acyclic(st') && st' == st.(methods := st'.methods)
    ensures Follows(st', x, c, s, before) <==> Follows(st, x, c, s, before)
    decreases if x in st.rank then st.rank[x] else 0
  {
    if x in st.superclass {
      FollowsIgnoresMethods(st, st', st.superclass[x], c, s, before);
    }
  }

  lemma InstalledIgnoresMethods(st: State, st': State, c: Cls, m: Method)
    requires Acyclic(st) && Acyclic(st') && st' == st.(methods := st'.methods) && c in st.tables
    ensures Installed(st', c, m) == Installed(st, c, m)
  {
    forall x | x in st.tables
      ensures Follows(st', x, c, m.sel, Entry(st.tables[c], m.sel)) <==> Follows(st, x, c, m.sel, Entry(st.tables[c], m.sel))
    {
      FollowsIgnoresMethods(st, st', x, c, m.sel, Entry(st.tables[c], m.sel));
    }
  }

  lemma BuildStarts(base: Table)
    ensures Build(base, []) == base
  {
  }

  lemma BuildStep(base: Table, ms: seq<Method>, i: nat)
    requires i < |ms|
    ensures Build(base, ms[..i + 1]) ==
            if MayInstall(Build(base, ms[..i]), ms[i], Entry(base, ms[i].sel), true)
            then With(Build(base, ms[..i]), ms[i]) else Build(base, ms[..i])
  {
    assert ms[..i + 1][..i] == ms[..i] && ms[..i + 1][i] == ms[i];
  }

  lemma ForestWithTable(st: State, cur: State, c: Cls)
    requires Forest(st) && c in st.methods && c in cur.tables && (c in st.superclass ==> st.superclass[c] in st.tables)
    requires cur == st.(tables := st.tables[c := cur.tables[c]], version := cur.version)
    ensures Forest(cur)
  {
  }

  /** While c's table is being built no other table follows it. */
  lemma NothingBelowNewTable(st: State, cur: State, c: Cls, m: Method)
    requires Forest(st) && c in st.methods && c !in st.tables && Forest(cur) && c in cur.tables
    requires cur == st.(tables := cur.tables, version := cur.version) && cur.tables == st.tables[c := cur.tables[c]]
    ensures Installed(cur, c, m) == st.tables[c := With(cur.tables[c], m)]
  {
    forall x | x in st.tables
      ensures !Follows(cur, x, c, m.sel, Entry(cur.tables[c], m.sel))
    {
      if Follows(cur, x, c, m.sel, Entry(cur.tables[c], m.sel)) {
        FollowsIsBelow(cur, x, c, m.sel, Entry(cur.tables[c], m.sel));
        SameBelow(st, cur, x, c);
        ClosedBelow(st, x, c);
      }
    }
  }

  lemma {:induction false} WithoutCuts(s: seq<Cls>, i: nat, c: Cls)
    requires i < |s| && s[i] == c && c !in s[..i]
    ensures Without(s, c) == s[..i] + s[i + 1..]
  {
    if i > 0 {
      assert s[0] == s[..i][0];
      assert s[1..][..i - 1] == s[..i][1..] && s[1..][i..] == s[i + 1..];
      WithoutCuts(s[1..], i - 1, c);
    }
  }

  lemma RebaseKeys(st: State, tables: map<Cls, Table>, c: Cls, k: nat)
    requires Forest(st) && c in st.subclasses && k <= |st.subclasses[c]| && RebasedUpTo(st, tables, c, k)
    ensures tables.Keys == st.tables.Keys
  {
  }

  /** Ranks for the hierarchy in which c hangs below p: everything below c moves above p. */
  ghost function Reranked(st: State, c: Cls, p: Cls): map<Cls, nat>
    requires Acyclic(st) && p in st.rank
  {
    map x | x in st.rank :: if Below(st, x, c) then st.rank[x] + st.rank[p] + 1 else st.rank[x]
  }

  /** What relinking writes. */
  ghost predicate RelinkWrites(st: State, mid: State, c: Cls, p: Cls)
    requires Acyclic(st) && p in st.rank
  {
    && (c in st.superclass ==> st.superclass[c] != p && st.superclass[c] in st.subclasses)
    && var cut := if c in st.superclass
                  then st.subclasses[st.superclass[c] := Without(st.subclasses[st.superclass[c]], c)]
                  else st.subclasses;
       && p in cut
       && mid == st.(superclass := st.superclass[c := p], subclasses := cut[p := [c] + cut[p]], rank := Reranked(st, c, p))
  }

  lemma WrittenKeys(st: State, mid: State, c: Cls, p: Cls)
    requires Acyclic(st) && p in st.rank && RelinkWrites(st, mid, c, p)
    ensures mid.subclasses.Keys == st.subclasses.Keys && mid.rank.Keys == st.rank.Keys && mid.rank == Reranked(st, c, p)
    ensures mid.superclass == st.superclass[c := p] && mid.methods == st.methods && mid.tables == st.tables
  {
    hide Below, Without;
  }

  lemma WrittenIsRelinked(st: State, mid: State, c: Cls, p: Cls)
    requires Acyclic(st) && c in st.rank && p in st.rank && !Below(st, p, c) && RelinkWrites(st, mid, c, p) && Acyclic(mid)
    ensures Relinked(st, mid, c, p)
  {
    hide Below, Without, Reranked, Acyclic;
  }

  lemma RelinkedState(st: State, mid: State, c: Cls, p: Cls)
    requires Forest(st) && c in st.rank && p in st.rank && !Below(st, p, c) && RelinkWrites(st, mid, c, p)
    ensures Relinked(st, mid, c, p) && Tree(mid) && (c !in st.tables || p in st.tables ==> Forest(mid))
  {
    WrittenKeys(st, mid, c, p);
    assert c in st.superclass ==> st.superclass[c] != p;
    hide Linked, Closed, Below, Reranked, Relinked, RelinkWrites;
    RelinkedTables(st, mid, c, p);
    RerankedIsAcyclic(st, mid, c, p);
    WrittenIsRelinked(st, mid, c, p);
    RelinkKeepsLinks(st, mid, c, p);
  }

  lemma RelinkedTables(st: State, mid: State, c: Cls, p: Cls)
    requires Closed(st) && mid.tables == st.tables
    requires mid.superclass == st.superclass[c := p] && mid.rank.Keys == st.rank.Keys
    ensures forall x :: x in mid.tables ==> x in mid.rank
    ensures c !in st.tables || p in st.tables ==> Closed(mid)
  {
  }

  lemma RerankedIsAcyclic(st: State, mid: State, c: Cls, p: Cls)
    requires Forest(st) && c in st.rank && p in st.rank && !Below(st, p, c)
    requires mid.superclass == st.superclass[c := p] && mid.rank == Reranked(st, c, p)
    requires mid.methods == st.methods && mid.subclasses.Keys == st.subclasses.Keys
    ensures Acyclic(mid)
  {
    forall x | x in mid.superclass
      ensures x in mid.rank && mid.superclass[x] in mid.rank && mid.rank[mid.superclass[x]] < mid.rank[x]
    {
      if x != c {
        assert Below(st, st.superclass[x], c) ==> Below(st, x, c);
      }
    }
  }

  // ---------------------------------------------------------------------------
  // Tables created between relinking and rebasing
  // ---------------------------------------------------------------------------

  lemma PendingIsTree(st: State, c: Cls)
    requires Pending(st, c)
    ensures Tree(st) && Acyclic(st) && st.rank.Keys == st.methods.Keys && c in st.superclass
  {
  }

  lemma PendingIsClosed(st: State, c: Cls)
    requires Pending(st, c) && st.superclass[c] in st.tables
    ensures Forest(st) && Closed(st) && Acyclic(st)
  {
  }

  lemma RelinkedIsPending(st: State, mid: State, c: Cls, p: Cls)
    requires Agreement(st) && Acyclic(st) && Relinked(st, mid, c, p) && (c in st.superclass ==> st.superclass[c] != p)
    requires p in st.rank && !Below(st, p, c) && Unshared(st, p)
    ensures Pending(mid, c) && p in mid.rank && !Below(mid, p, c) && Unshared(mid, p)
  {
    RelinkIsPending(st, mid, c, p);
    RelinkKeepsOutside(st, mid, c, p, p);
    RelinkKeepsUnshared(st, mid, c, p, p);
  }

  lemma NothingToInitialize(st: State, a: Cls, c: Cls)
    requires Acyclic(st) && a in st.tables
    ensures Initialized(st, st, a, c)
  {
  }

  /** The table of a when the first i of its methods have been offered. */
  ghost predicate Building(st: State, cur: State, a: Cls, c: Cls, base: Table, i: nat)
    requires Acyclic(st)
  {
    && a in st.methods && i <= |st.methods[a]|
    && cur == st.(tables := cur.tables, version := cur.version) && st.version <= cur.version
    && cur.tables.Keys == st.tables.Keys + {a} && cur.tables[a] == Build(base, st.methods[a][..i])
    && TablesKept(st, cur.tables, c)
  }

  lemma BuildingStarts(st: State, cur: State, a: Cls, c: Cls, base: Table)
    requires Acyclic(st) && a !in st.tables && a in st.methods && cur == st.(tables := st.tables[a := base])
    ensures Building(st, cur, a, c, base, 0)
  {
    BuildStarts(base);
    assert st.methods[a][..0] == [];
  }

  lemma BuildingEnds(st: State, st': State, a: Cls, c: Cls, base: Table)
    requires Acyclic(st) && a in st.methods && Building(st, st', a, c, base, |st.methods[a]|) && base == BaseTable(st, a)
    requires a !in st.tables && !Below(st, a, c) && (a in st.superclass ==> st.superclass[a] in st.tables)
    ensures CreateUnderStep(st, st', a, c)
  {
    hide Build, TablesKept, Below;
    assert st.methods[a][..|st.methods[a]|] == st.methods[a];
  }

  lemma BuildingAdvances(st: State, cur: State, cur': State, a: Cls, c: Cls, base: Table, i: nat, installed: bool)
    requires Pending(st, c) && a in st.rank && a !in st.tables && !Below(st, a, c)
    requires a in st.superclass ==> st.superclass[a] in st.tables
    requires Building(st, cur, a, c, base, i) && i < |st.methods[a]| && base == BaseTable(st, a) && Acyclic(cur)
    requires cur' == cur.(tables := cur'.tables, version := cur'.version)
    requires
      var m := st.methods[a][i];
      && installed == MayInstall(cur.tables[a], m, Entry(base, m.sel), true)
      && if installed then cur'.tables == Installed(cur, a, m) && VersionAdvances(cur, cur'.version, Entry(cur.tables[a], m.sel))
         else cur' == cur
    ensures Building(st, cur', a, c, base, i + 1)
  {
    hide Pending, Installed, MayInstall, TablesKept, Below, Build, With;
    BuildStep(base, st.methods[a], i);
    if installed {
      InstallUnder(st, cur, a, c, base, i);
    }
  }

  lemma BuildingIsTree(st: State, cur: State, a: Cls, c: Cls, base: Table, i: nat)
    requires Tree(st) && Acyclic(st) && Building(st, cur, a, c, base, i)
    ensures Tree(cur) && Acyclic(cur) && a in cur.tables
  {
  }

  lemma {:induction false} BuiltFrom(base: Table, ms: seq<Method>, s: Sel)
    ensures Entry(Build(base, ms), s) == Entry(base, s) ||
            (Entry(Build(base, ms), s).Some? && Entry(Build(base, ms), s).value in ms)
  {
    if ms != [] {
      BuiltFrom(base, ms[..|ms| - 1], s);
    }
  }

  /** The entry that an installation at a replaces is not one that a class below a defines. */
  lemma ReplacedIsForeign(st: State, a: Cls, c: Cls, ms: seq<Method>, x: Cls, s: Sel)
    requires Pending(st, c) && a in st.rank && a !in st.tables && !Below(st, a, c) && x in st.tables && Below(st, x, a)
    requires a in st.superclass ==> st.superclass[a] in st.tables
    requires forall m :: m in ms ==> m in st.methods[a]
    ensures Own(st.methods[x], s).Some? ==> Entry(Build(BaseTable(st, a), ms), s) != Own(st.methods[x], s)
  {
    var before := Entry(Build(BaseTable(st, a), ms), s);
    BuiltFrom(BaseTable(st, a), ms, s);
    OwnIsMember(st.methods[x], s);
    BelowRank(st, x, a);
    if before.Some? && before == Entry(BaseTable(st, a), s) && a in st.superclass {
      assert Agrees(st, st.superclass[a]);
      var b := NearestIsOwned(st, st.superclass[a], s);
      OwnIsMember(st.methods[b], s);
      BelowRank(st, st.superclass[a], b);
    }
  }

  lemma InstallUnder(st: State, cur: State, a: Cls, c: Cls, base: Table, i: nat)
    requires Pending(st, c) && a in st.rank && a !in st.tables && !Below(st, a, c)
    requires a in st.superclass ==> st.superclass[a] in st.tables
    requires Building(st, cur, a, c, base, i) && i < |st.methods[a]| && base == BaseTable(st, a) && Acyclic(cur)
    ensures
      var tables := Installed(cur, a, st.methods[a][i]);
      && tables.Keys == cur.tables.Keys && tables[a] == With(cur.tables[a], st.methods[a][i])
      && TablesKept(st, tables, c)
  {
    var m := st.methods[a][i];
    var before := Entry(cur.tables[a], m.sel);
    hide Build, BuildOne, Pending, Below;
    forall x | x in st.tables && Follows(cur, x, a, m.sel, before)
      ensures Below(st, x, c) && x in st.methods && Own(st.methods[x], m.sel).None?
    {
      FollowerIsBelow(st, cur, a, c, base, i, x);
    }
  }

  /** What an installation at a reaches is below c and does not define the selector. */
  lemma FollowerIsBelow(st: State, cur: State, a: Cls, c: Cls, base: Table, i: nat, x: Cls)
    requires Pending(st, c) && a in st.rank && a !in st.tables && !Below(st, a, c) && x in st.tables
    requires a in st.superclass ==> st.superclass[a] in st.tables
    requires Building(st, cur, a, c, base, i) && i < |st.methods[a]| && base == BaseTable(st, a) && Acyclic(cur)
    requires
      var s := st.methods[a][i].sel;
      Follows(cur, x, a, s, Entry(cur.tables[a], s))
    ensures Below(st, x, c) && x in st.methods && Own(st.methods[x], st.methods[a][i].sel).None?
  {
    hide Build, Linked, Agrees;
    var s := st.methods[a][i].sel;
    FollowsIsBelow(cur, x, a, s, Entry(cur.tables[a], s));
    SameBelow(st, cur, x, a);
    PendingBelow(st, x, a, c);
    assert OwnKept(st, x);
    ReplacedIsForeign(st, a, c, st.methods[a][..i], x, s);
  }

  lemma UnsharedAbove(st: State, a: Cls, c: Cls)
    requires Pending(st, c) && a in st.rank && a !in st.tables && !Below(st, a, c) && Unshared(st, a)
    ensures a in st.methods && NoneShared(st, a)
    ensures a in st.superclass ==>
      var p := st.superclass[a]; p in st.rank && st.rank[p] < st.rank[a] && !Below(st, p, c) && Unshared(st, p)
  {
  }

  lemma StillUnshared(st: State, mid: State, a: Cls, c: Cls)
    requires Pending(st, c) && Acyclic(st) && a in st.rank && a !in st.tables && !Below(st, a, c) && Unshared(st, a)
    requires if a in st.superclass && st.superclass[a] !in st.tables
             then Initialized(st, mid, st.superclass[a], c) else mid == st
    ensures Acyclic(mid) && a in mid.rank && !Below(mid, a, c) && mid.methods == st.methods && mid.superclass == st.superclass
    ensures mid.rank == st.rank && a !in mid.tables && NoneShared(mid, a)
  {
    hide Initialized, Linked, Agrees, OwnKept;
    if a in st.superclass && st.superclass[a] !in st.tables {
      UnsharedAbove(st, a, c);
      InitializedIsPending(st, mid, st.superclass[a], c);
      if a in mid.tables {
        InitializedRanks(st, mid, st.superclass[a], c, a);
      }
      MoreTablesUnshared(st, mid, a);
      SameBelow(st, mid, a, c);
    }
  }

  /** Only the class and its superclasses get tables. */
  lemma {:induction false} InitializedRanks(st: State, st': State, a: Cls, c: Cls, x: Cls)
    requires Acyclic(st) && a in st.rank && Initialized(st, st', a, c) && x in st'.tables && x !in st.tables
    ensures x in st.rank && st.rank[x] <= st.rank[a]
    decreases st.rank[a]
  {
    if a in st.superclass {
      var mid :| Initialized(st, mid, st.superclass[a], c) && Acyclic(mid) && CreateUnderStep(mid, st', a, c);
      if x != a {
        InitializedRanks(st, mid, st.superclass[a], c, x);
      }
    }
  }

  lemma InitializedByCreate(st: State, mid: State, st': State, a: Cls, c: Cls)
    requires Acyclic(st) && a !in st.tables && Acyclic(mid) && CreateUnderStep(mid, st', a, c)
    requires if a in st.superclass && st.superclass[a] !in st.tables
             then Initialized(st, mid, st.superclass[a], c) else mid == st
    ensures Initialized(st, st', a, c) && a in st'.tables
  {
    assert a in st.superclass ==> Initialized(st, mid, st.superclass[a], c);
  }
}
