/**
  Installing one method in a dispatch table and in the tables of the subclasses
  that inherited the entry it replaces.
 */
module Installation {
  import opened Basics
  import opened Hierarchy

  /** x takes its entry for s from c: on the way from x up to c every class has a table and
      each of those tables holds the entry `before`. */
  ghost predicate Follows(st: State, x: Cls, c: Cls, s: Sel, before: Option<Method>)
    requires Acyclic(st)
    decreases if x in st.rank then st.rank[x] else 0
  {
    && x in st.tables && Entry(st.tables[x], s) == before
    && (x == c || (x in st.superclass && Follows(st, st.superclass[x], c, s, before)))
  }

  /** x takes its entry from one of the first k subclasses of c. */
  ghost predicate FollowsSubclass(st: State, x: Cls, c: Cls, k: nat, s: Sel, before: Option<Method>)
    requires Acyclic(st) && c in st.subclasses && k <= |st.subclasses[c]|
  {
    exists j :: 0 <= j < k && Follows(st, x, st.subclasses[c][j], s, before)
  }

  /** The tables after m has replaced `before` in c and everything that follows it there. */
  ghost function Installed(st: State, c: Cls, m: Method): map<Cls, Table>
    requires Acyclic(st) && c in st.tables
  {
    map x | x in st.tables ::
      if Follows(st, x, c, m.sel, Entry(st.tables[c], m.sel)) then With(st.tables[x], m) else st.tables[x]
  }

  /** The same with only c and its first k subclasses visited. */
  ghost function InstalledUpTo(st: State, c: Cls, m: Method, before: Option<Method>, k: nat): map<Cls, Table>
    requires Acyclic(st) && c in st.subclasses && k <= |st.subclasses[c]|
  {
    map x | x in st.tables ::
      if x == c || FollowsSubclass(st, x, c, k, m.sel, before) then With(st.tables[x], m) else st.tables[x]
  }

  /** A replaced entry invalidates cached slots: the version grows exactly when there was one. */
  ghost predicate VersionAdvances(st: State, version: nat, before: Option<Method>) {
    if before.Some? then st.version < version else st.version == version
  }

  /** The guard of an installation. */
  predicate MayInstall(t: Table, m: Method, toReplace: Option<Method>, replaceExisting: bool) {
    var before := Entry(t, m.sel);
    && (replaceExisting ==> toReplace == before)
    && (!replaceExisting ==> before.None?)
    && !(before.Some? && before.value.imp == m.imp)
  }

  lemma {:induction false} FollowsIsBelow(st: State, x: Cls, c: Cls, s: Sel, before: Option<Method>)
    requires Acyclic(st) && Follows(st, x, c, s, before)
    ensures Below(st, x, c) && c in st.tables && Entry(st.tables[c], s) == before
    decreases if x in st.rank then st.rank[x] else 0
  {
    if x != c {
      FollowsIsBelow(st, st.superclass[x], c, s, before);
    }
  }

  /** Following is decided by the tables below c. */
  lemma {:induction false} FollowsDependsOnSubtree(st: State, tables: map<Cls, Table>, x: Cls, c: Cls, s: Sel, before: Option<Method>)
    requires Acyclic(st) && tables.Keys == st.tables.Keys
    requires forall y :: y in st.tables && Below(st, y, c) ==> tables[y] == st.tables[y]
    ensures Follows(st.(tables := tables), x, c, s, before) <==> Follows(st, x, c, s, before)
    decreases if x in st.rank then st.rank[x] else 0
  {
    var st' := st.(tables := tables);
    if Follows(st, x, c, s, before) {
      FollowsIsBelow(st, x, c, s, before);
    }
    if Follows(st', x, c, s, before) {
      FollowsIsBelow(st', x, c, s, before);
      SameBelow(st, st', x, c);
    }
    if x != c && x in st.superclass {
      FollowsDependsOnSubtree(st, tables, st.superclass[x], c, s, before);
    }
  }

  lemma {:induction false} SameBelow(st: State, st': State, x: Cls, a: Cls)
    requires Acyclic(st) && Acyclic(st') && st'.superclass == st.superclass && st'.rank == st.rank
    ensures Below(st', x, a) <==> Below(st, x, a)
    decreases if x in st.rank then st.rank[x] else 0
  {
    if x in st.superclass {
      SameBelow(st, st', st.superclass[x], a);
    }
  }

  /** To follow c from below is to follow one of its subclasses, when c itself holds the entry. */
  lemma {:induction false} FollowsThroughSubclass(st: State, x: Cls, c: Cls, s: Sel, before: Option<Method>)
    requires Tree(st) && c in st.tables && Entry(st.tables[c], s) == before && x != c
    ensures Follows(st, x, c, s, before) <==> FollowsSubclass(st, x, c, |st.subclasses[c]|, s, before)
    decreases if x in st.rank then st.rank[x] else 0
  {
    var subs := st.subclasses[c];
    if x in st.superclass {
      var p := st.superclass[x];
      if p == c {
        var j :| 0 <= j < |subs| && subs[j] == x;
        forall k | 0 <= k < |subs| && Follows(st, x, subs[k], s, before)
          ensures Follows(st, x, c, s, before)
        {
        }
        if Follows(st, x, c, s, before) {
          assert Follows(st, x, subs[j], s, before);
        }
      } else {
        FollowsThroughSubclass(st, p, c, s, before);
        if Follows(st, x, c, s, before) {
          var j :| 0 <= j < |subs| && Follows(st, p, subs[j], s, before);
          assert Follows(st, x, subs[j], s, before);
        }
        if FollowsSubclass(st, x, c, |subs|, s, before) {
          var j :| 0 <= j < |subs| && Follows(st, x, subs[j], s, before);
          assert x != subs[j];
          assert Follows(st, p, subs[j], s, before);
        }
      }
    } else {
      forall j | 0 <= j < |subs|
        ensures !Follows(st, x, subs[j], s, before)
      {
        assert subs[j] in st.superclass;
      }
    }
  }

  /** Everything below the k-th subclass is untouched when the ones before it have been visited. */
  lemma UnvisitedIsUntouched(st: State, c: Cls, m: Method, before: Option<Method>, k: nat, y: Cls)
    requires Tree(st) && c in st.tables && k < |st.subclasses[c]|
    requires y in st.tables && Below(st, y, st.subclasses[c][k])
    ensures InstalledUpTo(st, c, m, before, k)[y] == st.tables[y]
  {
    var subs := st.subclasses[c];
    if y == c {
      BelowRank(st, y, subs[k]);
    }
    forall j | 0 <= j < k
      ensures !Follows(st, y, subs[j], m.sel, before)
    {
      if Follows(st, y, subs[j], m.sel, before) {
        FollowsIsBelow(st, y, subs[j], m.sel, before);
        SiblingsAreApart(st, y, subs[j], subs[k]);
      }
    }
  }

  /** While the first k subclasses are done, the k-th is followed by the same classes as at first. */
  lemma FollowsUnvisited(st: State, cur: State, c: Cls, m: Method, before: Option<Method>, k: nat, x: Cls)
    requires Tree(st) && c in st.tables && k < |st.subclasses[c]|
    requires cur == st.(tables := InstalledUpTo(st, c, m, before, k), version := cur.version)
    ensures Follows(cur, x, st.subclasses[c][k], m.sel, before) <==> Follows(st, x, st.subclasses[c][k], m.sel, before)
  {
    var sub := st.subclasses[c][k];
    forall y | y in st.tables && Below(st, y, sub)
      ensures cur.tables[y] == st.tables[y]
    {
      UnvisitedIsUntouched(st, c, m, before, k, y);
    }
    FollowsDependsOnSubtree(st, cur.tables, x, sub, m.sel, before);
    FollowsVersion(st.(tables := cur.tables), cur.version, x, sub, m.sel, before);
  }

  lemma InstallAdvancesAt(st: State, cur: State, c: Cls, m: Method, before: Option<Method>, k: nat, x: Cls)
    requires Tree(st) && c in st.tables && k < |st.subclasses[c]| && x in st.tables
    requires cur == st.(tables := InstalledUpTo(st, c, m, before, k), version := cur.version)
    ensures InstalledUpTo(st, c, m, before, k + 1)[x] ==
            if Follows(cur, x, st.subclasses[c][k], m.sel, before) then With(cur.tables[x], m) else cur.tables[x]
  {
    var sub := st.subclasses[c][k];
    FollowsUnvisited(st, cur, c, m, before, k, x);
    if FollowsSubclass(st, x, c, k, m.sel, before) {
      var j :| 0 <= j < k && Follows(st, x, st.subclasses[c][j], m.sel, before);
      assert FollowsSubclass(st, x, c, k + 1, m.sel, before);
    }
    if Follows(st, x, sub, m.sel, before) {
      assert FollowsSubclass(st, x, c, k + 1, m.sel, before);
      FollowsIsBelow(st, x, sub, m.sel, before);
      UnvisitedIsUntouched(st, c, m, before, k, x);
    }
  }

  /** Visiting the k-th subclass: either its entry was not the replaced one and nothing below
      it follows, or the recursive installation reaches exactly what does. */
  lemma InstallAdvances(st: State, cur: State, c: Cls, m: Method, before: Option<Method>, k: nat, tables: map<Cls, Table>)
    requires Tree(st) && c in st.tables && k < |st.subclasses[c]|
    requires cur == st.(tables := InstalledUpTo(st, c, m, before, k), version := cur.version)
    requires
      var sub := st.subclasses[c][k];
      if sub in cur.tables && Entry(cur.tables[sub], m.sel) == before then tables == Installed(cur, sub, m)
      else tables == cur.tables
    ensures tables == InstalledUpTo(st, c, m, before, k + 1)
  {
    hide Linked, Below, Follows, FollowsSubclass;
    var sub := st.subclasses[c][k];
    forall x | x in st.tables
      ensures tables[x] == InstalledUpTo(st, c, m, before, k + 1)[x]
    {
      InstallAdvancesAt(st, cur, c, m, before, k, x);
      if Follows(cur, x, sub, m.sel, before) {
        FollowsIsBelow(cur, x, sub, m.sel, before);
      }
    }
  }

  lemma {:induction false} FollowsVersion(st: State, version: nat, x: Cls, c: Cls, s: Sel, before: Option<Method>)
    requires Acyclic(st)
    ensures Follows(st.(version := version), x, c, s, before) <==> Follows(st, x, c, s, before)
    decreases if x in st.rank then st.rank[x] else 0
  {
    if x in st.superclass {
      FollowsVersion(st, version, st.superclass[x], c, s, before);
    }
  }

  lemma InstallEnds(st: State, c: Cls, m: Method)
    requires Tree(st) && c in st.tables
    ensures InstalledUpTo(st, c, m, Entry(st.tables[c], m.sel), |st.subclasses[c]|) == Installed(st, c, m)
  {
    var before := Entry(st.tables[c], m.sel);
    forall x | x in st.tables && x != c
      ensures Follows(st, x, c, m.sel, before) <==> FollowsSubclass(st, x, c, |st.subclasses[c]|, m.sel, before)
    {
      FollowsThroughSubclass(st, x, c, m.sel, before);
    }
  }

  /** Installing keeps every entry it does not replace; with nothing to replace it only adds. */
  lemma InstalledKeepsEntries(st: State, c: Cls, m: Method, x: Cls, s: Sel)
    requires Acyclic(st) && c in st.tables && x in st.tables && s in st.tables[x]
    requires Entry(st.tables[c], m.sel).None?
    ensures Entry(Installed(st, c, m)[x], s) == Entry(st.tables[x], s)
  {
  }
}
