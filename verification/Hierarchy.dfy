/**
  The class hierarchy and the reference meaning of message dispatch: a selector
  means the nearest definition up the superclass chain.  Classes and metaclasses
  are nodes of one forest.
 */
module Hierarchy {
  import opened Basics

  type Cls = nat
  /** A selector index.  Enumeration of a dispatch table starts above index 0, which no selector has. */
  type Sel = s: nat | s > 0 witness 1
  type Imp = nat

  /** A method record; the identity stands for its address. */
  datatype Method = Method(id: nat, sel: Sel, imp: Imp)

  type Table = map<Sel, Method>

  /** Everything dispatch depends on.  A root has no superclass entry, a class without an
      initialized dispatch table no tables entry; rank only witnesses that the superclass
      relation is acyclic. */
  datatype State = State(
    superclass: map<Cls, Cls>,
    subclasses: map<Cls, seq<Cls>>,
    methods: map<Cls, seq<Method>>,
    tables: map<Cls, Table>,
    version: nat,
    rank: map<Cls, nat>)

  function Entry(t: Table, s: Sel): Option<Method> {
    if s in t then Some(t[s]) else None
  }

  function With(t: Table, m: Method): Table {
    t[m.sel := m]
  }

  /** The first definition in the order the method lists are walked. */
  function Own(ms: seq<Method>, s: Sel): Option<Method> {
    if ms == [] then None
    else if ms[0].sel == s then Some(ms[0])
    else Own(ms[1..], s)
  }

  // ---------------------------------------------------------------------------
  // The forest
  // ---------------------------------------------------------------------------

  ghost predicate Acyclic(st: State) {
    && st.rank.Keys == st.methods.Keys == st.subclasses.Keys
    && (forall c :: c in st.superclass ==>
          && c in st.rank && st.superclass[c] in st.rank
          && st.rank[st.superclass[c]] < st.rank[c])
  }

  /** The subclass lists hold each class exactly once, under its superclass. */
  ghost predicate Linked(st: State) {
    && (forall c, i :: c in st.subclasses && 0 <= i < |st.subclasses[c]| ==>
          && st.subclasses[c][i] in st.superclass && st.superclass[st.subclasses[c][i]] == c)
    && (forall c, i, j :: c in st.subclasses && 0 <= i < j < |st.subclasses[c]| ==>
          st.subclasses[c][i] != st.subclasses[c][j])
    && (forall c :: c in st.superclass ==>
          st.superclass[c] in st.subclasses && c in st.subclasses[st.superclass[c]])
  }

  /** A class with a dispatch table has a superclass with one. */
  ghost predicate Closed(st: State) {
    forall c :: c in st.tables ==> c in st.rank && (c in st.superclass ==> st.superclass[c] in st.tables)
  }

  /** A method record belongs to one class. */
  ghost predicate Owned(st: State) {
    forall c, d, m :: c in st.methods && d in st.methods && m in st.methods[c] && m in st.methods[d] ==> c == d
  }

  ghost predicate Forest(st: State) {
    Acyclic(st) && Linked(st) && Closed(st)
  }

  /** A forest in which a class may have a table before its superclass has. */
  ghost predicate Tree(st: State) {
    Acyclic(st) && Linked(st) && forall c :: c in st.tables ==> c in st.rank
  }

  ghost predicate Below(st: State, x: Cls, a: Cls)
    requires Acyclic(st)
    decreases if x in st.rank then st.rank[x] else 0
  {
    x == a || (x in st.superclass && Below(st, st.superclass[x], a))
  }

  lemma {:induction false} BelowRank(st: State, x: Cls, a: Cls)
    requires Acyclic(st) && x in st.rank && Below(st, x, a)
    ensures a in st.rank && (x != a ==> st.rank[a] < st.rank[x])
    decreases st.rank[x]
  {
    if x != a {
      BelowRank(st, st.superclass[x], a);
    }
  }

  /** The subtrees of two siblings are disjoint. */
  lemma {:induction false} SiblingsAreApart(st: State, x: Cls, a: Cls, b: Cls)
    requires Acyclic(st) && x in st.rank && Below(st, x, a) && Below(st, x, b)
    requires a in st.superclass && b in st.superclass && st.superclass[a] == st.superclass[b]
    ensures a == b
    decreases st.rank[x]
  {
    if x == a && x != b {
      BelowRank(st, st.superclass[x], b);
    } else if x == b && x != a {
      BelowRank(st, st.superclass[x], a);
    } else if x != a {
      SiblingsAreApart(st, st.superclass[x], a, b);
    }
  }

  // ---------------------------------------------------------------------------
  // Dispatch by definition
  // ---------------------------------------------------------------------------

  /** The nearest definition of s at or above c. */
  ghost function Nearest(st: State, c: Cls, s: Sel): Option<Method>
    requires Acyclic(st) && c in st.rank
    decreases st.rank[c]
  {
    var own := Own(st.methods[c], s);
    if own.Some? then own
    else if c in st.superclass then Nearest(st, st.superclass[c], s)
    else None
  }

  /** What c would inherit if it defined nothing. */
  ghost function Inherited(st: State, c: Cls, s: Sel): Option<Method>
    requires Acyclic(st) && c in st.rank
  {
    if c in st.superclass then Nearest(st, st.superclass[c], s) else None
  }

  ghost predicate Agrees(st: State, c: Cls)
    requires Acyclic(st) && c in st.rank && c in st.tables
  {
    forall s: Sel :: Entry(st.tables[c], s) == Nearest(st, c, s)
  }

  /** The invariant: every dispatch table is the reference meaning of its class. */
  ghost predicate Agreement(st: State) {
    && Forest(st) && Owned(st)
    && forall c :: c in st.tables ==> Agrees(st, c)
  }

  lemma {:induction false} OwnIsMember(ms: seq<Method>, s: Sel)
    ensures Own(ms, s).Some? ==> Own(ms, s).value in ms && Own(ms, s).value.sel == s
  {
    if ms != [] && ms[0].sel != s {
      OwnIsMember(ms[1..], s);
    }
  }

  /** A nearest definition is one of the methods of some class at or above c. */
  lemma {:induction false} NearestIsOwned(st: State, c: Cls, s: Sel) returns (a: Cls)
    requires Acyclic(st) && c in st.rank && Nearest(st, c, s).Some?
    ensures Below(st, c, a) && a in st.rank && Own(st.methods[a], s) == Nearest(st, c, s)
    decreases st.rank[c]
  {
    if Own(st.methods[c], s).Some? {
      a := c;
    } else {
      a := NearestIsOwned(st, st.superclass[c], s);
    }
  }

  /** Nearest only looks at the method lists and links at or above a class. */
  lemma {:induction false} NearestDependsOnAncestors(st: State, st': State, c: Cls, s: Sel)
    requires Acyclic(st) && Acyclic(st') && c in st.rank && c in st'.rank
    requires forall a :: a in st.rank && Below(st, c, a) ==>
      && a in st'.rank && st'.methods[a] == st.methods[a]
      && (a in st.superclass <==> a in st'.superclass)
      && (a in st.superclass ==> st'.superclass[a] == st.superclass[a])
    ensures Nearest(st', c, s) == Nearest(st, c, s)
    decreases st.rank[c]
  {
    assert Below(st, c, c);
    if Own(st.methods[c], s).None? && c in st.superclass {
      forall a | a in st.rank && Below(st, st.superclass[c], a)
        ensures Below(st, c, a)
      {
      }
      NearestDependsOnAncestors(st, st', st.superclass[c], s);
    }
  }
}
