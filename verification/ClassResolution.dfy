/**
  Registering classes and resolving them: a class leaves the queue of unresolved
  classes and, together with its metaclass, joins the tree of subclasses.
 */
module ClassResolution {
  import opened Basics
  import opened ClassLinks

  /** The fields of all classes: links, superclass, isa, the resolved flags and the queue's head. */
  datatype Fields = Fields(links: Links, superclass: Field, isa: Field, resolved: set<Cls>, head: Cls)

  /** What the proof knows about them: the queue and the subclass lists as sequences, the
      registered classes, and ranks that witness an acyclic superclass relation. */
  datatype Shape = Shape(queue: seq<Cls>, children: map<Cls, seq<Cls>>, registered: set<Cls>, rank: map<Cls, nat>)

  ghost function Meta(f: Fields, c: Cls): Cls {
    Get(f.isa, c)
  }

  /** Each registered class has a metaclass of its own. */
  ghost predicate MetasOk(f: Fields, s: Shape) {
    && (forall c :: c in s.registered ==> c != NIL && Meta(f, c) != NIL && Meta(f, c) !in s.registered)
    && (forall c, d :: c in s.registered && d in s.registered && Meta(f, c) == Meta(f, d) ==> c == d)
  }

  /** Superclasses of registered classes are registered, and the relation is acyclic. */
  ghost predicate SupersOk(f: Fields, s: Shape) {
    && s.registered <= s.rank.Keys
    && forall c :: c in s.registered && Get(f.superclass, c) != NIL ==>
         Get(f.superclass, c) in s.registered && s.rank[Get(f.superclass, c)] < s.rank[c]
  }

  /** A registered class is queued or resolved, never both; a metaclass is resolved with its
      class, and until then heads no list. */
  ghost predicate PartitionOk(f: Fields, s: Shape) {
    && (forall c :: c in s.queue ==> c in s.registered)
    && (forall c :: c in s.registered ==> ClassOk(f, s.queue, c))
    && (forall x :: x in f.resolved ==> Accounted(f, s.registered, x))
  }

  ghost predicate ClassOk(f: Fields, queue: seq<Cls>, c: Cls) {
    && (c in f.resolved <==> c !in queue) && (c in f.resolved <==> Meta(f, c) in f.resolved)
    && (c !in f.resolved ==> Get(f.links.next, Meta(f, c)) == NIL)
  }

  /** Only registered classes and their metaclasses are resolved. */
  ghost predicate Accounted(f: Fields, registered: set<Cls>, x: Cls) {
    x in registered || exists c :: c in registered && Meta(f, c) == x
  }

  /** The metaclass tree follows the class tree, a root's metaclass hangs below the root itself,
      and the root's metaclass is the metaclass of every metaclass below it. */
  ghost predicate MetaOk(f: Fields, c: Cls) {
    var m, p := Meta(f, c), Get(f.superclass, c);
    && Get(f.superclass, m) == (if p == NIL then c else Meta(f, p))
    && Get(f.isa, m) == (if p == NIL then m else Get(f.isa, Meta(f, p)))
  }

  ghost predicate MetaTreeOk(f: Fields, s: Shape) {
    forall c :: c in s.registered && c in f.resolved ==> MetaOk(f, c)
  }

  /** What holds whichever classes have been registered. */
  ghost predicate Linked(f: Fields, s: Shape) {
    && MetasOk(f, s) && PartitionOk(f, s) && MetaTreeOk(f, s)
    && QueueOk(f.links, f.head, s.queue)
    && TreeOk(f.links, f.superclass, f.resolved, s.children)
  }

  ghost predicate Resolvable(f: Fields, s: Shape) {
    Linked(f, s) && SupersOk(f, s)
  }

  /** The class taken off the queue. */
  function Dequeued(f: Fields, c: Cls): Fields {
    f.(links := Unlinked(f.links, c),
       head := if Get(f.links.prev, c) == NIL then Get(f.links.next, c) else f.head)
  }

  /** The class and its metaclass m put into the tree. */
  function Joined(f: Fields, c: Cls, m: Cls, superMeta: Cls, metaMeta: Cls): Fields {
    var p := Get(f.superclass, c);
    var l := if p == NIL then f.links else Adopted(f.links, p, c);
    f.(superclass := f.superclass[m := superMeta], isa := f.isa[m := metaMeta],
       links := Adopted(l, superMeta, m), resolved := f.resolved + {c, m})
  }

  ghost function JoinedChildren(s: Shape, p: Cls, c: Cls, m: Cls, superMeta: Cls): map<Cls, seq<Cls>>
    requires p != NIL ==> p in s.children
    requires superMeta in s.children || superMeta == c
  {
    var k := if p == NIL then s.children[c := []] else s.children[c := []][p := [c] + s.children[p]];
    k[m := []][superMeta := [m] + k[superMeta]]
  }

  lemma QueuedIsOutside(f: Fields, s: Shape, c: Cls)
    requires Resolvable(f, s) && c in s.registered && c !in f.resolved
    ensures c in s.queue && Meta(f, c) !in f.resolved && Meta(f, c) !in s.queue && Meta(f, c) != c && c != NIL
  {
  }

  /** What is left of the invariant when c is off the queue but not yet in the tree. */
  lemma DequeueKeeps(f: Fields, s: Shape, c: Cls, k: nat)
    requires Resolvable(f, s) && c !in f.resolved && k < |s.queue| && s.queue[k] == c
    ensures
      var f' := Dequeued(f, c);
      && QueueOk(f'.links, f'.head, Cut(s.queue, k))
      && TreeOk(f'.links, f'.superclass, f'.resolved, s.children)
      && Get(f'.links.next, c) == NIL
      && (forall d :: d in s.registered && d !in f.resolved ==> Get(f'.links.next, Meta(f, d)) == NIL)
  {
    hide MetaTreeOk, SupersOk, Accounted;
    UnlinkKeepsQueue(f.links, f.head, s.queue, k);
    assert QueueLink(f.links, s.queue, k);
    var n, p := Get(f.links.next, c), Get(f.links.prev, c);
    assert n != NIL ==> n in s.queue;
    assert p != NIL ==> p in s.queue;
    TreeIsFramed(f.links, Unlinked(f.links, c), f.superclass, f.superclass, f.resolved, s.children);
  }

  lemma CutMembers(q: seq<Cls>, k: nat)
    requires k < |q| && NoRepeats(q)
    ensures forall x :: x in Cut(q, k) <==> x in q && x != q[k]
  {
    var w := Cut(q, k);
    forall x
      ensures x in w <==> x in q && x != q[k]
    {
      if x in q && x != q[k] {
        var i :| 0 <= i < |q| && q[i] == x;
        assert w[if i < k then i else i - 1] == x;
      }
      if x in w {
        var i :| 0 <= i < |w| && w[i] == x;
        assert q[if i < k then i else i + 1] == x;
      }
    }
  }

  /** The class c, off the queue, may join the tree below its resolved superclass. */
  ghost predicate Joinable(f: Fields, s: Shape, c: Cls, m: Cls, superMeta: Cls) {
    && c != NIL && m != NIL && c != m && c !in f.resolved && m !in f.resolved
    && TreeOk(f.links, f.superclass, f.resolved, s.children)
    && Get(f.links.next, c) == NIL && Get(f.links.next, m) == NIL
    && (Get(f.superclass, c) != NIL ==> Get(f.superclass, c) in f.resolved)
    && (if Get(f.superclass, c) == NIL then superMeta == c else superMeta in f.resolved)
  }

  lemma JoinKeepsTree(f: Fields, s: Shape, c: Cls, m: Cls, superMeta: Cls, metaMeta: Cls)
    requires Joinable(f, s, c, m, superMeta)
    ensures
      var f' := Joined(f, c, m, superMeta, metaMeta);
      var p := Get(f.superclass, c);
      (p != NIL ==> p in s.children) && (superMeta in s.children || superMeta == c) &&
      TreeOk(f'.links, f'.superclass, f'.resolved, JoinedChildren(s, p, c, m, superMeta))
  {
    var p, sup := Get(f.superclass, c), f.superclass[m := superMeta];
    TreeIsFramed(f.links, f.links, f.superclass, sup, f.resolved, s.children);
    if p == NIL {
      RootJoinsTree(f.links, sup, f.resolved, s.children, c);
      AdoptKeepsTree(f.links, sup, f.resolved + {c}, s.children[c := []], m, superMeta);
    } else {
      var l := Adopted(f.links, p, c);
      AdoptKeepsTree(f.links, sup, f.resolved, s.children, c, p);
      AdoptKeepsTree(l, sup, f.resolved + {c}, s.children[c := []][p := [c] + s.children[p]], m, superMeta);
    }
    assert f.resolved + {c} + {m} == f.resolved + {c, m};
  }

  lemma JoinKeepsQueue(f: Fields, q: seq<Cls>, c: Cls, m: Cls, superMeta: Cls, metaMeta: Cls)
    requires QueueOk(f.links, f.head, q) && c !in q && m !in q && superMeta !in q && Get(f.superclass, c) !in q
    ensures QueueOk(Joined(f, c, m, superMeta, metaMeta).links, f.head, q)
  {
    QueueIsFramed(f.links, Joined(f, c, m, superMeta, metaMeta).links, f.head, q);
  }

  /** f' differs from f, as far as registered classes see, by c and its metaclass being resolved. */
  ghost predicate ResolvesOne(f: Fields, s: Shape, f': Fields, c: Cls, superMeta: Cls, metaMeta: Cls) {
    && f'.resolved == f.resolved + {c, Meta(f, c)}
    && (forall d :: d in s.registered ==> Meta(f', d) == Meta(f, d) && Get(f'.superclass, d) == Get(f.superclass, d))
    && (forall d :: d in s.registered && d != c ==> Get(f'.superclass, Meta(f, d)) == Get(f.superclass, Meta(f, d)))
    && (forall d :: d in s.registered && d != c ==> Get(f'.isa, Meta(f, d)) == Get(f.isa, Meta(f, d)))
    && Get(f'.superclass, Meta(f, c)) == superMeta && Get(f'.isa, Meta(f, c)) == metaMeta
    && (forall d :: d in s.registered && d != c && d !in f.resolved ==> Get(f'.links.next, Meta(f, d)) == NIL)
  }

  lemma JoinResolvesOne(f: Fields, s: Shape, c: Cls, k: nat, superMeta: Cls, metaMeta: Cls)
    requires Resolvable(f, s) && c in s.registered && c !in f.resolved && k < |s.queue| && s.queue[k] == c
    requires superMeta == if Get(f.superclass, c) == NIL then c else Meta(f, Get(f.superclass, c))
    requires Get(f.superclass, c) != NIL ==> Get(f.superclass, c) in f.resolved
    ensures ResolvesOne(f, s, Joined(Dequeued(f, c), c, Meta(f, c), superMeta, metaMeta), c, superMeta, metaMeta)
  {
    hide QueueOk, TreeOk, Cut, Unlinked, MetaTreeOk;
    var m, p := Meta(f, c), Get(f.superclass, c);
    QueuedIsOutside(f, s, c);
    DequeueKeeps(f, s, c, k);
    assert p != NIL ==> p in s.registered && Meta(f, p) in f.resolved;
    forall d | d in s.registered && d != c && d !in f.resolved
      ensures Meta(f, d) != m && Meta(f, d) != p && Meta(f, d) != superMeta
    {
    }
    assert forall d :: d in s.registered ==> d != m && (d != c ==> Meta(f, d) != m);
    JoinFrames(f, s, Dequeued(f, c), c, superMeta, metaMeta);
  }

  /** What the join writes, given that the nodes involved differ. */
  lemma JoinFrames(f: Fields, s: Shape, f1: Fields, c: Cls, superMeta: Cls, metaMeta: Cls)
    requires f1.isa == f.isa && f1.superclass == f.superclass && f1.resolved == f.resolved
    requires forall d :: d in s.registered ==> d != Meta(f, c) && (d != c ==> Meta(f, d) != Meta(f, c))
    requires forall d :: d in s.registered && d != c && d !in f.resolved ==>
      Get(f1.links.next, Meta(f, d)) == NIL && Meta(f, d) != Get(f.superclass, c) && Meta(f, d) != superMeta
    ensures ResolvesOne(f, s, Joined(f1, c, Meta(f, c), superMeta, metaMeta), c, superMeta, metaMeta)
  {
  }

  lemma ResolvesOneKeepsPartition(f: Fields, s: Shape, f': Fields, c: Cls, k: nat, superMeta: Cls, metaMeta: Cls, children: map<Cls, seq<Cls>>)
    requires MetasOk(f, s) && SupersOk(f, s) && PartitionOk(f, s) && MetaTreeOk(f, s) && NoRepeats(s.queue)
    requires forall d :: d in s.registered && (d == c || d in f.resolved) && Get(f.superclass, d) != NIL ==> Get(f.superclass, d) in f.resolved
    requires ResolvesOne(f, s, f', c, superMeta, metaMeta) && c in s.registered && c !in f.resolved && k < |s.queue| && s.queue[k] == c
    requires superMeta == if Get(f.superclass, c) == NIL then c else Meta(f, Get(f.superclass, c))
    requires metaMeta == if Get(f.superclass, c) == NIL then Meta(f, c) else Get(f.isa, Meta(f, Get(f.superclass, c)))
    ensures
      var s' := s.(queue := Cut(s.queue, k), children := children);
      MetasOk(f', s') && SupersOk(f', s') && PartitionOk(f', s') && MetaTreeOk(f', s')
  {
    var s' := s.(queue := Cut(s.queue, k), children := children);
    CutMembers(s.queue, k);
    hide Cut, MetaOk, ClassOk, Accounted, NoRepeats;
    assert MetasOk(f', s') && SupersOk(f', s');
    ResolvesOneKeepsMetas(f, s, f', c, superMeta, metaMeta);
    hide MetaTreeOk, SupersOk;
    forall d | d in s.registered
      ensures ClassOk(f', s'.queue, d)
    {
      ResolvesClass(f, s, f', c, superMeta, metaMeta, s'.queue, d);
    }
    forall x | x in f'.resolved
      ensures Accounted(f', s.registered, x)
    {
      ResolvesAccounted(f, s, f', c, superMeta, metaMeta, x);
    }
  }

  lemma ResolvesClass(f: Fields, s: Shape, f': Fields, c: Cls, superMeta: Cls, metaMeta: Cls, queue: seq<Cls>, d: Cls)
    requires MetasOk(f, s) && ResolvesOne(f, s, f', c, superMeta, metaMeta) && ClassOk(f, s.queue, d)
    requires c in s.registered && d in s.registered && forall x :: x in queue <==> x in s.queue && x != c
    ensures ClassOk(f', queue, d)
  {
  }

  lemma ResolvesAccounted(f: Fields, s: Shape, f': Fields, c: Cls, superMeta: Cls, metaMeta: Cls, x: Cls)
    requires ResolvesOne(f, s, f', c, superMeta, metaMeta) && c in s.registered && x in f'.resolved
    requires x in f.resolved ==> Accounted(f, s.registered, x)
    ensures Accounted(f', s.registered, x)
  {
    if x in f.resolved {
      StillAccounted(f, s.registered, f', s.registered, x);
    } else {
      assert c in s.registered && Meta(f', c) == Meta(f, c);
    }
  }

  lemma ResolvesOneKeepsMetas(f: Fields, s: Shape, f': Fields, c: Cls, superMeta: Cls, metaMeta: Cls)
    requires MetasOk(f, s) && SupersOk(f, s) && MetaTreeOk(f, s) && ResolvesOne(f, s, f', c, superMeta, metaMeta)
    requires c in s.registered && c !in f.resolved
    requires forall d :: d in s.registered && (d == c || d in f.resolved) && Get(f.superclass, d) != NIL ==> Get(f.superclass, d) in f.resolved
    requires superMeta == if Get(f.superclass, c) == NIL then c else Meta(f, Get(f.superclass, c))
    requires metaMeta == if Get(f.superclass, c) == NIL then Meta(f, c) else Get(f.isa, Meta(f, Get(f.superclass, c)))
    ensures MetaTreeOk(f', s)
  {
    forall d | d in s.registered && d in f'.resolved
      ensures MetaOk(f', d)
    {
      if d != c {
        assert MetaOk(f, d);
      }
    }
  }

  /** One class resolved: the invariant holds again, with the class out of the queue. */
  lemma ResolveKeeps(f: Fields, s: Shape, c: Cls, k: nat, superMeta: Cls, metaMeta: Cls)
    requires Resolvable(f, s) && c in s.registered && c !in f.resolved && k < |s.queue| && s.queue[k] == c
    requires Get(f.superclass, c) != NIL ==> Get(f.superclass, c) in f.resolved
    requires superMeta == if Get(f.superclass, c) == NIL then c else Meta(f, Get(f.superclass, c))
    requires metaMeta == if Get(f.superclass, c) == NIL then Meta(f, c) else Get(f.isa, Meta(f, Get(f.superclass, c)))
    ensures
      var m, p := Meta(f, c), Get(f.superclass, c);
      (p != NIL ==> p in s.children) && (superMeta in s.children || superMeta == c) &&
      Resolvable(Joined(Dequeued(f, c), c, m, superMeta, metaMeta),
                 s.(queue := Cut(s.queue, k), children := JoinedChildren(s, p, c, m, superMeta)))
  {
    var m, p, f1 := Meta(f, c), Get(f.superclass, c), Dequeued(f, c);
    QueuedIsOutside(f, s, c);
    DequeueKeeps(f, s, c, k);
    CutMembers(s.queue, k);
    assert p != NIL ==> p in s.registered && Meta(f, p) in f.resolved;
    assert forall x :: x in s.queue ==> x in s.registered && x !in f.resolved && x != NIL;
    JoinKeepsTree(f1, s, c, m, superMeta, metaMeta);
    JoinKeepsQueue(f1, Cut(s.queue, k), c, m, superMeta, metaMeta);
    JoinResolvesOne(f, s, c, k, superMeta, metaMeta);
    ResolvesOneKeepsPartition(f, s, Joined(f1, c, m, superMeta, metaMeta), c, k, superMeta, metaMeta, JoinedChildren(s, p, c, m, superMeta));
  }

  lemma InsertKeeps(f: Fields, s: Shape, c: Cls, rank: map<Cls, nat>)
    requires Linked(f, s) && c != NIL && c !in s.registered && c !in f.resolved
    requires Meta(f, c) != NIL && Meta(f, c) != c && Meta(f, c) !in s.registered && Meta(f, c) !in f.resolved
    requires forall d :: d in s.registered ==> Meta(f, d) != Meta(f, c) && Meta(f, d) != c
    requires Get(f.links.prev, c) == NIL && Get(f.links.next, Meta(f, c)) == NIL
    ensures
      var prev := if f.head == NIL then f.links.prev else f.links.prev[f.head := c];
      Linked(f.(links := Links(f.links.next[c := f.head], prev), head := c),
                 s.(queue := [c] + s.queue, registered := s.registered + {c}, rank := rank))
  {
    var l' := Links(f.links.next[c := f.head], if f.head == NIL then f.links.prev else f.links.prev[f.head := c]);
    assert c !in s.queue;
    PushKeepsQueue(f.links, f.head, s.queue, c);
    assert f.head != NIL ==> f.head in s.queue;
    TreeIsFramed(f.links, l', f.superclass, f.superclass, f.resolved, s.children);
    InsertKeepsPartition(f, s, c, rank, f.(links := l', head := c));
  }

  lemma InsertKeepsPartition(f: Fields, s: Shape, c: Cls, rank: map<Cls, nat>, f': Fields)
    requires MetasOk(f, s) && PartitionOk(f, s) && MetaTreeOk(f, s) && c != NIL && c !in s.registered && c !in f.resolved
    requires Meta(f, c) != NIL && Meta(f, c) != c && Meta(f, c) !in s.registered && Meta(f, c) !in f.resolved
    requires forall d :: d in s.registered ==> Meta(f, d) != Meta(f, c) && Meta(f, d) != c
    requires Get(f.links.next, Meta(f, c)) == NIL
    requires f' == f.(links := f'.links, head := f'.head)
    requires forall x :: x != c ==> Get(f'.links.next, x) == Get(f.links.next, x)
    ensures
      var s' := s.(queue := [c] + s.queue, registered := s.registered + {c}, rank := rank);
      MetasOk(f', s') && PartitionOk(f', s') && MetaTreeOk(f', s')
  {
    var s' := s.(queue := [c] + s.queue, registered := s.registered + {c}, rank := rank);
    assert forall x :: x in s'.queue <==> x == c || x in s.queue;
    forall d | d in s'.registered
      ensures ClassOk(f', s'.queue, d)
    {
      assert d != c ==> ClassOk(f, s.queue, d);
    }
    forall x | x in f'.resolved
      ensures Accounted(f', s'.registered, x)
    {
      StillAccounted(f, s.registered, f', s'.registered, x);
    }
    hide ClassOk, Accounted;
    forall d | d in s'.registered && d in f'.resolved
      ensures MetaOk(f', d)
    {
      assert MetaOk(f, d);
    }
  }

  lemma StillAccounted(f: Fields, registered: set<Cls>, f': Fields, registered': set<Cls>, x: Cls)
    requires Accounted(f, registered, x) && registered <= registered'
    requires forall d :: d in registered ==> Meta(f', d) == Meta(f, d)
    ensures Accounted(f', registered', x)
  {
    if x !in registered {
      var d :| d in registered && Meta(f, d) == x;
      assert d in registered' && Meta(f', d) == x;
    }
  }

  lemma QueuedAt(f: Fields, s: Shape, c: Cls) returns (k: nat)
    requires Resolvable(f, s) && c in s.registered && c !in f.resolved
    ensures k < |s.queue| && s.queue[k] == c && c != NIL
  {
    QueuedIsOutside(f, s, c);
    k :| k < |s.queue| && s.queue[k] == c;
  }

  lemma RegisteredSuper(f: Fields, s: Shape, c: Cls)
    requires Resolvable(f, s) && c in s.registered
    ensures c in s.rank
    ensures Get(f.superclass, c) != NIL ==> Get(f.superclass, c) in s.registered && Get(f.superclass, c) in s.rank && s.rank[Get(f.superclass, c)] < s.rank[c]
  {
  }

  /** One step: the class c has left the queue and everything registered is as before. */
  ghost predicate Progress(f: Fields, s: Shape, f': Fields, s': Shape) {
    && s'.registered == s.registered && s'.rank == s.rank && f.resolved <= f'.resolved
    && (forall d :: d in s.registered ==> Meta(f', d) == Meta(f, d) && Get(f'.superclass, d) == Get(f.superclass, d))
    && (forall x :: x in s'.queue ==> x in s.queue) && |s'.queue| <= |s.queue|
  }

  lemma ResolveProgress(f: Fields, s: Shape, c: Cls, k: nat, superMeta: Cls, metaMeta: Cls, children: map<Cls, seq<Cls>>)
    requires Resolvable(f, s) && c in s.registered && c !in f.resolved && k < |s.queue| && s.queue[k] == c
    ensures
      var f' := Joined(Dequeued(f, c), c, Meta(f, c), superMeta, metaMeta);
      Progress(f, s, f', s.(queue := Cut(s.queue, k), children := children)) && c in f'.resolved
  {
    QueuedIsOutside(f, s, c);
    CutMembers(s.queue, k);
  }

  lemma ProgressComposes(f: Fields, s: Shape, g: Fields, t: Shape, h: Fields, u: Shape)
    requires Progress(f, s, g, t) && Progress(g, t, h, u)
    ensures Progress(f, s, h, u)
  {
  }

  /** Of the registered classes, only those not above c in rank have become resolved. */
  ghost predicate OnlyUpTo(f: Fields, s: Shape, resolved: set<Cls>, c: Cls) {
    && c in s.rank
    && forall d :: d in s.registered && d in resolved && d !in f.resolved ==> d in s.rank && s.rank[d] <= s.rank[c]
  }

  lemma UpToItself(f: Fields, s: Shape, resolved: set<Cls>, c: Cls)
    requires Resolvable(f, s) && c in s.registered
    requires resolved <= f.resolved + {c, Meta(f, c)}
    ensures OnlyUpTo(f, s, resolved, c)
  {
  }

  lemma UpToComposes(f: Fields, s: Shape, g: Fields, t: Shape, p: Cls, c: Cls, h: set<Cls>)
    requires Progress(f, s, g, t) && OnlyUpTo(f, s, g.resolved, p) && OnlyUpTo(g, t, h, c)
    requires p in s.rank && c in s.rank && s.rank[p] < s.rank[c]
    ensures OnlyUpTo(f, s, h, c)
  {
  }

  lemma NotUpTo(f: Fields, s: Shape, resolved: set<Cls>, p: Cls, c: Cls)
    requires OnlyUpTo(f, s, resolved, p) && c in s.registered && c !in f.resolved && c in s.rank && s.rank[p] < s.rank[c]
    ensures c !in resolved
  {
  }

  class ClassTable {
    var subclassList: Field
    var siblingClass: Field
    var superclass: Field
    var isa: Field
    var resolved: set<Cls>
    var unresolvedList: Cls
    ghost var shape: Shape

    ghost function View(): Fields
      reads this
    {
      Fields(Links(subclassList, siblingClass), superclass, isa, resolved, unresolvedList)
    }

    ghost predicate Valid()
      reads this
    {
      Linked(View(), shape)
    }

    /** The superclasses of the registered classes are registered, without a cycle. */
    ghost predicate Closed()
      reads this
    {
      Resolvable(View(), shape)
    }

    constructor (superclass: Field, isa: Field)
      ensures Valid() && shape.queue == [] && shape.registered == {} && resolved == {}
    {
      this.subclassList, this.siblingClass, this.superclass, this.isa := map[], map[], superclass, isa;
      resolved, unresolvedList := {}, NIL;
      shape := Shape([], map[], {}, map[]);
    }

    /** A class and metaclass the table has not seen, with the link fields it relies on cleared. */
    ghost predicate Fresh(c: Cls)
      reads this
    {
      var f, m := View(), Meta(View(), c);
      && c != NIL && c !in shape.registered && m != NIL && m != c && m !in shape.registered && m !in resolved
      && (forall d :: d in shape.registered ==> Meta(f, d) != m && Meta(f, d) != c)
      && Get(siblingClass, c) == NIL && Get(subclassList, m) == NIL
    }

    /** class_table_insert: an unresolved class goes to the head of the queue. */
    method Insert(c: Cls, ghost rank: map<Cls, nat>)
      requires Valid() && (c in resolved || Fresh(c))
      modifies this`subclassList, this`siblingClass, this`unresolvedList, this`shape
      ensures Valid()
      ensures c !in resolved ==>
        shape.queue == [c] + old(shape.queue) && shape.registered == old(shape.registered) + {c} && shape.rank == rank
      ensures c in resolved ==> View() == old(View()) && shape == old(shape)
    {
      if c !in resolved {
        InsertKeeps(View(), shape, c, rank);
        hide Linked;
        if unresolvedList != NIL {
          siblingClass := siblingClass[unresolvedList := c];
        }
        subclassList := subclassList[c := unresolvedList];
        unresolvedList := c;
        shape := shape.(queue := [c] + shape.queue, registered := shape.registered + {c}, rank := rank);
      }
    }

    /** objc_resolve_class: resolves the superclass first, then moves the class from the queue
        into the tree, its metaclass with it. */
    method Resolve(c: Cls) returns (ok: bool)
      requires Closed() && c in shape.registered
      modifies this
      ensures Closed() && ok && c in resolved
      ensures Progress(old(View()), old(shape), View(), shape)
      ensures c !in old(resolved) ==> |shape.queue| < |old(shape.queue)|
      ensures OnlyUpTo(old(View()), old(shape), resolved, c)
      decreases if c in shape.rank then shape.rank[c] else 0
    {
      hide Resolvable, Progress, OnlyUpTo;
      ProgressStarts(View(), shape);
      UpToItself(View(), shape, resolved, c);
      if c in resolved {
        return true;
      }
      RegisteredSuper(View(), shape, c);
      var super := Get(superclass, c);
      if super != NIL && super !in resolved {
        ok := Resolve(super);
        if !ok {
          return false;
        }
        ProgressFacts(old(View()), old(shape), View(), shape, c, super);
        NotUpTo(old(View()), old(shape), resolved, super, c);
      }
      ghost var mid, midShape := View(), shape;
      ResolveOne(c);
      ProgressComposes(old(View()), old(shape), mid, midShape, View(), shape);
      UpToItself(mid, midShape, resolved, c);
      if super != NIL && super !in old(resolved) {
        UpToComposes(old(View()), old(shape), mid, midShape, super, c, resolved);
      }
      return true;
    }

    /** The part of objc_resolve_class after the superclass is resolved. */
    method ResolveOne(c: Cls)
      requires Closed() && c in shape.registered && c !in resolved
      requires Get(superclass, c) != NIL ==> Get(superclass, c) in resolved
      modifies this
      ensures Closed() && c in resolved
      ensures Progress(old(View()), old(shape), View(), shape) && |shape.queue| < |old(shape.queue)|
      ensures resolved == old(resolved) + {c, Meta(old(View()), c)}
    {
      hide Resolvable, Progress;
      ghost var f, s := View(), shape;
      ghost var k := QueuedAt(f, s, c);
      QueuedIsOutside(f, s, c);
      RegisteredSuper(f, s, c);
      Dequeue(c);
      // Find the metaclass's superclass and metaclass.
      var superMeta, metaMeta := c, Get(isa, c);
      var super := Get(superclass, c);
      if super != NIL {
        superMeta := Get(isa, super);
        metaMeta := RootMetaOf(super, f, s);
      }
      ResolveKeeps(f, s, c, k, superMeta, metaMeta);
      ResolveProgress(f, s, c, k, superMeta, metaMeta, JoinedChildren(s, super, c, Meta(f, c), superMeta));
      Join(c, superMeta, metaMeta);
      shape := s.(queue := Cut(s.queue, k), children := JoinedChildren(s, super, c, Meta(f, c), superMeta));
    }

    /** Removes the class from the unresolved class list. */
    method Dequeue(c: Cls)
      modifies this`subclassList, this`siblingClass, this`unresolvedList
      ensures View() == Dequeued(old(View()), c)
    {
      var next, prev := Get(subclassList, c), Get(siblingClass, c);
      if prev == NIL {
        unresolvedList := next;
      } else {
        subclassList := subclassList[prev := next];
      }
      if next != NIL {
        siblingClass := siblingClass[next := prev];
      }
      siblingClass := siblingClass[c := NIL];
      subclassList := subclassList[c := NIL];
    }

    /** Sets up the class links, except of a root, and the metaclass links, and marks both. */
    method Join(c: Cls, superMeta: Cls, metaMeta: Cls)
      requires Get(isa, c) != c
      modifies this`subclassList, this`siblingClass, this`superclass, this`isa, this`resolved
      ensures View() == Joined(old(View()), c, old(Get(isa, c)), superMeta, metaMeta)
    {
      var meta, super := Get(isa, c), Get(superclass, c);
      superclass := superclass[meta := superMeta];
      isa := isa[meta := metaMeta];
      if super != NIL {
        siblingClass := siblingClass[c := Get(subclassList, super)];
        subclassList := subclassList[super := c];
      }
      siblingClass := siblingClass[meta := Get(subclassList, superMeta)];
      subclassList := subclassList[superMeta := meta];
      resolved := resolved + {c, meta};
    }

    /** The walk up the superclass chain, while the class itself is off its list. */
    method RootMetaOf(c: Cls, ghost f: Fields, ghost s: Shape) returns (metaMeta: Cls)
      requires Resolvable(f, s) && c in s.registered && c in f.resolved && superclass == f.superclass && isa == f.isa
      ensures metaMeta == Get(isa, Get(isa, c))
    {
      hide Resolvable;
      var super := c;
      RegisteredSuper(f, s, super);
      ResolvedMeta(f, s, super);
      while Get(superclass, super) != NIL
        invariant super in s.registered && super in s.rank && super in f.resolved
        invariant Get(isa, Get(isa, super)) == Get(isa, Get(isa, c)) && MetaOk(f, super)
        decreases s.rank[super]
      {
        RegisteredSuper(f, s, super);
        ResolvedMeta(f, s, super);
        ResolvedMeta(f, s, Get(superclass, super));
        super := Get(superclass, super);
      }
      return Get(isa, super);
    }

    /** objc_resolve_class_links: walks the queue, starting over whenever the walk meets a class
        that a superclass's resolution has taken out of it, until nothing more is resolved. */
    method ResolveAll()
      requires Closed()
      modifies this
      ensures Closed() && shape.queue == [] && shape.registered == old(shape.registered)
      ensures forall c :: c in shape.registered ==> c in resolved && Meta(View(), c) in resolved
    {
      hide Resolvable, Progress;
      var resolvedClass := true;
      while resolvedClass
        invariant Closed() && shape.registered == old(shape.registered)
        invariant !resolvedClass ==> unresolvedList == NIL
        decreases |shape.queue|, resolvedClass
      {
        resolvedClass := WalkQueue();
      }
      EmptyQueue(View(), shape);
    }

    /** One pass over the queue. */
    method WalkQueue() returns (resolvedClass: bool)
      requires Closed()
      modifies this
      ensures Closed() && shape.registered == old(shape.registered)
      ensures resolvedClass ==> |shape.queue| < |old(shape.queue)|
      ensures !resolvedClass ==> unresolvedList == NIL && |shape.queue| == |old(shape.queue)|
    {
      hide Resolvable, Progress;
      var cls := unresolvedList;
      resolvedClass := false;
      HeadIsQueued(View(), shape);
      ProgressStarts(View(), shape);
      while cls != NIL
        invariant Closed() && Progress(old(View()), old(shape), View(), shape)
        invariant cls != NIL ==> cls in shape.registered
        invariant resolvedClass ==> |shape.queue| < |old(shape.queue)|
        invariant !resolvedClass ==> cls == unresolvedList && |shape.queue| == |old(shape.queue)| && (cls != NIL ==> cls !in resolved)
        decreases |shape.queue|, cls != NIL
      {
        ghost var f, s := View(), shape;
        if cls in resolved {
          assert resolvedClass;
          break;
        }
        var next := Get(subclassList, cls);
        NextIsQueued(f, s, cls);
        var _ := Resolve(cls);
        resolvedClass := true;
        ProgressComposes(old(View()), old(shape), f, s, View(), shape);
        SameRegistered(f, s, View(), shape);
        cls := next;
      }
      SameRegistered(old(View()), old(shape), View(), shape);
    }
  }

  lemma ResolvedMeta(f: Fields, s: Shape, c: Cls)
    requires Resolvable(f, s) && c in s.registered && c in f.resolved
    ensures MetaOk(f, c) && (Get(f.superclass, c) != NIL ==> Get(f.superclass, c) in f.resolved)
  {
  }

  /** The topmost superclass. */
  ghost function Root(f: Fields, s: Shape, c: Cls): Cls
    requires SupersOk(f, s) && c in s.registered
    decreases s.rank[c]
  {
    if Get(f.superclass, c) == NIL then c else Root(f, s, Get(f.superclass, c))
  }

  /** The metaclass of a resolved class has the metaclass of its superclass as superclass, or the
      class itself if that is a root, and the metaclass of the root as its own metaclass. */
  lemma {:induction false} MetaclassLinks(f: Fields, s: Shape, c: Cls)
    requires Resolvable(f, s) && c in s.registered && c in f.resolved
    ensures
      var m, p, root := Get(f.isa, c), Get(f.superclass, c), Root(f, s, c);
      && m in f.resolved && Get(f.isa, m) == Get(f.isa, root)
      && Get(f.superclass, m) == (if p == NIL then root else Get(f.isa, p))
    decreases s.rank[c]
  {
    ResolvedMeta(f, s, c);
    assert Get(f.isa, c) in f.resolved by { assert ClassOk(f, s.queue, c); }
    var p := Get(f.superclass, c);
    if p != NIL {
      MetaclassLinks(f, s, p);
    }
  }

  lemma ProgressStarts(f: Fields, s: Shape)
    ensures Progress(f, s, f, s)
  {
  }

  lemma ProgressFacts(f: Fields, s: Shape, f': Fields, s': Shape, c: Cls, p: Cls)
    requires Progress(f, s, f', s') && c in s.registered && Get(f.superclass, c) == p
    ensures c in s'.registered && Get(f'.superclass, c) == p && |s'.queue| <= |s.queue|
  {
  }

  lemma SameRegistered(f: Fields, s: Shape, f': Fields, s': Shape)
    requires Progress(f, s, f', s')
    ensures s'.registered == s.registered && |s'.queue| <= |s.queue|
  {
  }

  lemma HeadIsQueued(f: Fields, s: Shape)
    requires Resolvable(f, s)
    ensures f.head != NIL ==> f.head in s.registered && f.head !in f.resolved && s.queue != []
    ensures f.head == NIL ==> s.queue == []
  {
    if s.queue != [] {
      assert QueueLink(f.links, s.queue, 0);
      assert s.queue[0] in s.queue;
    }
  }

  lemma NextIsQueued(f: Fields, s: Shape, c: Cls)
    requires Resolvable(f, s) && c in s.registered && c !in f.resolved
    ensures Get(f.links.next, c) != NIL ==> Get(f.links.next, c) in s.registered
  {
    var k := QueuedAt(f, s, c);
    assert QueueLink(f.links, s.queue, k);
  }

  lemma EmptyQueue(f: Fields, s: Shape)
    requires Resolvable(f, s) && f.head == NIL
    ensures s.queue == [] && forall c :: c in s.registered ==> c in f.resolved && Meta(f, c) in f.resolved
  {
    HeadIsQueued(f, s);
  }
}
