/**
  The two link fields of a class and the lists threaded through them.  While a
  class is unresolved its subclass_list and sibling_class fields are the next and
  previous links of the queue of unresolved classes; once it is resolved the same
  two fields are the head of its list of subclasses and its link in the list of its
  superclass.
 */
module ClassLinks {
  import opened Basics

  type Cls = nat
  const NIL: Cls := 0

  /** A pointer field of every class; a class it does not mention holds Nil. */
  type Field = map<Cls, Cls>

  function Get(f: Field, c: Cls): Cls {
    if c in f then f[c] else NIL
  }

  /** next is subclass_list, prev is sibling_class. */
  datatype Links = Links(next: Field, prev: Field)

  function At(s: seq<Cls>, k: int): Cls {
    if 0 <= k < |s| then s[k] else NIL
  }

  // ---------------------------------------------------------------------------
  // The queue of unresolved classes
  // ---------------------------------------------------------------------------

  ghost predicate QueueLink(l: Links, q: seq<Cls>, k: int)
    requires 0 <= k < |q|
  {
    && q[k] != NIL
    && Get(l.next, q[k]) == At(q, k + 1) && Get(l.prev, q[k]) == At(q, k - 1)
  }

  ghost predicate QueueOk(l: Links, head: Cls, q: seq<Cls>) {
    && head == At(q, 0) && NoRepeats(q)
    && forall k :: 0 <= k < |q| ==> QueueLink(l, q, k)
  }

  function Unlinked(l: Links, c: Cls): Links
  {
    var n, p := Get(l.next, c), Get(l.prev, c);
    var next := if p == NIL then l.next else l.next[p := n];
    var prev := if n == NIL then l.prev else l.prev[n := p];
    Links(next[c := NIL], prev[c := NIL])
  }

  function Cut(q: seq<Cls>, k: nat): seq<Cls>
    requires k < |q|
  {
    q[..k] + q[k + 1..]
  }

  lemma UnlinkKeepsQueue(l: Links, head: Cls, q: seq<Cls>, k: nat)
    requires QueueOk(l, head, q) && k < |q|
    ensures
      var c := q[k];
      QueueOk(Unlinked(l, c), if Get(l.prev, c) == NIL then Get(l.next, c) else head, Cut(q, k))
  {
    var c, w, l' := q[k], Cut(q, k), Unlinked(l, q[k]);
    assert QueueLink(l, q, k);
    assert k > 0 ==> QueueLink(l, q, k - 1);
    assert k + 1 < |q| ==> QueueLink(l, q, k + 1);
    forall i | 0 <= i < |w|
      ensures QueueLink(l', w, i)
    {
      UnlinkedLink(l, head, q, k, i);
    }
  }

  lemma UnlinkedLink(l: Links, head: Cls, q: seq<Cls>, k: nat, i: int)
    requires QueueOk(l, head, q) && k < |q| && 0 <= i < |q| - 1
    ensures QueueLink(Unlinked(l, q[k]), Cut(q, k), i)
  {
    var j := if i < k then i else i + 1;
    CutAt(q, k, i);
    if i + 1 < |q| - 1 {
      CutAt(q, k, i + 1);
    }
    if i > 0 {
      CutAt(q, k, i - 1);
    }
    UnlinkedNext(l, head, q, k, j);
    UnlinkedPrev(l, head, q, k, j);
    assert QueueLink(l, q, j);
    hide Cut, Unlinked, QueueOk;
  }

  lemma UnlinkedNext(l: Links, head: Cls, q: seq<Cls>, k: nat, j: nat)
    requires QueueOk(l, head, q) && k < |q| && j < |q| && j != k
    ensures Get(Unlinked(l, q[k]).next, q[j]) == At(q, if j + 1 == k then k + 1 else j + 1)
  {
    assert QueueLink(l, q, k) && QueueLink(l, q, j);
    assert k > 0 ==> QueueLink(l, q, k - 1);
  }

  lemma UnlinkedPrev(l: Links, head: Cls, q: seq<Cls>, k: nat, j: nat)
    requires QueueOk(l, head, q) && k < |q| && j < |q| && j != k
    ensures Get(Unlinked(l, q[k]).prev, q[j]) == At(q, if j == k + 1 then k - 1 else j - 1)
  {
    assert QueueLink(l, q, k) && QueueLink(l, q, j);
    assert k + 1 < |q| ==> QueueLink(l, q, k + 1);
  }

  lemma CutAt(q: seq<Cls>, k: nat, i: nat)
    requires k < |q| && i < |q| - 1
    ensures |Cut(q, k)| == |q| - 1 && Cut(q, k)[i] == q[if i < k then i else i + 1]
  {
  }

  /** Writes to classes outside the queue do not disturb it. */
  lemma QueueIsFramed(l: Links, l': Links, head: Cls, q: seq<Cls>)
    requires QueueOk(l, head, q)
    requires forall c :: c in q ==> Get(l'.next, c) == Get(l.next, c) && Get(l'.prev, c) == Get(l.prev, c)
    ensures QueueOk(l', head, q)
  {
    forall k | 0 <= k < |q|
      ensures QueueLink(l', q, k)
    {
      assert QueueLink(l, q, k);
    }
  }

  lemma PushKeepsQueue(l: Links, head: Cls, q: seq<Cls>, c: Cls)
    requires QueueOk(l, head, q) && c != NIL && c !in q && Get(l.prev, c) == NIL
    ensures
      var prev := if head == NIL then l.prev else l.prev[head := c];
      QueueOk(Links(l.next[c := head], prev), c, [c] + q)
  {
    var l' := Links(l.next[c := head], if head == NIL then l.prev else l.prev[head := c]);
    var w := [c] + q;
    assert q != [] ==> QueueLink(l, q, 0);
    forall k | 0 <= k < |w|
      ensures QueueLink(l', w, k)
    {
      if k > 0 {
        assert QueueLink(l, q, k - 1);
      }
    }
  }

  // ---------------------------------------------------------------------------
  // The tree of resolved classes
  // ---------------------------------------------------------------------------

  ghost predicate ChainLink(l: Links, kids: seq<Cls>, k: int)
    requires 0 <= k < |kids|
  {
    kids[k] != NIL && Get(l.prev, kids[k]) == At(kids, k + 1)
  }

  /** The subclass list of p is the given sequence. */
  ghost predicate ChainOk(l: Links, p: Cls, kids: seq<Cls>) {
    && Get(l.next, p) == At(kids, 0) && NoRepeats(kids)
    && forall k :: 0 <= k < |kids| ==> ChainLink(l, kids, k)
  }

  /** Every resolved node heads a chain of exactly its subclasses and, unless it is a root, is in
      the chain of its resolved superclass. */
  ghost predicate TreeOk(l: Links, superclass: Field, resolved: set<Cls>, children: map<Cls, seq<Cls>>) {
    && NIL !in resolved && resolved <= children.Keys
    && (forall p :: p in resolved ==> ChainOk(l, p, children[p])) && MembersOk(superclass, resolved, children)
  }

  ghost predicate MembersOk(superclass: Field, resolved: set<Cls>, children: map<Cls, seq<Cls>>)
    requires resolved <= children.Keys
  {
    && (forall p, x :: p in resolved && x in children[p] ==> x in resolved && Get(superclass, x) == p)
    && (forall x :: x in resolved && Get(superclass, x) != NIL ==> Get(superclass, x) in resolved && x in children[Get(superclass, x)])
  }

  lemma TreeIsFramed(l: Links, l': Links, superclass: Field, superclass': Field, resolved: set<Cls>, children: map<Cls, seq<Cls>>)
    requires TreeOk(l, superclass, resolved, children)
    requires forall c :: c in resolved ==>
      && Get(superclass', c) == Get(superclass, c)
      && Get(l'.next, c) == Get(l.next, c) && Get(l'.prev, c) == Get(l.prev, c)
    ensures TreeOk(l', superclass', resolved, children)
  {
    forall p | p in resolved
      ensures ChainOk(l', p, children[p])
    {
      assert ChainOk(l, p, children[p]);
      forall k | 0 <= k < |children[p]|
        ensures ChainLink(l', children[p], k)
      {
        assert ChainLink(l, children[p], k);
        assert children[p][k] in children[p];
      }
    }
  }

  /** The links after x has been put at the head of p's list. */
  function Adopted(l: Links, p: Cls, x: Cls): Links
  {
    Links(l.next[p := x], l.prev[x := Get(l.next, p)])
  }

  /** A new node without subclasses joins the tree, below p or as a root. */
  lemma AdoptKeepsTree(l: Links, superclass: Field, resolved: set<Cls>, children: map<Cls, seq<Cls>>, x: Cls, p: Cls)
    requires TreeOk(l, superclass, resolved, children) && x !in resolved && x != NIL
    requires Get(l.next, x) == NIL && Get(superclass, x) == p && p in resolved
    ensures TreeOk(Adopted(l, p, x), superclass, resolved + {x}, children[x := []][p := [x] + children[p]])
  {
    hide ChainOk, Adopted, MembersOk;
    forall q | q in resolved + {x}
      ensures ChainOk(Adopted(l, p, x), q, children[x := []][p := [x] + children[p]][q])
    {
      ChainAfterAdopt(l, superclass, resolved, children, x, p, q);
    }
    AdoptedMembers(superclass, resolved, children, x, p);
  }

  lemma ChainAfterAdopt(l: Links, superclass: Field, resolved: set<Cls>, children: map<Cls, seq<Cls>>, x: Cls, p: Cls, q: Cls)
    requires TreeOk(l, superclass, resolved, children) && x !in resolved && x != NIL
    requires Get(l.next, x) == NIL && p in resolved && q in resolved + {x}
    ensures ChainOk(Adopted(l, p, x), q, children[x := []][p := [x] + children[p]][q])
  {
    hide ChainOk, Adopted;
    if q == p {
      assert x !in children[p];
      AdoptedChain(l, p, children[p], x);
    } else if q == x {
      EmptyChain(l, p, x);
    } else {
      assert x !in children[q];
      OtherChain(l, p, x, q, children[q]);
    }
  }

  lemma EmptyChain(l: Links, p: Cls, x: Cls)
    requires Get(l.next, x) == NIL && x != p
    ensures ChainOk(Adopted(l, p, x), x, [])
  {
  }

  lemma OtherChain(l: Links, p: Cls, x: Cls, q: Cls, kids: seq<Cls>)
    requires ChainOk(l, q, kids) && q != p && x !in kids
    ensures ChainOk(Adopted(l, p, x), q, kids)
  {
    forall k | 0 <= k < |kids|
      ensures ChainLink(Adopted(l, p, x), kids, k)
    {
      assert ChainLink(l, kids, k);
    }
  }

  lemma AdoptedMembers(superclass: Field, resolved: set<Cls>, children: map<Cls, seq<Cls>>, x: Cls, p: Cls)
    requires resolved <= children.Keys && x !in resolved && p in resolved && Get(superclass, x) == p
    requires MembersOk(superclass, resolved, children)
    ensures MembersOk(superclass, resolved + {x}, children[x := []][p := [x] + children[p]])
  {
    assert forall y :: y in [x] + children[p] <==> y == x || y in children[p];
  }

  lemma AdoptedChain(l: Links, p: Cls, kids: seq<Cls>, x: Cls)
    requires ChainOk(l, p, kids) && x !in kids && x != NIL
    ensures ChainOk(Adopted(l, p, x), p, [x] + kids)
  {
    var l' := Adopted(l, p, x);
    forall k | 0 <= k < |[x] + kids|
      ensures ChainLink(l', [x] + kids, k)
    {
      if k > 0 {
        assert ChainLink(l, kids, k - 1);
      }
    }
  }

  lemma RootJoinsTree(l: Links, superclass: Field, resolved: set<Cls>, children: map<Cls, seq<Cls>>, x: Cls)
    requires TreeOk(l, superclass, resolved, children) && x !in resolved && x != NIL
    requires Get(l.next, x) == NIL && Get(superclass, x) == NIL
    ensures TreeOk(l, superclass, resolved + {x}, children[x := []])
  {
  }
}
