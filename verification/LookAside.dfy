/**
  The list of dispatch tables of classes whose +initialize is still running, and
  the tables already installed in their classes.
 */
module LookAside {
  import opened Basics

  type Cls = nat
  type Table = nat

  /** A class or its metaclass. */
  datatype Node = Inst(c: Cls) | Meta(c: Cls)

  datatype Entry = Entry(owner: Node, table: Table)

  /** Adjacent (metaclass, class) pairs. */
  ghost predicate Paired(l: seq<Entry>) {
    l == [] ||
    (|l| >= 2 && l[0].owner.Meta? && l[1].owner == Inst(l[0].owner.c) && Paired(l[2..]))
  }

  ghost predicate Unique(l: seq<Entry>) {
    forall i, j :: 0 <= i < j < |l| ==> l[i].owner != l[j].owner
  }

  ghost function Owners(l: seq<Entry>): set<Node> {
    set e | e in l :: e.owner
  }

  /** The list without the pair of c. */
  ghost function WithoutPair(l: seq<Entry>, c: Cls): seq<Entry>
    requires Paired(l)
  {
    if l == [] then []
    else if l[0].owner == Meta(c) then l[2..]
    else l[..2] + WithoutPair(l[2..], c)
  }

  /** The table the list holds for a node. */
  function Find(l: seq<Entry>, n: Node): Option<Table> {
    if l == [] then None else if l[0].owner == n then Some(l[0].table) else Find(l[1..], n)
  }

  lemma {:induction false} PairOf(l: seq<Entry>, k: nat, c: Cls)
    requires Paired(l) && Unique(l) && k < |l| && l[k].owner == Meta(c)
    ensures k + 1 < |l| && l[k + 1].owner == Inst(c)
    ensures WithoutPair(l, c) == l[..k] + l[k + 2..]
  {
    if k > 0 {
      assert k != 1;
      var rest := l[2..];
      assert forall i :: 0 <= i < |rest| ==> rest[i] == l[i + 2];
      PairOf(rest, k - 2, c);
      assert l[0].owner != Meta(c);
      SplicedPair(l, k);
    }
  }

  lemma SplicedPair(l: seq<Entry>, k: nat)
    requires 2 <= k && k + 2 <= |l|
    ensures l[..2] + (l[2..][..k - 2] + l[2..][k..]) == l[..k] + l[k + 2..]
  {
  }

  lemma {:induction false} WithoutPairIsPaired(l: seq<Entry>, c: Cls)
    requires Paired(l)
    ensures Paired(WithoutPair(l, c))
  {
    if l != [] && l[0].owner != Meta(c) {
      WithoutPairIsPaired(l[2..], c);
      var w := WithoutPair(l[2..], c);
      assert (l[..2] + w)[2..] == w;
    }
  }

  /** Cutting positions k and k + 1 out of a list without repeated owners. */
  lemma OwnersAfterCut(l: seq<Entry>, k: nat, w: seq<Entry>, n: Node)
    requires Unique(l) && k + 1 < |l| && w == l[..k] + l[k + 2..]
    ensures n in Owners(w) <==> n in Owners(l) && n != l[k].owner && n != l[k + 1].owner
  {
    assert forall i :: 0 <= i < |w| ==> w[i] == if i < k then l[i] else l[i + 2];
    if n in Owners(l) && n != l[k].owner && n != l[k + 1].owner {
      var i := PositionOf(l, n);
      assert w[if i < k then i else i - 2] == l[i];
    }
    if n in Owners(w) {
      var i := PositionOf(w, n);
      assert l[if i < k then i else i + 2].owner == n;
    }
  }

  lemma WithoutPairKeepsOthers(l: seq<Entry>, c: Cls)
    requires Paired(l) && Unique(l) && Meta(c) in Owners(l)
    ensures Unique(WithoutPair(l, c))
    ensures Owners(WithoutPair(l, c)) == Owners(l) - {Meta(c), Inst(c)}
    ensures forall e :: e in WithoutPair(l, c) ==> e in l
    ensures Inst(c) in Owners(l)
  {
    var k := PositionOf(l, Meta(c));
    PairOf(l, k, c);
    var w := l[..k] + l[k + 2..];
    forall n
      ensures n in Owners(w) <==> n in Owners(l) && n != Meta(c) && n != Inst(c)
    {
      OwnersAfterCut(l, k, w, n);
    }
    assert l[k + 1] in l;
  }

  lemma {:induction false} FoundIffOwner(l: seq<Entry>, n: Node)
    ensures Find(l, n).Some? <==> n in Owners(l)
    ensures Find(l, n).Some? ==> Entry(n, Find(l, n).value) in l
  {
    if l != [] {
      assert forall e :: e in l <==> e == l[0] || e in l[1..];
      FoundIffOwner(l[1..], n);
      if n in Owners(l) && l[0].owner != n {
        var e :| e in l && e.owner == n;
        assert e in l[1..];
      }
    }
  }

  class Lists {
    var temporary: seq<Entry>
    var installed: map<Node, Table>

    /** dtable_for_class: the installed table, else the one in the look-aside list. */
    method DtableForClass(n: Node) returns (t: Option<Table>)
      ensures t == if n in installed then Some(installed[n]) else Find(temporary, n)
      ensures t.Some? <==> n in installed || n in Owners(temporary)
    {
      FoundIffOwner(temporary, n);
      if n in installed {
        return Some(installed[n]);
      }
      t := None;
      var i := 0;
      while i < |temporary|
        invariant 0 <= i <= |temporary| && t == None
        invariant Find(temporary, n) == Find(temporary[i..], n)
      {
        if temporary[i].owner == n {
          return Some(temporary[i].table);
        }
        assert temporary[i..][1..] == temporary[i + 1..];
        i := i + 1;
      }
    }

    /** remove_dtable: installs the pair of c and unlinks it, wherever in the list it is. */
    method RemoveDtable(c: Cls)
      requires Paired(temporary) && Unique(temporary) && Meta(c) in Owners(temporary)
      modifies this
      ensures temporary == WithoutPair(old(temporary), c)
      ensures Find(old(temporary), Meta(c)).Some? && Find(old(temporary), Inst(c)).Some?
      ensures installed == old(installed)[Meta(c) := Find(old(temporary), Meta(c)).value]
                                         [Inst(c) := Find(old(temporary), Inst(c)).value]
    {
      ghost var k := PositionOf(temporary, Meta(c));
      PairOf(temporary, k, c);
      FindAt(temporary, k);
      FindAt(temporary, k + 1);
      if temporary[0].owner == Meta(c) {
        installed := installed[Meta(c) := temporary[0].table][Inst(c) := temporary[1].table];
        temporary := temporary[2..];
      } else {
        var prev := 0;
        while temporary[prev + 1].owner != Meta(c)
          invariant 0 <= prev < k && temporary == old(temporary)
          decreases k - prev
        {
          prev := prev + 1;
        }
        installed := installed[Meta(c) := temporary[prev + 1].table][Inst(c) := temporary[prev + 2].table];
        temporary := temporary[..prev + 1] + temporary[prev + 3..];
      }
    }
  }

  lemma PositionOf(l: seq<Entry>, n: Node) returns (k: nat)
    requires n in Owners(l)
    ensures k < |l| && l[k].owner == n
  {
    var e :| e in l && e.owner == n;
    k :| k < |l| && l[k] == e;
  }

  lemma {:induction false} FindAt(l: seq<Entry>, k: nat)
    requires Unique(l) && k < |l|
    ensures Find(l, l[k].owner) == Some(l[k].table)
  {
    if k > 0 {
      assert forall i :: 0 <= i < |l[1..]| ==> l[1..][i] == l[i + 1];
      FindAt(l[1..], k - 1);
    }
  }
}
