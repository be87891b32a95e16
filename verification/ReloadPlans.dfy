/**
  The plan of a safe reload as values: which method a name finds in a class, what a
  plan says about the candidate's methods, and what the method records mean once a
  plan has been carried out.
 */
module ReloadPlans {
  import opened Basics

  /** The address of a method record. */
  type Id = nat
  type Imp = nat

  /** None stands for a null pointer. */
  datatype Method = Method(name: Option<string>, types: Option<string>, imp: Option<Imp>)

  type Methods = map<Id, Method>

  /** One block of a class's linked list of method lists. */
  datatype MethodList = MethodList(count: int, size: nat, methods: seq<Id>)

  const METHOD_SIZE := 24

  predicate Readable(l: MethodList) {
    l.count >= 0 && l.size >= METHOD_SIZE
  }

  ghost predicate AllIn(m: Methods, ids: seq<Id>) {
    forall k :: 0 <= k < |ids| ==> ids[k] in m
  }

  ghost predicate ListOk(m: Methods, l: MethodList) {
    Readable(l) ==> l.count == |l.methods| && AllIn(m, l.methods)
  }

  ghost predicate ListsOk(m: Methods, ls: seq<MethodList>) {
    forall k :: 0 <= k < |ls| ==> ListOk(m, ls[k])
  }

  ghost predicate AllReadable(ls: seq<MethodList>) {
    forall k :: 0 <= k < |ls| ==> Readable(ls[k])
  }

  /** The records a search can reach: it gives up at the first unreadable list. */
  ghost function Reach(ls: seq<MethodList>): seq<Id> {
    if ls == [] || !Readable(ls[0]) then [] else ls[0].methods + Reach(ls[1..])
  }

  predicate Named(m: Methods, id: Id, name: string) {
    id in m && m[id].name == Some(name)
  }

  /** The first record of a name. */
  ghost function First(m: Methods, ids: seq<Id>, name: string): Option<Id> {
    if ids == [] then None else if Named(m, ids[0], name) then Some(ids[0]) else First(m, ids[1..], name)
  }

  /** What the name means to a class with these records. */
  ghost function ImpOf(m: Methods, ids: seq<Id>, name: string): Option<Imp> {
    var f := First(m, ids, name);
    if f.Some? && f.value in m then m[f.value].imp else None
  }

  lemma {:induction false} ReachIn(m: Methods, ls: seq<MethodList>)
    requires ListsOk(m, ls)
    ensures AllIn(m, Reach(ls))
  {
    if ls != [] && Readable(ls[0]) {
      assert ListOk(m, ls[0]);
      ReachIn(m, ls[1..]);
    }
  }

  lemma {:induction false} ReachAppend(a: seq<MethodList>, b: seq<MethodList>)
    requires AllReadable(a)
    ensures Reach(a + b) == Reach(a) + Reach(b)
  {
    if a == [] {
      assert a + b == b;
    } else {
      assert (a + b)[1..] == a[1..] + b;
      ReachAppend(a[1..], b);
    }
  }

  /** What stands behind an unreadable list is not found. */
  lemma {:induction false} UnreadableEnds(a: seq<MethodList>, l: MethodList, b: seq<MethodList>)
    requires l.count < 0 || l.size < 24
    ensures Reach(a + [l] + b) == Reach(a)
  {
    if a == [] {
      assert (a + [l] + b)[0] == l;
    } else {
      assert (a + [l] + b)[0] == a[0] && (a + [l] + b)[1..] == a[1..] + [l] + b;
      UnreadableEnds(a[1..], l, b);
    }
  }

  lemma ReachNext(ls: seq<MethodList>, k: nat)
    requires k < |ls| && AllReadable(ls[..k + 1])
    ensures Reach(ls[..k + 1]) == Reach(ls[..k]) + ls[k].methods
  {
    assert ls[..k + 1] == ls[..k] + [ls[k]];
    assert Readable(ls[..k + 1][k]);
    ReachAppend(ls[..k], [ls[k]]);
    assert Reach([ls[k]]) == ls[k].methods + Reach([]);
  }

  lemma {:induction false} FirstNamed(m: Methods, ids: seq<Id>, name: string)
    ensures First(m, ids, name).Some? ==> First(m, ids, name).value in ids && Named(m, First(m, ids, name).value, name)
    ensures First(m, ids, name).None? <==> forall k :: 0 <= k < |ids| ==> !Named(m, ids[k], name)
  {
    if ids != [] && !Named(m, ids[0], name) {
      FirstNamed(m, ids[1..], name);
      assert forall k :: 1 <= k < |ids| ==> ids[k] == ids[1..][k - 1];
    }
  }

  lemma {:induction false} FirstAppend(m: Methods, a: seq<Id>, b: seq<Id>, name: string)
    ensures First(m, a + b, name) == if First(m, a, name).Some? then First(m, a, name) else First(m, b, name)
  {
    if a == [] {
      assert a + b == b;
    } else {
      assert (a + b)[1..] == a[1..] + b;
      FirstAppend(m, a[1..], b, name);
    }
  }

  /** Only the names of the records matter to a search. */
  lemma {:induction false} FirstFramed(m: Methods, m': Methods, ids: seq<Id>, name: string)
    requires forall k :: 0 <= k < |ids| ==> ids[k] in m && ids[k] in m' && m[ids[k]].name == m'[ids[k]].name
    ensures First(m, ids, name) == First(m', ids, name)
  {
    if ids != [] {
      assert ids[0] in m && ids[0] in m';
      assert forall k :: 0 <= k < |ids[1..]| ==> ids[1..][k] == ids[k + 1];
      FirstFramed(m, m', ids[1..], name);
    }
  }

  // ---------------------------------------------------------------------------
  // Plans
  // ---------------------------------------------------------------------------

  datatype Entry = Entry(target: Option<Id>, name: string, imp: Imp, types: string)

  ghost predicate HasName(es: seq<Entry>, name: string) {
    exists k :: 0 <= k < |es| && es[k].name == name
  }

  ghost predicate Distinct(es: seq<Entry>) {
    forall i, j :: 0 <= i < j < |es| ==> es[i].name != es[j].name
  }

  /** The entry carries the candidate's first definition of its name, and the record of the
      target class that it replaces, of the same signature. */
  ghost predicate EntryOk(m: Methods, target: seq<Id>, source: seq<Id>, e: Entry) {
    var i := First(m, source, e.name);
    && i.Some? && i.value in m && m[i.value].imp == Some(e.imp) && m[i.value].types == Some(e.types)
    && e.target == First(m, target, e.name)
    && (e.target.Some? ==> e.target.value in m && m[e.target.value].types == Some(e.types))
  }

  ghost predicate Plans(m: Methods, target: seq<Id>, source: seq<Id>, es: seq<Entry>) {
    && Distinct(es)
    && (forall k :: 0 <= k < |es| ==> EntryOk(m, target, source, es[k]))
    && forall name :: First(m, source, name).Some? ==> HasName(es, name)
  }

  ghost predicate Complete(m: Methods, id: Id) {
    id in m && m[id].name.Some? && m[id].types.Some? && m[id].imp.Some?
  }

  ghost predicate AllComplete(m: Methods, ids: seq<Id>) {
    forall k :: 0 <= k < |ids| ==> Complete(m, ids[k])
  }

  /** A name both classes define has one signature. */
  ghost predicate SameSignature(m: Methods, target: seq<Id>, source: seq<Id>, name: string) {
    var i, e := First(m, source, name), First(m, target, name);
    i.Some? && e.Some? && i.value in m && e.value in m ==> m[i.value].types == m[e.value].types
  }

  /** A plan exists only for a candidate whose signatures all match. */
  lemma PlanIsCompatible(m: Methods, target: seq<Id>, source: seq<Id>, es: seq<Entry>, name: string)
    requires Plans(m, target, source, es)
    ensures SameSignature(m, target, source, name)
  {
    if First(m, source, name).Some? {
      assert HasName(es, name);
      var k :| 0 <= k < |es| && es[k].name == name;
      assert EntryOk(m, target, source, es[k]);
    }
  }

  lemma EntryKept(m: Methods, target: seq<Id>, source: seq<Id>, id: Id, e: Entry)
    requires EntryOk(m, target, source, e)
    ensures EntryOk(m, target, source + [id], e)
  {
    FirstAppend(m, source, [id], e.name);
  }

  /** The next record of the candidate, of a name the plan already has. */
  lemma SkipKeepsPlan(m: Methods, target: seq<Id>, source: seq<Id>, es: seq<Entry>, id: Id, name: string)
    requires Plans(m, target, source, es) && Named(m, id, name) && HasName(es, name)
    ensures Plans(m, target, source + [id], es)
  {
    forall k | 0 <= k < |es|
      ensures EntryOk(m, target, source + [id], es[k])
    {
      EntryKept(m, target, source, id, es[k]);
    }
    forall n | First(m, source + [id], n).Some?
      ensures HasName(es, n)
    {
      FirstAppend(m, source, [id], n);
      FirstNamed(m, [id], n);
    }
  }

  /** The next record of the candidate, of a new name. */
  lemma EntryKeepsPlan(m: Methods, target: seq<Id>, source: seq<Id>, es: seq<Entry>, id: Id, e: Entry)
    requires Plans(m, target, source, es) && Named(m, id, e.name) && !HasName(es, e.name)
    requires m[id].imp == Some(e.imp) && m[id].types == Some(e.types) && e.target == First(m, target, e.name)
    requires e.target.Some? ==> e.target.value in m && m[e.target.value].types == Some(e.types)
    ensures Plans(m, target, source + [id], es + [e])
  {
    var es' := es + [e];
    FirstAppend(m, source, [id], e.name);
    forall k | 0 <= k < |es'|
      ensures EntryOk(m, target, source + [id], es'[k])
    {
      if k < |es| {
        EntryKept(m, target, source, id, es[k]);
      }
    }
    forall n | First(m, source + [id], n).Some?
      ensures HasName(es', n)
    {
      FirstAppend(m, source, [id], n);
      FirstNamed(m, [id], n);
      if First(m, source, n).Some? {
        var k :| 0 <= k < |es| && es[k].name == n;
        assert es'[k].name == n;
      } else {
        assert es'[|es|].name == n;
      }
    }
  }

  /** A signature clash at the next record is one of the whole candidate. */
  lemma ClashIsReal(m: Methods, target: seq<Id>, source: seq<Id>, es: seq<Entry>, id: Id, rest: seq<Id>, name: string)
    requires Plans(m, target, source, es) && Named(m, id, name) && !HasName(es, name)
    requires First(m, target, name).Some? && First(m, target, name).value in m
    requires m[First(m, target, name).value].types != m[id].types
    ensures !SameSignature(m, target, source + [id] + rest, name)
  {
    FirstAppend(m, source + [id], rest, name);
    FirstAppend(m, source, [id], name);
  }

  // ---------------------------------------------------------------------------
  // The records that a plan adds and overwrites
  // ---------------------------------------------------------------------------

  function Fresh(e: Entry): Method {
    Method(Some(e.name), Some(e.types), Some(e.imp))
  }

  function Additions(es: seq<Entry>): (r: seq<Method>)
    ensures |r| <= |es|
  {
    if es == [] then [] else
      var n := |es| - 1;
      Additions(es[..n]) + if es[n].target.None? then [Fresh(es[n])] else []
  }

  function Ids(first: Id, n: nat): (r: seq<Id>)
    ensures |r| == n && forall k :: 0 <= k < n ==> r[k] == first + k
  {
    seq(n, i requires 0 <= i => first + i)
  }

  /** Each addition is the record of an entry without a target. */
  lemma {:induction false} AdditionIsEntry(es: seq<Entry>, k: nat) returns (i: nat)
    requires k < |Additions(es)|
    ensures i < |es| && es[i].target.None? && Additions(es)[k] == Fresh(es[i])
  {
    var n := |es| - 1;
    if k < |Additions(es[..n])| {
      i := AdditionIsEntry(es[..n], k);
    } else {
      i := n;
    }
  }

  lemma {:induction false} EntryIsAdded(es: seq<Entry>, i: nat) returns (k: nat)
    requires i < |es| && es[i].target.None?
    ensures k < |Additions(es)| && Additions(es)[k] == Fresh(es[i])
  {
    var n := |es| - 1;
    if i < n {
      assert es[..n][i] == es[i];
      k := EntryIsAdded(es[..n], i);
    } else {
      k := |Additions(es[..n])|;
    }
  }

  /** The records written by the first n entries. */
  function Overwritten(m: Methods, es: seq<Entry>): Methods
  {
    if es == [] then m else
      var n := |es| - 1;
      var m' := Overwritten(m, es[..n]);
      if es[n].target.Some? && es[n].target.value in m'
      then m'[es[n].target.value := m'[es[n].target.value].(imp := Some(es[n].imp))]
      else m'
  }

  ghost predicate Targets(es: seq<Entry>, id: Id) {
    exists k :: 0 <= k < |es| && es[k].target == Some(id)
  }

  ghost predicate DistinctTargets(es: seq<Entry>) {
    forall i, j :: 0 <= i < j < |es| && es[i].target.Some? ==> es[i].target != es[j].target
  }

  /** A record after a commit: its name and types stay, its IMP is the plan's or its own. */
  ghost predicate Updated(es: seq<Entry>, id: Id, before: Method, after: Method) {
    && after == before.(imp := after.imp)
    && (forall k :: 0 <= k < |es| && es[k].target == Some(id) ==> after.imp == Some(es[k].imp))
    && (!Targets(es, id) ==> after == before)
  }

  lemma {:induction false} OverwrittenAt(m: Methods, es: seq<Entry>, id: Id)
    requires DistinctTargets(es) && id in m
    ensures Overwritten(m, es).Keys == m.Keys
    ensures Updated(es, id, m[id], Overwritten(m, es)[id])
  {
    if es != [] {
      var n := |es| - 1;
      OverwrittenAt(m, es[..n], id);
      assert forall k :: 0 <= k < n ==> es[..n][k] == es[k];
      if Targets(es[..n], id) {
        var k :| 0 <= k < n && es[..n][k].target == Some(id);
        assert es[k].target == Some(id);
      }
    }
  }

  lemma {:induction false} OverwrittenKeys(m: Methods, es: seq<Entry>)
    ensures Overwritten(m, es).Keys == m.Keys
  {
    if es != [] {
      OverwrittenKeys(m, es[..|es| - 1]);
    }
  }

  lemma PlanTargetsDiffer(m: Methods, target: seq<Id>, source: seq<Id>, es: seq<Entry>)
    requires Plans(m, target, source, es)
    ensures DistinctTargets(es)
  {
    forall i, j | 0 <= i < j < |es| && es[i].target.Some?
      ensures es[i].target != es[j].target
    {
      assert EntryOk(m, target, source, es[i]) && EntryOk(m, target, source, es[j]);
      FirstNamed(m, target, es[i].name);
      FirstNamed(m, target, es[j].name);
    }
  }

  lemma PlanTargetsReached(m: Methods, target: seq<Id>, source: seq<Id>, es: seq<Entry>, k: nat)
    requires Plans(m, target, source, es) && k < |es| && es[k].target.Some?
    ensures es[k].target.value in target && Named(m, es[k].target.value, es[k].name)
  {
    assert EntryOk(m, target, source, es[k]);
    FirstNamed(m, target, es[k].name);
  }

  /** The records after the commit of a plan, as far as the target class sees them. */
  ghost predicate CommittedTo(m: Methods, m': Methods, target: seq<Id>, es: seq<Entry>, first: Id) {
    && (forall k :: 0 <= k < |target| ==> target[k] in m && target[k] in m' && Updated(es, target[k], m[target[k]], m'[target[k]]))
    && Stored(m', Additions(es), first)
  }

  /** The records are at consecutive addresses from first on. */
  ghost predicate Stored(m: Methods, records: seq<Method>, first: Id) {
    forall id :: first <= id < first + |records| ==> id in m && m[id] == records[id - first]
  }

  lemma StoredRecord(m: Methods, records: seq<Method>, first: Id, k: nat)
    requires Stored(m, records, first) && k < |records|
    ensures first + k in m && m[first + k] == records[k]
  {
    assert records[first + k - first] == records[k];
  }

  /** The meaning of a name after the commit: the candidate's first definition where it has one,
      otherwise what it was; a record found before is found again. */
  lemma CommitMeaning(m: Methods, m': Methods, target: seq<Id>, source: seq<Id>, es: seq<Entry>, first: Id, name: string)
    requires Plans(m, target, source, es) && CommittedTo(m, m', target, es, first)
    ensures
      var target' := Ids(first, |Additions(es)|) + target;
      && ImpOf(m', target', name) ==
           (if First(m, source, name).Some? then ImpOf(m, source, name) else ImpOf(m, target, name))
      && (First(m, target, name).Some? ==> First(m', target', name) == First(m, target, name))
  {
    var added := Ids(first, |Additions(es)|);
    FirstAppend(m', added, target, name);
    FirstFramed(m, m', target, name);
    FirstNamed(m', added, name);
    FirstNamed(m, target, name);
    if HasName(es, name) {
      var i :| 0 <= i < |es| && es[i].name == name;
      assert EntryOk(m, target, source, es[i]);
      if es[i].target.None? {
        AddedMeaning(m, m', target, source, es, first, i);
      } else {
        NotAdded(m, m', target, es, first, i);
        var t := First(m, target, name).value;
        var k :| 0 <= k < |target| && target[k] == t;
        assert Updated(es, t, m[t], m'[t]);
      }
    } else {
      OthersKept(m, m', target, source, es, first, name);
    }
  }

  lemma AddedMeaning(m: Methods, m': Methods, target: seq<Id>, source: seq<Id>, es: seq<Entry>, first: Id, i: nat)
    requires Plans(m, target, source, es) && CommittedTo(m, m', target, es, first) && i < |es| && es[i].target.None?
    ensures
      var f := First(m', Ids(first, |Additions(es)|), es[i].name);
      f.Some? && f.value in m' && m'[f.value].imp == Some(es[i].imp)
  {
    var added := Ids(first, |Additions(es)|);
    var k := EntryIsAdded(es, i);
    StoredRecord(m', Additions(es), first, k);
    assert Named(m', added[k], es[i].name);
    FirstNamed(m', added, es[i].name);
    var f := First(m', added, es[i].name).value;
    var k' :| 0 <= k' < |added| && added[k'] == f;
    var j := AdditionIsEntry(es, k');
    StoredRecord(m', Additions(es), first, k');
  }

  lemma NotAdded(m: Methods, m': Methods, target: seq<Id>, es: seq<Entry>, first: Id, i: nat)
    requires Distinct(es) && CommittedTo(m, m', target, es, first) && i < |es| && es[i].target.Some?
    ensures First(m', Ids(first, |Additions(es)|), es[i].name).None?
  {
    var added := Ids(first, |Additions(es)|);
    forall k | 0 <= k < |added|
      ensures !Named(m', added[k], es[i].name)
    {
      var j := AdditionIsEntry(es, k);
      StoredRecord(m', Additions(es), first, k);
    }
    FirstNamed(m', added, es[i].name);
  }

  lemma OthersKept(m: Methods, m': Methods, target: seq<Id>, source: seq<Id>, es: seq<Entry>, first: Id, name: string)
    requires Plans(m, target, source, es) && CommittedTo(m, m', target, es, first) && !HasName(es, name)
    ensures First(m', Ids(first, |Additions(es)|), name).None?
    ensures First(m, target, name).Some? ==>
      var t := First(m, target, name).value; t in m && t in m' && m'[t] == m[t]
  {
    NameNotAdded(m, m', target, es, first, name);
    FirstNamed(m, target, name);
    if First(m, target, name).Some? {
      var t := First(m, target, name).value;
      hide First, Plans;
      var k :| 0 <= k < |target| && target[k] == t;
      assert Updated(es, t, m[t], m'[t]);
      NotATarget(m, target, source, es, t, name);
    }
  }

  lemma NotATarget(m: Methods, target: seq<Id>, source: seq<Id>, es: seq<Entry>, t: Id, name: string)
    requires Plans(m, target, source, es) && Named(m, t, name) && !HasName(es, name)
    ensures !Targets(es, t)
  {
    forall i | 0 <= i < |es| && es[i].target == Some(t)
      ensures false
    {
      PlanTargetsReached(m, target, source, es, i);
    }
  }

  lemma NameNotAdded(m: Methods, m': Methods, target: seq<Id>, es: seq<Entry>, first: Id, name: string)
    requires CommittedTo(m, m', target, es, first) && !HasName(es, name)
    ensures First(m', Ids(first, |Additions(es)|), name).None?
  {
    var added := Ids(first, |Additions(es)|);
    forall k | 0 <= k < |added|
      ensures !Named(m', added[k], name)
    {
      var j := AdditionIsEntry(es, k);
      StoredRecord(m', Additions(es), first, k);
    }
    FirstNamed(m', added, name);
  }
}
