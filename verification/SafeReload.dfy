/**
  Reloading a class in place: a plan is prepared for the class and one for its
  metaclass, either of which can be refused, and only then are both carried out.
 */
module SafeReload {
  import opened Basics
  import opened ReloadPlans

  type Cls = nat

  const INT_MAX := 0x7FFF_FFFF
  const ENTRY_SIZE := 32
  const LIST_HEADER := 24

  datatype Reason = BadMetaclass | BadLayout | MethodMetadata | MethodSignature | OutOfMemory

  datatype Result<T> = Ok(value: T) | Rejected(reason: Reason)

  datatype Plan = Plan(target: Cls, entries: seq<Entry>, additions: Option<MethodList>)

  /** The additions of a plan are a readable list of records that belong to nobody else. */
  ghost predicate PlanOk(m: Methods, p: Plan, first: Id, end: Id) {
    && end == first + |Additions(p.entries)|
    && Stored(m, Additions(p.entries), first)
    && (if |Additions(p.entries)| == 0 then p.additions.None?
        else p.additions == Some(AddedList(first, |Additions(p.entries)|)))
  }

  /** All that carrying out a plan relies on. */
  ghost predicate Ready(m: Methods, p: Plan) {
    && (p.additions.Some? ==> ListOk(m, p.additions.value))
    && forall k :: 0 <= k < |p.entries| && p.entries[k].target.Some? ==> p.entries[k].target.value in m
  }

  function AddedList(first: Id, n: nat): MethodList {
    MethodList(n, METHOD_SIZE, Ids(first, n))
  }

  /** m' is m with records from first on added. */
  ghost predicate Extends(m: Methods, m': Methods, first: Id, end: Id) {
    && first <= end && (forall id :: id in m' <==> id in m || first <= id < end)
    && forall id :: id in m ==> m'[id] == m[id]
  }

  /** Why a candidate's records cannot make a plan. */
  ghost predicate BadMethods(m: Methods, ls: seq<MethodList>) {
    !AllReadable(ls) || !AllComplete(m, Reach(ls)) || |Reach(ls)| * ENTRY_SIZE > SIZE_MAX || |Reach(ls)| > INT_MAX
  }

  ghost predicate Clash(m: Methods, target: seq<Id>, source: seq<Id>) {
    exists name :: !SameSignature(m, target, source, name)
  }

  /** The lists of a class after a plan: the additions in front of what was there. */
  function WithAdditions(ls: seq<MethodList>, p: Plan): seq<MethodList> {
    if p.additions.Some? then [p.additions.value] + ls else ls
  }

  lemma ReachWithAdditions(m: Methods, ls: seq<MethodList>, p: Plan, first: Id, end: Id)
    requires PlanOk(m, p, first, end)
    ensures Reach(WithAdditions(ls, p)) == Ids(first, |Additions(p.entries)|) + Reach(ls)
  {
    var n := |Additions(p.entries)|;
    if n > 0 {
      var w := WithAdditions(ls, p);
      assert w[0] == AddedList(first, n) && w[1..] == ls;
    } else {
      assert Ids(first, n) + Reach(ls) == Reach(ls);
    }
  }

  class Reloader {
    var methods: Methods
    var lists: map<Cls, seq<MethodList>>
    /** Records are got from here on. */
    var top: Id
    /** How many allocations have failed so far. */
    ghost var failures: nat

    ghost predicate Valid()
      reads this
    {
      (forall id :: id in methods ==> id < top) && forall c :: c in lists ==> ListsOk(methods, lists[c])
    }

    ghost function Records(c: Cls): seq<Id>
      reads this
    {
      if c in lists then Reach(lists[c]) else []
    }

    /** An allocation may fail at any time. */
    method Allocates() returns (ok: bool)
      modifies this`failures
      ensures failures == old(failures) + if ok then 0 else 1
    {
      ok := *;
      failures := failures + if ok then 0 else 1;
    }

    /** safe_reload_find_method. */
    method FindMethod(target: Cls, name: string) returns (r: Option<Id>)
      requires Valid() && target in lists
      ensures r == First(methods, Records(target), name)
    {
      var ls, n := lists[target], 0;
      while n < |ls|
        invariant n <= |ls|
        invariant First(methods, Reach(ls[n..]), name) == First(methods, Reach(ls), name)
      {
        var l := ls[n];
        assert ls[n..][0] == l && ls[n..][1..] == ls[n + 1..];
        if l.count < 0 || l.size < METHOD_SIZE {
          return None;
        }
        assert ListOk(methods, l);
        var i := 0;
        assert l.methods[0..] == l.methods;
        while i < l.count
          invariant 0 <= i <= l.count
          invariant First(methods, l.methods[i..] + Reach(ls[n + 1..]), name) == First(methods, Reach(ls), name)
        {
          var id := l.methods[i];
          assert l.methods[i..] + Reach(ls[n + 1..]) == [id] + (l.methods[i + 1..] + Reach(ls[n + 1..]));
          FirstAppend(methods, [id], l.methods[i + 1..] + Reach(ls[n + 1..]), name);
          assert First(methods, [id], name) == if Named(methods, id, name) then Some(id) else First(methods, [], name);
          if methods[id].name == Some(name) {
            return Some(id);
          }
          i := i + 1;
        }
        assert l.methods[i..] + Reach(ls[n + 1..]) == Reach(ls[n + 1..]);
        n := n + 1;
      }
      return None;
    }

    /** safe_reload_plan_contains_name. */
    method PlanContainsName(es: seq<Entry>, name: string) returns (r: bool)
      ensures r <==> HasName(es, name)
    {
      var i := 0;
      while i < |es|
        invariant i <= |es|
        invariant forall k :: 0 <= k < i ==> es[k].name != name
      {
        if es[i].name == name {
          return true;
        }
        i := i + 1;
      }
      return false;
    }

    /** safe_reload_count_methods. */
    method CountMethods(source: Cls) returns (r: Option<nat>)
      requires Valid() && source in lists
      ensures r.Some? <==> AllReadable(lists[source]) && |Records(source)| <= SIZE_MAX
      ensures r.Some? ==> r.value == |Records(source)|
    {
      var ls, n, count := lists[source], 0, 0;
      while n < |ls|
        invariant n <= |ls| && AllReadable(ls[..n])
        invariant count == |Reach(ls[..n])| <= SIZE_MAX
      {
        var l := ls[n];
        if l.count < 0 || l.size < METHOD_SIZE {
          return None;
        }
        assert ListOk(methods, l);
        assert AllReadable(ls[..n + 1]);
        ReachNext(ls, n);
        if l.count > SIZE_MAX - count {
          if AllReadable(ls) {
            assert ls == ls[..n + 1] + ls[n + 1..];
            ReachAppend(ls[..n + 1], ls[n + 1..]);
          }
          return None;
        }
        count := count + l.count;
        n := n + 1;
      }
      assert ls[..n] == ls;
      return Some(count);
    }

    /** One record of the candidate: skipped, refused or planned. */
    method PlanOne(target: Cls, es: seq<Entry>, id: Id, ghost done: seq<Id>, ghost rest: seq<Id>) returns (r: Result<seq<Entry>>)
      requires Valid() && target in lists && id in methods
      requires Plans(methods, Records(target), done, es) && AllComplete(methods, done) && |es| <= |done|
      ensures r.Ok? ==>
        && Plans(methods, Records(target), done + [id], r.value) && AllComplete(methods, done + [id])
        && |r.value| <= |done| + 1
      ensures r.Rejected? ==> r.reason == MethodMetadata || r.reason == MethodSignature
      ensures r == Rejected(MethodMetadata) ==> !Complete(methods, id)
      ensures r == Rejected(MethodSignature) ==> Clash(methods, Records(target), done + [id] + rest)
    {
      var incoming := methods[id];
      if incoming.name.None? || incoming.types.None? || incoming.imp.None? {
        return Rejected(MethodMetadata);
      }
      var name := incoming.name.value;
      var seen := PlanContainsName(es, name);
      if seen {
        SkipKeepsPlan(methods, Records(target), done, es, id, name);
        return Ok(es);
      }
      var existing := FindMethod(target, name);
      FirstNamed(methods, Records(target), name);
      if existing.Some? && methods[existing.value].types != incoming.types {
        ClashIsReal(methods, Records(target), done, es, id, rest, name);
        return Rejected(MethodSignature);
      }
      var e := Entry(existing, name, incoming.imp.value, incoming.types.value);
      EntryKeepsPlan(methods, Records(target), done, es, id, e);
      return Ok(es + [e]);
    }

    /** The candidate's records of one list. */
    method PlanList(target: Cls, es: seq<Entry>, l: MethodList, ghost before: seq<Id>, ghost after: seq<Id>) returns (r: Result<seq<Entry>>)
      requires Valid() && target in lists && Readable(l) && ListOk(methods, l)
      requires Plans(methods, Records(target), before, es) && AllComplete(methods, before) && |es| <= |before|
      ensures r.Ok? ==>
        && Plans(methods, Records(target), before + l.methods, r.value) && AllComplete(methods, before + l.methods)
        && |r.value| <= |before + l.methods|
      ensures r.Rejected? ==> r.reason == MethodMetadata || r.reason == MethodSignature
      ensures r == Rejected(MethodMetadata) ==> !AllComplete(methods, before + l.methods + after)
      ensures r == Rejected(MethodSignature) ==> Clash(methods, Records(target), before + l.methods + after)
    {
      hide Plans, Clash, Valid, Reach;
      var i := 0;
      r := Ok(es);
      assert before + l.methods[..0] == before;
      while i < l.count
        invariant 0 <= i <= l.count && r.Ok? && |r.value| <= |before| + i
        invariant Plans(methods, Records(target), before + l.methods[..i], r.value)
        invariant AllComplete(methods, before + l.methods[..i])
      {
        ghost var done, rest := before + l.methods[..i], l.methods[i + 1..] + after;
        assert done + [l.methods[i]] == before + l.methods[..i + 1];
        assert done + [l.methods[i]] + rest == before + l.methods + after;
        r := PlanOne(target, r.value, l.methods[i], done, rest);
        if r.Rejected? {
          assert (before + l.methods + after)[|done|] == l.methods[i];
          return;
        }
        i := i + 1;
      }
      assert l.methods[..i] == l.methods;
    }

    /** The loop of safe_reload_prepare_plan over the candidate's lists. */
    method PlanEntries(target: Cls, source: Cls) returns (r: Result<seq<Entry>>)
      requires Valid() && target in lists && source in lists && AllReadable(lists[source])
      ensures r.Ok? ==>
        && Plans(methods, Records(target), Records(source), r.value) && AllComplete(methods, Records(source))
        && |r.value| <= |Records(source)|
      ensures r.Rejected? ==> r.reason == MethodMetadata || r.reason == MethodSignature
      ensures r == Rejected(MethodMetadata) ==> !AllComplete(methods, Records(source))
      ensures r == Rejected(MethodSignature) ==> Clash(methods, Records(target), Records(source))
    {
      hide Plans, Clash, AllComplete;
      var ls, n := lists[source], 0;
      r := Ok([]);
      EmptyPlan(methods, Records(target));
      while n < |ls|
        invariant n <= |ls| && r.Ok? && |r.value| <= |Reach(ls[..n])|
        invariant Plans(methods, Records(target), Reach(ls[..n]), r.value) && AllComplete(methods, Reach(ls[..n]))
      {
        ReachNext(ls, n);
        assert ls == ls[..n + 1] + ls[n + 1..];
        ReachAppend(ls[..n + 1], ls[n + 1..]);
        assert ListOk(methods, ls[n]) && Readable(ls[n]);
        r := PlanList(target, r.value, ls[n], Reach(ls[..n]), Reach(ls[n + 1..]));
        if r.Rejected? {
          return;
        }
        n := n + 1;
      }
      assert ls[..n] == ls;
    }

    /** Copies the entries without a target into the new list; a failed copy undoes the others. */
    method FillAdditions(es: seq<Entry>) returns (ok: bool)
      requires Valid()
      modifies this`methods, this`top, this`failures
      ensures Valid()
      ensures failures >= old(failures) && (!ok <==> failures > old(failures))
      ensures ok ==> Extends(old(methods), methods, old(top), top) && top == old(top) + |Additions(es)|
      ensures ok ==> Stored(methods, Additions(es), old(top))
      ensures !ok ==> methods == old(methods) && top == old(top)
    {
      var i := 0;
      var first := top;
      assert es[..0] == [];
      while i < |es|
        invariant i <= |es| && top == first + |Additions(es[..i])|
        invariant Extends(old(methods), methods, first, top) && Valid() && failures == old(failures)
        invariant Stored(methods, Additions(es[..i]), first)
      {
        assert es[..i + 1][..i] == es[..i];
        if es[i].target.None? {
          var copied := Allocates();
          if !copied {
            Discard(first, old(methods));
            return false;
          }
          methods := methods[top := Fresh(es[i])];
          top := top + 1;
        }
        i := i + 1;
      }
      assert es[..i] == es;
      return true;
    }

    /** Frees the records from first on. */
    method Discard(first: Id, ghost before: Methods)
      requires Valid() && Extends(before, methods, first, top) && (forall id :: id in before ==> id < first)
      requires forall c :: c in lists ==> ListsOk(before, lists[c])
      modifies this`methods, this`top
      ensures Valid() && methods == before && top == first
    {
      methods := map id | id in methods && id < first :: methods[id];
      top := first;
    }

    /** safe_reload_prepare_plan. */
    method PreparePlan(target: Cls, source: Cls) returns (r: Result<Plan>)
      requires Valid() && target in lists && source in lists
      modifies this`methods, this`top, this`failures
      ensures Valid()
      ensures r.Ok? ==>
        && r.value.target == target && PlanOk(methods, r.value, old(top), top) && Extends(old(methods), methods, old(top), top)
        && Plans(old(methods), Records(target), Records(source), r.value.entries)
        && AllReadable(lists[source]) && AllComplete(old(methods), Records(source))
      ensures r.Rejected? ==> methods == old(methods) && top == old(top)
      ensures r.Rejected? ==> r.reason in {MethodMetadata, MethodSignature, OutOfMemory}
      ensures failures >= old(failures) && (r == Rejected(OutOfMemory) <==> failures > old(failures))
      ensures r == Rejected(MethodMetadata) ==> BadMethods(methods, lists[source])
      ensures r == Rejected(MethodSignature) ==> Clash(methods, Records(target), Records(source))
    {
      hide Plans, Clash;
      var total := CountMethods(source);
      if total.None? {
        return Rejected(MethodMetadata);
      }
      EmptyPlan(methods, Records(target));
      if total.value == 0 {
        assert Records(source) == [];
        return Ok(Plan(target, [], None));
      }
      if total.value > SIZE_MAX / ENTRY_SIZE {
        return Rejected(MethodMetadata);
      }
      var got := Allocates();
      if !got {
        return Rejected(OutOfMemory);
      }
      var es := PlanEntries(target, source);
      if es.Rejected? {
        return Rejected(es.reason);
      }
      var additions := |Additions(es.value)|;
      if additions == 0 {
        return Ok(Plan(target, es.value, None));
      }
      if additions > INT_MAX {
        return Rejected(MethodMetadata);
      }
      assert LIST_HEADER + additions * METHOD_SIZE <= SIZE_MAX;
      got := Allocates();
      if !got {
        return Rejected(OutOfMemory);
      }
      var filled := FillAdditions(es.value);
      if !filled {
        return Rejected(OutOfMemory);
      }
      return Ok(Plan(target, es.value, Some(AddedList(top - additions, additions))));
    }

    /** safe_reload_commit_plan. */
    method CommitPlan(p: Plan)
      requires Valid() && p.target in lists && Ready(methods, p)
      modifies this`methods, this`lists
      ensures Valid() && methods == Overwritten(old(methods), p.entries)
      ensures lists == old(lists)[p.target := WithAdditions(old(lists[p.target]), p)]
    {
      if p.additions.Some? {
        lists := lists[p.target := [p.additions.value] + lists[p.target]];
      }
      assert lists == old(lists)[p.target := WithAdditions(old(lists[p.target]), p)];
      assert Valid();
      var i := 0;
      assert p.entries[..0] == [];
      while i < |p.entries|
        invariant i <= |p.entries| && methods == Overwritten(old(methods), p.entries[..i]) && methods.Keys == old(methods).Keys
        invariant Valid() && lists == old(lists)[p.target := WithAdditions(old(lists[p.target]), p)]
      {
        var e := p.entries[i];
        assert p.entries[..i + 1][..i] == p.entries[..i];
        if e.target.Some? {
          methods := methods[e.target.value := methods[e.target.value].(imp := Some(e.imp))];
        }
        i := i + 1;
      }
      assert p.entries[..i] == p.entries;
    }

    /** safe_reload_class: both plans are prepared before either is carried out. */
    method Reload(candidate: Cls, candidateMeta: Option<Cls>, canonical: Cls, canonicalMeta: Option<Cls>, layout: Option<Reason>)
      returns (refused: Option<Reason>)
      requires Valid() && canonical in lists && candidate in lists
      requires candidateMeta.Some? ==> candidateMeta.value in lists
      requires canonicalMeta.Some? ==> canonicalMeta.value in lists && canonicalMeta.value != canonical
      requires canonicalMeta.Some? ==> forall id :: id in Records(canonical) ==> id !in Records(canonicalMeta.value)
      modifies this
      ensures Valid()
      ensures refused.Some? ==> methods == old(methods) && lists == old(lists)
      ensures refused.None? ==>
        && candidateMeta.Some? && canonicalMeta.Some? && layout.None?
        && Reloaded(old(methods), methods, old(Records(canonical)), old(Records(candidate)), Records(canonical))
        && Reloaded(old(methods), methods, old(Records(canonicalMeta.value)), old(Records(candidateMeta.value)), Records(canonicalMeta.value))
        && (forall id :: id in old(methods) ==> id in methods && SameIdentity(old(methods)[id], methods[id]))
        && (forall c :: c in old(lists) && c != canonical && c != canonicalMeta.value ==> c in lists && lists[c] == old(lists)[c])
      ensures refused.None? ==>
        && (forall l :: l in old(lists[candidate]) || l in old(lists[candidateMeta.value]) ==> l.count >= 0 && l.size >= 24)
        && (forall id :: id in old(Records(candidate)) || id in old(Records(candidateMeta.value)) ==>
              id in old(methods) && old(methods)[id].name.Some? && old(methods)[id].types.Some? && old(methods)[id].imp.Some?)
      ensures layout.None? ==> (refused == Some(BadMetaclass) <==> candidateMeta.None? || canonicalMeta.None?)
      ensures layout.None? ==> refused != Some(BadLayout)
      ensures layout.Some? && candidateMeta.Some? && canonicalMeta.Some? ==> refused == layout
      ensures layout.None? ==> (refused == Some(OutOfMemory) <==> failures > old(failures))
      ensures refused == Some(MethodSignature) && layout.None? ==>
        candidateMeta.Some? && canonicalMeta.Some? && (
        || Clash(methods, Records(canonical), Records(candidate))
        || Clash(methods, Records(canonicalMeta.value), Records(candidateMeta.value)))
      ensures refused == Some(MethodMetadata) && layout.None? ==>
        candidateMeta.Some? && (BadMethods(methods, lists[candidate]) || BadMethods(methods, lists[candidateMeta.value]))
    {
      hide Plans, Clash, PlanOk, Reloaded, BadMethods, Overwritten, WithAdditions, Extends, BothPrepared, Ready, First, Reach, ListsOk, AllIn, AllReadable, AllComplete;
      if candidateMeta.None? || canonicalMeta.None? {
        return Some(BadMetaclass);
      }
      if layout.Some? {
        return layout;
      }
      var meta, first := canonicalMeta.value, top;
      var instance := PreparePlan(canonical, candidate);
      if instance.Rejected? {
        return Some(instance.reason);
      }
      ReachIn(old(methods), lists[candidate]);
      GoodRecords(old(methods), old(methods), first, first, lists[candidate]);
      ghost var mid, middle := methods, top;
      ghost var t1, s1, t2, s2 := Records(canonical), Records(candidate), Records(meta), Records(candidateMeta.value);
      assert t1 == old(Records(canonical)) && t2 == old(Records(meta));
      ReachIn(old(methods), lists[canonical]);
      ReachIn(old(methods), lists[meta]);
      ReachIn(old(methods), lists[candidateMeta.value]);
      var class_ := PreparePlan(meta, candidateMeta.value);
      if class_.Rejected? {
        RefusalFramed(old(methods), mid, first, top, lists[meta], lists[candidateMeta.value]);
        Discard(first, old(methods));
        return Some(class_.reason);
      }
      GoodRecords(old(methods), mid, first, middle, lists[candidateMeta.value]);
      ghost var m2, end := methods, top;
      PreparedFramed(old(methods), mid, m2, first, middle, end, t1, s1, t2, s2, instance.value, class_.value);
      ReachWithAdditions(m2, lists[canonical], instance.value, first, middle);
      ReachWithAdditions(m2, lists[meta], class_.value, middle, end);
      CommitPlan(instance.value);
      OverwrittenKeys(m2, instance.value.entries);
      ReadyKept(m2, methods, class_.value);
      CommitPlan(class_.value);
      BothMeanings(old(methods), m2, first, middle, end, t1, s1, t2, s2, instance.value, class_.value);
      return None;
    }
  }

  /** What it takes to plan a candidate's records, also if the other plan's records exist by then. */
  lemma GoodRecords(m: Methods, m': Methods, first: Id, end: Id, ls: seq<MethodList>)
    requires (m' == m || Extends(m, m', first, end)) && AllIn(m, Reach(ls)) && AllReadable(ls) && AllComplete(m', Reach(ls))
    ensures forall l :: l in ls ==> l.count >= 0 && l.size >= 24
    ensures forall id :: id in Reach(ls) ==> id in m && m[id].name.Some? && m[id].types.Some? && m[id].imp.Some?
  {
    forall id | id in Reach(ls)
      ensures id in m && m[id].name.Some? && m[id].types.Some? && m[id].imp.Some?
    {
      var k :| 0 <= k < |Reach(ls)| && Reach(ls)[k] == id;
      assert Complete(m', Reach(ls)[k]);
    }
  }

  /** What is wrong with records that cannot make a plan. */
  lemma BadRecords(m: Methods, ls: seq<MethodList>)
    requires BadMethods(m, ls)
    ensures
      || (exists l :: l in ls && (l.count < 0 || l.size < 24))
      || (exists id :: id in Reach(ls) && (id !in m || m[id].name.None? || m[id].types.None? || m[id].imp.None?))
      || |Reach(ls)| > 0x7fff_ffff
  {
    if !AllReadable(ls) {
      var k :| 0 <= k < |ls| && !Readable(ls[k]);
      assert ls[k] in ls;
    } else if !AllComplete(m, Reach(ls)) {
      var k :| 0 <= k < |Reach(ls)| && !Complete(m, Reach(ls)[k]);
      assert Reach(ls)[k] in Reach(ls);
    }
  }

  /** A refusal found while the other plan's records exist holds without them. */
  lemma RefusalFramed(m: Methods, m': Methods, first: Id, end: Id, target: seq<MethodList>, source: seq<MethodList>)
    requires Extends(m, m', first, end) && ListsOk(m, target) && ListsOk(m, source)
    ensures BadMethods(m', source) ==> BadMethods(m, source)
    ensures Clash(m', Reach(target), Reach(source)) ==> Clash(m, Reach(target), Reach(source))
  {
    ReachIn(m, source);
    ReachIn(m, target);
    if AllComplete(m, Reach(source)) {
      forall k | 0 <= k < |Reach(source)|
        ensures Complete(m', Reach(source)[k])
      {
        assert Complete(m, Reach(source)[k]);
      }
    }
    if Clash(m', Reach(target), Reach(source)) {
      var name :| !SameSignature(m', Reach(target), Reach(source), name);
      FirstFramed(m, m', Reach(target), name);
      FirstFramed(m, m', Reach(source), name);
      FirstNamed(m, Reach(target), name);
      FirstNamed(m, Reach(source), name);
      assert !SameSignature(m, Reach(target), Reach(source), name);
    }
  }

  lemma EntryFramed(m: Methods, m': Methods, first: Id, end: Id, target: seq<Id>, source: seq<Id>, e: Entry)
    requires Extends(m, m', first, end) && AllIn(m, target) && AllIn(m, source) && EntryOk(m', target, source, e)
    ensures EntryOk(m, target, source, e)
  {
    FirstFramed(m, m', target, e.name);
    FirstFramed(m, m', source, e.name);
    FirstNamed(m, target, e.name);
    FirstNamed(m, source, e.name);
  }

  lemma PlansFramed(m: Methods, m': Methods, first: Id, end: Id, target: seq<Id>, source: seq<Id>, es: seq<Entry>)
    requires Extends(m, m', first, end) && AllIn(m, target) && AllIn(m, source) && Plans(m', target, source, es)
    ensures Plans(m, target, source, es)
  {
    forall k | 0 <= k < |es|
      ensures EntryOk(m, target, source, es[k])
    {
      EntryFramed(m, m', first, end, target, source, es[k]);
    }
    forall name | First(m, source, name).Some?
      ensures HasName(es, name)
    {
      FirstFramed(m, m', source, name);
    }
  }

  /** Two plans prepared one after the other, seen from the end. */
  ghost predicate BothPrepared(m: Methods, m': Methods, first: Id, middle: Id, end: Id, t1: seq<Id>, s1: seq<Id>, t2: seq<Id>, s2: seq<Id>, p1: Plan, p2: Plan) {
    && Extends(m, m', first, end) && first <= middle
    && PlanOk(m', p1, first, middle) && PlanOk(m', p2, middle, end)
    && Plans(m, t1, s1, p1.entries) && Plans(m, t2, s2, p2.entries)
    && AllIn(m, t1) && AllIn(m, t2)
    && (forall id :: id in m ==> id < first)
    && (forall id :: id in t1 ==> id !in t2)
  }

  lemma PreparedFramed(m: Methods, mid: Methods, m': Methods, first: Id, middle: Id, end: Id, t1: seq<Id>, s1: seq<Id>, t2: seq<Id>, s2: seq<Id>, p1: Plan, p2: Plan)
    requires Extends(m, mid, first, middle) && Extends(mid, m', middle, end)
    requires PlanOk(mid, p1, first, middle) && PlanOk(m', p2, middle, end)
    requires Plans(m, t1, s1, p1.entries) && Plans(mid, t2, s2, p2.entries)
    requires AllIn(m, t1) && AllIn(m, t2) && AllIn(m, s2)
    requires forall id :: id in m ==> id < first
    requires forall id :: id in t1 ==> id !in t2
    ensures BothPrepared(m, m', first, middle, end, t1, s1, t2, s2, p1, p2)
    ensures Ready(m', p1) && Ready(m', p2)
  {
    PlansFramed(m, mid, first, middle, t2, s2, p2.entries);
    TargetsIn(m, t1, s1, p1.entries);
    TargetsIn(m, t2, s2, p2.entries);
  }

  lemma TargetsIn(m: Methods, target: seq<Id>, source: seq<Id>, es: seq<Entry>)
    requires Plans(m, target, source, es)
    ensures forall k :: 0 <= k < |es| && es[k].target.Some? ==> es[k].target.value in m && es[k].target.value in target
  {
    forall k | 0 <= k < |es| && es[k].target.Some?
      ensures es[k].target.value in m && es[k].target.value in target
    {
      PlanTargetsReached(m, target, source, es, k);
    }
  }

  /** A record after both commits. */
  lemma TwiceOverwritten(m: Methods, a: seq<Entry>, b: seq<Entry>, id: Id)
    requires id in m && DistinctTargets(a) && DistinctTargets(b)
    ensures
      var m' := Overwritten(Overwritten(m, a), b);
      && id in m' && SameIdentity(m[id], m'[id])
      && (!Targets(b, id) ==> Updated(a, id, m[id], m'[id]))
      && (!Targets(a, id) ==> Updated(b, id, m[id], m'[id]))
  {
    OverwrittenAt(m, a, id);
    OverwrittenAt(Overwritten(m, a), b, id);
  }

  lemma NotTargeted(es: seq<Entry>, target: seq<Id>, id: Id)
    requires forall k :: 0 <= k < |es| && es[k].target.Some? ==> es[k].target.value in target
    requires id !in target
    ensures !Targets(es, id)
  {
  }

  lemma StoredKept(m: Methods, m': Methods, records: seq<Method>, at: Id, first: Id)
    requires Stored(m, records, at) && at >= first && forall id :: id in m && id >= first ==> id in m' && m'[id] == m[id]
    ensures Stored(m', records, at)
  {
  }

  /** One of the two plans, as its target class sees the final records. */
  lemma OneCommitted(m: Methods, m2: Methods, m': Methods, target: seq<Id>, es: seq<Entry>, first: Id)
    requires AllIn(m, target) && forall id :: id in m ==> id in m2 && m2[id] == m[id] && id < first
    requires Stored(m', Additions(es), first)
    requires forall id :: id in target && id in m2 ==> id in m' && Updated(es, id, m2[id], m'[id])
    ensures CommittedTo(m, m', target, es, first)
  {
    hide Updated, Stored;
    forall k | 0 <= k < |target|
      ensures target[k] in m && target[k] in m' && Updated(es, target[k], m[target[k]], m'[target[k]])
    {
      assert target[k] in target;
    }
  }

  lemma BothMeanings(m: Methods, m2: Methods, first: Id, middle: Id, end: Id, t1: seq<Id>, s1: seq<Id>, t2: seq<Id>, s2: seq<Id>, p1: Plan, p2: Plan)
    requires BothPrepared(m, m2, first, middle, end, t1, s1, t2, s2, p1, p2)
    ensures
      var m' := Overwritten(Overwritten(m2, p1.entries), p2.entries);
      && Reloaded(m, m', t1, s1, Ids(first, |Additions(p1.entries)|) + t1)
      && Reloaded(m, m', t2, s2, Ids(middle, |Additions(p2.entries)|) + t2)
      && forall id :: id in m ==> id in m' && SameIdentity(m[id], m'[id])
  {
    var a, b := p1.entries, p2.entries;
    var m' := Overwritten(Overwritten(m2, a), b);
    PlanTargetsDiffer(m, t1, s1, a);
    PlanTargetsDiffer(m, t2, s2, b);
    TargetsIn(m, t1, s1, a);
    TargetsIn(m, t2, s2, b);
    hide Overwritten, Plans;
    forall id | id in m2
      ensures id in m' && SameIdentity(m2[id], m'[id])
      ensures id !in t2 ==> Updated(a, id, m2[id], m'[id])
      ensures id !in t1 ==> Updated(b, id, m2[id], m'[id])
      ensures id !in t1 && id !in t2 ==> m'[id] == m2[id]
    {
      TwiceOverwritten(m2, a, b, id);
      if id !in t1 {
        NotTargeted(a, t1, id);
      }
      if id !in t2 {
        NotTargeted(b, t2, id);
      }
    }
    hide Updated, Targets, Stored, Reloaded;
    assert forall id :: id in m2 && id >= first ==> id !in t1 && id !in t2;
    StoredKept(m2, m', Additions(a), first, first);
    StoredKept(m2, m', Additions(b), middle, first);
    OneCommitted(m, m2, m', t1, a, first);
    OneCommitted(m, m2, m', t2, b, middle);
    MeansReloaded(m, m', t1, s1, a, first);
    MeansReloaded(m, m', t2, s2, b, middle);
  }

  lemma MeansReloaded(m: Methods, m': Methods, target: seq<Id>, source: seq<Id>, es: seq<Entry>, first: Id)
    requires Plans(m, target, source, es) && CommittedTo(m, m', target, es, first)
    ensures Reloaded(m, m', target, source, Ids(first, |Additions(es)|) + target)
  {
    forall name: string
      ensures NameReloaded(m, m', target, source, Ids(first, |Additions(es)|) + target, name)
    {
      CommitMeaning(m, m', target, source, es, first, name);
      PlanIsCompatible(m, target, source, es, name);
    }
  }

  lemma ReadyKept(m: Methods, m': Methods, p: Plan)
    requires Ready(m, p) && m'.Keys == m.Keys
    ensures Ready(m', p)
  {
  }

  lemma EmptyPlan(m: Methods, target: seq<Id>)
    ensures Plans(m, target, [], []) && AllComplete(m, [])
  {
  }

  ghost predicate SameIdentity(before: Method, after: Method) {
    after.name == before.name && after.types == before.types
  }

  /** The name means the candidate's first definition where there is one and otherwise what it
      meant; a record found before is found again; the signatures agree. */
  ghost predicate NameReloaded(m: Methods, m': Methods, target: seq<Id>, source: seq<Id>, target': seq<Id>, name: string) {
    && ImpOf(m', target', name) == (if First(m, source, name).Some? then ImpOf(m, source, name) else ImpOf(m, target, name))
    && (First(m, target, name).Some? ==> First(m', target', name) == First(m, target, name))
    && SameSignature(m, target, source, name)
  }

  ghost predicate Reloaded(m: Methods, m': Methods, target: seq<Id>, source: seq<Id>, target': seq<Id>) {
    forall name :: NameReloaded(m, m', target, source, target', name)
  }
}
