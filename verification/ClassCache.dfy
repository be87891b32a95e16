/**
  The per-thread cache in front of the class table.  A cached class counts only while
  the cache carries the table's generation, and only if its name still is what the
  caller's buffer says.
 */
module ClassCache {

  type Cls = nat
  const NIL: Cls := 0

  /** The address of a name buffer. */
  type Ptr = bv64

  /** The class table, and the name each class was given for good. */
  type Table = map<string, Cls>
  type Names = map<Cls, string>

  const SETS: nat := 16
  const WAYS: nat := 2

  /** The set that the buffer's address selects. */
  function CacheSet(name: Ptr): (r: nat)
    ensures r < SETS
  {
    var key := name >> 4;
    var key := key ^ (key >> 16);
    var key := key * 0x9e3779b1;
    var key := key ^ (key >> 13);
    (key & 15) as nat
  }

  function LookUp(t: Table, text: string): Cls {
    if text in t then t[text] else NIL
  }

  ghost predicate TableOk(t: Table, names: Names) {
    forall n :: n in t ==> t[n] != NIL && t[n] in names && names[t[n]] == n
  }

  /** The table maps the class's own name to the class. */
  ghost predicate Current(t: Table, names: Names, c: Cls) {
    c in names && LookUp(t, names[c]) == c
  }

  class ThreadCache {
    var generation: nat
    const keys: array2<Ptr>
    const entries: array2<Cls>
    const victim: array<nat>

    ghost predicate Shaped()
      reads this, victim
    {
      && keys.Length0 == SETS && keys.Length1 == WAYS && entries.Length0 == SETS && entries.Length1 == WAYS
      && (keys as object) != entries && (keys as object) != victim
      && victim.Length == SETS && forall s :: 0 <= s < SETS ==> victim[s] < WAYS
    }

    /** The classes the cache holds. */
    ghost predicate Holds(c: Cls)
      requires Shaped()
      reads this, victim, entries
    {
      c != NIL && exists s, w :: 0 <= s < SETS && 0 <= w < WAYS && entries[s, w] == c
    }

    /** Cached classes are current as long as the generation is the table's. */
    ghost predicate Valid(t: Table, names: Names, tableGeneration: nat)
      reads this, victim, entries
    {
      && Shaped() && TableOk(t, names) && generation <= tableGeneration
      && (generation == tableGeneration ==>
            forall s, w :: 0 <= s < SETS && 0 <= w < WAYS && entries[s, w] != NIL ==> Current(t, names, entries[s, w]))
    }

    constructor ()
      ensures fresh(keys) && fresh(entries) && fresh(victim) && Shaped() && generation == 0
      ensures forall c :: !Holds(c)
    {
      keys := new Ptr[SETS, WAYS]((_, _) => 0);
      entries := new Cls[SETS, WAYS]((_, _) => NIL);
      victim := new nat[SETS](_ => 0);
      generation := 0;
    }

    /** Forgets everything when the table has moved on. */
    method Flush(tableGeneration: nat)
      requires Shaped()
      modifies this, keys, entries, victim
      ensures Shaped() && generation == tableGeneration
      ensures generation == old(generation) ==>
        forall s, w :: 0 <= s < SETS && 0 <= w < WAYS ==> entries[s, w] == old(entries[s, w])
      ensures generation != old(generation) ==>
        forall s, w :: 0 <= s < SETS && 0 <= w < WAYS ==> entries[s, w] == NIL
    {
      if generation != tableGeneration {
        forall s, w | 0 <= s < SETS && 0 <= w < WAYS {
          keys[s, w] := 0;
        }
        forall s, w | 0 <= s < SETS && 0 <= w < WAYS {
          entries[s, w] := NIL;
        }
        forall s | 0 <= s < SETS {
          victim[s] := 0;
        }
        generation := tableGeneration;
      }
    }

    /** The way that a new class of this set takes. */
    method ChooseWay(s: nat) returns (way: nat)
      requires Shaped() && s < SETS
      ensures way < WAYS
      ensures (exists w :: 0 <= w < WAYS && entries[s, w] == NIL) ==> entries[s, way] == NIL
    {
      way := victim[s];
      for candidate := 0 to WAYS
        invariant way == victim[s] && forall w :: 0 <= w < candidate ==> entries[s, w] != NIL
      {
        if entries[s, candidate] == NIL {
          way := candidate;
          break;
        }
      }
    }

    /** class_table_get_safe: whatever the cache holds, the answer is the table's answer for the
        text that the buffer holds now.  A class that is found is cached for this buffer, and is not
        the next of its set to be replaced. */
    method Get(names: Names, t: Table, tableGeneration: nat, name: Ptr, text: string) returns (cls: Cls)
      requires Valid(t, names, tableGeneration)
      modifies this, keys, entries, victim
      ensures cls == if name == 0 then NIL else LookUp(t, text)
      ensures Valid(t, names, tableGeneration)
      ensures forall c :: Holds(c) ==> old(Holds(c)) || c == cls
      ensures name != 0 && cls != NIL ==> Holds(cls) && generation == tableGeneration
      ensures name != 0 && cls != NIL ==>
        exists w :: 0 <= w < WAYS && keys[CacheSet(name), w] == name && entries[CacheSet(name), w] == cls && victim[CacheSet(name)] != w
    {
      if name == 0 {
        return NIL;
      }
      Flush(tableGeneration);
      var s := CacheSet(name);
      for way := 0 to WAYS
        invariant Valid(t, names, tableGeneration) && generation == tableGeneration
        invariant forall c :: Holds(c) ==> old(Holds(c))
      {
        var cached := entries[s, way];
        if cached != NIL && keys[s, way] == name && text == names[cached] {
          victim[s] := 1 - way;
          assert keys[CacheSet(name), way] == name && entries[CacheSet(name), way] == cached;
          return cached;
        }
      }
      cls := LookUp(t, text);
      if cls != NIL {
        var way := ChooseWay(s);
        keys[s, way] := name;
        entries[s, way] := cls;
        victim[s] := 1 - way;
        assert keys[CacheSet(name), way] == name && entries[CacheSet(name), way] == cls;
      }
    }
  }
}
