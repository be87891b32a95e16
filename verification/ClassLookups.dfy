/**
  Lookups through per-thread caches while other threads change the class table.  A
  mutation writes the table first and advances the generation afterwards; a lookup
  loads the generation, then answers from its cache or from the table, and only then
  fills the cache.  All of these are separate steps of arbitrarily many threads.
 */
module ClassLookups {
  import opened ClassCache

  type Thread = nat

  datatype Phase =
    | Idle
    /** Between loading the generation and an answer from the cache or the table. */
    | Loaded(text: string)
    /** The table has answered; the cache is not filled yet. */
    | Fetched(text: string, answer: Cls)
    /** The answer of the last lookup. */
    | Done(text: string, result: Cls)

  /** One thread: its cache, the number of mutations complete when its lookup began, its phase. */
  datatype Local = Local(generation: nat, cached: set<Cls>, phase: Phase)

  /** An instant of the shared state. */
  datatype Moment = Moment(generation: nat, table: Table)

  /** pending counts the mutations that have written the table but not advanced the generation. */
  datatype State = State(now: Moment, pending: nat, locals: map<Thread, Local>, history: seq<Moment>)

  datatype Step =
    | Write(table: Table)
    | Advance
    | Begin(thread: Thread, text: string)
    | Hit(thread: Thread, cls: Cls)
    | Fetch(thread: Thread)
    | Fill(thread: Thread, evicted: set<Cls>)

  ghost predicate Initial(s: State) {
    && s.now.generation == 1 && s.pending == 0 && s.history == [s.now]
    && forall t :: t in s.locals ==> s.locals[t] == Local(0, {}, Idle)
  }

  ghost predicate Resting(l: Local) {
    l.phase.Idle? || l.phase.Done?
  }

  ghost predicate Enabled(names: Names, s: State, e: Step) {
    match e
    case Write(t) => TableOk(t, names)
    case Advance => s.pending > 0
    case Begin(t, _) => t in s.locals && Resting(s.locals[t])
    case Hit(t, c) =>
      && t in s.locals && s.locals[t].phase.Loaded?
      && c in s.locals[t].cached && c in names && names[c] == s.locals[t].phase.text
    case Fetch(t) => t in s.locals && s.locals[t].phase.Loaded?
    case Fill(t, _) => t in s.locals && s.locals[t].phase.Fetched?
  }

  /** What a thread's own step makes of it. */
  function LocalAfter(now: Moment, l: Local, e: Step): Local
    requires e.Begin? || (e.Hit? && l.phase.Loaded?) || (e.Fetch? && l.phase.Loaded?) || (e.Fill? && l.phase.Fetched?)
  {
    match e
    case Begin(_, text) =>
      if l.generation != now.generation then Local(now.generation, {}, Loaded(text)) else l.(phase := Loaded(text))
    case Hit(_, c) => l.(phase := Done(l.phase.text, c))
    case Fetch(_) => l.(phase := Fetched(l.phase.text, LookUp(now.table, l.phase.text)))
    case Fill(_, evicted) =>
      var filled := if l.phase.answer == NIL then l.cached else l.cached - evicted + {l.phase.answer};
      l.(cached := filled, phase := Done(l.phase.text, l.phase.answer))
  }

  function After(s: State, e: Step): State
    requires e.Begin? || e.Hit? || e.Fetch? || e.Fill? ==> e.thread in s.locals
    requires e.Hit? || e.Fetch? ==> s.locals[e.thread].phase.Loaded?
    requires e.Fill? ==> s.locals[e.thread].phase.Fetched?
    requires e.Advance? ==> s.pending > 0
  {
    match e
    case Write(t) =>
      var m := s.now.(table := t);
      s.(now := m, pending := s.pending + 1, history := s.history + [m])
    case Advance =>
      var m := s.now.(generation := s.now.generation + 1);
      s.(now := m, pending := s.pending - 1, history := s.history + [m])
    case Begin(t, _) => s.(locals := s.locals[t := LocalAfter(s.now, s.locals[t], e)])
    case Hit(t, _) => s.(locals := s.locals[t := LocalAfter(s.now, s.locals[t], e)])
    case Fetch(t) => s.(locals := s.locals[t := LocalAfter(s.now, s.locals[t], e)])
    case Fill(t, _) => s.(locals := s.locals[t := LocalAfter(s.now, s.locals[t], e)])
  }

  ghost predicate Next(names: Names, s: State, s': State, e: Step) {
    Enabled(names, s, e) && s' == After(s, e)
  }

  /** At some instant not before the given generation began, the table gave this answer. */
  ghost predicate Was(history: seq<Moment>, generation: nat, text: string, answer: Cls) {
    exists i :: 0 <= i < |history| && history[i].generation >= generation && LookUp(history[i].table, text) == answer
  }

  ghost predicate CachedOk(names: Names, history: seq<Moment>, generation: nat, c: Cls) {
    c != NIL && c in names && Was(history, generation, names[c], c)
  }

  ghost predicate PhaseOk(history: seq<Moment>, l: Local) {
    match l.phase
    case Fetched(text, answer) => Was(history, l.generation, text, answer)
    case Done(text, result) => Was(history, l.generation, text, result)
    case _ => true
  }

  ghost predicate LocalOk(names: Names, s: State, l: Local) {
    && l.generation <= s.now.generation && PhaseOk(s.history, l)
    && (forall c :: c in l.cached ==> CachedOk(names, s.history, l.generation, c))
    && (l.phase.Fetched? ==> l.phase.answer != NIL ==> l.phase.answer in names && names[l.phase.answer] == l.phase.text)
  }

  /** While no mutation is under way, the table has been the same since the generation began. */
  ghost predicate QuietOk(s: State) {
    s.pending == 0 ==>
      forall i :: 0 <= i < |s.history| && s.history[i].generation == s.now.generation ==> s.history[i].table == s.now.table
  }

  ghost predicate Inv(names: Names, s: State) {
    && QuietOk(s) && s.history != [] && s.history[|s.history| - 1] == s.now && TableOk(s.now.table, names)
    && (forall i, j :: 0 <= i <= j < |s.history| ==> s.history[i].generation <= s.history[j].generation)
    && forall t :: t in s.locals ==> LocalOk(names, s, s.locals[t])
  }

  lemma InitialHolds(names: Names, s: State)
    requires Initial(s) && TableOk(s.now.table, names)
    ensures Inv(names, s)
  {
  }

  lemma WasLater(history: seq<Moment>, m: Moment, generation: nat, text: string, answer: Cls)
    requires Was(history, generation, text, answer)
    ensures Was(history + [m], generation, text, answer)
  {
    var i :| 0 <= i < |history| && history[i].generation >= generation && LookUp(history[i].table, text) == answer;
    assert (history + [m])[i] == history[i];
  }

  lemma LocalLater(names: Names, s: State, s': State, l: Local)
    requires LocalOk(names, s, l) && s'.history == s.history + [s'.now] && s.now.generation <= s'.now.generation
    ensures LocalOk(names, s', l)
  {
    hide Was;
    forall c | c in l.cached
      ensures CachedOk(names, s'.history, l.generation, c)
    {
      WasLater(s.history, s'.now, l.generation, names[c], c);
    }
    if l.phase.Fetched? {
      WasLater(s.history, s'.now, l.generation, l.phase.text, l.phase.answer);
    } else if l.phase.Done? {
      WasLater(s.history, s'.now, l.generation, l.phase.text, l.phase.result);
    }
  }

  lemma OwnStep(names: Names, s: State, t: Thread, e: Step)
    requires Inv(names, s) && Enabled(names, s, e) && !e.Write? && !e.Advance? && e.thread == t
    ensures LocalOk(names, s, LocalAfter(s.now, s.locals[t], e))
  {
    var l := s.locals[t];
    assert LocalOk(names, s, l);
    var l' := LocalAfter(s.now, l, e);
    match e
    case Begin(_, _) =>
    case Hit(_, c) =>
      assert CachedOk(names, s.history, l.generation, c);
    case Fetch(_) =>
      assert LookUp(s.history[|s.history| - 1].table, l.phase.text) == l'.phase.answer;
    case Fill(_, _) =>
      forall c | c in l'.cached
        ensures CachedOk(names, s.history, l'.generation, c)
      {
      }
  }

  lemma StepIsSafe(names: Names, s: State, s': State, e: Step)
    requires Inv(names, s) && Next(names, s, s', e)
    ensures Inv(names, s')
  {
    hide LocalOk;
    if e.Write? || e.Advance? {
      forall t | t in s'.locals
        ensures LocalOk(names, s', s'.locals[t])
      {
        LocalLater(names, s, s', s.locals[t]);
      }
    } else {
      OwnStep(names, s, e.thread, e);
      forall t | t in s'.locals
        ensures LocalOk(names, s', s'.locals[t])
      {
        assert LocalOk(names, s, s'.locals[t]);
        SameMoments(names, s, s', s'.locals[t]);
      }
    }
  }

  lemma SameMoments(names: Names, s: State, s': State, l: Local)
    requires LocalOk(names, s, l) && s'.history == s.history && s'.now == s.now
    ensures LocalOk(names, s', l)
  {
  }

  ghost predicate Run(names: Names, states: seq<State>, steps: seq<Step>) {
    && |states| == |steps| + 1 && Initial(states[0]) && TableOk(states[0].now.table, names)
    && forall i :: 0 <= i < |steps| ==> Next(names, states[i], states[i + 1], steps[i])
  }

  lemma {:induction false} RunsAreSafe(names: Names, states: seq<State>, steps: seq<Step>, n: nat)
    requires Run(names, states, steps) && n <= |steps|
    ensures Inv(names, states[n])
  {
    if n == 0 {
      InitialHolds(names, states[0]);
    } else {
      RunsAreSafe(names, states, steps, n - 1);
      StepIsSafe(names, states[n - 1], states[n], steps[n - 1]);
    }
  }

  /** A lookup of thread t begun at step b and not yet followed by another one. */
  ghost predicate Lookup(names: Names, states: seq<State>, steps: seq<Step>, t: Thread, text: string, b: nat, n: nat) {
    && Run(names, states, steps) && b < n <= |steps| && steps[b] == Begin(t, text)
    && forall i :: b < i < n ==> !(steps[i].Begin? && steps[i].thread == t)
  }

  ghost predicate InPhase(l: Local, text: string) {
    match l.phase
    case Idle => false
    case Loaded(x) => x == text
    case Fetched(x, _) => x == text
    case Done(x, _) => x == text
  }

  lemma {:induction false} LookupKeepsGeneration(names: Names, states: seq<State>, steps: seq<Step>, t: Thread, text: string, b: nat, n: nat)
    requires Lookup(names, states, steps, t, text, b, n)
    ensures t in states[n].locals
    ensures states[n].locals[t].generation == states[b].now.generation && InPhase(states[n].locals[t], text)
  {
    assert Next(names, states[n - 1], states[n], steps[n - 1]);
    if n > b + 1 {
      LookupKeepsGeneration(names, states, steps, t, text, b, n - 1);
    }
  }

  lemma {:induction false} HistoryIsPast(names: Names, states: seq<State>, steps: seq<Step>, n: nat, i: nat) returns (k: nat)
    requires Run(names, states, steps) && n <= |steps| && i < |states[n].history|
    ensures k <= n && states[k].now == states[n].history[i]
  {
    if n == 0 {
      k := 0;
    } else {
      var s, s' := states[n - 1], states[n];
      assert Next(names, s, s', steps[n - 1]);
      RunsAreSafe(names, states, steps, n);
      if i < |s.history| {
        assert s'.history[i] == s.history[i];
        k := HistoryIsPast(names, states, steps, n - 1, i);
      } else {
        k := n;
      }
    }
  }

  /** Whatever runs beside it, a lookup's result was in the table at an instant when every mutation
      complete before the lookup began was in force. */
  lemma LookupIsFresh(names: Names, states: seq<State>, steps: seq<Step>, t: Thread, text: string, b: nat, n: nat) returns (k: nat)
    requires Lookup(names, states, steps, t, text, b, n)
    requires t in states[n].locals && states[n].locals[t].phase.Done?
    ensures k <= n && states[k].now.generation >= states[b].now.generation
    ensures LookUp(states[k].now.table, text) == states[n].locals[t].phase.result
  {
    LookupKeepsGeneration(names, states, steps, t, text, b, n);
    RunsAreSafe(names, states, steps, n);
    var s := states[n];
    var l := s.locals[t];
    assert LocalOk(names, s, l);
    var i :| 0 <= i < |s.history| && s.history[i].generation >= l.generation && LookUp(s.history[i].table, text) == l.phase.result;
    k := HistoryIsPast(names, states, steps, n, i);
  }

  lemma {:induction false} QuietTable(names: Names, states: seq<State>, steps: seq<Step>, b: nat, n: nat)
    requires Run(names, states, steps) && b <= n <= |steps| && states[b].pending == 0
    requires forall i :: b <= i < n ==> !steps[i].Write?
    ensures states[n].pending == 0 && states[n].now == states[b].now
  {
    if b < n {
      QuietTable(names, states, steps, b, n - 1);
      assert Next(names, states[n - 1], states[n], steps[n - 1]);
    }
  }

  /** With no mutation under way, a lookup returns exactly what the table says. */
  lemma QuietLookupIsExact(names: Names, states: seq<State>, steps: seq<Step>, t: Thread, text: string, b: nat, n: nat)
    requires Lookup(names, states, steps, t, text, b, n)
    requires t in states[n].locals && states[n].locals[t].phase.Done?
    requires states[b].pending == 0 && forall i :: b <= i < n ==> !steps[i].Write?
    ensures states[n].locals[t].phase.result == LookUp(states[n].now.table, text)
  {
    LookupKeepsGeneration(names, states, steps, t, text, b, n);
    RunsAreSafe(names, states, steps, n);
    QuietTable(names, states, steps, b, n);
    var s := states[n];
    assert LocalOk(names, s, s.locals[t]);
    var i :| 0 <= i < |s.history| && s.history[i].generation >= s.locals[t].generation && LookUp(s.history[i].table, text) == s.locals[t].phase.result;
    assert s.history[i].generation <= s.history[|s.history| - 1].generation;
  }

  /** And with one under way it need not: the cache still answers with the class that has been
      replaced. */
  lemma PendingMutationShows() returns (names: Names, states: seq<State>, steps: seq<Step>)
    ensures Lookup(names, states, steps, 0, "A", 4, 6)
    ensures 0 in states[6].locals && states[6].locals[0].phase.Done?
    ensures states[6].locals[0].phase.result != LookUp(states[6].now.table, "A")
  {
    names := map[1 := "A", 2 := "A"];
    steps := [Begin(0, "A"), Fetch(0), Fill(0, {}), Write(map["A" := 2]), Begin(0, "A"), Hit(0, 1)];
    var s0 := State(Moment(1, map["A" := 1]), 0, map[0 := Local(0, {}, Idle)], [Moment(1, map["A" := 1])]);
    var s1 := After(s0, steps[0]);
    var s2 := After(s1, steps[1]);
    var s3 := After(s2, steps[2]);
    var s4 := After(s3, steps[3]);
    var s5 := After(s4, steps[4]);
    var s6 := After(s5, steps[5]);
    states := [s0, s1, s2, s3, s4, s5, s6];
  }
}
