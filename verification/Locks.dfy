/**
  The three-state lock word of ThinLock and the ordered double guard, for any
  number of threads, locks and interleavings.  Waiting and notifying follow section
  31.6 [atomics.wait] of C++20: a wait blocks only while it sees the expected value,
  a notification wakes every thread blocked on the word, and a blocked thread may
  also wake for no reason.
 */
module Locks {

  type Tid = nat
  /** A lock, by its address: guards are ordered by it. */
  type Lock = nat

  datatype Word = Unlocked | Locked | LockedWithWaiters

  /** Where lock() has got to. */
  datatype Pc =
    | Try        // about to swap Unlocked for Locked
    | Mark       // saw Locked: about to swap it for LockedWithWaiters
    | Wait       // about to compare the word with LockedWithWaiters
    | Asleep

  /** One lock (lo == hi) or two in ascending order. */
  datatype Guard = Guard(lo: Lock, hi: Lock)

  datatype Thread =
    | Idle
    | Acquiring(g: Guard, second: bool, pc: Pc)
    | Holding(g: Guard)
    | Releasing(g: Guard, second: bool)   // about to exchange the word for Unlocked
    | Notifying(g: Guard, second: bool)   // the exchange found waiters

  /** balance counts, for each thread, the locks acquired minus the locks released. */
  datatype State = State(words: map<Lock, Word>, threads: map<Tid, Thread>, balance: map<Tid, int>)

  function WordOf(st: State, l: Lock): Word {
    if l in st.words then st.words[l] else Unlocked
  }

  /** The lock a thread's next step is about. */
  function Subject(th: Thread): Lock
    requires th.Acquiring? || th.Releasing? || th.Notifying?
  {
    if th.second then th.g.hi else th.g.lo
  }

  ghost predicate Holds(th: Thread, l: Lock) {
    match th
    case Idle => false
    case Acquiring(g, second, _) => second && l == g.lo
    case Holding(g) => l == g.lo || l == g.hi
    case Releasing(g, second) => l == g.hi || (!second && l == g.lo)
    case Notifying(g, second) => !second && g.lo != g.hi && l == g.hi
  }

  function HeldCount(th: Thread): int {
    match th
    case Idle => 0
    case Acquiring(_, second, _) => if second then 1 else 0
    case Holding(g) => if g.lo == g.hi then 1 else 2
    case Releasing(g, second) => if g.lo == g.hi || second then 1 else 2
    case Notifying(g, second) => if g.lo == g.hi || second then 0 else 1
  }

  // ---------------------------------------------------------------------------
  // Steps
  // ---------------------------------------------------------------------------

  /** The constructor of the guard sorts the two locks. */
  function Ordered(a: Lock, b: Lock): (g: Guard)
    ensures g.lo <= g.hi && {g.lo, g.hi} == {a, b}
  {
    if b < a then Guard(b, a) else Guard(a, b)
  }

  function Set(st: State, t: Tid, th: Thread): State {
    st.(threads := st.threads[t := th])
  }

  function SetWord(st: State, l: Lock, w: Word): State {
    st.(words := st.words[l := w])
  }

  function AfterAcquire(g: Guard, second: bool): Thread {
    if !second && g.lo != g.hi then Acquiring(g, true, Try) else Holding(g)
  }

  function AfterRelease(g: Guard, second: bool): Thread {
    if !second && g.lo != g.hi then Releasing(g, true) else Idle
  }

  function Bumped(st: State, t: Tid, d: int): State
    requires t in st.balance
  {
    st.(balance := st.balance[t := st.balance[t] + d])
  }

  /** The compare-and-swap of Unlocked by Locked. */
  function TryStep(st: State, t: Tid): State
    requires t in st.threads && st.threads[t].Acquiring? && t in st.balance
  {
    var th := st.threads[t];
    var l := Subject(th);
    match WordOf(st, l)
    case Unlocked => Bumped(Set(SetWord(st, l, Locked), t, AfterAcquire(th.g, th.second)), t, 1)
    case Locked => Set(st, t, th.(pc := Mark))
    case LockedWithWaiters => Set(st, t, th.(pc := Wait))
  }

  /** The compare-and-swap of Locked by LockedWithWaiters. */
  function MarkStep(st: State, t: Tid): State
    requires t in st.threads && st.threads[t].Acquiring?
  {
    var th := st.threads[t];
    var l := Subject(th);
    if WordOf(st, l) == Locked then Set(SetWord(st, l, LockedWithWaiters), t, th.(pc := Wait))
    else Set(st, t, th.(pc := Try))
  }

  function WaitStep(st: State, t: Tid): State
    requires t in st.threads && st.threads[t].Acquiring?
  {
    var th := st.threads[t];
    Set(st, t, th.(pc := if WordOf(st, Subject(th)) == LockedWithWaiters then Asleep else Try))
  }

  function ExchangeStep(st: State, t: Tid): State
    requires t in st.threads && st.threads[t].Releasing? && t in st.balance
  {
    var th := st.threads[t];
    var l := Subject(th);
    Bumped(Set(SetWord(st, l, Unlocked), t,
               if WordOf(st, l) == LockedWithWaiters then Notifying(th.g, th.second) else AfterRelease(th.g, th.second)),
           t, -1)
  }

  predicate AsleepOn(th: Thread, l: Lock) {
    th.Acquiring? && th.pc == Asleep && Subject(th) == l
  }

  function NotifyStep(st: State, t: Tid): State
    requires t in st.threads && st.threads[t].Notifying?
  {
    var th := st.threads[t];
    var l := Subject(th);
    var woken := map u | u in st.threads :: if AsleepOn(st.threads[u], l) then st.threads[u].(pc := Wait) else st.threads[u];
    st.(threads := woken[t := AfterRelease(th.g, th.second)])
  }

  datatype Step =
    | Enter(a: Lock, b: Lock)
    | Advance             // the thread's next instruction
    | Leave
    | SpuriousWake

  ghost predicate Enabled(st: State, t: Tid, step: Step) {
    t in st.threads && t in st.balance &&
    match step
    case Enter(_, _) => st.threads[t].Idle?
    case Advance => st.threads[t].Releasing? || st.threads[t].Notifying? || (st.threads[t].Acquiring? && st.threads[t].pc != Asleep)
    case Leave => st.threads[t].Holding?
    case SpuriousWake => st.threads[t].Acquiring? && st.threads[t].pc == Asleep
  }

  ghost function Do(st: State, t: Tid, step: Step): State
    requires Enabled(st, t, step)
  {
    var th := st.threads[t];
    match step
    case Enter(a, b) => Set(st, t, Acquiring(Ordered(a, b), false, Try))
    case Leave => Set(st, t, Releasing(th.g, false))
    case SpuriousWake => Set(st, t, th.(pc := Wait))
    case Advance =>
      if th.Releasing? then ExchangeStep(st, t)
      else if th.Notifying? then NotifyStep(st, t)
      else if th.pc == Try then TryStep(st, t)
      else if th.pc == Mark then MarkStep(st, t)
      else WaitStep(st, t)
  }

  // ---------------------------------------------------------------------------
  // The invariant
  // ---------------------------------------------------------------------------

  ghost predicate GuardsOk(st: State) {
    && st.threads.Keys == st.balance.Keys
    && forall t :: t in st.threads ==>
         && (!st.threads[t].Idle? ==> st.threads[t].g.lo <= st.threads[t].g.hi)
         && (st.threads[t].Acquiring? || st.threads[t].Releasing? || st.threads[t].Notifying? ==>
               (st.threads[t].second ==> st.threads[t].g.lo < st.threads[t].g.hi))
         && st.balance[t] == HeldCount(st.threads[t])
  }

  ghost predicate HeldBy(st: State, t: Tid, l: Lock) {
    t in st.threads && Holds(st.threads[t], l)
  }

  /** Mutual exclusion: no two threads hold a lock, and the word says whether one does. */
  ghost predicate Exclusive(st: State) {
    && (forall t, u, l :: HeldBy(st, t, l) && HeldBy(st, u, l) ==> t == u)
    && (forall t, l :: HeldBy(st, t, l) ==> WordOf(st, l) != Unlocked)
    && (forall l :: WordOf(st, l) != Unlocked ==> exists t :: HeldBy(st, t, l))
  }

  ghost predicate NotifiesOn(st: State, t: Tid, l: Lock) {
    t in st.threads && st.threads[t].Notifying? && Subject(st.threads[t]) == l
  }

  /** No lost wakeup: while a thread sleeps on a lock, the word announces waiters or a
      notification is on its way. */
  ghost predicate NoLostWakeup(st: State) {
    forall t :: t in st.threads && st.threads[t].Acquiring? && st.threads[t].pc == Asleep ==>
      || WordOf(st, Subject(st.threads[t])) == LockedWithWaiters
      || exists u :: NotifiesOn(st, u, Subject(st.threads[t]))
  }

  ghost predicate Safe(st: State) {
    GuardsOk(st) && Exclusive(st) && NoLostWakeup(st)
  }

  // ---------------------------------------------------------------------------
  // Every step keeps it
  // ---------------------------------------------------------------------------

  lemma SameHoldsSameExclusion(st: State, st': State)
    requires Exclusive(st)
    requires forall l :: WordOf(st', l) == Unlocked <==> WordOf(st, l) == Unlocked
    requires forall t, l :: HeldBy(st', t, l) <==> HeldBy(st, t, l)
    ensures Exclusive(st')
  {
    forall l | WordOf(st', l) != Unlocked
      ensures exists t :: HeldBy(st', t, l)
    {
      var t :| HeldBy(st, t, l);
      assert HeldBy(st', t, l);
    }
  }

  lemma OneMoreHeld(st: State, st': State, t: Tid, l: Lock)
    requires Exclusive(st) && WordOf(st, l) == Unlocked && WordOf(st', l) != Unlocked
    requires forall k :: k != l ==> WordOf(st', k) == WordOf(st, k)
    requires forall u, k :: HeldBy(st', u, k) <==> HeldBy(st, u, k) || (u == t && k == l)
    ensures Exclusive(st')
  {
    forall k | WordOf(st', k) != Unlocked
      ensures exists u :: HeldBy(st', u, k)
    {
      if k == l {
        assert HeldBy(st', t, l);
      } else {
        var u :| HeldBy(st, u, k);
        assert HeldBy(st', u, k);
      }
    }
  }

  lemma OneLessHeld(st: State, st': State, t: Tid, l: Lock)
    requires Exclusive(st) && HeldBy(st, t, l) && WordOf(st', l) == Unlocked
    requires forall k :: k != l ==> WordOf(st', k) == WordOf(st, k)
    requires forall u, k :: HeldBy(st', u, k) <==> HeldBy(st, u, k) && !(u == t && k == l)
    ensures Exclusive(st')
  {
    forall k | WordOf(st', k) != Unlocked
      ensures exists u :: HeldBy(st', u, k)
    {
      var u :| HeldBy(st, u, k);
      assert HeldBy(st', u, k);
    }
  }

  /** Sleepers stay covered when no word stops announcing waiters and no notifier vanishes. */
  lemma StillCovered(st: State, st': State)
    requires NoLostWakeup(st)
    requires forall t :: t in st'.threads && st'.threads[t].Acquiring? && st'.threads[t].pc == Asleep ==>
      || WordOf(st', Subject(st'.threads[t])) == LockedWithWaiters
      || (t in st.threads && st.threads[t] == st'.threads[t])
    requires forall l :: WordOf(st, l) == LockedWithWaiters ==>
      WordOf(st', l) == LockedWithWaiters || exists u :: NotifiesOn(st', u, l)
    requires forall u, l :: NotifiesOn(st, u, l) ==> NotifiesOn(st', u, l)
    ensures NoLostWakeup(st')
  {
    forall t | t in st'.threads && st'.threads[t].Acquiring? && st'.threads[t].pc == Asleep
      ensures WordOf(st', Subject(st'.threads[t])) == LockedWithWaiters || exists u :: NotifiesOn(st', u, Subject(st'.threads[t]))
    {
      var l := Subject(st'.threads[t]);
      if WordOf(st', l) != LockedWithWaiters {
        if WordOf(st, l) != LockedWithWaiters {
          var u :| NotifiesOn(st, u, l);
          assert NotifiesOn(st', u, l);
        }
      }
    }
  }

  lemma QuietIsSafe(st: State, t: Tid, th: Thread)
    requires Safe(st) && t in st.threads && !st.threads[t].Notifying? && !th.Notifying?
    requires forall l :: Holds(th, l) <==> Holds(st.threads[t], l)
    requires HeldCount(th) == HeldCount(st.threads[t])
    requires !th.Idle? ==> th.g.lo <= th.g.hi
    requires th.Acquiring? || th.Releasing? ==> (th.second ==> th.g.lo < th.g.hi)
    requires th.Acquiring? && th.pc == Asleep ==> WordOf(st, Subject(th)) == LockedWithWaiters
    ensures Safe(Set(st, t, th))
  {
    var st' := Set(st, t, th);
    SameHoldsSameExclusion(st, st');
    forall u, l | NotifiesOn(st, u, l)
      ensures NotifiesOn(st', u, l)
    {
    }
    StillCovered(st, st');
  }

  lemma AcquireIsSafe(st: State, t: Tid)
    requires Safe(st) && t in st.threads && st.threads[t].Acquiring? && st.threads[t].pc == Try
    requires WordOf(st, Subject(st.threads[t])) == Unlocked
    ensures Safe(TryStep(st, t))
  {
    var th, st' := st.threads[t], TryStep(st, t);
    OneMoreHeld(st, st', t, Subject(th));
    forall u, l | NotifiesOn(st, u, l)
      ensures NotifiesOn(st', u, l)
    {
    }
    StillCovered(st, st');
  }

  lemma MarkIsSafe(st: State, t: Tid)
    requires Safe(st) && t in st.threads && st.threads[t].Acquiring? && st.threads[t].pc == Mark
    requires WordOf(st, Subject(st.threads[t])) == Locked
    ensures Safe(MarkStep(st, t))
  {
    var st' := MarkStep(st, t);
    SameHoldsSameExclusion(st, st');
    forall u, l | NotifiesOn(st, u, l)
      ensures NotifiesOn(st', u, l)
    {
    }
    StillCovered(st, st');
  }

  lemma ExchangeIsSafe(st: State, t: Tid)
    requires Safe(st) && t in st.threads && st.threads[t].Releasing?
    ensures HeldBy(st, t, Subject(st.threads[t]))
    ensures Safe(ExchangeStep(st, t))
  {
    var th, st' := st.threads[t], ExchangeStep(st, t);
    var l := Subject(th);
    assert HeldBy(st, t, l);
    OneLessHeld(st, st', t, l);
    forall u, k | NotifiesOn(st, u, k)
      ensures NotifiesOn(st', u, k)
    {
    }
    if WordOf(st, l) == LockedWithWaiters {
      assert NotifiesOn(st', t, l);
    }
    StillCovered(st, st');
  }

  lemma NotifyIsSafe(st: State, t: Tid)
    requires Safe(st) && t in st.threads && st.threads[t].Notifying?
    ensures Safe(NotifyStep(st, t))
  {
    var th, st' := st.threads[t], NotifyStep(st, t);
    var l := Subject(th);
    forall u, k
      ensures HeldBy(st', u, k) <==> HeldBy(st, u, k)
    {
    }
    SameHoldsSameExclusion(st, st');
    forall u | u in st'.threads && st'.threads[u].Acquiring? && st'.threads[u].pc == Asleep
      ensures WordOf(st', Subject(st'.threads[u])) == LockedWithWaiters || exists v :: NotifiesOn(st', v, Subject(st'.threads[u]))
    {
      var k := Subject(st'.threads[u]);
      assert st.threads[u] == st'.threads[u] && k != l;
      if WordOf(st, k) != LockedWithWaiters {
        var v :| NotifiesOn(st, v, k);
        assert v != t && NotifiesOn(st', v, k);
      }
    }
  }

  /** Every step of every thread keeps mutual exclusion, loses no wakeup and keeps the books. */
  lemma StepIsSafe(st: State, t: Tid, step: Step)
    requires Safe(st) && Enabled(st, t, step)
    ensures Safe(Do(st, t, step))
  {
    hide Safe, Exclusive, NoLostWakeup, GuardsOk;
    var th := st.threads[t];
    ThreadOk(st, t);
    match step
    case Enter(a, b) => QuietIsSafe(st, t, Acquiring(Ordered(a, b), false, Try));
    case Leave => QuietIsSafe(st, t, Releasing(th.g, false));
    case SpuriousWake => QuietIsSafe(st, t, th.(pc := Wait));
    case Advance =>
      if th.Releasing? {
        ExchangeIsSafe(st, t);
      } else if th.Notifying? {
        NotifyIsSafe(st, t);
      } else if th.pc == Try {
        if WordOf(st, Subject(th)) == Unlocked {
          AcquireIsSafe(st, t);
        } else {
          QuietIsSafe(st, t, th.(pc := if WordOf(st, Subject(th)) == Locked then Mark else Wait));
        }
      } else if th.pc == Mark {
        if WordOf(st, Subject(th)) == Locked {
          MarkIsSafe(st, t);
        } else {
          QuietIsSafe(st, t, th.(pc := Try));
        }
      } else {
        QuietIsSafe(st, t, th.(pc := if WordOf(st, Subject(th)) == LockedWithWaiters then Asleep else Try));
      }
  }

  lemma ThreadOk(st: State, t: Tid)
    requires Safe(st) && t in st.threads
    ensures !st.threads[t].Idle? ==> st.threads[t].g.lo <= st.threads[t].g.hi
    ensures st.threads[t].Acquiring? && st.threads[t].second ==> st.threads[t].g.lo < st.threads[t].g.hi
    ensures st.threads[t].Holding? ==> HeldCount(st.threads[t]) == HeldCount(Releasing(st.threads[t].g, false))
  {
  }

  // ---------------------------------------------------------------------------
  // Runs
  // ---------------------------------------------------------------------------

  /** A run: at each moment some thread takes some enabled step. */
  ghost predicate IsRun(run: seq<State>, who: seq<Tid>, what: seq<Step>) {
    && |run| == |who| + 1 == |what| + 1
    && run[0].words == map[] && run[0].threads.Keys == run[0].balance.Keys
    && (forall t :: t in run[0].threads ==> run[0].threads[t] == Idle && run[0].balance[t] == 0)
    && forall i :: 0 <= i < |who| ==> Enabled(run[i], who[i], what[i]) && run[i + 1] == Do(run[i], who[i], what[i])
  }

  lemma {:induction false} RunsAreSafe(run: seq<State>, who: seq<Tid>, what: seq<Step>, n: nat)
    requires IsRun(run, who, what) && n < |run|
    ensures Safe(run[n])
  {
    if n > 0 {
      RunsAreSafe(run, who, what, n - 1);
      StepIsSafe(run[n - 1], who[n - 1], what[n - 1]);
    }
  }

  /** Everything acquired through guards is released once: a thread outside any guard has
      acquired as many locks as it has released, and a guard on equal locks acquires one. */
  lemma GuardsBalance(run: seq<State>, who: seq<Tid>, what: seq<Step>, n: nat, t: Tid)
    requires IsRun(run, who, what) && n < |run| && t in run[n].threads
    ensures t in run[n].balance
    ensures run[n].threads[t].Idle? ==> run[n].balance[t] == 0
    ensures run[n].threads[t].Holding? ==>
      run[n].balance[t] == if run[n].threads[t].g.lo == run[n].threads[t].g.hi then 1 else 2
  {
    RunsAreSafe(run, who, what, n);
  }

  // ---------------------------------------------------------------------------
  // What a thread's own instructions achieve
  // ---------------------------------------------------------------------------

  ghost predicate Reachable(st: State) {
    exists run, who, what, n: nat :: IsRun(run, who, what) && n < |run| && run[n] == st
  }

  lemma ReachableIsSafe(st: State)
    requires Reachable(st)
    ensures Safe(st)
  {
    var run, who, what, n: nat :| IsRun(run, who, what) && n < |run| && run[n] == st;
    RunsAreSafe(run, who, what, n);
  }

  /** Thread t alone runs up to n instructions, stopping where it has none. */
  ghost function After(st: State, t: Tid, n: nat): State
    decreases n
  {
    if n == 0 || !Enabled(st, t, Advance) then st else After(Do(st, t, Advance), t, n - 1)
  }

  /** The threads and words other than t and the two locks. */
  ghost predicate OthersSame(st: State, st': State, t: Tid, a: Lock, b: Lock) {
    && (forall l :: l != a && l != b ==> WordOf(st', l) == WordOf(st, l))
    && st'.threads.Keys == st.threads.Keys
    && forall u :: u in st.threads && u != t ==> st'.threads[u] == st.threads[u]
  }

  /** A thread that is awake takes a free lock within two instructions. */
  lemma FreeLockIsTaken(st: State, t: Tid) returns (n: nat)
    requires Reachable(st) && t in st.threads && st.threads[t].Acquiring? && st.threads[t].pc != Asleep
    requires WordOf(st, Subject(st.threads[t])) == Unlocked
    ensures n <= 2 && HeldBy(After(st, t, n), t, Subject(st.threads[t]))
    ensures WordOf(After(st, t, n), Subject(st.threads[t])) != Unlocked
  {
    ReachableIsSafe(st);
    var st' := Do(st, t, Advance);
    assert After(st, t, 1) == After(st', t, 0);
    assert After(st, t, 2) == After(st', t, 1);
    n := if st.threads[t].pc == Try then 1 else 2;
    if n == 2 {
      assert After(st', t, 1) == After(Do(st', t, Advance), t, 0);
    }
  }

  /** While another thread keeps the lock, the thread is asleep after at most four instructions,
      and the word tells the holder to wake it. */
  lemma BusyLockIsAwaited(st: State, t: Tid) returns (n: nat)
    requires Reachable(st) && t in st.threads && st.threads[t].Acquiring?
    requires WordOf(st, Subject(st.threads[t])) != Unlocked
    ensures n <= 4 && t in After(st, t, n).threads && AsleepOn(After(st, t, n).threads[t], Subject(st.threads[t]))
    ensures st.threads[t].pc != Asleep ==> WordOf(After(st, t, n), Subject(st.threads[t])) == LockedWithWaiters
    ensures OthersSame(st, After(st, t, n), t, Subject(st.threads[t]), Subject(st.threads[t]))
  {
    ReachableIsSafe(st);
    n := Awaiting(st, t);
  }

  /** How many instructions a thread is away from sleeping on a lock with the given word. */
  function UntilAsleep(pc: Pc, w: Word): nat {
    match pc
    case Asleep => 0
    case Wait => if w == LockedWithWaiters then 1 else 4
    case Mark => if w == LockedWithWaiters then 3 else 2
    case Try => if w == LockedWithWaiters then 2 else 3
  }

  lemma {:induction false} Awaiting(st: State, t: Tid) returns (n: nat)
    requires GuardsOk(st) && t in st.threads && st.threads[t].Acquiring?
    requires WordOf(st, Subject(st.threads[t])) != Unlocked
    ensures n == UntilAsleep(st.threads[t].pc, WordOf(st, Subject(st.threads[t])))
    ensures t in After(st, t, n).threads && AsleepOn(After(st, t, n).threads[t], Subject(st.threads[t]))
    ensures st.threads[t].pc != Asleep ==> WordOf(After(st, t, n), Subject(st.threads[t])) == LockedWithWaiters
    ensures OthersSame(st, After(st, t, n), t, Subject(st.threads[t]), Subject(st.threads[t]))
    decreases UntilAsleep(st.threads[t].pc, WordOf(st, Subject(st.threads[t])))
  {
    hide Do, GuardsOk;
    if st.threads[t].pc == Asleep {
      n := 0;
    } else {
      OneCloser(st, t);
      var m := Awaiting(Do(st, t, Advance), t);
      n := m + 1;
    }
  }

  lemma OneCloser(st: State, t: Tid)
    requires GuardsOk(st) && t in st.threads && st.threads[t].Acquiring? && st.threads[t].pc != Asleep
    requires WordOf(st, Subject(st.threads[t])) != Unlocked
    ensures Enabled(st, t, Advance)
    ensures
      var st' := Do(st, t, Advance);
      && GuardsOk(st') && OthersSame(st, st', t, Subject(st.threads[t]), Subject(st.threads[t]))
      && t in st'.threads && st'.threads[t].Acquiring? && st'.threads[t] == st.threads[t].(pc := st'.threads[t].pc)
      && WordOf(st', Subject(st.threads[t])) != Unlocked
      && UntilAsleep(st'.threads[t].pc, WordOf(st', Subject(st.threads[t]))) + 1
         == UntilAsleep(st.threads[t].pc, WordOf(st, Subject(st.threads[t])))
      && (st'.threads[t].pc == Asleep ==> WordOf(st', Subject(st.threads[t])) == LockedWithWaiters)
  {
  }

  /** A guard on two free locks, or on one lock twice, holds exactly them after one instruction
      for each, whatever their order. */
  lemma GuardTakesFreeLocks(st: State, t: Tid, a: Lock, b: Lock)
    requires Reachable(st) && t in st.threads && st.threads[t].Idle? && WordOf(st, a) == Unlocked && WordOf(st, b) == Unlocked
    ensures Enabled(st, t, Enter(a, b))
    ensures
      var st' := After(Do(st, t, Enter(a, b)), t, if a == b then 1 else 2);
      && t in st'.threads && st'.threads[t].Holding? && {st'.threads[t].g.lo, st'.threads[t].g.hi} == {a, b}
      && (forall l :: HeldBy(st', t, l) <==> l == a || l == b)
      && WordOf(st', a) != Unlocked && WordOf(st', b) != Unlocked
      && OthersSame(st, st', t, a, b)
  {
    hide Safe, After, Do, GuardsOk, Reachable, Ordered, Enabled;
    ReachableIsSafe(st);
    var s0 := Entering(st, t, a, b);
    var s1 := BothAcquired(s0, t);
    var g := Ordered(a, b);
    if g.lo == a {
      assert g == Guard(a, b);
    } else {
      assert g == Guard(b, a);
    }
  }

  lemma BothAcquired(st: State, t: Tid) returns (st': State)
    requires GuardsOk(st) && t in st.threads && st.threads[t].Acquiring? && st.threads[t].pc == Try && !st.threads[t].second
    requires WordOf(st, st.threads[t].g.lo) == WordOf(st, st.threads[t].g.hi) == Unlocked
    ensures
      var g := st.threads[t].g;
      && st' == After(st, t, if g.lo == g.hi then 1 else 2) && OthersSame(st, st', t, g.lo, g.hi)
      && t in st'.threads && st'.threads[t] == Holding(g)
      && WordOf(st', g.lo) == WordOf(st', g.hi) == Locked
  {
    hide After, Do, GuardsOk, Enabled;
    var g := st.threads[t].g;
    st' := OneAcquired(st, t);
    if g.lo != g.hi {
      AfterAdds(st, t, 1, 1);
      st' := OneAcquired(st', t);
    }
  }

  lemma Entering(st: State, t: Tid, a: Lock, b: Lock) returns (st': State)
    requires Safe(st) && t in st.threads && st.threads[t].Idle?
    ensures Enabled(st, t, Enter(a, b)) && st' == Do(st, t, Enter(a, b)) && GuardsOk(st') && st'.words == st.words
    ensures t in st'.threads && st'.threads[t] == Acquiring(Ordered(a, b), false, Try)
    ensures Ordered(a, b) == Guard(a, b) || Ordered(a, b) == Guard(b, a)
    ensures OthersSame(st, st', t, a, b)
  {
    st' := Do(st, t, Enter(a, b));
  }

  lemma OneAcquired(st: State, t: Tid) returns (st': State)
    requires GuardsOk(st) && t in st.threads && st.threads[t].Acquiring? && st.threads[t].pc == Try
    requires WordOf(st, Subject(st.threads[t])) == Unlocked
    ensures GuardsOk(st') && st' == After(st, t, 1)
    ensures t in st'.threads && st'.threads[t] == AfterAcquire(st.threads[t].g, st.threads[t].second)
    ensures WordOf(st', Subject(st.threads[t])) == Locked
    ensures OthersSame(st, st', t, Subject(st.threads[t]), Subject(st.threads[t]))
  {
    st' := Do(st, t, Advance);
    assert After(st, t, 1) == After(st', t, 0);
  }

  /** Whoever sleeps on the lock has been sent a notification. */
  ghost predicate SleepersNotified(st: State, l: Lock) {
    (exists u :: u in st.threads && AsleepOn(st.threads[u], l)) ==> exists u :: NotifiesOn(st, u, l)
  }

  /** Giving up a guard ends, without another thread's help, with both locks free and no thread
      left asleep on either, unless another thread is about to wake it. */
  lemma LeaveFreesLocks(st: State, t: Tid)
    requires Reachable(st) && t in st.threads && st.threads[t].Holding?
    ensures Enabled(st, t, Leave)
    ensures
      var st' := After(Do(st, t, Leave), t, 4);
      var g := st.threads[t].g;
      && t in st'.threads && st'.threads[t] == Idle
      && WordOf(st', g.lo) == Unlocked && WordOf(st', g.hi) == Unlocked
      && SleepersNotified(st', g.lo) && SleepersNotified(st', g.hi)
      && forall l :: l != g.lo && l != g.hi ==> WordOf(st', l) == WordOf(st, l)
  {
    hide Safe, After, Enabled, SleepersNotified;
    ReachableIsSafe(st);
    ReleasingEnabled(st, t);
    var g := st.threads[t].g;
    var s0 := Leaving(st, t);
    var s1, n := Unlocking(s0, t);
    AfterAdds(s0, t, n, 4 - n);
    if g.lo != g.hi {
      var s2, m := Unlocking(s1, t);
      AfterAdds(s1, t, m, 4 - n - m);
      ReleasingEnabled(s2, t);
      IdleStays(s2, t, 4 - n - m);
    } else {
      ReleasingEnabled(s1, t);
      IdleStays(s1, t, 4 - n);
    }
  }

  lemma Leaving(st: State, t: Tid) returns (st': State)
    requires Safe(st) && t in st.threads && st.threads[t].Holding? && Enabled(st, t, Leave)
    ensures st' == Do(st, t, Leave) && Safe(st') && st'.words == st.words
    ensures t in st'.threads && st'.threads[t] == Releasing(st.threads[t].g, false)
  {
    hide Safe;
    st' := Do(st, t, Leave);
    StepIsSafe(st, t, Leave);
  }

  lemma IdleStays(st: State, t: Tid, n: nat)
    requires t in st.threads && st.threads[t].Idle?
    ensures After(st, t, n) == st
  {
  }

  lemma {:induction false} AfterAdds(st: State, t: Tid, m: nat, n: nat)
    ensures After(st, t, m + n) == After(After(st, t, m), t, n)
    decreases m
  {
    hide Do;
    if m > 0 && Enabled(st, t, Advance) {
      AfterAdds(Do(st, t, Advance), t, m - 1, n);
    }
  }

  lemma ReleasingEnabled(st: State, t: Tid)
    requires Safe(st) && t in st.threads
    ensures st.threads[t].Releasing? || st.threads[t].Notifying? ==> Enabled(st, t, Advance)
    ensures st.threads[t].Holding? ==> Enabled(st, t, Leave)
    ensures forall l :: WordOf(st, l) == Unlocked ==> SleepersNotified(st, l)
  {
  }

  /** unlock(): one instruction, and a second one that wakes whoever sleeps on the lock. */
  lemma Unlocking(st: State, t: Tid) returns (st': State, n: nat)
    requires Safe(st) && t in st.threads && st.threads[t].Releasing?
    ensures 1 <= n <= 2 && st' == After(st, t, n) && Safe(st')
    ensures t in st'.threads && st'.threads[t] == AfterRelease(st.threads[t].g, st.threads[t].second)
    ensures WordOf(st', Subject(st.threads[t])) == Unlocked
    ensures forall l :: l != Subject(st.threads[t]) ==> WordOf(st', l) == WordOf(st, l)
  {
    hide Safe;
    ReleasingEnabled(st, t);
    st' := Do(st, t, Advance);
    StepIsSafe(st, t, Advance);
    n := 1;
    assert After(st, t, 1) == After(st', t, 0);
    if st'.threads[t].Notifying? {
      assert After(st, t, 2) == After(st', t, 1);
      ReleasingEnabled(st', t);
      assert After(st', t, 1) == After(Do(st', t, Advance), t, 0);
      StepIsSafe(st', t, Advance);
      st' := Do(st', t, Advance);
      n := 2;
    }
  }

  /** Thread t cannot go on before u lets go of a lock. */
  ghost predicate WaitsFor(st: State, t: Tid, u: Tid) {
    t in st.threads && st.threads[t].Acquiring? && HeldBy(st, u, Subject(st.threads[t]))
  }

  /** Each thread waits for the one after it. */
  ghost predicate WaitChain(st: State, ts: seq<Tid>) {
    forall i, j :: 0 <= i && j == i + 1 && j < |ts| ==> WaitsFor(st, ts[i], ts[j])
  }

  ghost predicate WaitCycle(st: State, ts: seq<Tid>) {
    ts != [] && WaitChain(st, ts) && WaitsFor(st, ts[|ts| - 1], ts[0])
  }

  /** Along a chain of waiting threads the wanted lock grows. */
  lemma WantedLockGrows(st: State, t: Tid, u: Tid)
    requires Safe(st) && WaitsFor(st, t, u) && st.threads[u].Acquiring?
    ensures Subject(st.threads[t]) < Subject(st.threads[u])
  {
  }

  lemma {:induction false} WantedLockGrowsAlong(st: State, ts: seq<Tid>, n: nat)
    requires Safe(st) && WaitChain(st, ts) && n < |ts| && ts[n] in st.threads && st.threads[ts[n]].Acquiring?
    ensures ts[0] in st.threads && st.threads[ts[0]].Acquiring?
    ensures Subject(st.threads[ts[0]]) <= Subject(st.threads[ts[n]])
  {
    if n > 0 {
      assert WaitsFor(st, ts[n - 1], ts[n]);
      WantedLockGrows(st, ts[n - 1], ts[n]);
      WantedLockGrowsAlong(st, ts, n - 1);
    }
  }

  /** Guards taken one at a time never form a wait-for cycle. */
  lemma NoWaitCycle(run: seq<State>, who: seq<Tid>, what: seq<Step>, n: nat, ts: seq<Tid>)
    requires IsRun(run, who, what) && n < |run|
    ensures !WaitCycle(run[n], ts)
  {
    var st := run[n];
    RunsAreSafe(run, who, what, n);
    if WaitCycle(st, ts) {
      WantedLockGrowsAlong(st, ts, |ts| - 1);
      WantedLockGrows(st, ts[|ts| - 1], ts[0]);
    }
  }

  /** No deadlock: when some thread is inside a guard, some thread can take a step of its own,
      without any spurious wakeup. */
  lemma NeverStuck(run: seq<State>, who: seq<Tid>, what: seq<Step>, n: nat, t: Tid) returns (u: Tid)
    requires IsRun(run, who, what) && n < |run| && t in run[n].threads && !run[n].threads[t].Idle?
    ensures Enabled(run[n], u, Advance) || Enabled(run[n], u, Leave)
  {
    RunsAreSafe(run, who, what, n);
    u := Runnable(run[n], t, {});
  }

  /** Follows sleeping threads to the holders of the locks they want. */
  lemma {:induction false} Runnable(st: State, t: Tid, seen: set<Tid>) returns (u: Tid)
    requires Safe(st) && t in st.threads && !st.threads[t].Idle? && seen <= st.threads.Keys && t !in seen
    requires forall s :: s in seen ==> st.threads[s].Acquiring?
    requires forall s :: s in seen && st.threads[t].Acquiring? ==> Subject(st.threads[s]) < Subject(st.threads[t])
    ensures Enabled(st, u, Advance) || Enabled(st, u, Leave)
    decreases st.threads.Keys - seen
  {
    if Enabled(st, t, Advance) || Enabled(st, t, Leave) {
      u := t;
    } else {
      var l := Subject(st.threads[t]);
      if WordOf(st, l) == LockedWithWaiters {
        var h :| HeldBy(st, h, l);
        assert WaitsFor(st, t, h);
        if st.threads[h].Acquiring? {
          WantedLockGrows(st, t, h);
          u := Runnable(st, h, seen + {t});
        } else {
          u := h;
        }
      } else {
        u :| NotifiesOn(st, u, l);
      }
    }
  }
}
