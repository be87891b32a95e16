/**
  Sending +initialize.  Any number of threads run objc_send_initialize, each
  +initialize may message any class again, and the sections under the runtime and
  initialize locks are atomic steps.
 */
module Initialization {
  import opened Basics
  import opened LookAside

  type Tid = nat

  /** The superclass relation; the rank witnesses that it is acyclic. */
  datatype Graph = Graph(superclass: map<Cls, Cls>, rank: map<Cls, nat>)

  ghost predicate Acyclic(g: Graph) {
    forall c :: c in g.superclass ==> c in g.rank && g.superclass[c] in g.rank && g.rank[g.superclass[c]] < g.rank[c]
  }

  /** Where a call of objc_send_initialize for a class has got to. */
  datatype Pc =
    | Start       // entered
    | AfterSuper  // the superclass has been sent for
    | Waiting     // the flag was set: passing through the class lock
    | WantLock    // the flag was clear: about to take the class lock
    | Locked      // holding the class lock
    | Running     // its +initialize runs, holding the class lock

  datatype Frame = Frame(c: Cls, pc: Pc)

  /** flagged: classes marked initialized (class and metaclass together); created: the table
      made for a node; installed and lookAside: where that table is; sent: the +initialize
      messages in order; aborted: create_dtable_for_class found no table to copy. */
  datatype State = State(
    flagged: set<Cls>,
    created: map<Node, Table>,
    installed: map<Node, Table>,
    lookAside: seq<Entry>,
    stacks: map<Tid, seq<Frame>>,
    holder: map<Cls, Tid>,
    sent: seq<Cls>,
    aborted: bool)

  ghost predicate HasTable(st: State, n: Node) {
    n in st.installed || n in Owners(st.lookAside)
  }

  /** The abort of create_dtable_for_class: the superclass has no table for the class or for the
      metaclass.  A root's metaclass copies the root's own new table instead. */
  ghost predicate Aborts(g: Graph, st: State, c: Cls) {
    c in g.superclass && !(HasTable(st, Inst(g.superclass[c])) && HasTable(st, Meta(g.superclass[c])))
  }

  // ---------------------------------------------------------------------------
  // Steps
  // ---------------------------------------------------------------------------

  function Top(s: seq<Frame>): Frame
    requires s != []
  {
    s[|s| - 1]
  }

  function WithTop(s: seq<Frame>, pc: Pc): seq<Frame>
    requires s != []
  {
    s[..|s| - 1] + [Frame(Top(s).c, pc)]
  }

  function Popped(s: seq<Frame>): seq<Frame>
    requires s != []
  {
    s[..|s| - 1]
  }

  /** Thread t messages class c: at its outermost level, or from inside a running +initialize. */
  ghost predicate Call(st: State, st': State, t: Tid, c: Cls) {
    && t in st.stacks && (st.stacks[t] == [] || Top(st.stacks[t]).pc == Running)
    && st' == st.(stacks := st.stacks[t := st.stacks[t] + [Frame(c, Start)]])
  }

  ghost predicate AtTop(st: State, t: Tid, pc: Pc) {
    t in st.stacks && st.stacks[t] != [] && Top(st.stacks[t]).pc == pc
  }

  /** The superclass is sent for first. */
  ghost predicate SendSuper(g: Graph, st: State, st': State, t: Tid) {
    && AtTop(st, t, Start)
    && var c := Top(st.stacks[t]).c;
       var s := WithTop(st.stacks[t], AfterSuper);
       st' == st.(stacks := st.stacks[t := if c in g.superclass then s + [Frame(g.superclass[c], Start)] else s])
  }

  ghost predicate TestFlag(st: State, st': State, t: Tid) {
    && AtTop(st, t, AfterSuper)
    && var pc := if Top(st.stacks[t]).c in st.flagged then Waiting else WantLock;
       st' == st.(stacks := st.stacks[t := WithTop(st.stacks[t], pc)])
  }

  /** The class lock is recursive: only another thread's hold blocks. */
  ghost predicate LockFree(st: State, t: Tid, c: Cls) {
    c !in st.holder || st.holder[c] == t
  }

  ghost predicate PassLock(st: State, st': State, t: Tid) {
    && AtTop(st, t, Waiting) && LockFree(st, t, Top(st.stacks[t]).c)
    && st' == st.(stacks := st.stacks[t := Popped(st.stacks[t])])
  }

  ghost predicate TakeLock(st: State, st': State, t: Tid) {
    && AtTop(st, t, WantLock) && LockFree(st, t, Top(st.stacks[t]).c)
    && st' == st.(stacks := st.stacks[t := WithTop(st.stacks[t], Locked)], holder := st.holder[Top(st.stacks[t]).c := t])
  }

  /** The flag was set while the thread waited for the lock. */
  ghost predicate FindFlagged(st: State, st': State, t: Tid) {
    && AtTop(st, t, Locked) && Top(st.stacks[t]).c in st.flagged
    && st' == st.(stacks := st.stacks[t := Popped(st.stacks[t])], holder := st.holder - {Top(st.stacks[t]).c})
  }

  /** Sets the flags and creates both tables.  Without a +initialize they are installed at once,
      otherwise they go to the head of the look-aside list and the message is sent. */
  ghost predicate Begin(g: Graph, st: State, st': State, t: Tid, classTable: Table, metaTable: Table, hasInitialize: bool) {
    && AtTop(st, t, Locked) && Top(st.stacks[t]).c !in st.flagged
    && var c := Top(st.stacks[t]).c;
       if Aborts(g, st, c) then st' == st.(aborted := true)
       else
         var marked := st.(flagged := st.flagged + {c},
                           created := st.created[Inst(c) := classTable][Meta(c) := metaTable]);
         if hasInitialize
         then st' == marked.(lookAside := [Entry(Meta(c), metaTable), Entry(Inst(c), classTable)] + st.lookAside,
                             stacks := st.stacks[t := WithTop(st.stacks[t], Running)],
                             sent := st.sent + [c])
         else st' == marked.(installed := st.installed[Meta(c) := metaTable][Inst(c) := classTable],
                             stacks := st.stacks[t := Popped(st.stacks[t])],
                             holder := st.holder - {c})
  }

  /** +initialize returned or threw: the cleanup installs the pair and unlinks it. */
  ghost predicate Finish(st: State, st': State, t: Tid) {
    && AtTop(st, t, Running)
    && var c := Top(st.stacks[t]).c;
       && Paired(st.lookAside) && Find(st.lookAside, Meta(c)).Some? && Find(st.lookAside, Inst(c)).Some?
       && st' == st.(lookAside := WithoutPair(st.lookAside, c),
                     installed := st.installed[Meta(c) := Find(st.lookAside, Meta(c)).value]
                                              [Inst(c) := Find(st.lookAside, Inst(c)).value],
                     stacks := st.stacks[t := Popped(st.stacks[t])],
                     holder := st.holder - {c})
  }

  ghost predicate StepOf(g: Graph, st: State, st': State, t: Tid) {
    || (exists c :: Call(st, st', t, c))
    || SendSuper(g, st, st', t) || TestFlag(st, st', t) || PassLock(st, st', t)
    || TakeLock(st, st', t) || FindFlagged(st, st', t)
    || (exists a, b, h :: Begin(g, st, st', t, a, b, h))
    || Finish(st, st', t)
  }

  ghost predicate Next(g: Graph, st: State, st': State) {
    exists t :: StepOf(g, st, st', t)
  }

  ghost predicate Init(st: State) {
    && st.flagged == {} && st.created == map[] && st.installed == map[] && st.lookAside == []
    && (forall t :: t in st.stacks ==> st.stacks[t] == []) && st.holder == map[] && st.sent == [] && !st.aborted
  }

  // ---------------------------------------------------------------------------
  // The invariant
  // ---------------------------------------------------------------------------

  /** A class is marked exactly when its pair of tables exists, installed or in the list, and
      then its superclass is marked too. */
  ghost predicate TablesOk(g: Graph, st: State) {
    && Paired(st.lookAside) && Unique(st.lookAside) && !st.aborted
    && (forall n: Node :: n in st.created <==> n.c in st.flagged)
    && (forall n: Node :: n.c in st.flagged <==> HasTable(st, n))
    && (forall n: Node :: n in st.installed ==> n !in Owners(st.lookAside) && n in st.created && st.installed[n] == st.created[n])
    && (forall e :: e in st.lookAside ==> e.owner in st.created && e.table == st.created[e.owner])
    && (forall c :: c in st.flagged && c in g.superclass ==> g.superclass[c] in st.flagged)
  }

  /** A frame below the top waits for its superclass or runs its +initialize; a frame that has
      its turn, or runs, has its superclass marked. */
  ghost predicate FrameOk(g: Graph, flagged: set<Cls>, s: seq<Frame>, k: int)
    requires 0 <= k < |s|
  {
    var f := s[k];
    && (k < |s| - 1 ==>
          f.pc == Running || (f.pc == AfterSuper && f.c in g.superclass && s[k + 1].c == g.superclass[f.c]))
    && (f.pc != Start && (k == |s| - 1 || f.pc == Running) && f.c in g.superclass ==> g.superclass[f.c] in flagged)
    && (f.pc == Running || f.pc == Waiting ==> f.c in flagged)
  }

  ghost predicate StackOk(g: Graph, flagged: set<Cls>, s: seq<Frame>) {
    forall k :: 0 <= k < |s| ==> FrameOk(g, flagged, s, k)
  }

  ghost predicate StacksOk(g: Graph, st: State) {
    forall t :: t in st.stacks ==> StackOk(g, st.flagged, st.stacks[t])
  }

  ghost predicate RunningAt(st: State, t: Tid, k: int, c: Cls) {
    t in st.stacks && 0 <= k < |st.stacks[t]| && st.stacks[t][k] == Frame(c, Running)
  }

  /** At most one frame runs a class's +initialize, which was sent, and its pair is in the list. */
  ghost predicate RunningOk(st: State) {
    && (forall t, k, c :: RunningAt(st, t, k, c) ==> Meta(c) in Owners(st.lookAside) && c in st.sent)
    && (forall t, k, t', k', c :: RunningAt(st, t, k, c) && RunningAt(st, t', k', c) ==> t == t' && k == k')
  }

  ghost predicate SentOk(st: State) {
    && (forall i, j :: 0 <= i < j < |st.sent| ==> st.sent[i] != st.sent[j])
    && (forall i :: 0 <= i < |st.sent| ==> st.sent[i] in st.flagged)
  }

  /** Frame k of t's stack holds the lock of c. */
  ghost predicate KeepsAt(st: State, t: Tid, k: int, c: Cls) {
    t in st.stacks && 0 <= k < |st.stacks[t]| && st.stacks[t][k].c == c && (st.stacks[t][k].pc == Locked || st.stacks[t][k].pc == Running)
  }

  /** A class lock is held by t exactly while one of t's frames is behind it. */
  ghost predicate HolderOk(st: State) {
    && (forall t, k, c :: KeepsAt(st, t, k, c) ==> c in st.holder && st.holder[c] == t)
    && (forall c :: c in st.holder ==> exists k :: KeepsAt(st, st.holder[c], k, c))
  }

  /** From inside the +initialize of a class no second frame of that class gets to its lock. */
  ghost predicate NotAgain(s: seq<Frame>) {
    forall i, j :: 0 <= i < j < |s| && s[i].pc == Running && s[j].c == s[i].c ==>
      s[j].pc == Start || s[j].pc == AfterSuper || s[j].pc == Waiting
  }

  ghost predicate LocksOk(st: State) {
    HolderOk(st) && forall t :: t in st.stacks ==> NotAgain(st.stacks[t])
  }

  ghost predicate Core(g: Graph, st: State) {
    TablesOk(g, st) && StacksOk(g, st) && RunningOk(st) && SentOk(st)
  }

  ghost predicate Safe(g: Graph, st: State) {
    Core(g, st) && LocksOk(st)
  }

  // ---------------------------------------------------------------------------
  // Every step keeps it
  // ---------------------------------------------------------------------------

  /** Replacing the top frame by one that is not running, pushing one and popping one. */
  lemma RunningFramesOf(st: State, st': State, t: Tid)
    requires RunningOk(st) && t in st.stacks && st'.stacks.Keys == st.stacks.Keys
    requires forall u :: u in st.stacks && u != t ==> st'.stacks[u] == st.stacks[u]
    requires forall k :: 0 <= k < |st'.stacks[t]| && st'.stacks[t][k].pc == Running ==>
      k < |st.stacks[t]| && st.stacks[t][k] == st'.stacks[t][k]
    requires Owners(st.lookAside) <= Owners(st'.lookAside) && st.sent <= st'.sent
    ensures RunningOk(st')
  {
    forall u, k, c | RunningAt(st', u, k, c)
      ensures RunningAt(st, u, k, c)
    {
    }
  }

  lemma OtherStacksOk(g: Graph, st: State, st': State, t: Tid)
    requires StacksOk(g, st) && t in st.stacks && st.flagged <= st'.flagged
    requires t in st'.stacks && st'.stacks == st.stacks[t := st'.stacks[t]] && StackOk(g, st'.flagged, st'.stacks[t])
    ensures StacksOk(g, st')
  {
    forall u, k | u in st'.stacks && u != t && 0 <= k < |st'.stacks[u]|
      ensures FrameOk(g, st'.flagged, st'.stacks[u], k)
    {
      assert FrameOk(g, st.flagged, st.stacks[u], k);
    }
  }

  /** The frame that pops has marked its class, so the frame below may go on. */
  lemma PopKeepsStack(g: Graph, flagged: set<Cls>, flagged': set<Cls>, s: seq<Frame>)
    requires StackOk(g, flagged, s) && s != [] && flagged <= flagged' && Top(s).c in flagged'
    ensures StackOk(g, flagged', Popped(s))
  {
    forall k | 0 <= k < |Popped(s)|
      ensures FrameOk(g, flagged', Popped(s), k)
    {
      assert FrameOk(g, flagged, s, k);
    }
  }

  lemma RetopKeepsStack(g: Graph, flagged: set<Cls>, flagged': set<Cls>, s: seq<Frame>, pc: Pc)
    requires StackOk(g, flagged, s) && s != [] && flagged <= flagged'
    requires pc != Start && (Top(s).c in g.superclass ==> g.superclass[Top(s).c] in flagged')
    requires pc == Running || pc == Waiting ==> Top(s).c in flagged'
    ensures StackOk(g, flagged', WithTop(s, pc))
  {
    forall k | 0 <= k < |s|
      ensures FrameOk(g, flagged', WithTop(s, pc), k)
    {
      assert FrameOk(g, flagged, s, k);
    }
  }

  lemma CallIsSafe(g: Graph, st: State, st': State, t: Tid, c: Cls)
    requires Core(g, st) && Call(st, st', t, c)
    ensures Core(g, st')
  {
    var s, s' := st.stacks[t], st'.stacks[t];
    assert StackOk(g, st.flagged, s);
    forall k | 0 <= k < |s'|
      ensures FrameOk(g, st.flagged, s', k)
    {
      assert k < |s| ==> FrameOk(g, st.flagged, s, k);
    }
    OtherStacksOk(g, st, st', t);
    RunningFramesOf(st, st', t);
  }

  lemma SendSuperIsSafe(g: Graph, st: State, st': State, t: Tid)
    requires Core(g, st) && SendSuper(g, st, st', t)
    ensures Core(g, st')
  {
    var s, s' := st.stacks[t], st'.stacks[t];
    assert StackOk(g, st.flagged, s);
    forall k | 0 <= k < |s'|
      ensures FrameOk(g, st.flagged, s', k)
    {
      assert k < |s| ==> FrameOk(g, st.flagged, s, k);
    }
    OtherStacksOk(g, st, st', t);
    RunningFramesOf(st, st', t);
  }

  lemma RetopIsSafe(g: Graph, st: State, st': State, t: Tid, pc: Pc)
    requires Core(g, st) && t in st.stacks && st.stacks[t] != [] && Top(st.stacks[t]).pc != Start && pc != Start && pc != Running
    requires pc == Waiting ==> Top(st.stacks[t]).c in st.flagged
    requires st' == st.(stacks := st.stacks[t := WithTop(st.stacks[t], pc)], holder := st'.holder)
    ensures Core(g, st')
  {
    assert FrameOk(g, st.flagged, st.stacks[t], |st.stacks[t]| - 1);
    RetopKeepsStack(g, st.flagged, st.flagged, st.stacks[t], pc);
    OtherStacksOk(g, st, st', t);
    RunningFramesOf(st, st', t);
  }

  lemma PopIsSafe(g: Graph, st: State, st': State, t: Tid)
    requires Core(g, st) && t in st.stacks && st.stacks[t] != [] && Top(st.stacks[t]).c in st.flagged
    requires st' == st.(stacks := st.stacks[t := Popped(st.stacks[t])], holder := st'.holder)
    ensures Core(g, st')
  {
    assert StackOk(g, st.flagged, st.stacks[t]);
    PopKeepsStack(g, st.flagged, st.flagged, st.stacks[t]);
    OtherStacksOk(g, st, st', t);
    RunningFramesOf(st, st', t);
  }

  lemma LockedCannotAbort(g: Graph, st: State, t: Tid)
    requires Core(g, st) && AtTop(st, t, Locked)
    ensures !Aborts(g, st, Top(st.stacks[t]).c)
    ensures Top(st.stacks[t]).c in g.superclass ==> g.superclass[Top(st.stacks[t]).c] in st.flagged
  {
    var c := Top(st.stacks[t]).c;
    assert FrameOk(g, st.flagged, st.stacks[t], |st.stacks[t]| - 1);
    if c in g.superclass {
      assert HasTable(st, Inst(g.superclass[c])) && HasTable(st, Meta(g.superclass[c]));
    }
  }

  ghost function Marked(st: State, c: Cls, a: Table, b: Table): State {
    st.(flagged := st.flagged + {c}, created := st.created[Inst(c) := a][Meta(c) := b])
  }

  lemma InstalledAtOnce(g: Graph, st: State, c: Cls, a: Table, b: Table)
    requires TablesOk(g, st) && c !in st.flagged && (c in g.superclass ==> g.superclass[c] in st.flagged)
    ensures TablesOk(g, Marked(st, c, a, b).(installed := st.installed[Meta(c) := b][Inst(c) := a]))
  {
    assert !HasTable(st, Inst(c)) && !HasTable(st, Meta(c));
    assert Meta(c).c == c && Inst(c).c == c;
  }

  lemma PushedOwners(l: seq<Entry>, c: Cls, a: Table, b: Table)
    requires Paired(l) && Unique(l) && Meta(c) !in Owners(l) && Inst(c) !in Owners(l)
    ensures
      var l' := [Entry(Meta(c), b), Entry(Inst(c), a)] + l;
      && Paired(l') && Unique(l')
      && Owners(l') == Owners(l) + {Meta(c), Inst(c)}
      && forall e :: e in l' ==> e in l || e == Entry(Meta(c), b) || e == Entry(Inst(c), a)
  {
    var l' := [Entry(Meta(c), b), Entry(Inst(c), a)] + l;
    assert l'[2..] == l;
    assert l'[0] in l' && l'[1] in l' && forall e :: e in l ==> e in l';
    assert forall i :: 0 <= i < |l| ==> l[i].owner in Owners(l);
  }

  lemma ListedForNow(g: Graph, st: State, c: Cls, a: Table, b: Table)
    requires TablesOk(g, st) && c !in st.flagged && (c in g.superclass ==> g.superclass[c] in st.flagged)
    ensures TablesOk(g, Marked(st, c, a, b).(lookAside := [Entry(Meta(c), b), Entry(Inst(c), a)] + st.lookAside))
  {
    assert !HasTable(st, Inst(c)) && !HasTable(st, Meta(c));
    PushedOwners(st.lookAside, c, a, b);
    assert Meta(c).c == c && Inst(c).c == c;
  }

  lemma TablesOnly(g: Graph, st: State, stacks: map<Tid, seq<Frame>>, holder: map<Cls, Tid>, sent: seq<Cls>)
    requires TablesOk(g, st)
    ensures TablesOk(g, st.(stacks := stacks, holder := holder, sent := sent))
  {
    assert forall n: Node :: HasTable(st.(stacks := stacks, holder := holder, sent := sent), n) <==> HasTable(st, n);
  }

  lemma BeginIsSafe(g: Graph, st: State, st': State, t: Tid, a: Table, b: Table, h: bool)
    requires Core(g, st) && Begin(g, st, st', t, a, b, h)
    ensures Core(g, st')
  {
    hide TablesOk, StacksOk, RunningOk, StackOk, Aborts, SentOk;
    LockedCannotAbort(g, st, t);
    BeginStacks(g, st, st', t, a, b, h);
    BeginTables(g, st, st', t, a, b, h);
    BeginSent(g, st, st', t, a, b, h);
    if h {
      BeginRuns(g, st, st', t, a, b);
    } else {
      RunningFramesOf(st, st', t);
    }
  }

  lemma BeginTables(g: Graph, st: State, st': State, t: Tid, a: Table, b: Table, h: bool)
    requires Core(g, st) && Begin(g, st, st', t, a, b, h) && !Aborts(g, st, Top(st.stacks[t]).c)
    requires Top(st.stacks[t]).c in g.superclass ==> g.superclass[Top(st.stacks[t]).c] in st.flagged
    ensures TablesOk(g, st')
  {
    hide TablesOk, StacksOk, RunningOk, StackOk, Aborts, SentOk;
    var c := Top(st.stacks[t]).c;
    if h {
      ListedForNow(g, st, c, a, b);
      TablesOnly(g, Marked(st, c, a, b).(lookAside := st'.lookAside), st'.stacks, st'.holder, st'.sent);
    } else {
      InstalledAtOnce(g, st, c, a, b);
      TablesOnly(g, Marked(st, c, a, b).(installed := st'.installed), st'.stacks, st'.holder, st'.sent);
    }
  }

  lemma BeginSent(g: Graph, st: State, st': State, t: Tid, a: Table, b: Table, h: bool)
    requires SentOk(st) && Begin(g, st, st', t, a, b, h) && !Aborts(g, st, Top(st.stacks[t]).c)
    ensures SentOk(st')
  {
    hide Aborts;
  }

  lemma BeginStacks(g: Graph, st: State, st': State, t: Tid, a: Table, b: Table, h: bool)
    requires Core(g, st) && Begin(g, st, st', t, a, b, h) && !Aborts(g, st, Top(st.stacks[t]).c)
    ensures StacksOk(g, st')
  {
    var s := st.stacks[t];
    assert FrameOk(g, st.flagged, s, |s| - 1);
    if h {
      RetopKeepsStack(g, st.flagged, st'.flagged, s, Running);
    } else {
      PopKeepsStack(g, st.flagged, st'.flagged, s);
    }
    OtherStacksOk(g, st, st', t);
  }

  lemma BeginRuns(g: Graph, st: State, st': State, t: Tid, a: Table, b: Table)
    requires Core(g, st) && Begin(g, st, st', t, a, b, true) && !Aborts(g, st, Top(st.stacks[t]).c)
    ensures RunningOk(st')
  {
    var c, s, s' := Top(st.stacks[t]).c, st.stacks[t], st'.stacks[t];
    assert forall k :: 0 <= k < |s| - 1 ==> s'[k] == s[k];
    assert st'.lookAside[0] in st'.lookAside && forall e :: e in st.lookAside ==> e in st'.lookAside;
    forall u, k, d | RunningAt(st', u, k, d)
      ensures RunningAt(st, u, k, d) || (u == t && k == |s| - 1 && d == c)
      ensures Meta(d) in Owners(st'.lookAside) && d in st'.sent
    {
      if u == t && k == |s| - 1 {
        assert st'.lookAside[0].owner == Meta(c);
      } else {
        assert RunningAt(st, u, k, d);
      }
    }
    assert !HasTable(st, Meta(c));
  }

  lemma FinishIsSafe(g: Graph, st: State, st': State, t: Tid)
    requires Core(g, st) && Finish(st, st', t)
    ensures Core(g, st')
  {
    var c, s := Top(st.stacks[t]).c, st.stacks[t];
    assert RunningAt(st, t, |s| - 1, c);
    FinishRuns(g, st, st', t);
    assert Paired(st.lookAside) && Unique(st.lookAside);
    WithoutPairKeepsOthers(st.lookAside, c);
    WithoutPairIsPaired(st.lookAside, c);
    FoundIffOwner(st.lookAside, Meta(c));
    FoundIffOwner(st.lookAside, Inst(c));
    hide TablesOk, StacksOk, RunningOk, Paired, Unique, Owners, WithoutPair, Find;
    FinishTables(g, st, st', c);
  }

  lemma FinishRuns(g: Graph, st: State, st': State, t: Tid)
    requires Core(g, st) && Finish(st, st', t)
    ensures StacksOk(g, st') && RunningOk(st')
  {
    var c, s := Top(st.stacks[t]).c, st.stacks[t];
    assert FrameOk(g, st.flagged, s, |s| - 1);
    PopKeepsStack(g, st.flagged, st.flagged, s);
    OtherStacksOk(g, st, st', t);
    assert RunningAt(st, t, |s| - 1, c);
    WithoutPairKeepsOthers(st.lookAside, c);
    forall u, k, d | RunningAt(st', u, k, d)
      ensures RunningAt(st, u, k, d) && d != c
    {
      assert RunningAt(st, u, k, d);
    }
  }

  lemma FinishTables(g: Graph, st: State, st': State, c: Cls)
    requires TablesOk(g, st) && Meta(c) in st'.installed && Inst(c) in st'.installed
    requires Entry(Meta(c), st'.installed[Meta(c)]) in st.lookAside && Entry(Inst(c), st'.installed[Inst(c)]) in st.lookAside
    requires st' == st.(lookAside := st'.lookAside, installed := st'.installed, stacks := st'.stacks, holder := st'.holder)
    requires st'.installed == st.installed[Meta(c) := st'.installed[Meta(c)]][Inst(c) := st'.installed[Inst(c)]]
    requires Paired(st'.lookAside) && Unique(st'.lookAside)
    requires Owners(st'.lookAside) == Owners(st.lookAside) - {Meta(c), Inst(c)}
    requires forall e :: e in st'.lookAside ==> e in st.lookAside
    ensures TablesOk(g, st')
  {
    assert Meta(c) in Owners(st.lookAside) && Inst(c) in Owners(st.lookAside);
    forall n: Node
      ensures HasTable(st', n) <==> HasTable(st, n)
    {
    }
  }

  // ---------------------------------------------------------------------------
  // The class locks
  // ---------------------------------------------------------------------------

  lemma SameHolders(st: State, st': State)
    requires HolderOk(st) && st'.holder == st.holder
    requires forall t, k, c :: KeepsAt(st', t, k, c) <==> KeepsAt(st, t, k, c)
    ensures HolderOk(st')
  {
    forall c | c in st'.holder
      ensures exists k :: KeepsAt(st', st'.holder[c], k, c)
    {
      var k :| KeepsAt(st, st.holder[c], k, c);
      assert KeepsAt(st', st'.holder[c], k, c);
    }
  }

  lemma OneMoreHolder(st: State, st': State, t: Tid, n: int, d: Cls)
    requires HolderOk(st) && LockFree(st, t, d) && st'.holder == st.holder[d := t] && KeepsAt(st', t, n, d)
    requires forall u, k, c :: KeepsAt(st', u, k, c) <==> KeepsAt(st, u, k, c) || (u == t && k == n && c == d)
    ensures HolderOk(st')
  {
    forall c | c in st'.holder
      ensures exists k :: KeepsAt(st', st'.holder[c], k, c)
    {
      if c != d {
        var k :| KeepsAt(st, st.holder[c], k, c);
        assert KeepsAt(st', st'.holder[c], k, c);
      }
    }
  }

  lemma OneLessHolder(st: State, st': State, t: Tid, n: int, d: Cls)
    requires HolderOk(st) && st'.holder == st.holder - {d} && KeepsAt(st, t, n, d)
    requires forall k :: KeepsAt(st, t, k, d) ==> k == n
    requires forall u, k, c :: KeepsAt(st', u, k, c) <==> KeepsAt(st, u, k, c) && !(u == t && k == n)
    ensures HolderOk(st')
  {
    forall c | c in st'.holder
      ensures exists k :: KeepsAt(st', st'.holder[c], k, c)
    {
      var k :| KeepsAt(st, st.holder[c], k, c);
      assert KeepsAt(st', st'.holder[c], k, c);
    }
  }

  /** A thread that holds the lock of its top frame's class holds it there only. */
  lemma OnlyTopKeeps(g: Graph, st: State, t: Tid, k: int)
    requires StacksOk(g, st) && LocksOk(st) && t in st.stacks && st.stacks[t] != []
    requires KeepsAt(st, t, |st.stacks[t]| - 1, Top(st.stacks[t]).c) && KeepsAt(st, t, k, Top(st.stacks[t]).c)
    ensures k == |st.stacks[t]| - 1
  {
    assert FrameOk(g, st.flagged, st.stacks[t], k);
    assert NotAgain(st.stacks[t]);
  }

  lemma PopHolds(g: Graph, st: State, st': State, t: Tid)
    requires StacksOk(g, st) && LocksOk(st) && t in st.stacks && st.stacks[t] != []
    requires st'.stacks == st.stacks[t := Popped(st.stacks[t])]
    requires
      if Top(st.stacks[t]).pc == Locked || Top(st.stacks[t]).pc == Running
      then st'.holder == st.holder - {Top(st.stacks[t]).c} else st'.holder == st.holder
    ensures LocksOk(st')
  {
    hide NotAgain, HolderOk, StacksOk, LocksOk;
    var s, s' := st.stacks[t], st'.stacks[t];
    var n, d := |s| - 1, Top(s).c;
    LocksOf(st);
    PopNotAgain(s);
    forall u, k, c
      ensures KeepsAt(st', u, k, c) <==> KeepsAt(st, u, k, c) && !(u == t && k == n)
    {
      assert 0 <= k < n ==> s'[k] == s[k];
    }
    if KeepsAt(st, t, n, d) {
      forall k | KeepsAt(st, t, k, d)
        ensures k == n
      {
        OnlyTopKeeps(g, st, t, k);
      }
      OneLessHolder(st, st', t, n, d);
    } else {
      SameHolders(st, st');
    }
    ToLocks(st, st', t);
  }

  lemma LocksOf(st: State)
    requires LocksOk(st)
    ensures HolderOk(st) && forall t :: t in st.stacks ==> NotAgain(st.stacks[t])
  {
  }

  lemma ToLocks(st: State, st': State, t: Tid)
    requires LocksOk(st) && HolderOk(st') && t in st'.stacks && st'.stacks == st.stacks[t := st'.stacks[t]]
    requires t in st.stacks && NotAgain(st'.stacks[t])
    ensures LocksOk(st')
  {
    hide HolderOk, NotAgain;
  }

  lemma PopNotAgain(s: seq<Frame>)
    requires s != [] && NotAgain(s)
    ensures NotAgain(Popped(s))
  {
  }

  lemma PushNotAgain(s: seq<Frame>, c: Cls)
    requires NotAgain(s)
    ensures NotAgain(s + [Frame(c, Start)])
  {
  }

  /** A frame may go on to the lock if the class is not marked yet, or if it is there already. */
  lemma RetopNotAgain(g: Graph, flagged: set<Cls>, s: seq<Frame>, pc: Pc)
    requires StackOk(g, flagged, s) && NotAgain(s) && s != []
    requires pc == AfterSuper || pc == Waiting || Top(s).pc == WantLock || Top(s).pc == Locked || Top(s).c !in flagged
    ensures NotAgain(WithTop(s, pc))
  {
    var s' := WithTop(s, pc);
    forall i, j | 0 <= i < j < |s'| && s'[i].pc == Running && s'[j].c == s'[i].c
      ensures s'[j].pc == Start || s'[j].pc == AfterSuper || s'[j].pc == Waiting
    {
      assert FrameOk(g, flagged, s, i) && s[i] == s'[i];
      if j == |s| - 1 {
        assert s[j].c == s[i].c;
      }
    }
  }

  lemma RetopHolds(g: Graph, st: State, st': State, t: Tid, pc: Pc)
    requires StacksOk(g, st) && LocksOk(st) && t in st.stacks && st.stacks[t] != []
    requires st'.stacks == st.stacks[t := WithTop(st.stacks[t], pc)] && st'.holder == st.holder
    requires pc == AfterSuper || pc == Waiting || Top(st.stacks[t]).pc == Locked || Top(st.stacks[t]).c !in st.flagged
    requires pc == Running <==> Top(st.stacks[t]).pc == Locked
    requires pc != Locked && Top(st.stacks[t]).pc != Running
    ensures LocksOk(st')
  {
    hide NotAgain, HolderOk, LocksOk;
    LocksOf(st);
    RetopNotAgain(g, st.flagged, st.stacks[t], pc);
    SameHolders(st, st');
    ToLocks(st, st', t);
  }

  lemma PushHolds(st: State, st': State, t: Tid, c: Cls)
    requires LocksOk(st) && t in st.stacks && st'.stacks == st.stacks[t := st.stacks[t] + [Frame(c, Start)]] && st'.holder == st.holder
    ensures LocksOk(st')
  {
    hide NotAgain, HolderOk, LocksOk;
    LocksOf(st);
    PushNotAgain(st.stacks[t], c);
    SameHolders(st, st');
    ToLocks(st, st', t);
  }

  lemma TakeHolds(g: Graph, st: State, st': State, t: Tid)
    requires StacksOk(g, st) && LocksOk(st) && TakeLock(st, st', t)
    ensures LocksOk(st')
  {
    hide NotAgain, HolderOk, LocksOk, StacksOk, LockFree;
    LocksOf(st);
    assert StackOk(g, st.flagged, st.stacks[t]) by {
      StackOf(g, st, t);
    }
    RetopNotAgain(g, st.flagged, st.stacks[t], Locked);
    OneMoreHolder(st, st', t, |st.stacks[t]| - 1, Top(st.stacks[t]).c);
    ToLocks(st, st', t);
  }

  lemma StackOf(g: Graph, st: State, t: Tid)
    requires StacksOk(g, st) && t in st.stacks
    ensures StackOk(g, st.flagged, st.stacks[t])
  {
  }

  lemma SendSuperHolds(g: Graph, st: State, st': State, t: Tid)
    requires StacksOk(g, st) && LocksOk(st) && SendSuper(g, st, st', t)
    ensures LocksOk(st')
  {
    hide LocksOk, StacksOk;
    var c := Top(st.stacks[t]).c;
    var st1 := st.(stacks := st.stacks[t := WithTop(st.stacks[t], AfterSuper)]);
    RetopHolds(g, st, st1, t, AfterSuper);
    if c in g.superclass {
      PushHolds(st1, st', t, g.superclass[c]);
    }
  }

  /** Every step of every thread keeps the invariant. */
  lemma StepIsSafe(g: Graph, st: State, st': State)
    requires Safe(g, st) && Next(g, st, st')
    ensures Safe(g, st')
  {
    hide Core, LocksOk, StepOf;
    var t :| StepOf(g, st, st', t);
    StepKeepsCore(g, st, st', t);
    StepKeepsLocks(g, st, st', t);
  }

  lemma StepKeepsCore(g: Graph, st: State, st': State, t: Tid)
    requires Core(g, st) && StepOf(g, st, st', t)
    ensures Core(g, st')
  {
    hide Core;
    if c :| Call(st, st', t, c) {
      CallIsSafe(g, st, st', t, c);
    } else if SendSuper(g, st, st', t) {
      SendSuperIsSafe(g, st, st', t);
    } else if TestFlag(st, st', t) {
      RetopIsSafe(g, st, st', t, if Top(st.stacks[t]).c in st.flagged then Waiting else WantLock);
    } else if PassLock(st, st', t) {
      WaitingIsFlagged(g, st, t);
      PopIsSafe(g, st, st', t);
    } else if TakeLock(st, st', t) {
      RetopIsSafe(g, st, st', t, Locked);
    } else if FindFlagged(st, st', t) {
      PopIsSafe(g, st, st', t);
    } else if a, b, h :| Begin(g, st, st', t, a, b, h) {
      BeginIsSafe(g, st, st', t, a, b, h);
    } else {
      FinishIsSafe(g, st, st', t);
    }
  }

  lemma StepKeepsLocks(g: Graph, st: State, st': State, t: Tid)
    requires Core(g, st) && LocksOk(st) && StepOf(g, st, st', t)
    ensures LocksOk(st')
  {
    hide LocksOk, Core, TablesOk, StacksOk, RunningOk, SentOk, LockFree, Aborts;
    assert StacksOk(g, st) by {
      CoreOf(g, st);
    }
    if c :| Call(st, st', t, c) {
      PushHolds(st, st', t, c);
    } else if SendSuper(g, st, st', t) {
      SendSuperHolds(g, st, st', t);
    } else if TestFlag(st, st', t) {
      RetopHolds(g, st, st', t, if Top(st.stacks[t]).c in st.flagged then Waiting else WantLock);
    } else if PassLock(st, st', t) || FindFlagged(st, st', t) || Finish(st, st', t) {
      PopHolds(g, st, st', t);
    } else if TakeLock(st, st', t) {
      TakeHolds(g, st, st', t);
    } else if a, b, h :| Begin(g, st, st', t, a, b, h) {
      LockedCannotAbort(g, st, t);
      if h {
        RetopHolds(g, st, st', t, Running);
      } else {
        PopHolds(g, st, st', t);
      }
    }
  }

  lemma CoreOf(g: Graph, st: State)
    requires Core(g, st)
    ensures TablesOk(g, st) && StacksOk(g, st) && RunningOk(st) && SentOk(st)
  {
  }

  lemma WaitingIsFlagged(g: Graph, st: State, t: Tid)
    requires Core(g, st) && AtTop(st, t, Waiting)
    ensures Top(st.stacks[t]).c in st.flagged
  {
    assert FrameOk(g, st.flagged, st.stacks[t], |st.stacks[t]| - 1);
  }

  ghost predicate IsRun(g: Graph, run: seq<State>) {
    run != [] && Init(run[0]) && forall i :: 0 <= i < |run| - 1 ==> Next(g, run[i], run[i + 1])
  }

  /** Over every run: nothing aborts, the look-aside list is made of adjacent pairs without a
      repeated owner, and each marked class has its pair of tables in one place. */
  lemma {:induction false} RunsAreSafe(g: Graph, run: seq<State>, n: nat)
    requires Acyclic(g) && IsRun(g, run) && n < |run|
    ensures Safe(g, run[n])
  {
    if n > 0 {
      RunsAreSafe(g, run, n - 1);
      StepIsSafe(g, run[n - 1], run[n]);
    }
  }

  ghost predicate Above(g: Graph, a: Cls, c: Cls)
    requires Acyclic(g)
    decreases if c in g.rank then g.rank[c] else 0
  {
    c in g.superclass && (a == g.superclass[c] || Above(g, a, g.superclass[c]))
  }

  lemma {:induction false} AncestorsAreFlagged(g: Graph, st: State, a: Cls, c: Cls)
    requires Acyclic(g) && TablesOk(g, st) && Above(g, a, c)
    requires c in st.flagged || (c in g.superclass && g.superclass[c] in st.flagged)
    ensures a in st.flagged
    decreases if c in g.rank then g.rank[c] else 0
  {
    if a != g.superclass[c] {
      AncestorsAreFlagged(g, st, a, g.superclass[c]);
    }
  }

  /** +initialize is sent at most once per class, and every superclass is marked before. */
  lemma InitializeOnceAfterSuperclasses(g: Graph, run: seq<State>, n: nat, t: Tid, x: Table, y: Table, a: Cls)
    requires Acyclic(g) && IsRun(g, run) && n + 1 < |run|
    requires Begin(g, run[n], run[n + 1], t, x, y, true)
    ensures Top(run[n].stacks[t]).c !in run[n].sent
    ensures Above(g, a, Top(run[n].stacks[t]).c) ==> a in run[n].flagged
  {
    RunsAreSafe(g, run, n);
    LockedCannotAbort(g, run[n], t);
    if Above(g, a, Top(run[n].stacks[t]).c) {
      AncestorsAreFlagged(g, run[n], a, Top(run[n].stacks[t]).c);
    }
  }

  /** A running +initialize was sent and can always be cleaned up, and the cleanup installs the
      very tables that were made for the class and its metaclass. */
  lemma CleanupInstallsItsOwn(g: Graph, run: seq<State>, n: nat, t: Tid)
    requires Acyclic(g) && IsRun(g, run) && n < |run| && AtTop(run[n], t, Running)
    ensures
      var st, c := run[n], Top(run[n].stacks[t]).c;
      && c in st.sent && Paired(st.lookAside) && Unique(st.lookAside) && Meta(c) in Owners(st.lookAside)
      && Meta(c) in st.created && Inst(c) in st.created
      && Find(st.lookAside, Meta(c)) == Some(st.created[Meta(c)])
      && Find(st.lookAside, Inst(c)) == Some(st.created[Inst(c)])
      && Owners(WithoutPair(st.lookAside, c)) == Owners(st.lookAside) - {Meta(c), Inst(c)}
  {
    RunsAreSafe(g, run, n);
    var st, c := run[n], Top(run[n].stacks[t]).c;
    assert RunningAt(st, t, |st.stacks[t]| - 1, c);
    WithoutPairKeepsOthers(st.lookAside, c);
    FoundIffOwner(st.lookAside, Meta(c));
    FoundIffOwner(st.lookAside, Inst(c));
  }

  // ---------------------------------------------------------------------------
  // Using a class waits for its initialization
  // ---------------------------------------------------------------------------

  /** The class is marked, and no thread but t is inside its +initialize. */
  ghost predicate Settled(st: State, t: Tid, c: Cls) {
    c in st.flagged && forall u, k :: u != t ==> !RunningAt(st, u, k, c)
  }

  /** The step takes the top frame off t's stack: its call of objc_send_initialize returns. */
  ghost predicate Returns(st: State, st': State, t: Tid) {
    t in st.stacks && st.stacks[t] != [] && t in st'.stacks && st'.stacks[t] == Popped(st.stacks[t])
  }

  /** What a step does to the stack of its thread. */
  ghost predicate Moves(g: Graph, flagged: set<Cls>, s: seq<Frame>, s': seq<Frame>) {
    || (exists c :: s' == s + [Frame(c, Start)])
    || (s != [] && Top(s).pc == Start &&
        s' == WithTop(s, AfterSuper) + (if Top(s).c in g.superclass then [Frame(g.superclass[Top(s).c], Start)] else []))
    || (s != [] && Top(s).pc != Start && exists pc ::
          s' == WithTop(s, pc) && (pc == Running ==> Top(s).c !in flagged) && pc != Start)
    || (s != [] && Top(s).pc != Start && s' == Popped(s))
  }

  lemma StepMoves(g: Graph, st: State, st': State, t: Tid)
    requires Core(g, st) && StepOf(g, st, st', t)
    ensures t in st.stacks && t in st'.stacks && st'.stacks == st.stacks[t := st'.stacks[t]]
    ensures Moves(g, st.flagged, st.stacks[t], st'.stacks[t])
  {
    hide Core, LockFree, Aborts, Moves, Paired, WithoutPair, Find;
    var s := st.stacks[t];
    if c :| Call(st, st', t, c) {
      PushMoves(g, st.flagged, s, c);
    } else if SendSuper(g, st, st', t) {
      SendSuperMoves(g, st.flagged, s);
    } else if TestFlag(st, st', t) {
      RetopMoves(g, st.flagged, s, if Top(s).c in st.flagged then Waiting else WantLock);
    } else if PassLock(st, st', t) || FindFlagged(st, st', t) || Finish(st, st', t) {
      PopMoves(g, st.flagged, s);
    } else if TakeLock(st, st', t) {
      RetopMoves(g, st.flagged, s, Locked);
    } else if a, b, h :| Begin(g, st, st', t, a, b, h) {
      LockedCannotAbort(g, st, t);
      RetopMoves(g, st.flagged, s, Running);
      PopMoves(g, st.flagged, s);
    }
  }

  lemma PushMoves(g: Graph, flagged: set<Cls>, s: seq<Frame>, c: Cls)
    ensures Moves(g, flagged, s, s + [Frame(c, Start)])
  {
  }

  lemma SendSuperMoves(g: Graph, flagged: set<Cls>, s: seq<Frame>)
    requires s != [] && Top(s).pc == Start
    ensures
      var w := WithTop(s, AfterSuper);
      Moves(g, flagged, s, if Top(s).c in g.superclass then w + [Frame(g.superclass[Top(s).c], Start)] else w)
  {
    assert WithTop(s, AfterSuper) + [] == WithTop(s, AfterSuper);
  }

  lemma RetopMoves(g: Graph, flagged: set<Cls>, s: seq<Frame>, pc: Pc)
    requires s != [] && Top(s).pc != Start && (pc == Running ==> Top(s).c !in flagged) && pc != Start
    ensures Moves(g, flagged, s, WithTop(s, pc))
  {
  }

  lemma PopMoves(g: Graph, flagged: set<Cls>, s: seq<Frame>)
    requires s != [] && Top(s).pc != Start
    ensures Moves(g, flagged, s, Popped(s))
  {
  }

  /** A +initialize begins only in a class that was not marked. */
  lemma NewlyRunning(g: Graph, st: State, st': State, t: Tid, u: Tid, k: int, c: Cls)
    requires Core(g, st) && StepOf(g, st, st', t) && RunningAt(st', u, k, c)
    ensures RunningAt(st, u, k, c) || c !in st.flagged
  {
    hide StepOf, Core;
    StepMoves(g, st, st', t);
  }

  lemma StaysSettled(g: Graph, st: State, st': State, t: Tid, u: Tid, c: Cls)
    requires Core(g, st) && StepOf(g, st, st', t) && Settled(st, u, c)
    ensures Settled(st', u, c)
  {
    hide Core, StepOf;
    forall v, k | v != u
      ensures !RunningAt(st', v, k, c)
    {
      if RunningAt(st', v, k, c) {
        NewlyRunning(g, st, st', t, v, k, c);
      }
    }
    FlagsStay(g, st, st', t);
  }

  lemma FlagsStay(g: Graph, st: State, st': State, t: Tid)
    requires StepOf(g, st, st', t)
    ensures st.flagged <= st'.flagged
  {
    hide Aborts, LockFree, Paired, WithoutPair, Find;
  }

  /** A frame returns after marking its class or finding it marked, and with the class lock free
      for its thread. */
  lemma ReturnIsSettled(g: Graph, st: State, st': State, t: Tid)
    requires Safe(g, st) && StepOf(g, st, st', t) && Returns(st, st', t)
    ensures Settled(st', t, Top(st.stacks[t]).c)
  {
    hide Core, LocksOk;
    var c, n := Top(st.stacks[t]).c, |st.stacks[t]| - 1;
    LocksOf(st);
    ReturnIsMarked(g, st, st', t);
    assert Top(st.stacks[t]).pc != Waiting ==> KeepsAt(st, t, n, c);
    forall u, k | RunningAt(st', u, k, c)
      ensures u == t
    {
      assert u != t ==> KeepsAt(st, u, k, c);
    }
  }

  /** How a call returns. */
  lemma ReturnIsMarked(g: Graph, st: State, st': State, t: Tid)
    requires Core(g, st) && StepOf(g, st, st', t) && Returns(st, st', t)
    ensures Top(st.stacks[t]).c in st'.flagged && Top(st.stacks[t]).pc != Start
    ensures forall u :: u in st'.stacks && u != t ==> u in st.stacks && st'.stacks[u] == st.stacks[u]
    ensures
      || (Top(st.stacks[t]).pc == Waiting && LockFree(st, t, Top(st.stacks[t]).c))
      || Top(st.stacks[t]).pc == Locked || Top(st.stacks[t]).pc == Running
  {
    hide TablesOk, RunningOk, SentOk, Aborts, Paired, WithoutPair, Find;
    var s := st.stacks[t];
    assert FrameOk(g, st.flagged, s, |s| - 1);
    assert |st'.stacks[t]| == |s| - 1;
  }

  /** A frame past the messages to its superclasses that runs or is to run next. */
  ghost predicate HasTurn(s: seq<Frame>, k: int) {
    0 <= k < |s| && s[k].pc != Start && (k == |s| - 1 || s[k].pc == Running)
  }

  /** Whoever is past the superclasses of a class has waited for all of them. */
  ghost predicate SupersOk(g: Graph, st: State)
    requires Acyclic(g)
  {
    forall t, k, a :: t in st.stacks && HasTurn(st.stacks[t], k) && Above(g, a, st.stacks[t][k].c) ==> Settled(st, t, a)
  }

  /** A frame gets its turn when it has no superclass or the call for its superclass returns. */
  lemma NewTurn(g: Graph, st: State, st': State, t: Tid, u: Tid, k: int)
    requires Core(g, st) && StepOf(g, st, st', t) && u in st'.stacks && HasTurn(st'.stacks[u], k)
    ensures u in st.stacks
    ensures
      var s, c := st.stacks[u], st'.stacks[u][k].c;
      || (HasTurn(s, k) && s[k].c == c)
      || c !in g.superclass
      || (u == t && Returns(st, st', t) && c in g.superclass && g.superclass[c] == Top(s).c && HasTurn(s, |s| - 1))
  {
    hide StepOf, TablesOk, RunningOk, SentOk;
    StepMoves(g, st, st', t);
    if u == t {
      assert k < |st.stacks[t]| ==> FrameOk(g, st.flagged, st.stacks[t], k);
    }
  }

  lemma StepKeepsSupers(g: Graph, st: State, st': State, t: Tid)
    requires Acyclic(g) && Safe(g, st) && SupersOk(g, st) && StepOf(g, st, st', t)
    ensures SupersOk(g, st')
  {
    hide Core, LocksOk, StepOf, Settled, Returns, Acyclic;
    forall u, k, a | u in st'.stacks && HasTurn(st'.stacks[u], k) && Above(g, a, st'.stacks[u][k].c)
      ensures Settled(st', u, a)
    {
      assert 0 <= k < |st'.stacks[u]|;
      NewTurn(g, st, st', t, u, k);
      var s, c := st.stacks[u], st'.stacks[u][k].c;
      if HasTurn(s, k) && s[k].c == c {
        StaysSettled(g, st, st', t, u, a);
      } else {
        if a == Top(s).c {
          ReturnIsSettled(g, st, st', t);
        } else {
          assert Above(g, a, s[|s| - 1].c);
          StaysSettled(g, st, st', t, u, a);
        }
      }
    }
  }

  lemma {:induction false} SupersAreSettled(g: Graph, run: seq<State>, n: nat)
    requires Acyclic(g) && IsRun(g, run) && n < |run|
    ensures SupersOk(g, run[n])
  {
    hide Core, LocksOk, StepOf, SupersOk, Acyclic, Init;
    if n == 0 {
      NoFramesYet(g, run[0]);
    } else {
      SupersAreSettled(g, run, n - 1);
      RunsAreSafe(g, run, n - 1);
      var t :| StepOf(g, run[n - 1], run[n], t);
      StepKeepsSupers(g, run[n - 1], run[n], t);
    }
  }

  lemma NoFramesYet(g: Graph, st: State)
    requires Acyclic(g) && Init(st)
    ensures SupersOk(g, st)
  {
  }

  lemma {:induction false} RemainsSettled(g: Graph, run: seq<State>, n: nat, m: nat, t: Tid, c: Cls)
    requires Acyclic(g) && IsRun(g, run) && n <= m < |run| && Settled(run[n], t, c)
    ensures Settled(run[m], t, c)
    decreases m
  {
    hide Core, LocksOk, StepOf, Settled, Acyclic, Init;
    if n < m {
      RemainsSettled(g, run, n, m - 1, t, c);
      RunsAreSafe(g, run, m - 1);
      var u :| StepOf(g, run[m - 1], run[m], u);
      StaysSettled(g, run[m - 1], run[m], u, t, c);
    }
  }

  /** When objc_send_initialize for a class returns to a thread, the class and all its superclasses
      are marked, and from then on no other thread is inside the +initialize of any of them. */
  lemma ReturnsAfterInitialize(g: Graph, run: seq<State>, n: nat, t: Tid, a: Cls, m: nat)
    requires Acyclic(g) && IsRun(g, run) && n < m < |run| && StepOf(g, run[n], run[n + 1], t) && Returns(run[n], run[n + 1], t)
    requires a == Top(run[n].stacks[t]).c || Above(g, a, Top(run[n].stacks[t]).c)
    ensures a in run[m].flagged
    ensures forall u, k :: u != t ==> !RunningAt(run[m], u, k, a)
  {
    RunsAreSafe(g, run, n);
    ReturnIsSettled(g, run[n], run[n + 1], t);
    if a != Top(run[n].stacks[t]).c {
      SupersAreSettled(g, run, n);
      ReturnIsMarked(g, run[n], run[n + 1], t);
      StaysSettled(g, run[n], run[n + 1], t, t, a);
    }
    RemainsSettled(g, run, n + 1, m, t, a);
  }

  /** A thread is held up only by another thread that is behind the lock of the very class. */
  ghost predicate Blocked(st: State, t: Tid, c: Cls) {
    (AtTop(st, t, Waiting) || AtTop(st, t, WantLock)) && exists u, k :: u != t && KeepsAt(st, u, k, c)
  }

  /** Otherwise it goes on: a +initialize that ends is cleaned up, and any other call takes its
      next step. */
  lemma GoesOnUnlessBlocked(g: Graph, run: seq<State>, n: nat, t: Tid) returns (st': State)
    requires Acyclic(g) && IsRun(g, run) && n < |run| && t in run[n].stacks && run[n].stacks[t] != []
    ensures Blocked(run[n], t, Top(run[n].stacks[t]).c) || StepOf(g, run[n], st', t)
    ensures AtTop(run[n], t, Running) ==> Finish(run[n], st', t)
  {
    RunsAreSafe(g, run, n);
    if AtTop(run[n], t, Running) {
      CleanupInstallsItsOwn(g, run, n, t);
      st' := Cleaned(run[n], t);
    } else if AtTop(run[n], t, Waiting) || AtTop(run[n], t, WantLock) {
      st' := PastLock(g, run[n], t);
    } else {
      st' := PlainStep(g, run[n], t);
    }
  }

  lemma Cleaned(st: State, t: Tid) returns (st': State)
    requires AtTop(st, t, Running) && Paired(st.lookAside)
    requires Find(st.lookAside, Meta(Top(st.stacks[t]).c)).Some? && Find(st.lookAside, Inst(Top(st.stacks[t]).c)).Some?
    ensures Finish(st, st', t)
  {
    hide Paired, Find, WithoutPair;
    var c := Top(st.stacks[t]).c;
    st' := st.(lookAside := WithoutPair(st.lookAside, c),
               installed := st.installed[Meta(c) := Find(st.lookAside, Meta(c)).value]
                                        [Inst(c) := Find(st.lookAside, Inst(c)).value],
               stacks := st.stacks[t := Popped(st.stacks[t])],
               holder := st.holder - {c});
  }

  lemma PastLock(g: Graph, st: State, t: Tid) returns (st': State)
    requires Safe(g, st) && (AtTop(st, t, Waiting) || AtTop(st, t, WantLock))
    ensures Blocked(st, t, Top(st.stacks[t]).c) || StepOf(g, st, st', t)
  {
    hide Core;
    var c := Top(st.stacks[t]).c;
    if LockFree(st, t, c) {
      if AtTop(st, t, Waiting) {
        st' := st.(stacks := st.stacks[t := Popped(st.stacks[t])]);
        assert PassLock(st, st', t);
      } else {
        st' := st.(stacks := st.stacks[t := WithTop(st.stacks[t], Locked)], holder := st.holder[c := t]);
        assert TakeLock(st, st', t);
      }
    } else {
      st' := st;
      var k :| KeepsAt(st, st.holder[c], k, c);
      assert Blocked(st, t, c);
    }
  }

  lemma PlainStep(g: Graph, st: State, t: Tid) returns (st': State)
    requires Safe(g, st) && (AtTop(st, t, Start) || AtTop(st, t, AfterSuper) || AtTop(st, t, Locked))
    ensures StepOf(g, st, st', t)
  {
    hide Core, LocksOk, Aborts;
    var s := st.stacks[t];
    var c := Top(s).c;
    if AtTop(st, t, Start) {
      var w := WithTop(s, AfterSuper);
      st' := st.(stacks := st.stacks[t := if c in g.superclass then w + [Frame(g.superclass[c], Start)] else w]);
      assert SendSuper(g, st, st', t);
    } else if AtTop(st, t, AfterSuper) {
      st' := st.(stacks := st.stacks[t := WithTop(s, if c in st.flagged then Waiting else WantLock)]);
      assert TestFlag(st, st', t);
    } else if c in st.flagged {
      st' := st.(stacks := st.stacks[t := Popped(s)], holder := st.holder - {c});
      assert FindFlagged(st, st', t);
    } else {
      LockedCannotAbort(g, st, t);
      st' := st.(flagged := st.flagged + {c}, created := st.created[Inst(c) := 0][Meta(c) := 0],
                 installed := st.installed[Meta(c) := 0][Inst(c) := 0],
                 stacks := st.stacks[t := Popped(s)], holder := st.holder - {c});
      assert Begin(g, st, st', t, 0, 0, false);
    }
  }
}
