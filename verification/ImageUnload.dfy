/**
  Unloading an image while other threads mutate the runtime.  A mutation epoch is
  odd while a writer is inside a begin/end bracket and even otherwise; a scan for
  references into the image is trusted only when the epoch is the same even number
  before and after it.
 */
module ImageUnload {
  import opened Basics

  type Tid = nat
  type Img = nat
  /** The epoch is a 64-bit counter. */
  const WRAP: nat := 0x1_0000_0000_0000_0000

  datatype ImageState = Active | Retired | Detached

  /** size is 0 until the address range is known; metadata counts the metadata entries that
      the runtime may still refer to. */
  datatype Image = Image(state: ImageState, base: nat, size: nat, metadata: nat)

  predicate Contains(image: Image, address: nat) {
    image.base != 0 && image.size != 0 && image.base <= address < image.base + image.size
  }

  /** What a scan remembers.  expected is the caller's epoch for a detach and 0 for a mere report,
      before is the epoch it read; the rest describes, for the proof, the world at that moment: the
      unwrapped epoch, the mutations so far and the references. */
  datatype Scan = Scan(img: Img, image: Image, expected: nat, before: nat, start: nat, mutations: nat, refs: seq<nat>)

  datatype Thread =
    | Idle
    | Opening                                       // owns the writer lock, epoch not yet odd
    | Inside                                        // between begin and end
    | Closing                                       // epoch even again, lock not yet released
    | Scanning(scan: Scan, k: nat, count: nat)
    | Committing(scan: Scan)                        // the report was clean: about to detach

  /** refs are the code addresses that the runtime's tables hold. */
  datatype State = State(
    total: nat,
    writer: set<Tid>,
    mutations: nat,
    refs: seq<nat>,
    images: map<Img, Image>,
    threads: map<Tid, Thread>)

  function Epoch(st: State): nat {
    st.total % WRAP
  }

  // ---------------------------------------------------------------------------
  // Steps
  // ---------------------------------------------------------------------------

  ghost predicate At(st: State, t: Tid, th: Thread) {
    t in st.threads && st.threads[t] == th
  }

  function Set(st: State, t: Tid, th: Thread): State {
    st.(threads := st.threads[t := th])
  }

  ghost predicate TakeWriterLock(st: State, st': State, t: Tid) {
    At(st, t, Idle) && st.writer == {} && st' == Set(st, t, Opening).(writer := {t})
  }

  ghost predicate BeginMutation(st: State, st': State, t: Tid) {
    At(st, t, Opening) && st' == Set(st, t, Inside).(total := st.total + 1)
  }

  /** A bracketed mutation may change the references in any way. */
  ghost predicate Mutate(st: State, st': State, t: Tid) {
    At(st, t, Inside) && st' == st.(mutations := st.mutations + 1, refs := st'.refs)
  }

  ghost predicate EndMutation(st: State, st': State, t: Tid) {
    At(st, t, Inside) && st' == Set(st, t, Closing).(total := st.total + 1)
  }

  ghost predicate DropWriterLock(st: State, st': State, t: Tid) {
    At(st, t, Closing) && st' == Set(st, t, Idle).(writer := {})
  }

  /** noteRuntimeMutation keeps the parity. */
  ghost predicate Note(st: State, st': State) {
    st' == st.(total := st.total + 2)
  }

  /** imageRetire, with the event it emits. */
  ghost predicate Retire(st: State, st': State, img: Img) {
    && img in st.images
    && st' == if st.images[img].state == Active
              then st.(images := st.images[img := st.images[img].(state := Retired)], total := st.total + 2)
              else st
  }

  /** The start of a report. */
  ghost predicate StartScan(st: State, st': State, t: Tid, img: Img, expected: nat) {
    && At(st, t, Idle) && img in st.images
    && st' == Set(st, t, Scanning(Scan(img, st.images[img], expected, Epoch(st), st.total, st.mutations, st.refs), 0, 0))
  }

  ghost predicate ScanOne(st: State, st': State, t: Tid) {
    && t in st.threads && st.threads[t].Scanning? && st.threads[t].k < |st.refs|
    && var th := st.threads[t];
       st' == Set(st, t, th.(k := th.k + 1,
                             count := if Contains(th.scan.image, st.refs[th.k]) then th.count + 1 else th.count))
  }

  /** A report without blockers. */
  ghost predicate Clean(st: State, th: Thread)
    requires th.Scanning?
  {
    && th.scan.image.state != Active && th.scan.image.base != 0 && th.scan.image.size != 0
    && th.scan.image.metadata == 0 && th.count == 0
    && th.scan.before == Epoch(st) && Epoch(st) % 2 == 0
  }

  /** The end of a report: a detach goes on only with a clean report of a retired image. */
  ghost predicate EndScan(st: State, st': State, t: Tid) {
    && t in st.threads && st.threads[t].Scanning? && st.threads[t].k >= |st.refs|
    && var th := st.threads[t];
       st' == Set(st, t, if Clean(st, th) && th.scan.image.state == Retired && th.scan.expected != 0 && Epoch(st) == th.scan.expected
                         then Committing(th.scan) else Idle)
  }

  /** The last check of a detach and, if it holds, the transition. */
  ghost predicate Commits(st: State, t: Tid) {
    && t in st.threads && st.threads[t].Committing?
    && var th := st.threads[t];
       th.scan.img in st.images && st.images[th.scan.img].state == Retired && Epoch(st) == th.scan.expected
  }

  ghost predicate Commit(st: State, st': State, t: Tid) {
    && t in st.threads && st.threads[t].Committing?
    && var img := st.threads[t].scan.img;
       st' == if Commits(st, t)
              then Set(st, t, Idle).(images := st.images[img := st.images[img].(state := Detached, metadata := 0)], total := st.total + 2)
              else Set(st, t, Idle)
  }

  ghost predicate StepOf(st: State, st': State, t: Tid) {
    || TakeWriterLock(st, st', t) || BeginMutation(st, st', t) || Mutate(st, st', t)
    || EndMutation(st, st', t) || DropWriterLock(st, st', t) || Note(st, st')
    || (exists img :: Retire(st, st', img)) || (exists img, e :: StartScan(st, st', t, img, e))
    || ScanOne(st, st', t) || EndScan(st, st', t) || Commit(st, st', t)
  }

  ghost predicate Init(st: State) {
    st.total == 0 && st.writer == {} && st.mutations == 0 && forall t :: t in st.threads ==> st.threads[t] == Idle
  }

  // ---------------------------------------------------------------------------
  // The invariant
  // ---------------------------------------------------------------------------

  ghost predicate Writes(th: Thread) {
    th == Opening || th == Inside || th == Closing
  }

  /** One writer at a time; the epoch is odd exactly while it is inside. */
  ghost predicate WriterOk(st: State) {
    && |st.writer| <= 1
    && (forall t :: t in st.threads && Writes(st.threads[t]) ==> st.writer == {t})
    && (st.total % 2 == 1 <==> exists t :: At(st, t, Inside))
  }

  /** While the epoch stands where an even scan began, no mutation has run and the references
      are the ones that were there. */
  ghost predicate Frozen(st: State, scan: Scan) {
    && scan.before == scan.start % WRAP && scan.start <= st.total && scan.mutations <= st.mutations
    && (st.total == scan.start && scan.start % 2 == 0 ==> st.mutations == scan.mutations && st.refs == scan.refs)
  }

  ghost predicate NoneBefore(image: Image, refs: seq<nat>, k: nat) {
    forall i :: 0 <= i < k && i < |refs| ==> !Contains(image, refs[i])
  }

  /** The image is still where the scan saw it, and keeps its metadata until it is detached. */
  ghost predicate SameRange(st: State, scan: Scan) {
    && scan.img in st.images
    && st.images[scan.img].base == scan.image.base && st.images[scan.img].size == scan.image.size
    && (st.images[scan.img].state == Detached || st.images[scan.img].metadata == scan.image.metadata)
  }

  ghost predicate ThreadOk(st: State, th: Thread) {
    match th
    case Scanning(scan, k, count) =>
      Frozen(st, scan) && SameRange(st, scan) &&
      (st.total == scan.start && scan.start % 2 == 0 && count == 0 ==> NoneBefore(scan.image, scan.refs, k))
    case Committing(scan) =>
      && Frozen(st, scan) && SameRange(st, scan) && scan.before == scan.expected != 0 && scan.start % 2 == 0
      && scan.image.base != 0 && scan.image.size != 0 && scan.image.metadata == 0
      && (st.total == scan.start ==> NoneBefore(scan.image, scan.refs, |scan.refs|))
    case _ => true
  }

  ghost predicate Safe(st: State) {
    WriterOk(st) && forall t :: t in st.threads ==> ThreadOk(st, st.threads[t])
  }

  // ---------------------------------------------------------------------------
  // Every step keeps it
  // ---------------------------------------------------------------------------

  ghost predicate SameRanges(st: State, st': State) {
    forall i :: i in st.images ==>
      && i in st'.images
      && st'.images[i].base == st.images[i].base && st'.images[i].size == st.images[i].size
      && (st'.images[i].state == Detached
          || (st.images[i].state != Detached && st'.images[i].metadata == st.images[i].metadata))
  }

  /** A thread's knowledge survives any step in which the epoch moves on, or stands still with
      the world unchanged, or stands still at an odd number. */
  lemma KnowledgeSurvives(st: State, st': State, th: Thread)
    requires ThreadOk(st, th) && st.total <= st'.total && st.mutations <= st'.mutations
    requires st'.total == st.total ==> st.total % 2 == 1 || (st'.mutations == st.mutations && st'.refs == st.refs)
    requires SameRanges(st, st')
    ensures ThreadOk(st', th)
  {
  }

  lemma OthersSurvive(st: State, st': State, t: Tid)
    requires Safe(st) && st.total <= st'.total && st.mutations <= st'.mutations
    requires st'.total == st.total ==> st.total % 2 == 1 || (st'.mutations == st.mutations && st'.refs == st.refs)
    requires SameRanges(st, st')
    requires forall u :: u in st'.threads && u != t ==> u in st.threads && st'.threads[u] == st.threads[u]
    requires t in st'.threads ==> ThreadOk(st', st'.threads[t])
    ensures forall u :: u in st'.threads ==> ThreadOk(st', st'.threads[u])
  {
    forall u | u in st'.threads && u != t
      ensures ThreadOk(st', st'.threads[u])
    {
      KnowledgeSurvives(st, st', st.threads[u]);
    }
  }

  /** The writer's own bookkeeping. */
  lemma WriterMoves(st: State, st': State, t: Tid)
    requires WriterOk(st)
    requires TakeWriterLock(st, st', t) || BeginMutation(st, st', t) || EndMutation(st, st', t) || DropWriterLock(st, st', t)
    ensures WriterOk(st')
  {
    forall u | u in st'.threads && Writes(st'.threads[u])
      ensures st'.writer == {u}
    {
    }
    if BeginMutation(st, st', t) {
      assert At(st', t, Inside);
      assert st.writer == {t};
      assert forall u: Tid :: At(st, u, Inside) ==> u in st.writer;
    } else if EndMutation(st, st', t) {
      assert At(st, t, Inside);
      assert st.writer == {t};
      assert forall u: Tid :: At(st', u, Inside) ==> u in st.writer;
    } else {
      assert forall u :: At(st', u, Inside) <==> At(st, u, Inside);
    }
  }

  /** Steps that do not touch the writer: parity and the threads inside stay. */
  lemma WriterStays(st: State, st': State, t: Tid)
    requires WriterOk(st) && st'.writer == st.writer && st'.total % 2 == st.total % 2
    requires st'.threads.Keys == st.threads.Keys
    requires forall u :: u in st.threads && u != t ==> st'.threads[u] == st.threads[u]
    requires t in st.threads ==>
      (st'.threads[t] == st.threads[t] || (!Writes(st.threads[t]) && !Writes(st'.threads[t])))
    ensures WriterOk(st')
  {
    assert forall u :: At(st', u, Inside) <==> At(st, u, Inside);
  }

  lemma ScanOneThread(st: State, st': State, t: Tid)
    requires Safe(st) && ScanOne(st, st', t)
    ensures ThreadOk(st', st'.threads[t])
  {
    var th, th' := st.threads[t], st'.threads[t];
    assert ThreadOk(st, th);
    if st.total == th.scan.start && th.scan.start % 2 == 0 && th'.count == 0 {
      assert NoneBefore(th.scan.image, th.scan.refs, th.k + 1);
    }
  }

  lemma EndScanThread(st: State, st': State, t: Tid)
    requires Safe(st) && EndScan(st, st', t)
    ensures ThreadOk(st', st'.threads[t])
  {
    var th := st.threads[t];
    assert ThreadOk(st, th);
    if st'.threads[t].Committing? {
      ParityOfEpoch(th.scan.start);
    }
  }

  lemma ScanStepIsSafe(st: State, st': State, t: Tid)
    requires Safe(st) && (ScanOne(st, st', t) || EndScan(st, st', t))
    ensures Safe(st')
  {
    WriterStays(st, st', t);
    if ScanOne(st, st', t) {
      ScanOneThread(st, st', t);
    } else {
      EndScanThread(st, st', t);
    }
    hide ThreadOk, WriterOk, Clean;
    OthersSurvive(st, st', t);
  }

  lemma WriterStepIsSafe(st: State, st': State, t: Tid)
    requires Safe(st)
    requires TakeWriterLock(st, st', t) || BeginMutation(st, st', t) || EndMutation(st, st', t) || DropWriterLock(st, st', t)
    ensures Safe(st')
  {
    WriterMoves(st, st', t);
    OthersSurvive(st, st', t);
  }

  lemma MutateIsSafe(st: State, st': State, t: Tid)
    requires Safe(st) && Mutate(st, st', t)
    ensures Safe(st')
  {
    WriterStays(st, st', t);
    assert At(st, t, Inside);
    OthersSurvive(st, st', t);
  }

  lemma StartScanIsSafe(st: State, st': State, t: Tid, img: Img, e: nat)
    requires Safe(st) && StartScan(st, st', t, img, e)
    ensures Safe(st')
  {
    WriterStays(st, st', t);
    OthersSurvive(st, st', t);
  }

  lemma ImageStepIsSafe(st: State, st': State, t: Tid)
    requires Safe(st) && (Note(st, st') || (exists img :: Retire(st, st', img)) || Commit(st, st', t))
    ensures Safe(st')
  {
    WriterStays(st, st', t);
    if t in st.threads {
      KnowledgeSurvives(st, st', st.threads[t]);
    }
    OthersSurvive(st, st', t);
  }

  /** Every step of every thread keeps the invariant. */
  lemma StepIsSafe(st: State, st': State, t: Tid)
    requires Safe(st) && StepOf(st, st', t)
    ensures Safe(st')
  {
    hide Safe;
    if TakeWriterLock(st, st', t) || BeginMutation(st, st', t) || EndMutation(st, st', t) || DropWriterLock(st, st', t) {
      WriterStepIsSafe(st, st', t);
    } else if Mutate(st, st', t) {
      MutateIsSafe(st, st', t);
    } else if ScanOne(st, st', t) || EndScan(st, st', t) {
      ScanStepIsSafe(st, st', t);
    } else if img, e :| StartScan(st, st', t, img, e) {
      StartScanIsSafe(st, st', t, img, e);
    } else {
      ImageStepIsSafe(st, st', t);
    }
  }

  // ---------------------------------------------------------------------------
  // Runs
  // ---------------------------------------------------------------------------

  ghost predicate IsRun(run: seq<State>, who: seq<Tid>) {
    && |run| == |who| + 1 && Init(run[0])
    && forall i :: 0 <= i < |who| ==> StepOf(run[i], run[i + 1], who[i])
  }

  lemma {:induction false} RunsAreSafe(run: seq<State>, who: seq<Tid>, n: nat)
    requires IsRun(run, who) && n < |run|
    ensures Safe(run[n])
  {
    if n > 0 {
      RunsAreSafe(run, who, n - 1);
      StepIsSafe(run[n - 1], run[n], who[n - 1]);
    }
  }

  /** Fewer than 2^64 increments of the epoch since the scan began. */
  ghost predicate NotWrapped(st: State, scan: Scan) {
    st.total < scan.start + WRAP
  }

  lemma EqualEpochsEqualTotals(start: nat, total: nat)
    requires start <= total < start + WRAP && start % WRAP == total % WRAP
    ensures start == total
  {
    var a, b := start / WRAP, total / WRAP;
    assert start == a * WRAP + start % WRAP && total == b * WRAP + total % WRAP;
  }

  /** The epoch law: a scan that reads the same even epoch at its end as at its start has seen
      no bracketed mutation, whatever writers and notes the other threads interleave. */
  lemma EvenEpochMeansQuiet(run: seq<State>, who: seq<Tid>, n: nat, t: Tid)
    requires IsRun(run, who) && n < |run| && t in run[n].threads && run[n].threads[t].Scanning?
    requires
      var th := run[n].threads[t];
      NotWrapped(run[n], th.scan) && th.scan.before == Epoch(run[n]) && Epoch(run[n]) % 2 == 0
    ensures run[n].mutations == run[n].threads[t].scan.mutations && run[n].refs == run[n].threads[t].scan.refs
  {
    RunsAreSafe(run, who, n);
    var scan := run[n].threads[t].scan;
    assert ThreadOk(run[n], run[n].threads[t]);
    EqualEpochsEqualTotals(scan.start, run[n].total);
    ParityOfEpoch(run[n].total);
  }

  lemma ParityOfEpoch(total: nat)
    ensures (total % WRAP) % 2 == total % 2
  {
    assert total == (total / WRAP) * WRAP + total % WRAP;
  }

  /** An image is detached only at the epoch that the caller named, with no writer inside, if it is
      retired, its range is known, it has no metadata and no bracketed mutation ran from the start
      of the scan to the last epoch check; then no code address of the runtime lies in the image. */
  lemma DetachIsSafe(run: seq<State>, who: seq<Tid>, n: nat, t: Tid)
    requires IsRun(run, who) && n < |run| && Commits(run[n], t) && NotWrapped(run[n], run[n].threads[t].scan)
    ensures
      var st, scan := run[n], run[n].threads[t].scan;
      && st.mutations == scan.mutations && st.refs == scan.refs
      && scan.expected != 0 && st.total % WRAP == scan.expected && (forall u :: !At(st, u, Inside))
      && scan.img in st.images
      && var image := st.images[scan.img];
         && image.state == Retired && image.base != 0 && image.size != 0 && image.metadata == 0
         && forall i :: 0 <= i < |st.refs| ==> !(image.base <= st.refs[i] < image.base + image.size)
  {
    RunsAreSafe(run, who, n);
    var st, scan := run[n], run[n].threads[t].scan;
    assert ThreadOk(st, st.threads[t]);
    EqualEpochsEqualTotals(scan.start, st.total);
    assert NoneBefore(scan.image, scan.refs, |scan.refs|);
  }

  /** Thread t runs imageDetach up to its last check while nothing else happens. */
  ghost predicate ScansAlone(run: seq<State>, t: Tid, img: Img, e: nat) {
    && |run| > 0 && |run| == |run[0].refs| + 3
    && StartScan(run[0], run[1], t, img, e)
    && (forall i, j :: 0 < i < |run| - 2 && j == i + 1 ==> ScanOne(run[i], run[j], t))
    && EndScan(run[|run| - 2], run[|run| - 1], t)
  }

  /** What imageDetach demands of an image, at the epoch e that its caller names. */
  ghost predicate MayDetach(st: State, img: Img, e: nat)
    requires img in st.images
  {
    var image := st.images[img];
    && image.state == Retired && image.base != 0 && image.size != 0 && image.metadata == 0
    && (forall i :: 0 <= i < |st.refs| ==> !(image.base <= st.refs[i] < image.base + image.size))
    && e != 0 && st.total % WRAP == e && st.total % 2 == 0
  }

  lemma {:induction false} ScannedAlone(run: seq<State>, t: Tid, img: Img, e: nat, n: nat)
    requires ScansAlone(run, t, img, e) && 0 < n < |run| - 1
    ensures t in run[n].threads && run[n].threads[t].Scanning? && run[n].threads[t].k == n - 1
    ensures run[n].threads[t].scan == run[1].threads[t].scan
    ensures run[n] == Set(run[0], t, run[n].threads[t])
    ensures run[n].threads[t].count == 0 <==> NoneBefore(run[0].images[img], run[0].refs, n - 1)
  {
    if n > 1 {
      ScannedAlone(run, t, img, e, n - 1);
      assert ScanOne(run[n - 1], run[n], t);
      var k := run[n - 1].threads[t].k;
      assert NoneBefore(run[0].images[img], run[0].refs, k + 1) <==>
             NoneBefore(run[0].images[img], run[0].refs, k) && !Contains(run[0].images[img], run[0].refs[k]);
    }
  }

  lemma Scanned(run: seq<State>, t: Tid, img: Img, e: nat)
    requires ScansAlone(run, t, img, e)
    ensures
      var st := run[|run| - 1];
      && st.images == run[0].images && st.refs == run[0].refs && st.total == run[0].total
      && t in st.threads && (st.threads[t].Committing? <==> MayDetach(run[0], img, e))
      && (st.threads[t].Committing? ==> st.threads[t].scan.img == img && st.threads[t].scan.expected == e)
      && (!st.threads[t].Committing? ==> st.threads[t] == Idle)
  {
    ScannedAlone(run, t, img, e, |run| - 2);
    ParityOfEpoch(run[0].total);
  }

  /** A detach that nothing interferes with succeeds exactly under these conditions, and then only
      its image changes, to one without metadata. */
  lemma DetachAlone(run: seq<State>, t: Tid, img: Img, e: nat, st': State)
    requires ScansAlone(run, t, img, e) && run[0].images[img].state != Detached
    requires
      var st := run[|run| - 1];
      if At(st, t, Idle) then st' == st else Commit(st, st', t)
    ensures img in st'.images && st'.images.Keys == run[0].images.Keys && At(st', t, Idle)
    ensures st'.images[img].state == Detached <==> MayDetach(run[0], img, e)
    ensures MayDetach(run[0], img, e) ==>
      && st'.images[img] == run[0].images[img].(state := Detached, metadata := 0) && Epoch(st') != e
      && forall i :: i in st'.images && i != img ==> st'.images[i] == run[0].images[i]
    ensures !MayDetach(run[0], img, e) ==> st'.images == run[0].images && Epoch(st') == Epoch(run[0])
  {
    Scanned(run, t, img, e);
    EpochMoves(run[0].total, 2);
  }

  lemma EpochMoves(total: nat, d: nat)
    requires 0 < d < WRAP
    ensures (total + d) % WRAP != total % WRAP
  {
    if (total + d) % WRAP == total % WRAP {
      EqualEpochsEqualTotals(total, total + d);
    }
  }

  /** An idle thread can always go through with it. */
  lemma DetachRuns(st: State, t: Tid, img: Img, e: nat) returns (run: seq<State>, st': State)
    requires At(st, t, Idle) && img in st.images
    ensures ScansAlone(run, t, img, e) && run[0] == st
    ensures At(run[|run| - 1], t, Idle) ==> st' == run[|run| - 1]
    ensures !At(run[|run| - 1], t, Idle) ==> Commit(run[|run| - 1], st', t)
  {
    var scan := Scan(img, st.images[img], e, Epoch(st), st.total, st.mutations, st.refs);
    var s1 := Set(st, t, Scanning(scan, 0, 0));
    run := [st, s1];
    for k := 0 to |st.refs|
      invariant |run| == k + 2 && run[0] == st && run[1] == s1
      invariant forall i, j :: 0 < i < |run| - 1 && j == i + 1 ==> ScanOne(run[i], run[j], t)
      invariant t in run[k + 1].threads && run[k + 1].threads[t].Scanning? && run[k + 1].threads[t].k == k
      invariant run[k + 1].refs == st.refs
    {
      var s, th := run[k + 1], run[k + 1].threads[t];
      var hit := Contains(th.scan.image, s.refs[k]);
      run := run + [Set(s, t, th.(k := k + 1, count := if hit then th.count + 1 else th.count))];
    }
    var s := run[|run| - 1];
    var th := s.threads[t];
    var go := Clean(s, th) && th.scan.image.state == Retired && th.scan.expected != 0 && Epoch(s) == th.scan.expected;
    var last := Set(s, t, if go then Committing(th.scan) else Idle);
    run := run + [last];
    st' := last;
    if go {
      st' := if Commits(last, t)
             then Set(last, t, Idle).(images := last.images[th.scan.img := last.images[th.scan.img].(state := Detached, metadata := 0)], total := last.total + 2)
             else Set(last, t, Idle);
    }
  }

  /** Nothing changes unnoticed: when an image changes, a mutation begins or ends or one is noted,
      the epoch moves, and no thread commits a detach for the epoch before. */
  lemma ChangesShow(st: State, st': State, t: Tid)
    requires StepOf(st, st', t)
    requires st'.images != st.images || BeginMutation(st, st', t) || EndMutation(st, st', t) || Note(st, st')
    ensures Epoch(st') != Epoch(st)
    ensures forall u :: Commits(st', u) ==> st'.threads[u].scan.expected != Epoch(st)
  {
    EpochMoves(st.total, 1);
    EpochMoves(st.total, 2);
  }

  function Order(s: ImageState): nat {
    match s case Active => 0 case Retired => 1 case Detached => 2
  }

  /** An image only moves from active to retired, which a retirement achieves, and from retired to
      detached, and the latter only by a commit. */
  lemma ImagesOnlyMoveForward(st: State, st': State, t: Tid, img: Img)
    requires StepOf(st, st', t) && img in st.images
    ensures img in st'.images
    ensures Order(st.images[img].state) <= Order(st'.images[img].state) <= Order(st.images[img].state) + 1
    ensures st'.images[img].state == Detached && st.images[img].state != Detached ==>
      st.images[img].state == Retired && Commits(st, t) && st.threads[t].scan.img == img
    ensures Retire(st, st', img) ==> st'.images[img].state != Active
  {
  }

  // ---------------------------------------------------------------------------
  // The scan of one class's method list
  // ---------------------------------------------------------------------------

  /** What a scan adds to a report: references from method lists, cached ones, and whether the
      analysis had to give up. */
  datatype CodeReport = CodeReport(executable: nat, cached: nat, incomplete: bool)

  ghost predicate CleanReport(r: CodeReport) {
    r.executable == 0 && r.cached == 0 && !r.incomplete
  }

  ghost predicate NoneInside(image: Image, imps: seq<nat>) {
    forall i :: 0 <= i < |imps| && imps[i] != 0 ==> !Contains(image, imps[i])
  }

  /** Counts the implementations inside the image, up to the greatest size_t. */
  method CountCode(image: Image, imps: seq<nat>, count0: nat, incomplete0: bool) returns (count: nat, incomplete: bool)
    requires count0 <= SIZE_MAX
    ensures count0 <= count <= SIZE_MAX
    ensures (count == 0 && !incomplete) <==>
            (count0 == 0 && !incomplete0 && forall i :: 0 <= i < |imps| && imps[i] != 0 ==> !Contains(image, imps[i]))
  {
    count, incomplete := count0, incomplete0;
    for i := 0 to |imps|
      invariant count0 <= count <= SIZE_MAX
      invariant (count == 0 && !incomplete) <==>
                (count0 == 0 && !incomplete0 && forall j :: 0 <= j < i && imps[j] != 0 ==> !Contains(image, imps[j]))
    {
      if imps[i] != 0 && Contains(image, imps[i]) {
        if count == SIZE_MAX {
          incomplete := true;
        } else {
          count := count + 1;
        }
      }
    }
  }

  /** objc_image_scan_method_code: copy is the copied method list, None when there is none, and
      cached are the C++ constructor and destructor. */
  method ScanMethodCode(image: Image, hasMethods: bool, copy: Option<seq<nat>>, cached: seq<nat>, before: CodeReport)
    returns (report: CodeReport)
    requires before.executable <= SIZE_MAX && before.cached <= SIZE_MAX
    ensures before.executable <= report.executable <= SIZE_MAX && before.cached <= report.cached <= SIZE_MAX
    ensures CleanReport(report) <==>
            && CleanReport(before)
            && (copy.Some? || !hasMethods)
            && (copy.Some? ==> NoneInside(image, copy.value))
            && NoneInside(image, cached)
  {
    report := before;
    if copy.None? && hasMethods {
      report := report.(incomplete := true);
      return;
    }
    var imps := if copy.Some? then copy.value else [];
    var executable, incomplete := CountCode(image, imps, report.executable, report.incomplete);
    report := report.(executable := executable, incomplete := incomplete);
    var more;
    more, incomplete := CountCode(image, cached, report.cached, report.incomplete);
    report := report.(cached := more, incomplete := incomplete);
  }
}
