/** The write buffer and its flush, as a state machine over critical sections.

    A flush copies the buffer under the lock, writes the copy without the lock, and removes the written
    entries under the lock again; committed entries arrive in between. A compare-and-swap flag lets one
    flush run at a time. A write goes to the segmented log, entry by entry with rotations, and may fail after a
    whole-record prefix of the batch; the batch is then written again from its start by a later flush. */
module FlushProtocol {
  import opened History
  import opened JobIndex
  import opened Segments
  import opened WalSteps
  import opened WalFiles
  import opened WalOpen
  import opened Coverage
  import opened AnyOrder
  import WalRuns

  datatype Phase = Idle | Writing(batch: seq<Record>) | Trimming(count: nat)

  /** `failures` counts failed writes; it is history, not program state. */
  datatype State = State(committed: seq<Record>, buffer: seq<Record>, wal: Wal, phase: Phase, failures: nat)

  datatype Step =
    | Commit(r: Record)
    | BeginFlush
    | Write
    | FailedWrite(written: nat)
    | Trim

  predicate Enabled(s: State, step: Step) {
    match step
    case Commit(r) => Increasing(s.committed + [r])
    case BeginFlush => true
    case Write => s.phase.Writing?
    case FailedWrite(k) => s.phase.Writing? && k <= |s.phase.batch|
    case Trim => s.phase.Trimming?
  }

  /** What a step writes to the log. */
  function Batch(s: State, step: Step): seq<Record>
    requires Enabled(s, step)
  {
    match step
    case Write => s.phase.batch
    case FailedWrite(k) => s.phase.batch[..k]
    case _ => []
  }

  function Next(s: State, step: Step, segmentSize: nat): State
    requires s.wal.Writable() && Enabled(s, step)
  {
    match step
    case Commit(r) => s.(committed := s.committed + [r], buffer := s.buffer + [r])
    case BeginFlush => if s.phase.Idle? && s.buffer != [] then s.(phase := Writing(s.buffer)) else s
    case Write => s.(wal := AppendAll(s.wal, s.phase.batch, segmentSize), phase := Trimming(|s.phase.batch|))
    case FailedWrite(k) =>
      s.(wal := AppendAll(s.wal, s.phase.batch[..k], segmentSize), phase := Idle, failures := s.failures + 1)
    case Trim =>
      s.(buffer := if |s.buffer| >= s.phase.count then s.buffer[s.phase.count..] else [], phase := Idle)
  }

  const EMPTY := State([], [], Fresh(1), Idle, 0)

  ghost predicate IsRun(states: seq<State>, steps: seq<Step>, segmentSize: nat) {
    && segmentSize > 0 && |states| == |steps| + 1 && states[0] == EMPTY
    && forall i | 0 <= i < |steps| && states[i].wal.Writable() ::
         Enabled(states[i], steps[i]) && states[i + 1] == Next(states[i], steps[i], segmentSize)
  }

  /** The buffered records that the current flush has not written. */
  function Unwritten(s: State): seq<Record> {
    if s.phase.Trimming? && s.phase.count <= |s.buffer| then s.buffer[s.phase.count..] else s.buffer
  }

  /** What was written, in order, followed by what is still to be written. */
  function Held(s: State): seq<Record> {
    s.wal.Log() + Unwritten(s)
  }

  /** Recovering from `a` gives the same in-memory log and the same job index as recovering from `b`. */
  ghost predicate SameRecovery(a: seq<Record>, b: seq<Record>) {
    StoreAll(map[], a) == StoreAll(map[], b) && NoteAll(map[], a, Recovery) == NoteAll(map[], b, Recovery)
  }

  predicate Suffix(b: seq<Record>, c: seq<Record>) {
    |b| <= |c| && b == c[|c| - |b|..]
  }

  ghost predicate Inv(s: State) {
    && s.wal.Writable() && Increasing(s.committed) && Suffix(s.buffer, s.committed)
    && (s.phase.Writing? ==> s.phase.batch <= s.buffer)
    && (s.phase.Trimming? ==> s.phase.count <= |s.buffer|)
    && SameRecovery(Held(s), s.committed)
    && (s.failures == 0 ==> Held(s) == s.committed)
  }

  lemma SameRecoveryExtends(a: seq<Record>, b: seq<Record>, r: Record)
    requires SameRecovery(a, b)
    ensures SameRecovery(a + [r], b + [r])
  {
    assert (a + [r])[..|a|] == a && (b + [r])[..|b|] == b;
  }

  lemma SuffixIncreases(b: seq<Record>, c: seq<Record>)
    requires Suffix(b, c) && Increasing(c)
    ensures Increasing(b)
  {
    forall i | 0 <= i < |b|
      ensures b[i] == c[|c| - |b| + i]
    {}
  }

  /** A prefix of the buffer that a failed write left on disk does not change what recovery sees. */
  lemma FailedPrefixIsHarmless(disk: seq<Record>, buffer: seq<Record>, k: nat)
    requires Increasing(buffer) && k <= |buffer|
    ensures SameRecovery(disk + buffer[..k] + buffer, disk + buffer)
  {
    var p := buffer[..k];
    assert disk + p + buffer == disk + (p + buffer);
    NoteAllConcat(map[], disk, p + buffer, Recovery);
    NoteAllConcat(map[], disk, buffer, Recovery);
    RetryIsIdempotent(NoteAll(map[], disk, Recovery), buffer, k);
    StoreAllConcat(map[], disk, p + buffer);
    StoreAllConcat(map[], disk, buffer);
    RetryStoresTheSame(StoreAll(map[], disk), buffer, k);
  }

  lemma CommitKeepsInv(s: State, r: Record, segmentSize: nat)
    requires Inv(s) && Enabled(s, Commit(r))
    ensures Inv(Next(s, Commit(r), segmentSize))
  {
    hide SameRecovery, Increasing, Wal.Writable, Records;
    var s' := Next(s, Commit(r), segmentSize);
    assert Suffix(s'.buffer, s'.committed);
    assert Held(s') == Held(s) + [r];
    SameRecoveryExtends(Held(s), s.committed, r);
  }

  lemma WriteKeepsInv(s: State, segmentSize: nat)
    requires Inv(s) && Enabled(s, Write)
    ensures Inv(Next(s, Write, segmentSize))
  {
    hide SameRecovery, Increasing, Wal.Writable, Records, AppendAll;
    AppendAllExtends(s.wal, s.phase.batch, segmentSize);
    assert s.buffer == s.phase.batch + s.buffer[|s.phase.batch|..];
    assert Held(Next(s, Write, segmentSize)) == Held(s);
  }

  lemma FailedWriteKeepsInv(s: State, k: nat, segmentSize: nat)
    requires Inv(s) && Enabled(s, FailedWrite(k))
    ensures Inv(Next(s, FailedWrite(k), segmentSize))
  {
    hide SameRecovery, Increasing, Wal.Writable, Records, AppendAll;
    var s' := Next(s, FailedWrite(k), segmentSize);
    AppendAllExtends(s.wal, s.phase.batch[..k], segmentSize);
    SuffixIncreases(s.buffer, s.committed);
    assert s.phase.batch[..k] == s.buffer[..k];
    FailedPrefixIsHarmless(s.wal.Log(), s.buffer, k);
    SameRecoveryIsTransitive(Held(s'), Held(s), s.committed);
  }

  lemma TrimKeepsInv(s: State, segmentSize: nat)
    requires Inv(s) && Enabled(s, Trim)
    ensures Inv(Next(s, Trim, segmentSize))
  {
    hide SameRecovery, Increasing, Wal.Writable, Records;
    var s' := Next(s, Trim, segmentSize);
    assert s'.buffer == s'.committed[|s'.committed| - |s'.buffer|..];
    assert Held(s') == Held(s);
  }

  lemma StepKeepsInv(s: State, step: Step, segmentSize: nat)
    requires Inv(s) && Enabled(s, step)
    ensures Inv(Next(s, step, segmentSize))
  {
    match step
    case Commit(r) => CommitKeepsInv(s, r, segmentSize);
    case BeginFlush =>
    case Write => WriteKeepsInv(s, segmentSize);
    case FailedWrite(k) => FailedWriteKeepsInv(s, k, segmentSize);
    case Trim => TrimKeepsInv(s, segmentSize);
  }

  lemma SameRecoveryIsTransitive(a: seq<Record>, b: seq<Record>, c: seq<Record>)
    requires SameRecovery(a, b) && SameRecovery(b, c)
    ensures SameRecovery(a, c)
  {
  }

  lemma EmptyIsInv()
    ensures Inv(EMPTY)
  {
    FreshIsValid(1);
    ValidIsWritable(Fresh(1));
    hide Wal.Valid;
    assert Held(EMPTY) == [];
  }

  lemma {:induction false} RunsKeepInv(states: seq<State>, steps: seq<Step>, segmentSize: nat, i: nat)
    requires IsRun(states, steps, segmentSize) && i <= |steps|
    ensures Inv(states[i])
  {
    hide Next, Enabled, SameRecovery, Held;
    if i == 0 {
      EmptyIsInv();
    } else {
      RunsKeepInv(states, steps, segmentSize, i - 1);
      StepKeepsInv(states[i - 1], steps[i - 1], segmentSize);
    }
  }

  // ---------------------------------------------------------------- the files

  /** How many committed records are not waiting to be written. */
  function Base(s: State): nat {
    if |Unwritten(s)| <= |s.committed| then |s.committed| - |Unwritten(s)| else 0
  }

  /** Every record ever written is in a file whose name covers it. Without failed writes the log is well formed. */
  ghost predicate FilesInv(s: State, segmentSize: nat) {
    && Orderly(s.wal) && Reached(s.wal, s.committed, Base(s))
    && (s.failures == 0 ==> s.wal.Valid() && WalRuns.Near(s.wal, LastIndex(s.wal.Log()), segmentSize, false))
  }

  lemma EmptyFilesInv(segmentSize: nat)
    ensures FilesInv(EMPTY, segmentSize)
  {
    hide Orderly, Wal.Valid;
    FreshIsOrderly();
    FreshIsValid(1);
    assert Fresh(1).Log() == [];
    assert WalRuns.Near(Fresh(1), 0, segmentSize, false);
    hide WalRuns.Near, Records, Fresh;
  }

  lemma ReachedMore(w: Wal, c: seq<Record>, i: nat, r: Record)
    requires Reached(w, c, i) && Increasing(c + [r]) && i <= |c|
    ensures Reached(w, c + [r], i)
  {
    var d := c + [r];
    assert forall k | 0 <= k < |c| :: d[k] == c[k];
    assert d[|c|] == r && (c != [] ==> d[|c| - 1].index < r.index);
    hide Records;
  }

  lemma CommitKeepsFiles(s: State, r: Record, segmentSize: nat)
    requires Inv(s) && FilesInv(s, segmentSize) && Enabled(s, Commit(r))
    ensures FilesInv(Next(s, Commit(r), segmentSize), segmentSize)
  {
    hide SameRecovery, Increasing, Wal.Writable, Records, Orderly, Reached, Wal.Valid, WalRuns.Near, Held;
    ReachedMore(s.wal, s.committed, Base(s), r);
    assert Base(Next(s, Commit(r), segmentSize)) == Base(s);
  }

  /** A write, whole or in part, is a stretch of the committed sequence that starts at the first unwritten record. */
  lemma BatchIsStretch(s: State, step: Step)
    requires Inv(s) && Enabled(s, step) && (step.Write? || step.FailedWrite?)
    ensures Base(s) + |Batch(s, step)| <= |s.committed|
    ensures Batch(s, step) == s.committed[Base(s)..Base(s) + |Batch(s, step)|]
  {
    hide SameRecovery, Increasing, Wal.Writable, Records, Held;
    var c, n := s.committed, |s.committed| - |s.buffer|;
    assert forall i | 0 <= i < |Batch(s, step)| :: Batch(s, step)[i] == s.buffer[i] == c[n + i];
  }

  /** Without failures, the batch continues what was written. */
  lemma WriteStaysValid(s: State, segmentSize: nat)
    requires Inv(s) && FilesInv(s, segmentSize) && Enabled(s, Write) && s.failures == 0 && segmentSize > 0
    ensures var w := AppendAll(s.wal, s.phase.batch, segmentSize);
            w.Valid() && WalRuns.Near(w, LastIndex(w.Log()), segmentSize, false)
  {
    hide SameRecovery, Wal.Valid, Wal.Writable, Records, Orderly, Reached, WalRuns.Near, AppendAll, SealsWell;
    var log, b := s.wal.Log(), s.phase.batch;
    assert s.committed == log + s.buffer;
    Continues(log, b, s.buffer);
    WalRuns.NearSealsWell(s.wal, LastIndex(log), b, segmentSize, false);
    AppendAllKeepsLayoutIff(s.wal, b, segmentSize);
    LastOfBoth(log, b);
  }

  lemma LastOfBoth(a: seq<Record>, b: seq<Record>)
    ensures LastIndex(a + b) == WalRuns.LastOr(b, LastIndex(a))
  {
    if b == [] {
      assert a + b == a;
    }
  }

  lemma Continues(log: seq<Record>, b: seq<Record>, buffer: seq<Record>)
    requires Increasing(log + buffer) && b <= buffer
    ensures Increasing(b) && Positive(b) && WalRuns.Beyond(b, LastIndex(log))
  {
    var c, n := log + buffer, |log|;
    assert forall i | 0 <= i < |b| :: b[i] == c[n + i];
    assert log != [] ==> c[n - 1] == log[n - 1];
  }

  lemma WritesKeepFiles(s: State, step: Step, segmentSize: nat)
    requires Inv(s) && FilesInv(s, segmentSize) && Enabled(s, step) && (step.Write? || step.FailedWrite?) && segmentSize > 0
    ensures FilesInv(Next(s, step, segmentSize), segmentSize)
  {
    hide SameRecovery, Increasing, Wal.Writable, Records, Orderly, Reached, Wal.Valid, WalRuns.Near, Held, AppendAll;
    var s' := Next(s, step, segmentSize);
    var i, b := Base(s), Batch(s, step);
    BatchIsStretch(s, step);
    StretchStaysOrderly(s.wal, s.committed, i, i + |b|, segmentSize);
    if step.Write? {
      assert Base(s') == i + |b|;
      if s.failures == 0 {
        WriteStaysValid(s, segmentSize);
      }
    } else {
      ReachedLess(s'.wal, s.committed, i + |b|, i);
    }
  }

  lemma ReachedLess(w: Wal, c: seq<Record>, i: nat, j: nat)
    requires Reached(w, c, i) && j <= i
    ensures Reached(w, c, j)
  {
  }

  lemma StepKeepsFiles(s: State, step: Step, segmentSize: nat)
    requires Inv(s) && FilesInv(s, segmentSize) && Enabled(s, step) && segmentSize > 0
    ensures FilesInv(Next(s, step, segmentSize), segmentSize)
  {
    hide SameRecovery, Increasing, Wal.Writable, Records, Orderly, Reached, Wal.Valid, WalRuns.Near, Held;
    match step
    case Commit(r) => CommitKeepsFiles(s, r, segmentSize);
    case BeginFlush =>
    case Write => WritesKeepFiles(s, step, segmentSize);
    case FailedWrite(k) => WritesKeepFiles(s, step, segmentSize);
    case Trim => assert Base(Next(s, step, segmentSize)) == Base(s);
  }

  lemma {:induction false} RunsKeepFiles(states: seq<State>, steps: seq<Step>, segmentSize: nat, i: nat)
    requires IsRun(states, steps, segmentSize) && i <= |steps|
    ensures Inv(states[i]) && FilesInv(states[i], segmentSize)
  {
    hide Next, Enabled, SameRecovery, Held, FilesInv, Wal.Writable;
    RunsKeepInv(states, steps, segmentSize, i);
    if i == 0 {
      EmptyFilesInv(segmentSize);
    } else {
      RunsKeepFiles(states, steps, segmentSize, i - 1);
      StepKeepsFiles(states[i - 1], steps[i - 1], segmentSize);
    }
  }

  /** Without failed writes, every interleaving writes each committed record exactly once and in order: the log is
      well formed, its directory recovers to what was written, and that followed by what is unwritten is the
      committed sequence. The trimming step never finds the buffer shorter than what was flushed. */
  lemma EachRecordWrittenOnce(states: seq<State>, steps: seq<Step>, segmentSize: nat, i: nat)
    requires IsRun(states, steps, segmentSize) && i <= |steps| && states[i].failures == 0
    ensures states[i].wal.Valid() && RecoversTo(states[i].wal.files, states[i].wal.Log())
    ensures states[i].wal.Log() + Unwritten(states[i]) == states[i].committed
    ensures states[i].phase.Trimming? ==> states[i].phase.count <= |states[i].buffer|
  {
    hide Next, Enabled, SameRecovery, NamesOk, ContentsOk, Holds, Orderly, Reached, WalRuns.Near;
    RunsKeepFiles(states, steps, segmentSize, i);
  }

  // ---------------------------------------------------------------- what a restart recovers

  /** What a restart reads in the order `segs` of the file names, and what is still to be written. */
  ghost function Recoverable(s: State, segs: seq<Parsed>): seq<Record> {
    Records(LayoutNamed(s.wal.files, segs)) + Unwritten(s)
  }

  lemma UnwrittenIsTail(s: State)
    requires Inv(s)
    ensures Base(s) <= |s.committed| && Unwritten(s) == s.committed[Base(s)..]
  {
    hide SameRecovery, Increasing, Wal.Writable, Held;
  }

  /** What was reached and what follows it are the records of the history. */
  lemma ReachedAndRest(w: Wal, c: seq<Record>, n: nat, r: Record)
    requires Reached(w, c, n) && n <= |c|
    ensures r in w.Log() || r in c[n..] <==> r in c
  {
    hide Records;
    if r in c {
      var k :| 0 <= k < |c| && c[k] == r;
      assert k >= n ==> c[n..][k - n] == r;
    }
  }

  lemma RecoverableIsCommitted(s: State, segmentSize: nat, segs: seq<Parsed>)
    requires Inv(s) && FilesInv(s, segmentSize) && IsSortedNames(s.wal.files, segs)
    ensures SameRecords(Recoverable(s, segs), s.committed) && |ActivesIn(segs)| == 1
  {
    hide Inv, Records, LayoutNamed, IsSortedNames, ActivesIn, Covered, Wal.Valid, WalRuns.Near, Chained, Reached, Unwritten, Base;
    UnwrittenIsTail(s);
    CoveredIsReadInAnyOrder(s.wal, segs, Record(0, Other, 0));
    forall r
      ensures r in Recoverable(s, segs) <==> r in s.committed
    {
      CoveredIsReadInAnyOrder(s.wal, segs, r);
      ReachedAndRest(s.wal, s.committed, Base(s), r);
    }
  }

  /** In every run, whatever writes failed and were retried and whatever files were sealed over others: in every order in
      which sorting can leave the file names, the files hold with the unwritten buffer exactly the committed records,
      and recovery stores exactly the committed entries. It reports exactly the completed jobs if no job is both
      completed after an add and added after a completion. */
  lemma NothingIsLost(states: seq<State>, steps: seq<Step>, segmentSize: nat, i: nat, segs: seq<Parsed>)
    requires IsRun(states, steps, segmentSize) && i <= |steps| && IsSortedNames(states[i].wal.files, segs)
    ensures |ActivesIn(segs)| == 1 && SameRecords(Recoverable(states[i], segs), states[i].committed)
    ensures StoreAll(map[], Recoverable(states[i], segs)) == StoreAll(map[], states[i].committed)
    ensures OrderFree(states[i].committed) ==>
              CompletedIn(NoteAll(map[], Recoverable(states[i], segs), Recovery)) == CompletedJobs(states[i].committed)
  {
    hide Next, Enabled, SameRecovery, Recoverable, SameRecords, OrderFree, FilesInv, Held, IsSortedNames, StoreAll, NoteAll, CompletedIn,
         CompletedJobs, ActivesIn;
    var s := states[i];
    RunsKeepFiles(states, steps, segmentSize, i);
    RecoverableIsCommitted(s, segmentSize, segs);
    SameRecordsStoreTheSame(Recoverable(s, segs), s.committed);
    if OrderFree(s.committed) {
      OrderFreeRecovers(Recoverable(s, segs), s.committed);
    }
  }

  /** In every run some order of the file names opens, and every order does exactly when no file was sealed under a name
      with an empty range. */
  lemma RetriesReopenIff(states: seq<State>, steps: seq<Step>, segmentSize: nat, i: nat)
    requires IsRun(states, steps, segmentSize) && i <= |steps|
    ensures exists segs :: IsSortedNames(states[i].wal.files, segs) && Continuous(segs)
    ensures (forall segs | IsSortedNames(states[i].wal.files, segs) :: Continuous(segs)) <==>
            forall n | n in states[i].wal.files && n.Sealed? :: n.lo <= n.hi
  {
    hide Next, Enabled, SameRecovery, Held, Covered, Chained, Reached, Wal.Valid, WalRuns.Near, IsSortedNames, Continuous, Inv;
    RunsKeepFiles(states, steps, segmentSize, i);
    var pre :| Chained(states[i].wal, pre);
    ChainOpensIff(states[i].wal, pre);
  }

  /** No write of the run seals a file over a remembered one. */
  ghost predicate WritesSpareFiles(states: seq<State>, steps: seq<Step>, segmentSize: nat)
    requires |states| == |steps| + 1
  {
    forall i | 0 <= i < |steps| && states[i].wal.Writable() && Enabled(states[i], steps[i]) ::
      SparesFiles(states[i].wal, Batch(states[i], steps[i]), segmentSize)
  }

  /** No write of the run meets a full file that cannot be sealed. */
  ghost predicate WritesSealWell(states: seq<State>, steps: seq<Step>, segmentSize: nat)
    requires |states| == |steps| + 1
  {
    forall i | 0 <= i < |steps| && states[i].wal.Writable() && Enabled(states[i], steps[i]) ::
      SealsWell(states[i].wal, Batch(states[i], steps[i]), segmentSize)
  }

  lemma NextWal(s: State, step: Step, segmentSize: nat)
    requires s.wal.Writable() && Enabled(s, step)
    ensures Next(s, step, segmentSize).wal == AppendAll(s.wal, Batch(s, step), segmentSize)
  {
  }

  lemma {:induction false} SparedFilesAreIntact(states: seq<State>, steps: seq<Step>, segmentSize: nat, i: nat)
    requires IsRun(states, steps, segmentSize) && WritesSpareFiles(states, steps, segmentSize) && i <= |steps|
    ensures states[i].wal.Intact()
  {
    hide Next, Enabled, Batch, Wal.Intact, Wal.Writable, AppendAll, SparesFiles;
    if i == 0 {
      FreshIsValid(1);
      ValidIsWritable(Fresh(1));
    } else {
      SparedFilesAreIntact(states, steps, segmentSize, i - 1);
      var s, step := states[i - 1], steps[i - 1];
      ValidIsWritable(s.wal);
      NextWal(s, step, segmentSize);
      AppendAllKeepsFilesIff(s.wal, Batch(s, step), segmentSize);
    }
  }

  lemma BatchIsPositive(s: State, step: Step)
    requires Inv(s) && Enabled(s, step)
    ensures Positive(Batch(s, step))
  {
    hide SameRecovery, Held, Records;
    SuffixIncreases(s.buffer, s.committed);
    if s.phase.Writing? {
      assert forall i | 0 <= i < |s.phase.batch| :: s.phase.batch[i] == s.buffer[i];
    }
  }

  lemma {:induction false} SealedRunsAreValid(states: seq<State>, steps: seq<Step>, segmentSize: nat, i: nat)
    requires IsRun(states, steps, segmentSize) && WritesSealWell(states, steps, segmentSize) && i <= |steps|
    ensures states[i].wal.Valid()
  {
    hide Next, Enabled, Batch, Wal.Valid, Wal.Writable, AppendAll, SealsWell, SameRecovery, Held, Positive;
    if i == 0 {
      FreshIsValid(1);
    } else {
      SealedRunsAreValid(states, steps, segmentSize, i - 1);
      var s, step := states[i - 1], steps[i - 1];
      ValidIsWritable(s.wal);
      RunsKeepInv(states, steps, segmentSize, i - 1);
      BatchIsPositive(s, step);
      NextWal(s, step, segmentSize);
      AppendAllKeepsLayoutIff(s.wal, Batch(s, step), segmentSize);
    }
  }

  /** Two sequences of records that recovery cannot tell apart give the committed entries and the completed jobs. */
  lemma SameRecoveryMeans(held: seq<Record>, committed: seq<Record>)
    requires Increasing(committed) && SameRecovery(held, committed)
    ensures StoreAll(map[], held) == StoreAll(map[], committed)
    ensures CompletedIn(NoteAll(map[], held, Recovery)) == CompletedJobs(committed)
  {
    BuildersAgree(committed, Recovery);
    BuildIsNoteAll(committed, Recovery);
  }

  /** If no write seals a file over a remembered one, the files in the order in which the log remembers them lose
      nothing either, whatever the order of adds and completions. */
  lemma SparedFilesLoseNothing(states: seq<State>, steps: seq<Step>, segmentSize: nat, i: nat)
    requires IsRun(states, steps, segmentSize) && WritesSpareFiles(states, steps, segmentSize) && i <= |steps|
    ensures states[i].wal.Intact() && forall n | n in NamesInOrder(states[i].wal.layout) :: n in states[i].wal.files
    ensures var held := ReadFiles(states[i].wal.files, NamesInOrder(states[i].wal.layout)) + Unwritten(states[i]);
            && StoreAll(map[], held) == StoreAll(map[], states[i].committed)
            && CompletedIn(NoteAll(map[], held, Recovery)) == CompletedJobs(states[i].committed)
  {
    hide Next, Enabled, Wal.Intact, WritesSpareFiles, SameRecovery, Records, NamesInOrder, ReadFiles, CompletedIn, CompletedJobs;
    RunsKeepInv(states, steps, segmentSize, i);
    SparedFilesAreIntact(states, steps, segmentSize, i);
    ValidIsWritable(states[i].wal);
    FilesInOrder(states[i].wal);
    SameRecoveryMeans(Held(states[i]), states[i].committed);
  }

  /** If no write meets a full file that cannot be sealed, the same holds of a restart: the directory recovers to what
      was written, repeated records included. */
  lemma RetriesAreRecovered(states: seq<State>, steps: seq<Step>, segmentSize: nat, i: nat)
    requires IsRun(states, steps, segmentSize) && WritesSealWell(states, steps, segmentSize) && i <= |steps|
    ensures states[i].wal.Valid() && RecoversTo(states[i].wal.files, states[i].wal.Log())
    ensures StoreAll(map[], Held(states[i])) == StoreAll(map[], states[i].committed)
    ensures CompletedIn(NoteAll(map[], Held(states[i]), Recovery)) == CompletedJobs(states[i].committed)
  {
    hide Next, Enabled, WritesSealWell, SameRecovery, CompletedIn, CompletedJobs, NamesOk, ContentsOk, Holds;
    RunsKeepInv(states, steps, segmentSize, i);
    SealedRunsAreValid(states, steps, segmentSize, i);
    SameRecoveryMeans(Held(states[i]), states[i].committed);
  }

  /** The files hold what the log remembers throughout a run exactly when no write seals a file over a remembered one. */
  lemma RunsStayIntactIff(states: seq<State>, steps: seq<Step>, segmentSize: nat)
    requires IsRun(states, steps, segmentSize)
    ensures (forall i | 0 <= i < |states| :: states[i].wal.Intact()) <==> WritesSpareFiles(states, steps, segmentSize)
  {
    hide Next, Enabled, Batch, Wal.Intact, Wal.Writable, AppendAll, SparesFiles;
    if WritesSpareFiles(states, steps, segmentSize) {
      forall i | 0 <= i < |states|
        ensures states[i].wal.Intact()
      {
        SparedFilesAreIntact(states, steps, segmentSize, i);
      }
    }
    if forall i | 0 <= i < |states| :: states[i].wal.Intact() {
      forall i | 0 <= i < |steps| && states[i].wal.Writable() && Enabled(states[i], steps[i])
        ensures SparesFiles(states[i].wal, Batch(states[i], steps[i]), segmentSize)
      {
        NextWal(states[i], steps[i], segmentSize);
        assert states[i].wal.Intact() && states[i + 1].wal.Intact();
        AppendAllKeepsFilesIff(states[i].wal, Batch(states[i], steps[i]), segmentSize);
      }
    }
  }

  /** The log is well formed throughout a run exactly when no write meets a full file that cannot be sealed. */
  lemma RunsStayValidIff(states: seq<State>, steps: seq<Step>, segmentSize: nat)
    requires IsRun(states, steps, segmentSize)
    ensures (forall i | 0 <= i < |states| :: states[i].wal.Valid()) <==> WritesSealWell(states, steps, segmentSize)
  {
    hide Next, Enabled, Batch, Wal.Valid, Wal.Writable, AppendAll, SealsWell;
    if WritesSealWell(states, steps, segmentSize) {
      forall i | 0 <= i < |states|
        ensures states[i].wal.Valid()
      {
        SealedRunsAreValid(states, steps, segmentSize, i);
      }
    }
    if forall i | 0 <= i < |states| :: states[i].wal.Valid() {
      forall i | 0 <= i < |steps| && states[i].wal.Writable() && Enabled(states[i], steps[i])
        ensures SealsWell(states[i].wal, Batch(states[i], steps[i]), segmentSize)
      {
        NextWal(states[i], steps[i], segmentSize);
        assert states[i].wal.Valid() && states[i + 1].wal.Valid();
        AppendAllKeepsLayoutIff(states[i].wal, Batch(states[i], steps[i]), segmentSize);
      }
    }
  }

  // ---------------------------------------------------------------- a retry that crosses a rotation

  /** Once the next index has passed `x`, a file started by any further writes is named past `x`. */
  lemma {:induction false} LaterFilesAreNamedPast(w: Wal, b: seq<Record>, segmentSize: nat, x: nat)
    requires w.Writable() && w.next > x
    ensures AppendAll(w, b, segmentSize).Writable()
    ensures var v := AppendAll(w, b, segmentSize);
            && v.next > x && w.layout.sealed <= v.layout.sealed
            && (v.layout.sealed == w.layout.sealed ==> v.Tail().start == w.Tail().start)
            && (v.layout.sealed != w.layout.sealed ==> v.Tail().start > x)
    decreases |b|
  {
    AppendAllExtends(w, b, segmentSize);
    if b != [] {
      var w' := Appended(w, b[0], segmentSize);
      AppendedIsWritable(w, b[0], segmentSize);
      OneAppend(w, b[0], segmentSize);
      hide Appended, Wal.Writable;
      LaterFilesAreNamedPast(w', b[1..], segmentSize, x);
    }
  }

  lemma OneAppend(w: Wal, r: Record, segmentSize: nat)
    requires w.Writable()
    ensures var w' := Appended(w, r, segmentSize);
            && w'.layout.active.Some? && w'.next >= w.next && w'.next > r.index && w.layout.sealed <= w'.layout.sealed
            && (w'.layout.sealed == w.layout.sealed ==> w'.Tail().start == w.Tail().start)
            && (w'.layout.sealed != w.layout.sealed ==> w'.Tail().start == w.next && |w.layout.sealed| < |w'.layout.sealed|)
  {
    hide RotationDirs;
  }

  lemma {:induction false} AppendAllConcat(w: Wal, a: seq<Record>, b: seq<Record>, segmentSize: nat)
    requires w.Writable()
    ensures AppendAll(w, a, segmentSize).Writable()
    ensures AppendAll(w, a + b, segmentSize) == AppendAll(AppendAll(w, a, segmentSize), b, segmentSize)
    decreases |a|
  {
    AppendAllExtends(w, a, segmentSize);
    if a == [] {
      assert a + b == b;
    } else {
      hide Appended, Wal.Writable;
      AppendedIsWritable(w, a[0], segmentSize);
      assert (a + b)[0] == a[0] && (a + b)[1..] == a[1..] + b;
      AppendAllConcat(Appended(w, a[0], segmentSize), a[1..], b, segmentSize);
    }
  }

  /** A write fails after `k` entries, in a file whose name covered the first of them, and is tried again. The first
      entry is then in a file named past it exactly when a rotation came between its two copies. */
  lemma RetryIsMisnamedIff(w: Wal, b: seq<Record>, k: nat, segmentSize: nat)
    requires w.Writable() && 0 < k <= |b|
    ensures Appended(w, b[0], segmentSize).layout.active.Some? && AppendAll(w, b[..k], segmentSize).Writable()
    ensures var first := Appended(w, b[0], segmentSize);
            var again := Appended(AppendAll(w, b[..k], segmentSize), b[0], segmentSize);
            first.Tail().start <= b[0].index ==>
              again.layout.active.Some? && (again.Tail().start > b[0].index <==> again.layout.sealed != first.layout.sealed)
  {
    hide Appended, Wal.Writable;
    var first, rest := Appended(w, b[0], segmentSize), b[1..k];
    AppendedIsWritable(w, b[0], segmentSize);
    OneAppend(w, b[0], segmentSize);
    AppendAllExtends(w, b[..k], segmentSize);
    assert b[..k][0] == b[0] && b[..k][1..] == rest;
    AppendAllConcat(first, rest, [b[0]], segmentSize);
    LaterFilesAreNamedPast(first, rest + [b[0]], segmentSize, b[0].index);
    var v := AppendAll(first, rest, segmentSize);
    AppendedIsWritable(v, b[0], segmentSize);
    OneAppend(v, b[0], segmentSize);
    assert [b[0]][1..] == [];
    assert AppendAll(Appended(v, b[0], segmentSize), [], segmentSize) == Appended(v, b[0], segmentSize);
    assert AppendAll(w, b[..k], segmentSize) == v;
  }
}
