/** Whole runs of the segmented log: appends, truncations and restarts in any order, with the process
    stopping at any file-system step in between. */
module WalRuns {
  import opened History
  import opened Segments
  import opened WalSteps
  import opened WalFiles

  datatype Op =
    | Append(r: Record)
    | Truncate(u: nat)
    | Restart
    | CrashInRotation(step: nat)
    | CrashInRemoval(u: nat, removed: nat)
    | CrashAfterEmptying(u: nat)

  /** The log, everything ever appended to it, and the highest index it was ever truncated at. */
  datatype State = State(wal: Wal, appended: seq<Record>, floor: nat)

  /** What can happen: a rotation is under way only when the active file is full, a removal only for files that
      end at or below the truncation index, an emptying only when nothing lies above it. */
  ghost predicate Possible(w: Wal, op: Op, segmentSize: nat)
    requires w.Valid()
  {
    match op
    case CrashInRotation(k) => k < 3 && IsFull(w, segmentSize)
    case CrashInRemoval(u, j) => j <= Below(w.layout.sealed, u)
    case CrashAfterEmptying(u) => TailIsBelow(w.Tail(), u)
    case _ => true
  }

  /** Entries, in any order and repeated or not, have positive indices; a file that has to be sealed can be sealed;
      and a file that is emptied holds nothing above the truncation index. */
  ghost predicate Guarded(w: Wal, op: Op, segmentSize: nat)
    requires w.Valid()
  {
    match op
    case Append(r) => r.index > 0 && Ready(w, segmentSize)
    case CrashInRotation(k) => k > 0 ==> Ready(w, segmentSize)
    case Truncate(u) => SafeToEmpty(w.Tail(), u)
    case CrashAfterEmptying(u) => SafeToEmpty(w.Tail(), u)
    case _ => true
  }

  /** What the caller of the log can see: entries exceed everything appended before, and truncations do not go
      past the last appended index; by one, if every entry is smaller than a segment. */
  predicate InOrder(s: State, op: Op, segmentSize: nat, small: bool) {
    match op
    case Append(r) => Increasing(s.appended + [r]) && (small ==> r.size < segmentSize)
    case Truncate(u) => u <= LastIndex(s.appended) + Slack(small)
    case CrashInRemoval(u, _) => u <= LastIndex(s.appended) + Slack(small)
    case CrashAfterEmptying(u) => u <= LastIndex(s.appended) + Slack(small)
    case _ => true
  }

  function Slack(small: bool): nat {
    if small then 1 else 0
  }

  function Max(a: nat, b: nat): nat {
    if a > b then a else b
  }

  function Step(s: State, op: Op, segmentSize: nat): State
    requires s.wal.Valid() && segmentSize > 0 && Possible(s.wal, op, segmentSize)
  {
    var w := s.wal;
    ValidIsWritable(w);
    match op
    case Append(r) => State(Appended(w, r, segmentSize), s.appended + [r], s.floor)
    case Truncate(u) => State(Truncated(w, u), s.appended, Max(s.floor, u))
    case Restart => s.(wal := Reopened(w.files, w.layout))
    case CrashInRotation(k) =>
      s.(wal := Reopened(RotationDirs(w.files, w.Tail().start, w.next)[k], RotationLayout(w, k)))
    case CrashInRemoval(u, j) =>
      State(Reopened(WithoutOldest(w, j).files, WithoutOldest(w, j).layout), s.appended, Max(s.floor, u))
    case CrashAfterEmptying(u) => State(Reopened(map[], Layout([], None)), s.appended, Max(s.floor, u))
  }

  const START := State(Fresh(1), [], 0)

  ghost predicate IsGuardedRun(states: seq<State>, ops: seq<Op>, segmentSize: nat) {
    && segmentSize > 0 && |states| == |ops| + 1 && states[0] == START
    && forall i | 0 <= i < |ops| && states[i].wal.Valid() ::
         && Possible(states[i].wal, ops[i], segmentSize) && Guarded(states[i].wal, ops[i], segmentSize)
         && states[i + 1] == Step(states[i], ops[i], segmentSize)
  }

  ghost predicate IsOrderedRun(states: seq<State>, ops: seq<Op>, segmentSize: nat, small: bool) {
    && segmentSize > 0 && |states| == |ops| + 1 && states[0] == START
    && forall i | 0 <= i < |ops| && states[i].wal.Valid() ::
         && Possible(states[i].wal, ops[i], segmentSize) && InOrder(states[i], ops[i], segmentSize, small)
         && states[i + 1] == Step(states[i], ops[i], segmentSize)
  }

  /** The log is well formed and holds a suffix of what was appended that reaches down to the floor. */
  ghost predicate Refines(s: State) {
    && s.wal.Valid()
    && exists k: nat :: DropsOnlyUpTo(s.appended, k, s.floor) && s.wal.Log() == s.appended[k..]
  }

  lemma SuffixOfSuffix(s: State, k: nat, log: seq<Record>, floor: nat)
    requires Refines(s) && s.floor <= floor
    requires DropsOnlyUpTo(s.wal.Log(), k, floor) && log == s.wal.Log()[k..]
    ensures exists m: nat :: DropsOnlyUpTo(s.appended, m, floor) && log == s.appended[m..]
  {
    var m: nat :| DropsOnlyUpTo(s.appended, m, s.floor) && s.wal.Log() == s.appended[m..];
    forall i | 0 <= i < m + k
      ensures s.appended[i].index <= floor
    {
      if m <= i {
        assert s.appended[i] == s.wal.Log()[i - m];
      }
    }
    assert DropsOnlyUpTo(s.appended, m + k, floor) && log == s.appended[m + k..];
  }

  lemma AppendRefines(s: State, r: Record, segmentSize: nat)
    requires Refines(s) && segmentSize > 0 && Possible(s.wal, Append(r), segmentSize) && Guarded(s.wal, Append(r), segmentSize)
    ensures Refines(Step(s, Append(r), segmentSize))
  {
    hide Holds, WellFormed;
    AppendKeepsLayoutIff(s.wal, r, segmentSize);
    hide Appended, Records;
    var s' := Step(s, Append(r), segmentSize);
    var k: nat :| DropsOnlyUpTo(s.appended, k, s.floor) && s.wal.Log() == s.appended[k..];
    assert DropsOnlyUpTo(s'.appended, k, s'.floor) && s'.wal.Log() == s'.appended[k..];
  }

  lemma TruncateRefines(s: State, u: nat, segmentSize: nat)
    requires Refines(s) && segmentSize > 0 && SafeToEmpty(s.wal.Tail(), u)
    ensures Refines(Step(s, Truncate(u), segmentSize))
  {
    hide Holds, WellFormed;
    TruncationKeepsAboveIff(s.wal, u);
    hide Truncated, Records;
    var s' := Step(s, Truncate(u), segmentSize);
    SuffixOfSuffix(s, Dropped(s.wal, u), s'.wal.Log(), s'.floor);
  }

  lemma CrashInRemovalRefines(s: State, u: nat, j: nat, segmentSize: nat)
    requires Refines(s) && segmentSize > 0 && Possible(s.wal, CrashInRemoval(u, j), segmentSize)
    ensures Refines(Step(s, CrashInRemoval(u, j), segmentSize))
  {
    hide NamesOk, ContentsOk, Holds, Records, Reopened, WithoutOldest;
    var w := s.wal;
    OldestRemovedKeepsLayout(w, j);
    OldestAreBelow(w, u, j);
    ReopenKeepsLog(WithoutOldest(w, j).files, WithoutOldest(w, j).layout);
    var s' := Step(s, CrashInRemoval(u, j), segmentSize);
    SuffixOfSuffix(s, |Flatten(w.layout.sealed[..j])|, s'.wal.Log(), s'.floor);
  }

  lemma CrashAfterEmptyingRefines(s: State, u: nat, segmentSize: nat)
    requires Refines(s) && segmentSize > 0 && Possible(s.wal, CrashAfterEmptying(u), segmentSize)
    requires SafeToEmpty(s.wal.Tail(), u)
    ensures Refines(Step(s, CrashAfterEmptying(u), segmentSize))
  {
    EmptiedLogWasBelowIff(s.wal, u);
    FreshIsValid(1);
    hide Holds, WellFormed;
    var s' := Step(s, CrashAfterEmptying(u), segmentSize);
    assert WithoutTemps(map[]) == map[];
    assert s'.wal == Fresh(1);
    SuffixOfSuffix(s, |s.wal.Log()|, [], s'.floor);
  }

  lemma RestartRefines(s: State, op: Op, segmentSize: nat)
    requires Refines(s) && segmentSize > 0 && Possible(s.wal, op, segmentSize) && Guarded(s.wal, op, segmentSize)
    requires op.Restart? || op.CrashInRotation?
    ensures Refines(Step(s, op, segmentSize))
  {
    hide NamesOk, ContentsOk, HasFiles, HasNoOthers, Records, Reopened, RotationDirs, RotationLayout, CanSeal;
    var w := s.wal;
    if op.Restart? {
      ReopenKeepsLog(w.files, w.layout);
    } else {
      CrashedRotationReopens(w, op.step);
    }
    assert Step(s, op, segmentSize).wal.Log() == w.Log();
  }

  lemma CrashedRotationReopens(w: Wal, k: nat)
    requires w.Valid() && k < 3 && (k == 0 || CanSeal(w.Tail(), w.next))
    ensures Active(w.Tail().start) in w.files
    ensures var w' := Reopened(RotationDirs(w.files, w.Tail().start, w.next)[k], RotationLayout(w, k));
            w'.Valid() && w'.Log() == w.Log()
  {
    hide NamesOk, HasFiles, HasNoOthers, Records, Reopened;
    RotationIsCrashSafe(w, k);
    ReopenKeepsLog(RotationDirs(w.files, w.Tail().start, w.next)[k], RotationLayout(w, k));
    if k > 0 {
      ValidIsWritable(w);
      RotationIsSoundIff(w);
      assert RotationLayout(w, k).sealed == Rotated(w).layout.sealed;
    }
  }

  lemma StepRefines(s: State, op: Op, segmentSize: nat)
    requires Refines(s) && segmentSize > 0 && Possible(s.wal, op, segmentSize) && Guarded(s.wal, op, segmentSize)
    ensures Refines(Step(s, op, segmentSize))
  {
    match op
    case Append(r) => AppendRefines(s, r, segmentSize);
    case Truncate(u) => TruncateRefines(s, u, segmentSize);
    case CrashInRemoval(u, j) => CrashInRemovalRefines(s, u, j, segmentSize);
    case CrashAfterEmptying(u) => CrashAfterEmptyingRefines(s, u, segmentSize);
    case _ => RestartRefines(s, op, segmentSize);
  }

  lemma FreshRefines()
    ensures Refines(START)
  {
    FreshIsValid(1);
    assert DropsOnlyUpTo([], 0, 0);
  }

  /** Over every guarded run, crashes included, the segmented log refines one plain sequence. */
  lemma {:induction false} GuardedRunsRefine(states: seq<State>, ops: seq<Op>, segmentSize: nat, i: nat)
    requires IsGuardedRun(states, ops, segmentSize) && i <= |ops|
    ensures Refines(states[i])
  {
    hide Step, Possible, Guarded, Refines, Wal.Valid;
    if i == 0 {
      FreshRefines();
    } else {
      GuardedRunsRefine(states, ops, segmentSize, i - 1);
      RefinesIsValid(states[i - 1]);
      StepRefines(states[i - 1], ops[i - 1], segmentSize);
    }
  }

  // ---------------------------------------------------------------- ordered runs meet the guard

  /** The next index as appends, restarts and truncations leave it. */
  predicate NextIsNear(t: Tail, next: nat) {
    next == LastIndex(t.recs) + 1 || next == Max(t.start, LastIndex(t.recs) + 1)
  }

  /** The active file can be sealed, or it is empty and not named past the next entry; with small entries it may
      be named one past the next entry and hold one entry since. */
  predicate NamedNear(t: Tail, next: nat, last: nat, segmentSize: nat, small: bool) {
    || (t.recs != [] && CanSeal(t, next))
    || (t.recs == [] && t.start <= last + 1 + Slack(small))
    || (small && |t.recs| == 1 && t.recs[0].size < segmentSize && t.start <= t.recs[0].index + 1)
  }

  /** An active file after entries in order, of which `last` was the last, and truncations not past them. */
  ghost predicate Near(w: Wal, last: nat, segmentSize: nat, small: bool) {
    w.layout.active.Some? && TailIsNear(w.Tail(), w.next, last, segmentSize, small)
  }

  ghost predicate TailIsNear(t: Tail, next: nat, last: nat, segmentSize: nat, small: bool) {
    && t.start > 0 && Increasing(t.recs) && (t.recs != [] ==> LastIndex(t.recs) == last)
    && NextIsNear(t, next) && NamedNear(t, next, last, segmentSize, small)
  }

  lemma NearIsReady(w: Wal, last: nat, segmentSize: nat, small: bool)
    requires Near(w, last, segmentSize, small) && segmentSize > 0
    ensures Ready(w, segmentSize)
  {
    var t := w.Tail();
    if |t.recs| == 1 {
      assert t.recs[..0] == [] && Size(t.recs) == Size([]) + t.recs[0].size;
    }
  }

  lemma NearAppend(w: Wal, last: nat, r: Record, segmentSize: nat, small: bool)
    requires w.Writable() && Near(w, last, segmentSize, small) && segmentSize > 0
    requires last < r.index && (small ==> r.size < segmentSize)
    ensures Near(Appended(w, r, segmentSize), r.index, segmentSize, small)
  {
    hide TailIsNear, Size, RotationDirs;
    if IsFull(w, segmentSize) {
      NearIsReady(w, last, segmentSize, small);
      FullIsSealed(w, last, segmentSize, small);
      assert [] + [r] == [r];
      NearFirst(w.next, r, segmentSize, small);
    } else {
      NearWrite(w.Tail(), w.next, last, r, segmentSize, small);
    }
  }

  /** A full file has been passed by the next index. */
  lemma FullIsSealed(w: Wal, last: nat, segmentSize: nat, small: bool)
    requires Near(w, last, segmentSize, small) && Ready(w, segmentSize) && IsFull(w, segmentSize) && segmentSize > 0
    ensures 0 < w.next <= last + 1
  {
    assert Size([]) == 0;
    hide Increasing, Size;
  }

  lemma NearFirst(start: nat, r: Record, segmentSize: nat, small: bool)
    requires 0 < start <= r.index && (small ==> r.size < segmentSize)
    ensures TailIsNear(Tail(start, [r]), r.index + 1, r.index, segmentSize, small)
  {
  }

  lemma NearWrite(t: Tail, next: nat, last: nat, r: Record, segmentSize: nat, small: bool)
    requires TailIsNear(t, next, last, segmentSize, small) && last < r.index && (small ==> r.size < segmentSize)
    ensures TailIsNear(Tail(t.start, t.recs + [r]), Max(next, r.index + 1), r.index, segmentSize, small)
  {
    var recs := t.recs + [r];
    UpToLast(t.recs);
    assert recs[|t.recs|] == r && forall i | 0 <= i < |t.recs| :: recs[i] == t.recs[i] && t.recs[i].index < r.index;
    assert Increasing(recs);
    hide Increasing;
  }

  predicate Small(b: seq<Record>, segmentSize: nat) {
    forall i | 0 <= i < |b| :: b[i].size < segmentSize
  }

  predicate Beyond(c: seq<Record>, last: nat) {
    forall i | 0 <= i < |c| :: c[i].index > last
  }

  function LastOr(b: seq<Record>, last: nat): nat {
    if b == [] then last else LastIndex(b)
  }

  /** A batch in order and beyond everything written never meets a file that cannot be sealed. */
  lemma {:induction false} NearSealsWell(w: Wal, last: nat, b: seq<Record>, segmentSize: nat, small: bool)
    requires w.Writable() && Near(w, last, segmentSize, small) && segmentSize > 0
    requires Increasing(b) && Beyond(b, last) && (small ==> Small(b, segmentSize))
    ensures SealsWell(w, b, segmentSize) && Near(AppendAll(w, b, segmentSize), LastOr(b, last), segmentSize, small)
    decreases |b|
  {
    hide Near, Appended, Wal.Writable, Ready;
    if b != [] {
      AppendedIsWritable(w, b[0], segmentSize);
      NearIsReady(w, last, segmentSize, small);
      NearAppend(w, last, b[0], segmentSize, small);
      NearSealsWell(Appended(w, b[0], segmentSize), b[0].index, b[1..], segmentSize, small);
    }
  }

  lemma NearTruncate(w: Wal, last: nat, u: nat, segmentSize: nat, small: bool)
    requires Near(w, last, segmentSize, small) && u <= last + Slack(small)
    ensures Near(Truncated(w, u), last, segmentSize, small)
  {
  }

  /** Reopening counts the next index from the last record. */
  lemma NearReopen(d: Dir, l: Layout, next: nat, last: nat, segmentSize: nat, small: bool)
    requires Near(Wal(d, l, next), last, segmentSize, small)
    ensures Near(Reopened(d, l), last, segmentSize, small)
  {
    UpToLast(l.active.value.recs);
  }

  /** A new file that takes the place of one that ends at `last`, or of an empty directory. */
  lemma NearFresh(d: Dir, sealed: seq<Segment>, last: nat, segmentSize: nat, small: bool)
    requires if sealed == [] then true else sealed[|sealed| - 1].hi == last
    ensures Near(Reopened(d, Layout(sealed, None)), last, segmentSize, small)
  {
  }

  lemma NearCrashInRotation(w: Wal, k: nat, last: nat, segmentSize: nat, small: bool)
    requires w.Writable() && Near(w, last, segmentSize, small) && segmentSize > 0 && IsFull(w, segmentSize) && k < 3
    ensures Near(Reopened(RotationDirs(w.files, w.Tail().start, w.next)[k], RotationLayout(w, k)), last, segmentSize, small)
  {
    hide Reopened;
    var d := RotationDirs(w.files, w.Tail().start, w.next)[k];
    NearIsReady(w, last, segmentSize, small);
    SealEndsAtLast(w.Tail(), w.next);
    if k == 0 {
      NearReopen(d, w.layout, w.next, last, segmentSize, small);
    } else if k == 1 {
      NearFresh(d, RotationLayout(w, 1).sealed, last, segmentSize, small);
    } else {
      NearReopen(d, RotationLayout(w, 2), w.next, last, segmentSize, small);
    }
  }

  /** A full file that is sealed under `next - 1` ends there. */
  lemma SealEndsAtLast(t: Tail, next: nat)
    requires t.recs != [] && CanSeal(t, next) && NextIsNear(t, next)
    ensures LastIndex(t.recs) == next - 1
  {
  }

  /** The name of every sealed file ends at its last record. */
  predicate NamedByLast(sealed: seq<Segment>) {
    forall i | 0 <= i < |sealed| :: sealed[i].recs != [] && LastIndex(sealed[i].recs) == sealed[i].hi
  }

  ghost predicate Ordered(s: State, segmentSize: nat, small: bool) {
    && Refines(s) && Increasing(s.appended) && NamedByLast(s.wal.layout.sealed)
    && Near(s.wal, LastIndex(s.appended), segmentSize, small)
  }

  lemma LogInOrder(s: State)
    requires Refines(s) && Increasing(s.appended)
    ensures Increasing(s.wal.Log())
  {
    hide WellFormed, Holds, Records, Increasing;
    var k: nat :| DropsOnlyUpTo(s.appended, k, s.floor) && s.wal.Log() == s.appended[k..];
    IncreasingSuffix(s.appended, k);
  }

  lemma OrderedIsGuarded(s: State, op: Op, segmentSize: nat, small: bool)
    requires Ordered(s, segmentSize, small) && segmentSize > 0 && InOrder(s, op, segmentSize, small)
    ensures s.wal.Valid() && Guarded(s.wal, op, segmentSize)
  {
    hide WellFormed, Holds, Records;
    NearIsReady(s.wal, LastIndex(s.appended), segmentSize, small);
    UpToLast(s.wal.Tail().recs);
    if op.Append? {
      assert (s.appended + [op.r])[|s.appended|] == op.r;
    }
  }

  lemma StepStaysNear(s: State, op: Op, segmentSize: nat, small: bool)
    requires Ordered(s, segmentSize, small) && segmentSize > 0 && Possible(s.wal, op, segmentSize)
    requires InOrder(s, op, segmentSize, small)
    ensures Near(Step(s, op, segmentSize).wal, LastIndex(Step(s, op, segmentSize).appended), segmentSize, small)
  {
    hide Near, Holds, WellFormed, Records, Reopened, Appended, Truncated, RotationDirs, RotationLayout, NamedByLast, IsFull;
    var w, last := s.wal, LastIndex(s.appended);
    ValidIsWritable(w);
    match op
    case Append(r) =>
      LastOfNext(s.appended, r);
      NearAppend(w, last, r, segmentSize, small);
    case Truncate(u) => NearTruncate(w, last, u, segmentSize, small);
    case Restart => NearReopen(w.files, w.layout, w.next, last, segmentSize, small);
    case CrashInRotation(k) => NearCrashInRotation(w, k, last, segmentSize, small);
    case CrashInRemoval(u, j) => NearRemoval(w, j, last, segmentSize, small);
    case CrashAfterEmptying(u) => NearFresh(map[], [], last, segmentSize, small);
  }

  lemma NearRemoval(w: Wal, j: nat, last: nat, segmentSize: nat, small: bool)
    requires Near(w, last, segmentSize, small) && j <= |w.layout.sealed|
    ensures Near(Reopened(WithoutOldest(w, j).files, WithoutOldest(w, j).layout), last, segmentSize, small)
  {
    hide Reopened;
    NearReopen(WithoutOldest(w, j).files, WithoutOldest(w, j).layout, w.next, last, segmentSize, small);
  }

  lemma PushNamed(w: Wal, last: nat, segmentSize: nat, small: bool)
    requires Near(w, last, segmentSize, small) && segmentSize > 0 && IsFull(w, segmentSize) && NamedByLast(w.layout.sealed)
    ensures w.next > 0 && NamedByLast(RotationLayout(w, 1).sealed) && NamedByLast(RotationLayout(w, 2).sealed)
  {
    NearIsReady(w, last, segmentSize, small);
    SealEndsAtLast(w.Tail(), w.next);
  }

  lemma StepStaysNamed(s: State, op: Op, segmentSize: nat, small: bool)
    requires Ordered(s, segmentSize, small) && segmentSize > 0 && Possible(s.wal, op, segmentSize)
    ensures NamedByLast(Step(s, op, segmentSize).wal.layout.sealed)
  {
    hide WellFormed, Holds, Records, RotationDirs, Near, Refines, Increasing;
    RefinesIsValid(s);
    ValidIsWritable(s.wal);
    if IsFull(s.wal, segmentSize) {
      PushNamed(s.wal, LastIndex(s.appended), segmentSize, small);
    }
  }

  lemma OrderedStepStays(s: State, op: Op, segmentSize: nat, small: bool)
    requires Ordered(s, segmentSize, small) && segmentSize > 0 && s.wal.Valid() && Possible(s.wal, op, segmentSize)
    requires InOrder(s, op, segmentSize, small)
    ensures Ordered(Step(s, op, segmentSize), segmentSize, small)
  {
    hide WellFormed, Holds, Possible, Near, NamedByLast, Refines, Increasing, Guarded;
    OrderedIsGuarded(s, op, segmentSize, small);
    StepRefines(s, op, segmentSize);
    StepStaysNear(s, op, segmentSize, small);
    StepStaysNamed(s, op, segmentSize, small);
  }

  /** Then the name of every sealed file is truthful, which is what readers rely on. */
  lemma OrderedIsTruthful(s: State, segmentSize: nat, small: bool)
    requires Ordered(s, segmentSize, small)
    ensures s.wal.Valid() && Truthful(s.wal.layout)
  {
    LogInOrder(s);
  }

  /** Over every run of appends in order, truncations up to the end, restarts and crashes at any file-system
      step, the segmented log refines one plain sequence, and every sealed file is named after its last record. */
  lemma {:induction false} RunsRefine(states: seq<State>, ops: seq<Op>, segmentSize: nat, small: bool, i: nat)
    requires IsOrderedRun(states, ops, segmentSize, small) && i <= |ops|
    ensures Refines(states[i]) && Ordered(states[i], segmentSize, small) && Truthful(states[i].wal.layout)
  {
    hide Step, Possible, InOrder, Refines, Near, NamedByLast, Increasing, Wal.Valid, Truthful;
    if i == 0 {
      StartIsOrdered(segmentSize, small);
    } else {
      RunsRefine(states, ops, segmentSize, small, i - 1);
      RefinesIsValid(states[i - 1]);
      OrderedStepStays(states[i - 1], ops[i - 1], segmentSize, small);
    }
    OrderedIsTruthful(states[i], segmentSize, small);
  }

  lemma StartIsOrdered(segmentSize: nat, small: bool)
    ensures Ordered(START, segmentSize, small)
  {
    FreshRefines();
  }

  lemma RefinesIsValid(s: State)
    requires Refines(s)
    ensures s.wal.Valid()
  {
  }

  lemma RefinedRestart(s: State, snapshot: nat)
    requires Refines(s) && snapshot >= s.floor
    ensures From(s.wal.Log(), snapshot + 1) == From(s.appended, snapshot + 1)
  {
    hide Wal.Valid, Records;
    var k: nat :| DropsOnlyUpTo(s.appended, k, s.floor) && s.wal.Log() == s.appended[k..];
    FromSkipsPrefix(s.appended, k, snapshot + 1);
  }

  /** After any such run a restart recovers, for every snapshot index at or above the highest truncation
      point, exactly the records above that snapshot index that were ever appended. */
  lemma RestartRecoversEverythingAbove(states: seq<State>, ops: seq<Op>, segmentSize: nat, small: bool, snapshot: nat)
    requires IsOrderedRun(states, ops, segmentSize, small)
    requires snapshot >= states[|ops|].floor
    ensures From(states[|ops|].wal.Log(), snapshot + 1) == From(states[|ops|].appended, snapshot + 1)
  {
    hide Step, Possible, InOrder;
    RunsRefine(states, ops, segmentSize, small, |ops|);
    RefinedRestart(states[|ops|], snapshot);
  }
}
