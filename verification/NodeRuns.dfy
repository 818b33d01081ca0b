/** Whole runs of one node: log files, write buffer, job index, compaction and restart together. */
module NodeRuns {
  import opened History
  import opened Segments
  import opened WalSteps
  import opened WalFiles
  import opened Compaction
  import opened Durability
  import opened WalRuns

  /** The log files, the write buffer, the decided entries that consensus has still to deliver, the in-memory core,
      every decided entry, and the highest index that was ever written to the files. A crash takes nothing out of
      the history: entries that were only buffered are delivered again, if they lie above the snapshot. */
  datatype Node = Node(wal: Wal, buffer: seq<Record>, awaiting: seq<Record>, core: Core, history: seq<Record>, written: nat) {
    function Cut(): nat {
      core.snapshot + 1
    }

    /** What the node holds. */
    function Held(): seq<Record> {
      wal.Log() + buffer
    }

    /** What the node holds or will be given. */
    function All(): seq<Record> {
      wal.Log() + buffer + awaiting
    }
  }

  /** `Replicated` stands for `appendEntries`: only the in-memory log and its bounds change. A crash comes at rest,
      inside a flush after some entries, inside the rotation that the next entry starts, or inside a compaction
      after the snapshot index was saved. */
  datatype Move =
    | Decided(r: Record)
    | Delivered
    | Replicated(entries: map<nat, Record>, first: nat, last: nat)
    | FlushNow
    | CompactNow
    | RestartNow
    | CrashInFlush(flushed: nat)
    | CrashInRotation(flushed: nat, step: nat)
    | CrashInCompaction(removed: nat)
    | CrashAfterEmptying

  predicate IsCrash(m: Move) {
    m.RestartNow? || m.CrashInFlush? || m.CrashInRotation? || m.CrashInCompaction? || m.CrashAfterEmptying?
  }

  predicate IsCompaction(m: Move) {
    m.CompactNow? || m.CrashInCompaction? || m.CrashAfterEmptying?
  }

  ghost function NextCut(n: Node): nat {
    KeepFrom(n.core.index, n.core.firstIndex)
  }

  /** How many buffered entries a crash finds written. */
  function Flushed(m: Move): nat {
    if m.CrashInFlush? || m.CrashInRotation? then m.flushed else 0
  }

  /** The log after the first `k` buffered entries. */
  function After(n: Node, k: nat, segmentSize: nat): Wal
    requires n.wal.Valid() && k <= |n.buffer|
  {
    ValidIsWritable(n.wal);
    AppendAll(n.wal, n.buffer[..k], segmentSize)
  }

  /** What can happen. */
  ghost predicate Possible(n: Node, m: Move, segmentSize: nat)
    requires n.wal.Valid()
  {
    match m
    case Decided(r) => Increasing(n.history + [r])
    case Delivered => n.awaiting != []
    case CrashInFlush(k) => k <= |n.buffer|
    case CrashInRotation(k, step) =>
      k < |n.buffer| && step < 3 && var w := After(n, k, segmentSize); w.layout.active.Some? && IsFull(w, segmentSize)
    case CrashInCompaction(j) => NextCut(n) > n.core.firstIndex && j <= Below(n.wal.layout.sealed, NextCut(n))
    case CrashAfterEmptying => NextCut(n) > n.core.firstIndex && TailIsBelow(n.wal.Tail(), NextCut(n))
    case _ => true
  }

  /** The log that a crash leaves, reopened. */
  ghost function Found(n: Node, m: Move, segmentSize: nat): Wal
    requires n.wal.Valid() && IsCrash(m) && Possible(n, m, segmentSize)
  {
    match m
    case CrashInFlush(k) => Reopened(After(n, k, segmentSize).files, After(n, k, segmentSize).layout)
    case CrashInRotation(k, step) =>
      ValidIsWritable(n.wal);
      AppendAllExtends(n.wal, n.buffer[..k], segmentSize);
      var w := After(n, k, segmentSize);
      Reopened(RotationDirs(w.files, w.Tail().start, w.next)[step], RotationLayout(w, step))
    case CrashInCompaction(j) => Reopened(WithoutOldest(n.wal, j).files, WithoutOldest(n.wal, j).layout)
    case CrashAfterEmptying => Reopened(map[], Layout([], None))
    case _ => Reopened(n.wal.files, n.wal.layout)
  }

  ghost function SnapshotFound(n: Node, m: Move): nat {
    if IsCompaction(m) && NextCut(n) > 0 then NextCut(n) - 1 else n.core.snapshot
  }

  /** The node after a crash: what was only buffered is lost, and delivered again from the snapshot on; the core is
      rebuilt from what the files hold above the snapshot. */
  ghost function Restarted(n: Node, w: Wal, k: nat, snapshot: nat): Node
    requires k <= |n.buffer|
  {
    Node(w, [], From(n.buffer[k..], snapshot + 1) + n.awaiting, Recovered(w.Log(), snapshot), n.history,
         LastOr(n.buffer[..k], n.written))
  }

  ghost function NextNode(n: Node, m: Move, segmentSize: nat): Node
    requires n.wal.Valid() && Possible(n, m, segmentSize)
  {
    ValidIsWritable(n.wal);
    match m
    case Decided(r) => n.(awaiting := n.awaiting + [r], history := n.history + [r])
    case Delivered =>
      var r := n.awaiting[0];
      n.(buffer := n.buffer + [r], awaiting := n.awaiting[1..], core := Committed(n.core, r))
    case Replicated(e, first, last) => n.(core := n.core.(entries := e, firstIndex := first, lastIndex := last))
    case FlushNow => n.(wal := AppendAll(n.wal, n.buffer, segmentSize), buffer := [], written := LastOr(n.buffer, n.written))
    case CompactNow =>
      if NextCut(n) <= n.core.firstIndex then n else n.(wal := Truncated(n.wal, NextCut(n)), core := Compacted(n.core))
    case _ => Restarted(n, Found(n, m, segmentSize), Flushed(m), SnapshotFound(n, m))
  }

  /** A full file can be sealed whenever one has to be; a compaction that moves the cut does not lose the record at the
      cut and, unless it crashes, meets no stale completion; and after a crash no job that is pending in the files
      was completed above the cut and added again. */
  ghost predicate Allowed(n: Node, m: Move, segmentSize: nat)
    requires n.wal.Valid() && Possible(n, m, segmentSize)
  {
    ValidIsWritable(n.wal);
    && (m.FlushNow? ==> SealsWell(n.wal, n.buffer, segmentSize))
    && (m.CrashInFlush? || m.CrashInRotation? ==> SealsWell(n.wal, n.buffer[..m.flushed], segmentSize))
    && (m.CrashInRotation? && m.step > 0 ==> Ready(After(n, m.flushed, segmentSize), segmentSize))
    && MeetsNoFailure(n, m, segmentSize)
  }

  ghost predicate MeetsNoFailure(n: Node, m: Move, segmentSize: nat)
    requires n.wal.Valid() && Possible(n, m, segmentSize)
  {
    && (IsCompaction(m) && NextCut(n) > n.core.firstIndex ==> !LosesRecordAt(n.wal, NextCut(n)))
    && (m.CompactNow? && NextCut(n) > n.core.firstIndex ==> NoStaleCompletion(n.core.index, NextCut(n)))
    && (IsCrash(m) ==>
          var s := SnapshotFound(n, m); NoReAddAbove(From(Found(n, m, segmentSize).Log(), s + 1), s))
  }

  // ---------------------------------------------------------------- the invariant

  predicate UpTo(c: seq<Record>, last: nat) {
    forall i | 0 <= i < |c| :: c[i].index <= last
  }

  /** The cut lies below everything that is still to be delivered and below the add of every job that is pending in
      the whole history. */
  ghost predicate CutIsOk(n: Node) {
    n.core.snapshot <= LastIndex(n.history) && Beyond(n.awaiting, n.core.snapshot) && CutFits(n.history, n.core.snapshot)
  }

  /** Files, buffer and coming deliveries hold every decided record from the cut on, once and in order. */
  ghost predicate Complete(n: Node) {
    && Increasing(n.history) && Increasing(n.All()) && UpTo(n.All(), LastIndex(n.history))
    && From(n.All(), n.Cut()) == From(n.history, n.Cut())
  }

  ghost predicate Durable(n: Node) {
    n.wal.Valid() && Complete(n) && CutIsOk(n) && Tracks(n.core, From(n.Held(), n.Cut()))
  }

  // ---------------------------------------------------------------- orders

  lemma IncreasingParts(a: seq<Record>, b: seq<Record>)
    ensures Increasing(a + b) <==>
            && Increasing(a) && Increasing(b)
            && forall i, j | 0 <= i < |a| && 0 <= j < |b| :: a[i].index < b[j].index
  {
    var c := a + b;
    assert forall i | 0 <= i < |a| :: c[i] == a[i];
    assert forall j | 0 <= j < |b| :: c[|a| + j] == b[j];
    if Increasing(c) {
      forall i, j | 0 <= i < |a| && 0 <= j < |b|
        ensures a[i].index < b[j].index
      {
        assert c[i].index < c[|a| + j].index;
      }
    }
  }

  lemma FromStays(b: seq<Record>, cut: nat, last: nat)
    ensures forall i | 0 <= i < |From(b, cut)| :: From(b, cut)[i] in b && From(b, cut)[i].index >= cut
    ensures UpTo(b, last) ==> UpTo(From(b, cut), last)
    ensures Beyond(b, last) ==> Beyond(From(b, cut), last)
  {
    var f := From(b, cut);
    forall i | 0 <= i < |f|
      ensures f[i] in b && f[i].index >= cut
    {
      FromMember(b, cut, f[i]);
    }
  }

  /** Leaving out the oldest of `a` and what lies below a cut of `b` keeps the order. */
  lemma ThinnedIncreases(a: seq<Record>, b: seq<Record>, c: seq<Record>, d: nat, cut: nat, last: nat)
    requires Increasing(a + b + c) && UpTo(a + b + c, last) && d <= |a|
    ensures Increasing(a[d..] + From(b, cut) + c) && UpTo(a[d..] + From(b, cut) + c, last)
    ensures Increasing(a[d..]) && Increasing(b)
  {
    hide Increasing, From;
    IncreasingParts(a + b, c);
    IncreasingParts(a, b);
    FromIncreases(b, cut);
    FromStays(b, cut, last);
    IncreasingSuffix(a, d);
    var f := From(b, cut);
    forall i, j | 0 <= i < |a[d..]| && 0 <= j < |f|
      ensures a[d..][i].index < f[j].index
    {
      var k :| 0 <= k < |b| && b[k] == f[j];
    }
    IncreasingParts(a[d..], f);
    var g := a[d..] + f;
    forall i | 0 <= i < |g|
      ensures g[i] in a + b
    {
      assert i < |a| - d ==> g[i] == (a + b)[d + i];
      if i >= |a| - d {
        var k :| 0 <= k < |b| && b[k] == f[i - (|a| - d)];
        assert g[i] == (a + b)[|a| + k];
      }
    }
    forall i, j | 0 <= i < |g| && 0 <= j < |c|
      ensures g[i].index < c[j].index
    {
      var k :| 0 <= k < |a + b| && (a + b)[k] == g[i];
    }
    IncreasingParts(g, c);
    StillUpTo(a + b, c, g, last);
  }

  lemma StillUpTo(a: seq<Record>, c: seq<Record>, g: seq<Record>, last: nat)
    requires UpTo(a + c, last) && forall i | 0 <= i < |g| :: g[i] in a
    ensures UpTo(g + c, last)
  {
    forall i | 0 <= i < |g + c|
      ensures (g + c)[i].index <= last
    {
      if i < |g| {
        var k :| 0 <= k < |a| && a[k] == g[i];
        assert (a + c)[k] == g[i];
      } else {
        assert (g + c)[i] == (a + c)[|a| + i - |g|];
      }
    }
  }

  lemma HeldInOrder(n: Node)
    requires Complete(n)
    ensures Increasing(n.Held()) && Increasing(n.wal.Log()) && Increasing(n.awaiting) && UpTo(n.Held(), LastIndex(n.history))
    ensures forall i, j | 0 <= i < |n.Held()| && 0 <= j < |n.awaiting| :: n.Held()[i].index < n.awaiting[j].index
    ensures From(n.history, n.Cut()) == From(n.Held(), n.Cut()) + From(n.awaiting, n.Cut())
  {
    hide Records, From;
    IncreasingParts(n.Held(), n.awaiting);
    IncreasingParts(n.wal.Log(), n.buffer);
    FromConcat(n.Held(), n.awaiting, n.Cut());
    assert forall i | 0 <= i < |n.Held()| :: n.Held()[i] == n.All()[i];
  }

  // ---------------------------------------------------------------- decisions and deliveries

  lemma FromNext(h: seq<Record>, r: Record, cut: nat)
    ensures From(h + [r], cut) == if r.index >= cut then From(h, cut) + [r] else From(h, cut)
  {
    assert (h + [r])[..|h|] == h;
  }

  lemma CutFitsNext(h: seq<Record>, r: Record, snapshot: nat)
    requires CutFits(h, snapshot) && r.index > snapshot
    ensures CutFits(h + [r], snapshot)
  {
    hide LastEvent;
    forall id | id in PendingJobs(h + [r])
      ensures LastEvent(h + [r], id).index > snapshot
    {
      LastEventOfNext(h, r, id);
      PendingIsAdded(h, id);
      PendingIsAdded(h + [r], id);
    }
  }

  lemma DecisionIsDurable(n: Node, r: Record, segmentSize: nat)
    requires Durable(n) && Possible(n, Decided(r), segmentSize)
    ensures Durable(NextNode(n, Decided(r), segmentSize))
  {
    hide Wal.Valid, Tracks, Records, From, CutFits, PendingJobs;
    var n' := NextNode(n, Decided(r), segmentSize);
    EndAdvances(n.history, r);
    CutFitsNext(n.history, r, n.core.snapshot);
    assert n'.All() == n.All() + [r];
    FromNext(n.All(), r, n.Cut());
    FromNext(n.history, r, n.Cut());
    IncreasingParts(n.All(), [r]);
    hide Increasing;
  }

  lemma DeliveryIsDurable(n: Node, segmentSize: nat)
    requires Durable(n) && Possible(n, Delivered, segmentSize)
    ensures Durable(NextNode(n, Delivered, segmentSize))
  {
    hide Wal.Valid, Tracks, Records, From, CutFits, PendingJobs, LastIndex;
    var n', r := NextNode(n, Delivered, segmentSize), n.awaiting[0];
    assert n'.All() == n.All();
    DeliveryTracks(n);
    assert n'.Held() == n.Held() + [r];
    assert forall i | 0 <= i < |n'.awaiting| :: n'.awaiting[i] == n.awaiting[i + 1];
    hide Increasing;
  }

  lemma DeliveryTracks(n: Node)
    requires Complete(n) && CutIsOk(n) && Tracks(n.core, From(n.Held(), n.Cut())) && n.awaiting != []
    ensures Tracks(Committed(n.core, n.awaiting[0]), From(n.Held() + [n.awaiting[0]], n.Cut()))
  {
    hide Tracks, Records, From, CutFits, LastIndex, Committed;
    var r := n.awaiting[0];
    FromNext(n.Held(), r, n.Cut());
    assert n.All() == (n.Held() + [r]) + n.awaiting[1..];
    IncreasingParts(n.Held() + [r], n.awaiting[1..]);
    FromIncreases(n.Held() + [r], n.Cut());
    CommitKeepsTrack(n.core, From(n.Held(), n.Cut()), r);
  }

  lemma ReplicationIsDurable(n: Node, m: Move, segmentSize: nat)
    requires Durable(n) && m.Replicated?
    ensures Durable(NextNode(n, m, segmentSize))
  {
    hide Wal.Valid, Increasing, PendingJobs, LastEvent, Records, From;
  }

  lemma FlushIsDurable(n: Node, segmentSize: nat)
    requires Durable(n) && segmentSize > 0 && Possible(n, FlushNow, segmentSize) && Allowed(n, FlushNow, segmentSize)
    ensures Durable(NextNode(n, FlushNow, segmentSize))
  {
    hide Holds, WellFormed, Tracks, Records, AppendAll, SealsWell, From;
    ValidIsWritable(n.wal);
    HeldInOrder(n);
    IncreasingParts(n.wal.Log(), n.buffer);
    AppendAllKeepsLayoutIff(n.wal, n.buffer, segmentSize);
    var n' := NextNode(n, FlushNow, segmentSize);
    assert n'.Held() == n.Held() && n'.All() == n.All();
  }

  // ---------------------------------------------------------------- compaction

  /** The next cut lies above the last one, below all that is still to be delivered and below every pending add. */
  lemma NextCutIsOk(n: Node)
    requires Durable(n) && NextCut(n) > n.core.firstIndex
    ensures n.core.snapshot < NextCut(n) && CutIsOk(n.(core := n.core.(snapshot := NextCut(n) - 1)))
  {
    hide Wal.Valid, Records, KeepFrom, From, LastEvent, Tracks;
    var u, kept := NextCut(n), From(n.Held(), n.Cut());
    CutIsSafe(n.core, kept);
    HeldInOrder(n);
    KeptIsEarlier(n);
    hide Complete, Increasing;
    forall id | id in PendingJobs(n.history)
      ensures LastEvent(n.history, id).index >= u
    {
      PendingFitsNextCut(n, kept, u, id);
    }
  }

  lemma KeptIsEarlier(n: Node)
    requires Complete(n) && CutIsOk(n)
    ensures Increasing(n.history)
    ensures var last := LastIndex(From(n.Held(), n.Cut())); Beyond(n.awaiting, last) && last <= LastIndex(n.history)
  {
    hide Records, From, CutFits;
    var kept := From(n.Held(), n.Cut());
    HeldInOrder(n);
    FromStays(n.Held(), n.Cut(), LastIndex(n.history));
    hide Increasing, Complete;
    if kept != [] {
      var k :| 0 <= k < |n.Held()| && n.Held()[k] == kept[|kept| - 1];
      assert forall j | 0 <= j < |n.awaiting| :: n.Held()[k].index < n.awaiting[j].index;
    }
  }

  lemma PendingFitsNextCut(n: Node, kept: seq<Record>, u: nat, id: JobId)
    requires Increasing(n.history) && CutFits(n.history, n.core.snapshot) && id in PendingJobs(n.history)
    requires From(n.history, n.Cut()) == kept + From(n.awaiting, n.Cut()) && Beyond(n.awaiting, LastIndex(kept))
    requires u <= LastIndex(kept) + 1 && forall p | p in PendingJobs(kept) :: u <= LastEvent(kept, p).index
    ensures LastEvent(n.history, id).index >= u
  {
    hide PendingJobs, From, LastEvent, Increasing;
    var late := From(n.awaiting, n.Cut());
    PendingIsAdded(n.history, id);
    PendingIsAdded(kept, id);
    LastEventFrom(n.history, n.Cut(), id);
    LastEventOfConcat(kept, late, id);
    FromStays(n.awaiting, n.Cut(), LastIndex(kept));
    if LastEvent(late, id) != NoEvent {
      EventIsInHistory(late, id);
    }
  }

  /** Unless the record at `u` is lost, a truncation at `u` loses only what lies below `u`. */
  lemma LosesOnlyBelow(w: Wal, u: nat)
    requires w.Valid() && Increasing(w.Log()) && !LosesRecordAt(w, u) && u > 0
    ensures DropsOnlyUpTo(w.Log(), Dropped(w, u), u - 1)
  {
    hide Holds, WellFormed, Truncated, Records, Dropped, LosesRecordAt, Increasing;
    InOrderIsSafe(w, u);
    forall i | 0 <= i < Dropped(w, u)
      ensures w.Log()[i].index < u
    {
      if w.Log()[i].index == u {
        CutAt(w, u, i);
      }
    }
  }

  lemma TruncationIsComplete(n: Node, u: nat)
    requires n.wal.Valid() && Complete(n) && !LosesRecordAt(n.wal, u) && n.Cut() <= u
    ensures Truncated(n.wal, u).Valid()
    ensures Complete(n.(wal := Truncated(n.wal, u), core := n.core.(snapshot := u - 1)))
    ensures From(Truncated(n.wal, u).Log() + n.buffer, u) == From(n.Held(), u)
  {
    hide WellFormed, Holds, Records, Truncated, Dropped, LosesRecordAt, From, LastIndex;
    HeldInOrder(n);
    TruncationKeepsAboveIff(n.wal, u);
    var w', d := Truncated(n.wal, u), Dropped(n.wal, u);
    var n' := n.(wal := w', core := n.core.(snapshot := u - 1));
    assert n'.All() == n.All()[d..];
    IncreasingSuffix(n.All(), d);
    assert n.All() == n.wal.Log() + (n.buffer + n.awaiting) && n'.All() == w'.Log() + (n.buffer + n.awaiting);
    RecoveredAfterTruncation(n.wal, n.buffer + n.awaiting, n.history, n.Cut(), u);
    RecoveredAfterTruncation(n.wal, n.buffer, n.Held(), n.Cut(), u);
    hide Increasing;
    assert UpTo(n'.All(), LastIndex(n.history));
  }

  lemma CompactIsDurable(n: Node, segmentSize: nat)
    requires Durable(n) && Possible(n, CompactNow, segmentSize) && Allowed(n, CompactNow, segmentSize)
    ensures Durable(NextNode(n, CompactNow, segmentSize))
  {
    hide Wal.Valid, Records, KeepFrom, Compacted, Truncated, LosesRecordAt, NoStaleCompletion, Complete, Tracks, From, CutFits;
    var u, kept := NextCut(n), From(n.Held(), n.Cut());
    if u > n.core.firstIndex {
      NextCutIsOk(n);
      CompactedCases(n.core);
      TruncationIsComplete(n, u);
      CompactionTracksIff(n.core, kept);
      TracksFrom(Compacted(n.core), kept);
      FromFrom(n.Held(), n.Cut(), u);
      var n' := NextNode(n, CompactNow, segmentSize);
      SameCut(n.(wal := n'.wal, core := n.core.(snapshot := u - 1)), n');
    }
  }

  lemma SameCut(a: Node, b: Node)
    requires a.wal == b.wal && a.buffer == b.buffer && a.awaiting == b.awaiting && a.history == b.history
    requires a.core.snapshot == b.core.snapshot
    ensures Complete(a) <==> Complete(b)
    ensures CutIsOk(a) <==> CutIsOk(b)
  {
    hide From, Increasing, CutFits, Records;
  }

  // ---------------------------------------------------------------- crashes

  lemma RecoveredDependsOnKept(log: seq<Record>, snapshot: nat)
    ensures Recovered(log, snapshot) == Recovered(From(log, snapshot + 1), snapshot)
  {
    FromFrom(log, snapshot + 1, snapshot + 1);
  }

  /** Whatever log a crash leaves, the index rebuilt from it is true of what the log holds above the snapshot exactly
      when no job that is pending there was completed there and added again. */
  lemma RebuiltTracksIff(log: seq<Record>, snapshot: nat)
    requires Increasing(log)
    ensures Tracks(Recovered(log, snapshot), From(log, snapshot + 1)) <==> NoReAddAbove(From(log, snapshot + 1), snapshot)
  {
    var kept := From(log, snapshot + 1);
    RecoveredDependsOnKept(log, snapshot);
    FromIncreases(log, snapshot + 1);
    RecoveryTracksIff(kept, snapshot);
    CutFitsAbove(kept, snapshot);
  }

  lemma FromThinned(a: seq<Record>, b: seq<Record>, c: seq<Record>, d: nat, cut: nat)
    requires cut > 0 && DropsOnlyUpTo(a, d, cut - 1)
    ensures From(a[d..] + From(b, cut) + c, cut) == From(a + b + c, cut)
  {
    hide From;
    FromSkipsPrefix(a, d, cut);
    FromFrom(b, cut, cut);
    FromConcat(a[d..] + From(b, cut), c, cut);
    FromConcat(a[d..], From(b, cut), cut);
    FromConcat(a + b, c, cut);
    FromConcat(a, b, cut);
  }

  /** A crash after `k` buffered entries that leaves the files without some records at or below the snapshot: nothing
      is missing once the lost entries have been delivered again. */
  lemma RestartedIsComplete(n: Node, w: Wal, k: nat, d: nat, snapshot: nat)
    requires Complete(n) && n.core.snapshot <= snapshot && k <= |n.buffer|
    requires DropsOnlyUpTo(n.wal.Log() + n.buffer[..k], d, snapshot) && w.Log() == (n.wal.Log() + n.buffer[..k])[d..]
    ensures Complete(Restarted(n, w, k, snapshot)) && Increasing(w.Log())
  {
    hide Records, From, Recovered, Increasing, LastIndex;
    var n' := Restarted(n, w, k, snapshot);
    var base, rest := n.wal.Log() + n.buffer[..k], n.buffer[k..];
    assert n.buffer == n.buffer[..k] + rest;
    assert n.All() == base + rest + n.awaiting;
    RecoveredSnapshot(w.Log(), snapshot);
    assert n'.All() == base[d..] + From(rest, snapshot + 1) + n.awaiting;
    ThinnedIncreases(base, rest, n.awaiting, d, snapshot + 1, LastIndex(n.history));
    FromThinned(base, rest, n.awaiting, d, snapshot + 1);
    FromFrom(n.All(), n.Cut(), snapshot + 1);
    FromFrom(n.history, n.Cut(), snapshot + 1);
  }

  lemma RestartedIsDurableIff(n: Node, w: Wal, k: nat, d: nat, snapshot: nat)
    requires Complete(n) && n.core.snapshot <= snapshot && k <= |n.buffer| && w.Valid()
    requires CutIsOk(n.(core := n.core.(snapshot := snapshot)))
    requires DropsOnlyUpTo(n.wal.Log() + n.buffer[..k], d, snapshot) && w.Log() == (n.wal.Log() + n.buffer[..k])[d..]
    ensures Durable(Restarted(n, w, k, snapshot)) <==> NoReAddAbove(From(w.Log(), snapshot + 1), snapshot)
  {
    hide Records, From, Recovered, Wal.Valid, Complete, CutFits, Tracks, NoReAddAbove;
    var n' := Restarted(n, w, k, snapshot);
    RestartedIsComplete(n, w, k, d, snapshot);
    RecoveredSnapshot(w.Log(), snapshot);
    FromStays(n.buffer[k..], snapshot + 1, 0);
    assert n'.Held() == w.Log();
    RebuiltTracksIff(w.Log(), snapshot);
  }

  /** The oldest records that a crash finds removed. */
  ghost function Removed(n: Node, m: Move): nat {
    match m
    case CrashInCompaction(j) => if j <= |n.wal.layout.sealed| then |Flatten(n.wal.layout.sealed[..j])| else 0
    case CrashAfterEmptying => |n.wal.Log()|
    case _ => 0
  }

  /** The conditions of `Allowed` on files. */
  ghost predicate FilesAllow(n: Node, m: Move, segmentSize: nat)
    requires n.wal.Valid() && Possible(n, m, segmentSize)
  {
    ValidIsWritable(n.wal);
    && (m.CrashInFlush? || m.CrashInRotation? ==> SealsWell(n.wal, n.buffer[..m.flushed], segmentSize))
    && (m.CrashInRotation? && m.step > 0 ==> Ready(After(n, m.flushed, segmentSize), segmentSize))
    && (IsCompaction(m) && NextCut(n) > n.core.firstIndex ==> !LosesRecordAt(n.wal, NextCut(n)))
  }

  lemma FlushCrashLog(n: Node, m: Move, segmentSize: nat)
    requires n.wal.Valid() && segmentSize > 0 && IsCrash(m) && !IsCompaction(m)
    requires Possible(n, m, segmentSize) && FilesAllow(n, m, segmentSize) && Positive(n.buffer[..Flushed(m)])
    ensures Found(n, m, segmentSize).Valid() && Found(n, m, segmentSize).Log() == n.wal.Log() + n.buffer[..Flushed(m)]
  {
    hide NamesOk, ContentsOk, Holds, Records, Reopened, RotationDirs, RotationLayout, SealsWell, AppendAll, LastIndex, CanSeal;
    ValidIsWritable(n.wal);
    var k := Flushed(m);
    if m.RestartNow? {
      ReopenKeepsLog(n.wal.files, n.wal.layout);
      assert n.wal.Log() + n.buffer[..0] == n.wal.Log();
    } else {
      AppendAllKeepsLayoutIff(n.wal, n.buffer[..k], segmentSize);
      var w := After(n, k, segmentSize);
      if m.CrashInFlush? {
        ReopenKeepsLog(w.files, w.layout);
      } else {
        CrashedRotationReopens(w, m.step);
      }
    }
  }

  lemma PrefixIsPositive(n: Node, k: nat)
    requires Complete(n) && k <= |n.buffer|
    ensures Positive(n.buffer[..k])
  {
    hide Records, From;
    HeldInOrder(n);
    assert forall i | 0 <= i < k :: n.buffer[..k][i] == n.Held()[|n.wal.Log()| + i];
  }

  lemma FewerRemoved(w: Wal, u: nat, j: nat)
    requires w.Valid() && j <= Below(w.layout.sealed, u)
    ensures |Flatten(w.layout.sealed[..j])| <= Dropped(w, u)
  {
    hide Holds, WellFormed;
    var sealed, b := w.layout.sealed, Below(w.layout.sealed, u);
    assert sealed[..b] == sealed[..j] + sealed[j..b];
    FlattenConcat(sealed[..j], sealed[j..b]);
    OldestRemovedKeepsLayout(w, j);
  }

  lemma CompactionCrashLog(n: Node, m: Move, segmentSize: nat)
    requires n.wal.Valid() && Complete(n) && IsCrash(m) && IsCompaction(m)
    requires Possible(n, m, segmentSize) && FilesAllow(n, m, segmentSize)
    ensures Found(n, m, segmentSize).Valid() && DropsOnlyUpTo(n.wal.Log(), Removed(n, m), NextCut(n) - 1)
    ensures Found(n, m, segmentSize).Log() == n.wal.Log()[Removed(n, m)..]
  {
    hide NamesOk, ContentsOk, Holds, Records, Reopened, LosesRecordAt, From, LastIndex, KeepFrom, WithoutOldest, Dropped;
    var w, u := n.wal, NextCut(n);
    HeldInOrder(n);
    LosesOnlyBelow(w, u);
    if m.CrashInCompaction? {
      FewerRemoved(w, u, m.removed);
      OldestAreBelow(w, u, m.removed);
      OldestRemovedKeepsLayout(w, m.removed);
      ReopenKeepsLog(WithoutOldest(w, m.removed).files, WithoutOldest(w, m.removed).layout);
    } else {
      EmptiedIsFresh();
      assert Dropped(w, u) == |w.Log()| by { DroppedAll(w, u); }
    }
  }

  lemma DroppedAll(w: Wal, u: nat)
    requires w.layout.active.Some? && TailIsBelow(w.Tail(), u)
    ensures Dropped(w, u) == |w.Log()|
  {
  }

  lemma EmptiedIsFresh()
    ensures Reopened(map[], Layout([], None)) == Fresh(1) && Fresh(1).Valid() && Fresh(1).Log() == []
  {
    FreshIsValid(1);
    assert WithoutTemps(map[]) == map[];
  }

  /** If the files allow it, a crash anywhere leaves a durable node exactly when no job that is pending in the files
      above the snapshot was completed there and added again. */
  lemma CrashIsDurableIff(n: Node, m: Move, segmentSize: nat)
    requires Durable(n) && segmentSize > 0 && IsCrash(m) && Possible(n, m, segmentSize) && FilesAllow(n, m, segmentSize)
    ensures Durable(NextNode(n, m, segmentSize)) <==>
            var s := SnapshotFound(n, m); NoReAddAbove(From(Found(n, m, segmentSize).Log(), s + 1), s)
  {
    hide Wal.Valid, Records, From, Complete, CutFits, Tracks, NoReAddAbove, Found, FilesAllow, KeepFrom, Recovered;
    var w, k := Found(n, m, segmentSize), Flushed(m);
    if IsCompaction(m) {
      NextCutIsOk(n);
      CompactionCrashLog(n, m, segmentSize);
      assert n.wal.Log() + n.buffer[..0] == n.wal.Log();
      RestartedIsDurableIff(n, w, 0, Removed(n, m), NextCut(n) - 1);
    } else {
      PrefixIsPositive(n, k);
      FlushCrashLog(n, m, segmentSize);
      SameCut(n, n.(core := n.core.(snapshot := n.core.snapshot)));
      assert w.Log() == (n.wal.Log() + n.buffer[..k])[0..];
      RestartedIsDurableIff(n, w, k, 0, n.core.snapshot);
    }
  }

  // ---------------------------------------------------------------- runs

  lemma StepIsDurable(n: Node, m: Move, segmentSize: nat)
    requires Durable(n) && segmentSize > 0 && Possible(n, m, segmentSize) && Allowed(n, m, segmentSize)
    ensures Durable(NextNode(n, m, segmentSize))
  {
    hide NextNode, Allowed, Possible, Complete, CutIsOk, Tracks, Wal.Valid;
    match m
    case Decided(r) => DecisionIsDurable(n, r, segmentSize);
    case Delivered => DeliveryIsDurable(n, segmentSize);
    case Replicated(_, _, _) => ReplicationIsDurable(n, m, segmentSize);
    case FlushNow => FlushIsDurable(n, segmentSize);
    case CompactNow => CompactIsDurable(n, segmentSize);
    case _ => CrashIsDurable(n, m, segmentSize);
  }

  lemma CrashIsDurable(n: Node, m: Move, segmentSize: nat)
    requires Durable(n) && segmentSize > 0 && IsCrash(m) && Possible(n, m, segmentSize) && Allowed(n, m, segmentSize)
    ensures Durable(NextNode(n, m, segmentSize))
  {
    hide Wal.Valid, Complete, CutIsOk, Tracks, Possible, NextNode, Found, NoReAddAbove, From, SealsWell, LosesRecordAt, KeepFrom;
    CrashIsDurableIff(n, m, segmentSize);
  }

  const FRESH_NODE := Node(Fresh(1), [], [], Core(map[], map[], 1, 0, 0), [], 0)

  ghost predicate IsNodeRun(nodes: seq<Node>, moves: seq<Move>, segmentSize: nat) {
    && segmentSize > 0 && |nodes| == |moves| + 1 && nodes[0] == FRESH_NODE
    && forall i | 0 <= i < |moves| && nodes[i].wal.Valid() ::
         && Possible(nodes[i], moves[i], segmentSize) && Allowed(nodes[i], moves[i], segmentSize)
         && nodes[i + 1] == NextNode(nodes[i], moves[i], segmentSize)
  }

  lemma FreshNodeIsDurable()
    ensures Durable(FRESH_NODE)
  {
    FreshIsValid(1);
    hide Wal.Valid;
    assert FRESH_NODE.All() == [] && FRESH_NODE.Held() == [];
    NothingTracked();
    hide Tracks;
  }

  lemma NothingTracked()
    ensures Tracks(FRESH_NODE.core, [])
  {
  }

  lemma {:induction false} NodeRunsAreDurable(nodes: seq<Node>, moves: seq<Move>, segmentSize: nat, i: nat)
    requires IsNodeRun(nodes, moves, segmentSize) && i <= |moves|
    ensures Durable(nodes[i])
  {
    hide NextNode, Possible, Allowed, Complete, CutIsOk, Tracks, Wal.Valid;
    if i == 0 {
      FreshNodeIsDurable();
    } else {
      NodeRunsAreDurable(nodes, moves, segmentSize, i - 1);
      StepIsDurable(nodes[i - 1], moves[i - 1], segmentSize);
    }
  }

  lemma DurableKeepsPending(n: Node)
    requires Durable(n)
    ensures PendingJobs(From(n.All(), n.Cut())) == PendingJobs(n.history)
  {
    hide PendingJobs, From, Wal.Valid, Tracks, Records;
    CutKeepsPendingIff(n.history, n.Cut());
  }

  /** After any such run, whatever was compacted and wherever the node crashed, the records in files and buffer above
      the snapshot, with those still to be delivered, give exactly the pending jobs of the whole decided history. */
  lemma PendingJobsSurviveEveryRun(nodes: seq<Node>, moves: seq<Move>, segmentSize: nat, i: nat)
    requires IsNodeRun(nodes, moves, segmentSize) && i <= |moves|
    ensures PendingJobs(From(nodes[i].All(), nodes[i].Cut())) == PendingJobs(nodes[i].history)
  {
    NodeRunsAreDurable(nodes, moves, segmentSize, i);
    DurableKeepsPending(nodes[i]);
  }
}
