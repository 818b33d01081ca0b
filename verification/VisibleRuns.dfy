/** Runs of a node that never meet a file they cannot seal, by a condition that a caller can see. */
module VisibleRuns {
  import opened History
  import opened Segments
  import opened WalSteps
  import opened WalFiles
  import opened Compaction
  import opened NodeRuns
  import opened WalRuns

  /** As `Allowed`, but with nothing about the inside of the files: a compaction cuts no further than the end of what
      has been written, or one past it if every entry is smaller than a segment. */
  ghost predicate Visible(n: Node, m: Move, segmentSize: nat, small: bool)
    requires n.wal.Valid() && NodeRuns.Possible(n, m, segmentSize)
  {
    && (m.Decided? && small ==> m.r.size < segmentSize)
    && (IsCompaction(m) && NextCut(n) > n.core.firstIndex ==> NextCut(n) <= n.written + Slack(small))
    && MeetsNoFailure(n, m, segmentSize)
  }

  /** What is still to be written. */
  function Coming(n: Node): seq<Record> {
    n.buffer + n.awaiting
  }

  ghost predicate Settled(n: Node, segmentSize: nat, small: bool) {
    && Durable(n) && Near(n.wal, n.written, segmentSize, small)
    && n.written <= LastIndex(n.history) && Beyond(Coming(n), n.written) && (small ==> Small(Coming(n), segmentSize))
  }

  lemma ComingInOrder(n: Node)
    requires Complete(n)
    ensures Increasing(Coming(n)) && UpTo(Coming(n), LastIndex(n.history))
  {
    hide Records, From, LastIndex;
    assert n.All() == n.wal.Log() + Coming(n);
    IncreasingParts(n.wal.Log(), Coming(n));
    assert forall i | 0 <= i < |Coming(n)| :: Coming(n)[i] == n.All()[|n.wal.Log()| + i];
  }

  /** Writing the first `k` buffered entries. */
  lemma WrittenPrefix(n: Node, k: nat, segmentSize: nat, small: bool)
    requires Settled(n, segmentSize, small) && segmentSize > 0 && k <= |n.buffer|
    ensures n.wal.Writable() && SealsWell(n.wal, n.buffer[..k], segmentSize)
    ensures Near(After(n, k, segmentSize), LastOr(n.buffer[..k], n.written), segmentSize, small)
    ensures LastOr(n.buffer[..k], n.written) <= LastIndex(n.history)
    ensures Beyond(n.buffer[k..] + n.awaiting, LastOr(n.buffer[..k], n.written))
  {
    hide Near, Wal.Valid, Tracks, CutIsOk, SealsWell, AppendAll, LastIndex;
    ValidIsWritable(n.wal);
    ComingInOrder(n);
    var b, rest := n.buffer[..k], n.buffer[k..] + n.awaiting;
    assert Coming(n) == b + rest;
    IncreasingParts(b, rest);
    assert forall i | 0 <= i < k :: b[i] == Coming(n)[i];
    assert forall i | 0 <= i < |rest| :: rest[i] == Coming(n)[k + i];
    hide Complete;
    NearSealsWell(n.wal, n.written, b, segmentSize, small);
    LastOrIs(b, n.written);
  }

  lemma LastOrIs(b: seq<Record>, last: nat)
    ensures LastOr(b, last) == if b == [] then last else b[|b| - 1].index
  {
  }

  lemma VisibleIsAllowed(n: Node, m: Move, segmentSize: nat, small: bool)
    requires Settled(n, segmentSize, small) && segmentSize > 0 && NodeRuns.Possible(n, m, segmentSize)
    requires Visible(n, m, segmentSize, small)
    ensures Allowed(n, m, segmentSize)
  {
    hide Near, Wal.Valid, Tracks, CutIsOk, Complete, SealsWell, AppendAll, MeetsNoFailure, Ready;
    if m.FlushNow? {
      WrittenPrefix(n, |n.buffer|, segmentSize, small);
      assert n.buffer[..|n.buffer|] == n.buffer;
    } else if m.CrashInFlush? || m.CrashInRotation? {
      WrittenPrefix(n, m.flushed, segmentSize, small);
      NearIsReady(After(n, m.flushed, segmentSize), LastOr(n.buffer[..m.flushed], n.written), segmentSize, small);
    }
  }

  lemma FoundIsNear(n: Node, m: Move, segmentSize: nat, small: bool)
    requires Settled(n, segmentSize, small) && segmentSize > 0 && IsCrash(m) && NodeRuns.Possible(n, m, segmentSize)
    ensures Flushed(m) <= |n.buffer|
    ensures Near(Found(n, m, segmentSize), LastOr(n.buffer[..Flushed(m)], n.written), segmentSize, small)
  {
    hide Near, NamesOk, ContentsOk, Holds, Tracks, CutIsOk, Complete, SealsWell, AppendAll, Reopened, WithoutOldest, RotationDirs,
         RotationLayout, IsFull, KeepFrom;
    var w, last := n.wal, n.written;
    ValidIsWritable(w);
    match m
    case RestartNow => NearReopen(w.files, w.layout, w.next, last, segmentSize, small);
    case CrashInFlush(k) =>
      WrittenPrefix(n, k, segmentSize, small);
      var v := After(n, k, segmentSize);
      NearReopen(v.files, v.layout, v.next, LastOr(n.buffer[..k], last), segmentSize, small);
    case CrashInRotation(k, step) =>
      WrittenPrefix(n, k, segmentSize, small);
      AppendAllExtends(w, n.buffer[..k], segmentSize);
      NearCrashInRotation(After(n, k, segmentSize), step, LastOr(n.buffer[..k], last), segmentSize, small);
    case CrashInCompaction(j) => NearRemoval(w, j, last, segmentSize, small);
    case CrashAfterEmptying => NearFresh(map[], [], last, segmentSize, small);
  }

  lemma BeyondConcat(a: seq<Record>, b: seq<Record>, last: nat)
    ensures Beyond(a + b, last) <==> Beyond(a, last) && Beyond(b, last)
  {
    assert forall i | 0 <= i < |a| :: (a + b)[i] == a[i];
    assert forall i | 0 <= i < |b| :: (a + b)[|a| + i] == b[i];
  }

  lemma SmallConcat(a: seq<Record>, b: seq<Record>, segmentSize: nat)
    ensures Small(a + b, segmentSize) <==> Small(a, segmentSize) && Small(b, segmentSize)
  {
    assert forall i | 0 <= i < |a| :: (a + b)[i] == a[i];
    assert forall i | 0 <= i < |b| :: (a + b)[|a| + i] == b[i];
  }

  lemma SmallFrom(b: seq<Record>, cut: nat, segmentSize: nat)
    requires Small(b, segmentSize)
    ensures Small(From(b, cut), segmentSize)
  {
    FromStays(b, cut, 0);
  }

  /** What comes after a crash is part of what would have come. */
  lemma ThinnedComing(first: seq<Record>, rest: seq<Record>, late: seq<Record>, cut: nat, last: nat, segmentSize: nat)
    requires Beyond(rest + late, last)
    ensures Beyond(From(rest, cut) + late, last)
    ensures Small(first + rest + late, segmentSize) ==> Small(From(rest, cut) + late, segmentSize)
  {
    hide Beyond, Small, From;
    BeyondConcat(rest, late, last);
    FromStays(rest, cut, last);
    BeyondConcat(From(rest, cut), late, last);
    SmallConcat(first + rest, late, segmentSize);
    SmallConcat(first, rest, segmentSize);
    if Small(rest, segmentSize) {
      SmallFrom(rest, cut, segmentSize);
    }
    SmallConcat(From(rest, cut), late, segmentSize);
  }

  lemma CrashStaysSettled(n: Node, m: Move, segmentSize: nat, small: bool)
    requires Settled(n, segmentSize, small) && segmentSize > 0 && IsCrash(m) && NodeRuns.Possible(n, m, segmentSize)
    requires Durable(NextNode(n, m, segmentSize))
    ensures Settled(NextNode(n, m, segmentSize), segmentSize, small)
  {
    hide Near, Wal.Valid, Tracks, CutIsOk, Complete, SealsWell, Found, KeepFrom, Recovered, LastOr, LastIndex, From, Beyond, Small,
         NodeRuns.Possible, AppendAll;
    FoundIsNear(n, m, segmentSize, small);
    var k, s := Flushed(m), SnapshotFound(n, m);
    WrittenPrefix(n, k, segmentSize, small);
    var n', first, rest := NextNode(n, m, segmentSize), n.buffer[..k], n.buffer[k..];
    assert n' == Restarted(n, Found(n, m, segmentSize), k, s);
    assert n.buffer == first + rest;
    ThinnedComing(first, rest, n.awaiting, s + 1, LastOr(first, n.written), segmentSize);
    assert Coming(n') == From(rest, s + 1) + n.awaiting;
  }

  lemma DecisionStaysSettled(n: Node, r: Record, segmentSize: nat, small: bool)
    requires Settled(n, segmentSize, small) && n.wal.Valid() && Increasing(n.history + [r]) && (small ==> r.size < segmentSize)
    requires Durable(NextNode(n, Decided(r), segmentSize))
    ensures Settled(NextNode(n, Decided(r), segmentSize), segmentSize, small)
  {
    hide Near, Wal.Valid, Tracks, CutIsOk, Complete, LastIndex, Increasing;
    var n' := NextNode(n, Decided(r), segmentSize);
    EndAdvances(n.history, r);
    assert Coming(n') == Coming(n) + [r];
    BeyondConcat(Coming(n), [r], n.written);
    SmallConcat(Coming(n), [r], segmentSize);
  }

  lemma FlushStaysSettled(n: Node, segmentSize: nat, small: bool)
    requires Settled(n, segmentSize, small) && segmentSize > 0 && Durable(NextNode(n, FlushNow, segmentSize))
    ensures Settled(NextNode(n, FlushNow, segmentSize), segmentSize, small)
  {
    hide Near, Wal.Valid, Tracks, CutIsOk, Complete, SealsWell, AppendAll, LastIndex, Beyond, Small;
    var n' := NextNode(n, FlushNow, segmentSize);
    WrittenPrefix(n, |n.buffer|, segmentSize, small);
    assert n.buffer[..|n.buffer|] == n.buffer && n.buffer[|n.buffer|..] + n.awaiting == n.awaiting == Coming(n');
    SmallConcat(n.buffer, n.awaiting, segmentSize);
  }

  lemma MoveStaysSettled(n: Node, m: Move, segmentSize: nat, small: bool)
    requires Settled(n, segmentSize, small) && segmentSize > 0 && !IsCrash(m) && NodeRuns.Possible(n, m, segmentSize)
    requires Visible(n, m, segmentSize, small) && Durable(NextNode(n, m, segmentSize))
    ensures Settled(NextNode(n, m, segmentSize), segmentSize, small)
  {
    hide Near, Wal.Valid, Tracks, CutIsOk, Complete, Truncated, Compacted, KeepFrom, MeetsNoFailure, LastIndex, Beyond, Small, AppendAll;
    match m
    case Decided(r) => DecisionStaysSettled(n, r, segmentSize, small);
    case Delivered => assert Coming(NextNode(n, m, segmentSize)) == Coming(n);
    case FlushNow => FlushStaysSettled(n, segmentSize, small);
    case CompactNow =>
      if NextCut(n) > n.core.firstIndex {
        NearTruncate(n.wal, n.written, NextCut(n), segmentSize, small);
      }
    case _ =>
  }

  lemma SettledStep(n: Node, m: Move, segmentSize: nat, small: bool)
    requires Settled(n, segmentSize, small) && segmentSize > 0 && NodeRuns.Possible(n, m, segmentSize)
    requires Visible(n, m, segmentSize, small)
    ensures Settled(NextNode(n, m, segmentSize), segmentSize, small)
  {
    hide Near, Wal.Valid, Tracks, CutIsOk, Complete, NodeRuns.Possible, Allowed, Visible, NextNode, Small, Beyond, LastIndex;
    VisibleIsAllowed(n, m, segmentSize, small);
    StepIsDurable(n, m, segmentSize);
    if IsCrash(m) {
      CrashStaysSettled(n, m, segmentSize, small);
    } else {
      MoveStaysSettled(n, m, segmentSize, small);
    }
  }

  ghost predicate IsVisibleRun(nodes: seq<Node>, moves: seq<Move>, segmentSize: nat, small: bool) {
    && segmentSize > 0 && |nodes| == |moves| + 1 && nodes[0] == FRESH_NODE
    && forall i | 0 <= i < |moves| && nodes[i].wal.Valid() ::
         && NodeRuns.Possible(nodes[i], moves[i], segmentSize) && Visible(nodes[i], moves[i], segmentSize, small)
         && nodes[i + 1] == NextNode(nodes[i], moves[i], segmentSize)
  }

  /** The same over every run in which compaction waits for the buffer to be flushed up to the cut: no flush ever
      meets a file it cannot seal. */
  lemma {:induction false} VisibleRunsAreDurable(nodes: seq<Node>, moves: seq<Move>, segmentSize: nat, small: bool, i: nat)
    requires IsVisibleRun(nodes, moves, segmentSize, small) && i <= |moves|
    ensures Settled(nodes[i], segmentSize, small)
    ensures PendingJobs(From(nodes[i].All(), nodes[i].Cut())) == PendingJobs(nodes[i].history)
  {
    hide NextNode, NodeRuns.Possible, Visible, Complete, CutIsOk, Tracks, Wal.Valid, PendingJobs, From, Records, Near, Small, Beyond;
    if i == 0 {
      FreshNodeIsSettled(segmentSize, small);
    } else {
      VisibleRunsAreDurable(nodes, moves, segmentSize, small, i - 1);
      SettledStep(nodes[i - 1], moves[i - 1], segmentSize, small);
    }
    DurableKeepsPending(nodes[i]);
  }

  lemma FreshNodeIsSettled(segmentSize: nat, small: bool)
    ensures Settled(FRESH_NODE, segmentSize, small)
  {
    FreshNodeIsDurable();
    hide Durable;
  }
}
