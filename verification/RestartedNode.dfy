/** From a run of the storage to the jobs that a restarted partition works on. */
module RestartedNode {
  import opened History
  import opened JobIndex
  import opened Compaction
  import opened NodeRuns
  import opened Restart
  import Replay

  /** A pending job of a history that never adds a completed job again was never reported done. */
  lemma NeverReAddedIsNotDone(h: seq<Record>, id: JobId)
    requires NeverReAdded(h) && LastEvent(h, id).Added?
    ensures !Replay.WasDone(h, id)
  {
    PendingNeverCompleted(h, id);
    if Replay.WasDone(h, id) {
      var i, j :| 0 <= i < j < |h| && Adds(h[i], id) && Replay.Finishes(h[j], id) && Replay.NotDroppedAfter(h, i, id);
      LastOfPending(h, id, j);
    }
  }

  lemma {:induction false} LastOfPending(h: seq<Record>, id: JobId, j: nat)
    requires j < |h| && Completes(h[j], id) && LastEvent(h, id).Added?
    ensures exists k :: j < k < |h| && Adds(h[k], id)
  {
    var n := |h| - 1;
    if !Adds(h[n], id) {
      LastOfPending(h[..n], id, j);
      var k :| j < k < n && Adds(h[..n][k], id);
      assert Adds(h[k], id);
    }
  }

  lemma NeverReAddedFrom(h: seq<Record>, cut: nat)
    requires Increasing(h) && NeverReAdded(h)
    ensures NeverReAdded(From(h, cut))
  {
    var f := From(h, cut);
    FromIncreases(h, cut);
    forall i, j, id | 0 <= i < j < |f| && Completes(f[i], id)
      ensures !Adds(f[j], id)
    {
      FromMember(h, cut, f[i]);
      FromMember(h, cut, f[j]);
      var a :| 0 <= a < |h| && h[a] == f[i];
      var b :| 0 <= b < |h| && h[b] == f[j];
      assert f[i].index < f[j].index;
      assert a < b;
    }
  }

  /** Any durable node, also the one that a crash left, restarts. The dead jobs are those that the index rebuilt from the
      files calls completed. The decided entries above the snapshot, which are in files, buffer and coming deliveries,
      go through the filter into an empty partition. They leave undone exactly the pending jobs of the whole history,
      except those done and added again in the part that the filter lets through; so exactly the pending jobs, if no
      completed job is ever added again. */
  lemma RestartedNodeWorksOnPendingJobs(n: Node, capacity: nat, clock: (nat, nat) -> int, size: JobId -> nat)
    requires Durable(n) && NamedLog(From(n.All(), n.Cut())) && TotalAdds(From(n.All(), n.Cut())) <= capacity
    ensures var h, dead := From(n.All(), n.Cut()), CompletedJobs(From(n.wal.Log(), n.Cut()));
            && HasRoom(EmptyPart(capacity), h) && CompletedIn(Recovered(n.wal.Log(), n.core.snapshot).index) == dead
            && var t := PartReplay(Replaying(EmptyPart(capacity), dead), h, clock, size);
               && t.dead == {}
               && UndoneStored(t.part) == (set id | id in PendingJobs(n.history) && !Replay.WasDone(Replay.Seen(h, dead, id), id))
               && (NeverReAdded(n.history) ==> UndoneStored(t.part) == PendingJobs(n.history))
  {
    hide *;
    var h, dead := From(n.All(), n.Cut()), CompletedJobs(From(n.wal.Log(), n.Cut()));
    HeldIsWhole(n);
    RecoveredCompleted(n);
    DeadAreCompleted(n);
    ReplayWorksOn(h, dead, capacity, clock, size);
  }

  lemma ReplayWorksOn(h: seq<Record>, dead: set<JobId>, capacity: nat, clock: (nat, nat) -> int, size: JobId -> nat)
    requires NamedLog(h) && TotalAdds(h) <= capacity && forall id | id in dead :: Replay.IsCompletedIn(h, id)
    ensures HasRoom(EmptyPart(capacity), h)
    ensures var t := PartReplay(Replaying(EmptyPart(capacity), dead), h, clock, size);
            && t.dead == {}
            && UndoneStored(t.part) == (set id | id in PendingJobs(h) && !Replay.WasDone(Replay.Seen(h, dead, id), id))
            && (NeverReAdded(h) ==> UndoneStored(t.part) == PendingJobs(h))
  {
    EmptyPartHasRoom(h, capacity);
    hide HasRoom, PartReplay, Stored, Replay.IsCompletedIn, Replay.WasDone, Replay.Seen, PendingJobs, NeverReAdded, Replay.FilteredReplay,
         Replay.Undone, EmptyPart;
    PartReplayRefines(Replaying(EmptyPart(capacity), dead), h, clock, size);
    Replay.FilteredUndone(h, dead);
    if NeverReAdded(h) {
      forall id | id in PendingJobs(h)
        ensures !Replay.WasDone(Replay.Seen(h, dead, id), id)
      {
        PendingIsAdded(h, id);
        NeverReAddedIsNotDone(h, id);
        PendingIsNotDead(h, dead, id);
      }
    }
  }

  lemma PendingIsNotDead(h: seq<Record>, dead: set<JobId>, id: JobId)
    requires NeverReAdded(h) && LastEvent(h, id).Added? && forall x | x in dead :: Replay.IsCompletedIn(h, x)
    ensures id !in dead && Replay.Seen(h, dead, id) == h
  {
    if Replay.IsCompletedIn(h, id) {
      var j :| 0 <= j < |h| && Completes(h[j], id);
      LastOfPending(h, id, j);
      assert false;
    }
  }

  lemma RecoveredCompleted(n: Node)
    requires Durable(n)
    ensures CompletedIn(Recovered(n.wal.Log(), n.core.snapshot).index) == CompletedJobs(From(n.wal.Log(), n.Cut()))
  {
    hide CompletedIn, CompletedJobs, Build, From, CutIsOk, Tracks;
    HeldInOrder(n);
    FromIncreases(n.wal.Log(), n.Cut());
    BuildersAgree(From(n.wal.Log(), n.Cut()), Recovery);
  }

  lemma DeadAreCompleted(n: Node)
    ensures forall id | id in CompletedJobs(From(n.wal.Log(), n.Cut())) :: Replay.IsCompletedIn(From(n.All(), n.Cut()), id)
  {
    hide From, CompletedJobs, Replay.IsCompletedIn;
    var kept, rest := From(n.wal.Log(), n.Cut()), n.buffer + n.awaiting;
    assert n.All() == n.wal.Log() + rest;
    FromConcat(n.wal.Log(), rest, n.Cut());
    forall id | id in CompletedJobs(kept)
      ensures Replay.IsCompletedIn(From(n.All(), n.Cut()), id)
    {
      CompletedEarly(kept, From(rest, n.Cut()), id);
    }
  }

  lemma CompletedEarly(kept: seq<Record>, rest: seq<Record>, id: JobId)
    requires id in CompletedJobs(kept)
    ensures Replay.IsCompletedIn(kept + rest, id)
  {
    hide LastEvent, LastAdd, Mentioned;
    Replay.CompletedSomewhere(kept, id);
    var i :| 0 <= i < |kept| && Completes(kept[i], id);
    assert (kept + rest)[i] == kept[i];
  }

  /** What files, buffer and coming deliveries hold above the cut. */
  lemma HeldIsWhole(n: Node)
    requires Durable(n)
    ensures var h := From(n.All(), n.Cut());
            && Increasing(h) && PendingJobs(h) == PendingJobs(n.history)
            && (NeverReAdded(n.history) ==> NeverReAdded(h))
  {
    hide Tracks, PendingJobs, From, NeverReAdded, CutIsOk;
    DurableKeepsPending(n);
    FromIncreases(n.All(), n.Cut());
    if NeverReAdded(n.history) {
      NeverReAddedFrom(n.history, n.Cut());
    }
  }
}
