/** Replaying the log into a partition, and the shortcut that skips the adds of jobs known to be dead. */
module Replay {
  import opened History

  /** The jobs a partition of unbounded capacity stores, each with its done mark. */
  type Jobs = map<JobId, bool>

  /** A stored id is never added twice; a done job stays stored until it is dropped. */
  function Apply(p: Jobs, cmd: Command): Jobs {
    match cmd
    case AddJobs(ids) => map id | id in p.Keys + IdSet(ids) :: id in p && p[id]
    case Done(ids) => map id | id in p :: p[id] || id in ids
    case Drop(ids) => p - IdSet(ids)
    case Other => p
  }

  function Replayed(p: Jobs, h: seq<Record>): Jobs {
    if h == [] then p else Apply(Replayed(p, h[..|h| - 1]), h[|h| - 1].cmd)
  }

  function Undone(p: Jobs): set<JobId> {
    set id | id in p && !p[id]
  }

  // ---------------------------------------------------------------- undone and pending jobs

  predicate Drops(r: Record, id: JobId) {
    r.cmd.Drop? && id in r.cmd.ids
  }

  predicate Finishes(r: Record, id: JobId) {
    r.cmd.Done? && id in r.cmd.ids
  }

  predicate NotDroppedAfter(h: seq<Record>, i: nat, id: JobId) {
    forall k | i < k < |h| :: !Drops(h[k], id)
  }

  /** `id` was added and not dropped since. */
  predicate WasAdded(h: seq<Record>, id: JobId) {
    exists i :: 0 <= i < |h| && Adds(h[i], id) && NotDroppedAfter(h, i, id)
  }

  /** `id` was added, later reported done, and not dropped since that add. */
  predicate WasDone(h: seq<Record>, id: JobId) {
    exists i, j :: 0 <= i < j < |h| && Adds(h[i], id) && Finishes(h[j], id) && NotDroppedAfter(h, i, id)
  }

  lemma NotDroppedNext(g: seq<Record>, r: Record, i: nat, id: JobId)
    requires i < |g|
    ensures NotDroppedAfter(g + [r], i, id) <==> NotDroppedAfter(g, i, id) && !Drops(r, id)
  {
    var h := g + [r];
    assert forall k | 0 <= k < |g| :: h[k] == g[k];
    assert h[|g|] == r;
    hide Drops;
  }

  lemma WasAddedNext(g: seq<Record>, r: Record, id: JobId)
    ensures WasAdded(g + [r], id) <==> Adds(r, id) || (WasAdded(g, id) && !Drops(r, id))
  {
    hide NotDroppedAfter;
    var h, n := g + [r], |g|;
    assert forall k | 0 <= k < n :: h[k] == g[k];
    assert h[n] == r;
    forall i | 0 <= i < n
      ensures NotDroppedAfter(h, i, id) <==> NotDroppedAfter(g, i, id) && !Drops(r, id)
    {
      NotDroppedNext(g, r, i, id);
    }
    LastIsNotDropped(h, id);
    if Adds(r, id) {
      assert Adds(h[n], id);
    } else if WasAdded(g, id) && !Drops(r, id) {
      var i :| 0 <= i < n && Adds(g[i], id) && NotDroppedAfter(g, i, id);
      assert Adds(h[i], id);
    }
  }

  lemma LastIsNotDropped(h: seq<Record>, id: JobId)
    ensures h != [] ==> NotDroppedAfter(h, |h| - 1, id)
  {
  }

  lemma WasDoneNext(g: seq<Record>, r: Record, id: JobId)
    ensures WasDone(g + [r], id) <==> !Drops(r, id) && (WasDone(g, id) || (Finishes(r, id) && WasAdded(g, id)))
  {
    hide NotDroppedAfter;
    var h, n := g + [r], |g|;
    assert forall k | 0 <= k < n :: h[k] == g[k];
    assert h[n] == r;
    forall i | 0 <= i < n
      ensures NotDroppedAfter(h, i, id) <==> NotDroppedAfter(g, i, id) && !Drops(r, id)
    {
      NotDroppedNext(g, r, i, id);
    }
    if !Drops(r, id) && WasDone(g, id) {
      var i, j :| 0 <= i < j < n && Adds(g[i], id) && Finishes(g[j], id) && NotDroppedAfter(g, i, id);
      assert Adds(h[i], id) && Finishes(h[j], id);
    } else if Finishes(r, id) && WasAdded(g, id) {
      var i :| 0 <= i < n && Adds(g[i], id) && NotDroppedAfter(g, i, id);
      assert Adds(h[i], id) && Finishes(h[n], id);
    }
  }

  /** What a replay from nothing stores: the jobs added and not dropped since, each marked done exactly if it was
      reported done since. */
  lemma {:induction false} ReplayedStates(h: seq<Record>, id: JobId)
    ensures id in Replayed(map[], h) <==> WasAdded(h, id)
    ensures id in Replayed(map[], h) ==> (Replayed(map[], h)[id] <==> WasDone(h, id))
  {
    if h != [] {
      var g, r := h[..|h| - 1], h[|h| - 1];
      ReplayedStates(g, id);
      assert h == g + [r];
      WasAddedNext(g, r, id);
      WasDoneNext(g, r, id);
      DoneIsAdded(g, id);
      hide WasAdded, WasDone;
    }
  }

  lemma DoneIsAdded(h: seq<Record>, id: JobId)
    ensures WasDone(h, id) ==> WasAdded(h, id)
  {
  }

  /** A job whose last event is an add is stored; one whose last event is a completion is dropped or marked done. */
  lemma {:induction false} LastEventStored(h: seq<Record>, id: JobId)
    ensures LastEvent(h, id).Added? ==> WasAdded(h, id)
    ensures LastEvent(h, id).Completed? && WasAdded(h, id) ==> WasDone(h, id)
    ensures LastEvent(h, id) == NoEvent ==> !WasAdded(h, id)
  {
    if h != [] {
      var g, r := h[..|h| - 1], h[|h| - 1];
      LastEventStored(g, id);
      assert h == g + [r];
      WasAddedNext(g, r, id);
      WasDoneNext(g, r, id);
      hide WasAdded, WasDone;
    }
  }

  /** Replaying a history leaves undone exactly its pending jobs, except those that were reported done before they
      were added again and have not been dropped in between. */
  lemma UndoneIsPending(h: seq<Record>)
    ensures Undone(Replayed(map[], h)) == set id | id in PendingJobs(h) && !WasDone(h, id)
    ensures Undone(Replayed(map[], h)) == PendingJobs(h) <==> forall id | id in PendingJobs(h) :: !WasDone(h, id)
  {
    hide WasAdded, WasDone, LastEvent, Replayed;
    forall id
      ensures id in Undone(Replayed(map[], h)) <==> id in PendingJobs(h) && !WasDone(h, id)
    {
      ReplayedStates(h, id);
      LastEventStored(h, id);
      EventOnlyIfMentioned(h, id);
    }
    assert Undone(Replayed(map[], h)) == set id | id in PendingJobs(h) && !WasDone(h, id);
  }

  /** Added, done and added again: the job is pending, a full replay does not hold it as undone, and a replay from the
      last add on does. So a compaction can change what a restarted partition works on. */
  lemma ReAddedJobDependsOnCut(a: Record, d: Record, b: Record)
    requires a.cmd == b.cmd == AddJobs(["a"]) && d.cmd == Done(["a"])
    ensures "a" in PendingJobs([a, d, b])
    ensures "a" !in Undone(Replayed(map[], [a, d, b])) && "a" in Undone(Replayed(map[], [b]))
  {
    var h := [a, d, b];
    assert LastEvent(h, "a") == Added(b.index) && LastEvent([b], "a") == Added(b.index);
    EventOnlyIfMentioned(h, "a");
    EventOnlyIfMentioned([b], "a");
    hide LastEvent, Replayed;
    assert Adds(h[0], "a") && Finishes(h[1], "a") && NotDroppedAfter(h, 0, "a");
    UndoneIsPending(h);
    UndoneIsPending([b]);
  }

  // ---------------------------------------------------------------- the filter

  /** A job of an add command with the mark that makes the partition skip it. */
  datatype MarkedJob = MarkedJob(id: JobId, done: bool)

  datatype Forwarded = Nothing | Add(jobs: seq<MarkedJob>) | Pass(cmd: Command)

  function Mark(ids: seq<JobId>, dead: set<JobId>): seq<MarkedJob> {
    seq(|ids|, i requires 0 <= i < |ids| => MarkedJob(ids[i], ids[i] in dead))
  }

  function Forward(dead: set<JobId>, cmd: Command): Forwarded {
    match cmd
    case AddJobs(ids) => if forall i | 0 <= i < |ids| :: ids[i] in dead then Nothing else Add(Mark(ids, dead))
    case Other => Nothing
    case _ => Pass(cmd)
  }

  function DeadAfter(dead: set<JobId>, cmd: Command): set<JobId> {
    if cmd.Done? || cmd.Drop? then dead - IdSet(cmd.ids) else dead
  }

  /** What the partition does with a forwarded command: marked jobs are skipped. */
  function Receive(p: Jobs, f: Forwarded): Jobs {
    match f
    case Nothing => p
    case Add(jobs) => map id | id in p.Keys + (set j | j in jobs && !j.done :: j.id) :: id in p && p[id]
    case Pass(cmd) => Apply(p, cmd)
  }

  class ClusterAgent {
    var deadJobs: set<JobId>
    var lastAppliedIndex: nat

    /** Applies one committed entry: counts the live jobs of an add, marks the dead ones, forgets dead
        jobs that are completed, and decides what the partition gets to see. */
    method HandleNormalCommand(r: Record) returns (f: Forwarded)
      modifies this
      ensures f == Forward(old(deadJobs), r.cmd) && deadJobs == DeadAfter(old(deadJobs), r.cmd)
      ensures r.cmd.AddJobs? ==> (f.Nothing? <==> forall i | 0 <= i < |r.cmd.ids| :: r.cmd.ids[i] in old(deadJobs)) && !f.Pass?
      ensures f.Add? ==>
                && r.cmd.AddJobs? && |f.jobs| == |r.cmd.ids|
                && forall i | 0 <= i < |f.jobs| :: f.jobs[i].id == r.cmd.ids[i] && (f.jobs[i].done <==> r.cmd.ids[i] in old(deadJobs))
      ensures r.cmd.Done? || r.cmd.Drop? ==> f == Pass(r.cmd) && forall id :: id in deadJobs <==> id in old(deadJobs) && id !in r.cmd.ids
      ensures r.cmd.AddJobs? || r.cmd.Other? ==> deadJobs == old(deadJobs)
      ensures lastAppliedIndex == r.index
    {
      lastAppliedIndex := r.index;
      match r.cmd
      case AddJobs(ids) =>
        var alive, jobs := |ids|, [];
        for i := 0 to |ids|
          invariant jobs == Mark(ids, deadJobs)[..i] && 0 <= alive - (|ids| - i)
          invariant alive == |ids| - i <==> forall k | 0 <= k < i :: ids[k] in deadJobs
          invariant unchanged(`deadJobs) && lastAppliedIndex == r.index
        {
          jobs := jobs + [MarkedJob(ids[i], ids[i] in deadJobs)];
          if ids[i] in deadJobs {
            alive := alive - 1;
          }
        }
        f := if alive == 0 then Nothing else Add(jobs);
      case Done(ids) =>
        Forget(ids);
        f := Pass(r.cmd);
      case Drop(ids) =>
        Forget(ids);
        f := Pass(r.cmd);
      case Other =>
        f := Nothing;
    }

    method Forget(ids: seq<JobId>)
      modifies this`deadJobs
      ensures deadJobs == old(deadJobs) - IdSet(ids)
    {
      for i := 0 to |ids|
        invariant deadJobs == old(deadJobs) - IdSet(ids[..i])
      {
        assert ids[..i + 1] == ids[..i] + [ids[i]];
        deadJobs := deadJobs - {ids[i]};
      }
      assert ids[..|ids|] == ids;
    }
  }

  // ---------------------------------------------------------------- filtered replay

  datatype Filtered = Filtered(jobs: Jobs, dead: set<JobId>)

  function FilterStep(s: Filtered, cmd: Command): Filtered {
    Filtered(Receive(s.jobs, Forward(s.dead, cmd)), DeadAfter(s.dead, cmd))
  }

  function FilteredReplay(s: Filtered, h: seq<Record>): Filtered {
    if h == [] then s else FilterStep(FilteredReplay(s, h[..|h| - 1]), h[|h| - 1].cmd)
  }

  /** An add reaches the partition exactly for the jobs that are not dead. */
  lemma AddsReachTheLiving(p: Jobs, dead: set<JobId>, ids: seq<JobId>, id: JobId)
    ensures var q := Receive(p, Forward(dead, AddJobs(ids)));
            (id in q <==> id in p || (id in ids && id !in dead)) && (id in p ==> q[id] == p[id]) && (id in q && id !in p ==> !q[id])
  {
    var jobs := Mark(ids, dead);
    if id in ids && id !in dead {
      var i :| 0 <= i < |ids| && ids[i] == id;
      assert jobs[i] == MarkedJob(id, false) && jobs[i] in jobs;
    }
    forall j | j in jobs && !j.done
      ensures j.id in ids && j.id !in dead
    {
      var i :| 0 <= i < |jobs| && jobs[i] == j;
    }
  }

  /** A job is dead until the first record that completes it. */
  lemma {:induction false} DeadUntilCompleted(s: Filtered, h: seq<Record>, id: JobId)
    ensures id in FilteredReplay(s, h).dead <==> id in s.dead && forall i | 0 <= i < |h| :: !Completes(h[i], id)
  {
    if h != [] {
      DeadUntilCompleted(s, h[..|h| - 1], id);
    }
  }

  /** The filter does not touch jobs that are not dead. */
  lemma {:induction false} LivingAreUntouched(p: Jobs, dead: set<JobId>, h: seq<Record>, id: JobId)
    requires id !in dead
    ensures var f := FilteredReplay(Filtered(p, dead), h);
            id !in f.dead && (id in f.jobs <==> id in Replayed(p, h)) && (id in f.jobs ==> f.jobs[id] == Replayed(p, h)[id])
  {
    if h != [] {
      var g, cmd := h[..|h| - 1], h[|h| - 1].cmd;
      LivingAreUntouched(p, dead, g, id);
      var f := FilteredReplay(Filtered(p, dead), g);
      if cmd.AddJobs? {
        AddsReachTheLiving(f.jobs, f.dead, cmd.ids, id);
      }
    }
  }

  /** A job whose last event is a completion is not undone, whether its adds were filtered or not. */
  lemma {:induction false} CompletedIsNotUndone(p: Jobs, dead: set<JobId>, h: seq<Record>, id: JobId)
    requires LastEvent(h, id).Completed?
    ensures id !in Undone(Replayed(p, h))
    ensures id !in Undone(FilteredReplay(Filtered(p, dead), h).jobs)
  {
    var g, r := h[..|h| - 1], h[|h| - 1];
    if EventOf(r, id) == NoEvent {
      CompletedIsNotUndone(p, dead, g, id);
      if r.cmd.AddJobs? {
        var f := FilteredReplay(Filtered(p, dead), g);
        AddsReachTheLiving(f.jobs, f.dead, r.cmd.ids, id);
      }
    }
  }

  lemma {:induction false} CompletedSomewhere(h: seq<Record>, id: JobId)
    requires LastEvent(h, id).Completed?
    ensures exists i :: 0 <= i < |h| && Completes(h[i], id)
  {
    if EventOf(h[|h| - 1], id) == NoEvent {
      CompletedSomewhere(h[..|h| - 1], id);
      var i :| 0 <= i < |h| - 1 && Completes(h[..|h| - 1][i], id);
      assert Completes(h[i], id);
    } else {
      assert Completes(h[|h| - 1], id);
    }
  }

  /** Replaying a log with the adds of its completed jobs filtered out leaves the same undone jobs as
      replaying it in full, and no job is still marked dead afterwards. */
  lemma FilterPreservesUndone(h: seq<Record>)
    ensures var f := FilteredReplay(Filtered(map[], CompletedJobs(h)), h);
            Undone(f.jobs) == Undone(Replayed(map[], h)) && f.dead == {}
  {
    var dead := CompletedJobs(h);
    var f := FilteredReplay(Filtered(map[], dead), h);
    forall id
      ensures id in Undone(f.jobs) <==> id in Undone(Replayed(map[], h))
      ensures id !in f.dead
    {
      if id in dead {
        CompletedIsNotUndone(map[], dead, h, id);
        DeadUntilCompleted(Filtered(map[], dead), h, id);
        CompletedSomewhere(h, id);
      } else {
        LivingAreUntouched(map[], dead, h, id);
      }
    }
  }

  // ---------------------------------------------------------------- any jobs taken for dead

  predicate IsCompletedIn(h: seq<Record>, id: JobId) {
    exists i :: 0 <= i < |h| && Completes(h[i], id)
  }

  /** The records after the first one that completes `id`. */
  function AfterCompletion(h: seq<Record>, id: JobId): seq<Record> {
    if h == [] then []
    else
      var g := h[..|h| - 1];
      if IsCompletedIn(g, id) then AfterCompletion(g, id) + [h[|h| - 1]] else []
  }

  lemma CompletedNext(g: seq<Record>, r: Record, id: JobId)
    ensures IsCompletedIn(g + [r], id) <==> IsCompletedIn(g, id) || Completes(r, id)
  {
    var h := g + [r];
    assert h[|g|] == r && forall i | 0 <= i < |g| :: h[i] == g[i];
  }

  /** The filter hides a dead job until its first completion; from there on it is replayed as if it were new. */
  lemma {:induction false} DeadStartsAfresh(dead: set<JobId>, h: seq<Record>, id: JobId)
    requires id in dead
    ensures var f := FilteredReplay(Filtered(map[], dead), h);
            if IsCompletedIn(h, id) then
              var p := Replayed(map[], AfterCompletion(h, id));
              id !in f.dead && (id in f.jobs <==> id in p) && (id in p ==> f.jobs[id] == p[id])
            else id in f.dead && id !in f.jobs
  {
    if h != [] {
      var g, r := h[..|h| - 1], h[|h| - 1];
      assert h == g + [r];
      DeadStartsAfresh(dead, g, id);
      CompletedNext(g, r, id);
      var f := FilteredReplay(Filtered(map[], dead), g);
      if r.cmd.AddJobs? {
        AddsReachTheLiving(f.jobs, f.dead, r.cmd.ids, id);
      }
      hide IsCompletedIn;
      if IsCompletedIn(g, id) {
        var a := AfterCompletion(g, id);
        assert AfterCompletion(h, id) == a + [r] && (a + [r])[..|a|] == a;
      }
    }
  }

  lemma {:induction false} LastEventAfter(h: seq<Record>, id: JobId)
    requires IsCompletedIn(h, id)
    ensures LastEvent(h, id).Added? <==> LastEvent(AfterCompletion(h, id), id).Added?
    ensures LastEvent(AfterCompletion(h, id), id) == NoEvent ==> LastEvent(h, id).Completed?
  {
    var g, r := h[..|h| - 1], h[|h| - 1];
    assert h == g + [r];
    CompletedNext(g, r, id);
    hide IsCompletedIn;
    if IsCompletedIn(g, id) {
      LastEventAfter(g, id);
      var a := AfterCompletion(g, id);
      assert AfterCompletion(h, id) == a + [r] && (a + [r])[..|a|] == a;
    }
  }

  /** The part of a history that a replay with these dead jobs sees of `id`. */
  function Seen(h: seq<Record>, dead: set<JobId>, id: JobId): seq<Record> {
    if id in dead then AfterCompletion(h, id) else h
  }

  lemma UndoneOne(h: seq<Record>, dead: set<JobId>, id: JobId)
    requires id in dead ==> IsCompletedIn(h, id)
    ensures var f := FilteredReplay(Filtered(map[], dead), h);
            && id !in f.dead
            && (id in Undone(f.jobs) <==> id in PendingJobs(h) && !WasDone(Seen(h, dead, id), id))
  {
    hide WasAdded, WasDone, LastEvent, Replayed, FilteredReplay, IsCompletedIn, AfterCompletion;
    var s := Seen(h, dead, id);
    if id in dead {
      DeadStartsAfresh(dead, h, id);
      LastEventAfter(h, id);
    } else {
      LivingAreUntouched(map[], dead, h, id);
    }
    ReplayedStates(s, id);
    LastEventStored(s, id);
    EventOnlyIfMentioned(h, id);
  }

  /** Replaying a history with any of its completed jobs taken for dead leaves undone exactly its pending jobs, except
      those that were reported done before they were added again, and not dropped in between, in the part that the
      filter lets through. No job is dead afterwards. */
  lemma FilteredUndone(h: seq<Record>, dead: set<JobId>)
    requires forall id | id in dead :: IsCompletedIn(h, id)
    ensures var f := FilteredReplay(Filtered(map[], dead), h);
            f.dead == {} && Undone(f.jobs) == set id | id in PendingJobs(h) && !WasDone(Seen(h, dead, id), id)
  {
    hide WasDone, Seen, PendingJobs, FilteredReplay, IsCompletedIn, Undone;
    forall id
      ensures var f := FilteredReplay(Filtered(map[], dead), h);
              && id !in f.dead
              && (id in Undone(f.jobs) <==> id in PendingJobs(h) && !WasDone(Seen(h, dead, id), id))
    {
      UndoneOne(h, dead, id);
    }
  }

  // ---------------------------------------------------------------- after the replay

  lemma SameKeysSameJobs(p: Jobs, q: Jobs)
    requires Undone(p) == Undone(q)
    ensures p.Keys == q.Keys ==> p == q
    ensures p.Keys != q.Keys ==> exists id :: (id in p) != (id in q)
  {
    if p.Keys == q.Keys {
      forall id | id in p
        ensures p[id] == q[id]
      {
        assert id in Undone(p) <==> !p[id];
        assert id in Undone(q) <==> !q[id];
      }
    } else {
      assert exists id :: (id in p.Keys) != (id in q.Keys);
    }
  }

  /** Two partitions hold the same undone jobs after every further history exactly when they store the
      same jobs with the same marks. */
  lemma SameFutureIff(p: Jobs, q: Jobs)
    requires Undone(p) == Undone(q)
    ensures p == q <==> forall k :: Undone(Replayed(p, k)) == Undone(Replayed(q, k))
  {
    SameKeysSameJobs(p, q);
    if p.Keys != q.Keys {
      var id :| (id in p) != (id in q);
      var k := [Record(0, AddJobs([id]), 0)];
      AddSeparates(p, q, id);
      assert Undone(Replayed(p, k)) != Undone(Replayed(q, k));
    }
  }

  lemma AddSeparates(p: Jobs, q: Jobs, id: JobId)
    requires Undone(p) == Undone(q) && (id in p) != (id in q)
    ensures var k := [Record(0, AddJobs([id]), 0)]; Undone(Replayed(p, k)) != Undone(Replayed(q, k))
  {
    assert id !in Undone(p);
    var k := [Record(0, AddJobs([id]), 0)];
    assert k[..0] == [];
    assert Replayed(p, k) == Apply(p, AddJobs([id])) && Replayed(q, k) == Apply(q, AddJobs([id]));
    assert (id in Undone(Replayed(p, k))) != (id in Undone(Replayed(q, k)));
  }

  /** The filtered replay of a job that was added and finished stores nothing, the full replay keeps it
      as done; so adding that id again afterwards is ignored after a full replay only. */
  lemma FinishedJobMayReturnAfterRestart()
    ensures var h := [Record(1, AddJobs(["a"]), 0), Record(2, Done(["a"]), 0)];
            var f := FilteredReplay(Filtered(map[], CompletedJobs(h)), h);
            f.jobs == map[] && Replayed(map[], h) == map["a" := true]
  {
    var r1, r2 := Record(1, AddJobs(["a"]), 0), Record(2, Done(["a"]), 0);
    var h := [r1, r2];
    assert h[..1] == [r1] && [r1][..0] == [];
    assert "a" in Named(r2) && LastEvent(h, "a") == Event.Completed(2);
    assert LastAdd(h, "a") == LastAdd([r1], "a") == 1;
    assert "a" in CompletedJobs(h);
    assert Replayed(map[], [r1]) == map["a" := false];
    var s := Filtered(map[], CompletedJobs(h));
    assert FilteredReplay(s, [r1]) == FilterStep(s, r1.cmd);
  }
}
