/** Replaying a log into a partition: slab and queue do to the stored jobs what replay on plain maps says, so the
    filter for dead jobs preserves the undone jobs of the partition itself. */
module Restart {
  import opened History
  import opened Slab
  import opened Scheduler
  import opened PartitionRuns
  import Replay

  // ---------------------------------------------------------------- single commands

  /** The stored jobs with their done marks, as replay sees them. */
  ghost function Stored(s: Store): Replay.Jobs
    requires StoreOk(s)
  {
    map id | id in s.byId :: s.jobs[s.byId[id]].done
  }

  /** Adding a job does to the stored jobs what replay says, unless the queue is full: then it changes nothing. */
  lemma AddRefinesReplay(p: Part, job: Job, now: int)
    requires PartOk(p) && job.id != ""
    ensures StoreOk(AddOne(p, job, now).store)
    ensures Stored(AddOne(p, job, now).store) ==
            if job.done || IsRejected(p, job) then Stored(p.store) else Replay.Apply(Stored(p.store), AddJobs([job.id]))
  {
    StoreHasFreeList(p.store);
    hide StoreOk, Created, Released, SlotFor, Stored;
    AddKeepsPart(p, job, now);
    StoredAt(p.store, job.id);
    if !job.done && job.id !in p.store.byId {
      CreatedStored(p.store, job);
      AddIsUpdate(Stored(p.store), job.id);
      if |p.live| >= p.capacity {
        GivenBack(p.store, job);
      }
    } else if !job.done {
      AddIsNothing(Stored(p.store), job.id);
    }
  }

  /** Storing a job and releasing its slot again leaves the stored jobs as they were. */
  lemma GivenBack(s: Store, job: Job)
    requires StoreOk(s) && job.id != "" && job.id !in s.byId && StoreOk(Created(s, job))
    ensures ForceReleased(Created(s, job), job.id) == Released(Created(s, job), SlotFor(s))
    ensures StoreOk(Released(Created(s, job), SlotFor(s))) && Stored(Released(Created(s, job), SlotFor(s))) == Stored(s)
  {
    StoreHasFreeList(s);
    hide StoreOk, Stored, Created, Released, SlotFor;
    CreatedIndex(s, job);
    CreatedStored(s, job);
    ReleaseStored(Created(s, job), job.id);
    StoredAt(s, job.id);
    assert Stored(s)[job.id := job.done] - {job.id} == Stored(s);
  }

  lemma AddIsUpdate(m: Replay.Jobs, id: JobId)
    requires id !in m
    ensures Replay.Apply(m, AddJobs([id])) == m[id := false]
  {
    assert IdSet([id]) == {id};
  }

  lemma AddIsNothing(m: Replay.Jobs, id: JobId)
    requires id in m
    ensures Replay.Apply(m, AddJobs([id])) == m
  {
    assert IdSet([id]) == {id};
  }

  lemma SlotsOfIds(s: Store)
    requires StoreOk(s)
    ensures forall id | id in s.byId :: s.byId[id] < |s.jobs| && s.jobs[s.byId[id]].id == id != ""
    ensures forall id, other | id in s.byId && other in s.byId && id != other :: s.byId[id] != s.byId[other]
  {
  }

  lemma StoredAt(s: Store, id: JobId)
    requires StoreOk(s)
    ensures id in Stored(s) <==> id in s.byId
    ensures id in s.byId ==> s.byId[id] < |s.jobs| && Live(s, s.byId[id]) && Stored(s)[id] == s.jobs[s.byId[id]].done
  {
  }

  lemma CreatedStored(s: Store, job: Job)
    requires StoreOk(s) && job.id != "" && job.id !in s.byId
    ensures StoreOk(Created(s, job)) && Stored(Created(s, job)) == Stored(s)[job.id := job.done]
  {
    var slot, t := SlotFor(s), Created(s, job);
    CreateKeepsStore(s, job);
    hide Created, SlotFor, StoreOk, Stored;
    CreateFrame(s, job);
    CreatedIndex(s, job);
    forall id: JobId
      ensures id in Stored(t) <==> id in Stored(s)[job.id := job.done]
      ensures id in Stored(t) ==> Stored(t)[id] == Stored(s)[job.id := job.done][id]
    {
      StoredAt(s, id);
      StoredAt(t, id);
    }
  }

  lemma MarkStored(s: Store, id: JobId)
    requires StoreOk(s)
    ensures StoreOk(MarkedDone(s, id))
    ensures Stored(MarkedDone(s, id)) == map other | other in Stored(s) :: Stored(s)[other] || other == id
  {
    hide StoreOk;
    MarkKeepsStore(s, id);
    SlotsOfIds(s);
  }

  lemma {:induction false} DoneRefinesReplay(s: Store, ids: seq<JobId>)
    requires StoreOk(s)
    ensures StoreOk(DoneAll(s, ids)) && Stored(DoneAll(s, ids)) == Replay.Apply(Stored(s), Done(ids))
  {
    hide StoreOk, Stored;
    if ids != [] {
      var f, id := ids[..|ids| - 1], ids[|ids| - 1];
      DoneRefinesReplay(s, f);
      MarkStored(DoneAll(s, f), id);
      assert ids == f + [id];
    }
  }

  lemma {:induction false} DropRefinesReplay(s: Store, ids: seq<JobId>)
    requires StoreOk(s)
    ensures StoreOk(DropAll(s, ids)) && Stored(DropAll(s, ids)) == Replay.Apply(Stored(s), Drop(ids))
  {
    hide StoreOk, Stored;
    if ids != [] {
      var f, id := ids[..|ids| - 1], ids[|ids| - 1];
      DropRefinesReplay(s, f);
      ReleaseStored(DropAll(s, f), id);
      assert ids == f + [id];
      assert IdSet(ids) == IdSet(f) + {id};
    }
  }

  lemma ReleaseStored(s: Store, id: JobId)
    requires StoreOk(s)
    ensures StoreOk(ForceReleased(s, id)) && Stored(ForceReleased(s, id)) == Stored(s) - {id}
  {
    ForceReleaseKeepsStore(s, id);
    if id in s.byId {
      forall other | other in s.byId && other != id
        ensures s.byId[other] != s.byId[id]
      {}
    }
  }

  // ---------------------------------------------------------------- a forwarded command

  function JobsOf(marked: seq<Replay.MarkedJob>, size: JobId -> nat): seq<Job> {
    seq(|marked|, i requires 0 <= i < |marked| => Job(marked[i].id, marked[i].done, size(marked[i].id)))
  }

  /** What the partition does with a forwarded command; `clock(i)` is read for the `i`-th job of an add. */
  ghost function PartReceives(p: Part, f: Replay.Forwarded, clock: nat -> int, size: JobId -> nat): Part
    requires FreeListOk(p.store)
  {
    match f
    case Nothing => p
    case Add(jobs) => AddAll(p, JobsOf(jobs, size), clock)
    case Pass(Done(ids)) => p.(store := DoneAll(p.store, ids))
    case Pass(Drop(ids)) => p.(store := DropAll(p.store, ids))
    case Pass(_) => p
  }

  function Unmarked(jobs: seq<Job>): set<JobId> {
    set j | j in jobs && !j.done :: j.id
  }

  /** A whole add command: exactly the unmarked ids that were not stored and not turned away are new, and none of them
      is done. */
  lemma {:induction false} AddAllRefinesReplay(p: Part, jobs: seq<Job>, clock: nat -> int)
    requires PartOk(p) && NamedJobs(jobs) && FreeListOk(p.store)
    ensures var q := AddAll(p, jobs, clock);
            && PartOk(q) && |q.live| <= |p.live| + |jobs| && q.capacity == p.capacity
            && (Rejected(p, jobs, clock) != [] ==> |q.live| >= q.capacity)
            && Stored(q.store) == AddedTo(Stored(p.store), Unmarked(jobs) - IdSet(Rejected(p, jobs, clock)))
  {
    hide StoreOk, Stored, AddOne, FreeListOk, Unmarked;
    if jobs == [] {
      UnmarkedNone();
    } else {
      var n := |jobs| - 1;
      var f, job := jobs[..n], jobs[n];
      AddAllRefinesReplay(p, f, clock);
      var q := AddAll(p, f, clock);
      AddRefinesReplay(q, job, clock(n));
      AddKeepsPart(q, job, clock(n));
      AddGrows(q, job, clock(n));
      UnmarkedNext(f, job);
      assert jobs == f + [job];
      StoredAt(q.store, job.id);
      hide PartOk;
      NextStored(Stored(p.store), Unmarked(f), Rejected(p, f, clock), job.id);
    }
  }

  /** One more job, in terms of stored jobs: turned away, already there, or new with none turned away before. */
  lemma NextStored(m: Replay.Jobs, ids: set<JobId>, failed: seq<JobId>, id: JobId)
    ensures var stored := AddedTo(m, ids - IdSet(failed));
            && (id in stored || failed == [] ==> Replay.Apply(stored, AddJobs([id])) == AddedTo(m, ids + {id} - IdSet(failed)))
            && (id !in stored ==> stored == AddedTo(m, ids + {id} - IdSet(failed + [id])))
  {
    assert IdSet(failed + [id]) == IdSet(failed) + {id};
    hide AddedTo;
    AddOneMore(m, ids, IdSet(failed), id);
  }

  lemma UnmarkedNone()
    ensures Unmarked([]) == {}
  {
  }

  /** The stored jobs `m` with new jobs that are not done. */
  function AddedTo(m: Replay.Jobs, ids: set<JobId>): Replay.Jobs {
    map id | id in m.Keys + ids :: id in m && m[id]
  }

  /** With room for all of them, no job is turned away. */
  lemma {:induction false} NoneRejected(p: Part, jobs: seq<Job>, clock: nat -> int)
    requires FreeListOk(p.store) && |p.live| + |jobs| <= p.capacity
    ensures Rejected(p, jobs, clock) == []
    ensures |AddAll(p, jobs, clock).live| <= |p.live| + |jobs| && AddAll(p, jobs, clock).capacity == p.capacity
  {
    hide AddOne, FreeListOk;
    if jobs != [] {
      var n := |jobs| - 1;
      NoneRejected(p, jobs[..n], clock);
      AddGrows(AddAll(p, jobs[..n], clock), jobs[n], clock(n));
    }
  }

  lemma AddOneMore(m: Replay.Jobs, ids: set<JobId>, failed: set<JobId>, id: JobId)
    ensures id !in failed ==> Replay.Apply(AddedTo(m, ids - failed), AddJobs([id])) == AddedTo(m, ids + {id} - failed)
    ensures id in AddedTo(m, ids - failed) ==> Replay.Apply(AddedTo(m, ids - failed), AddJobs([id])) == AddedTo(m, ids + {id} - failed)
    ensures id !in AddedTo(m, ids - failed) ==> AddedTo(m, ids - failed) == AddedTo(m, ids + {id} - (failed + {id}))
  {
    assert IdSet([id]) == {id};
  }

  lemma UnmarkedNext(f: seq<Job>, job: Job)
    ensures Unmarked(f + [job]) == Unmarked(f) + if job.done then {} else {job.id}
  {
    forall j | j in f
      ensures j in f + [job]
    {
      var k :| 0 <= k < |f| && f[k] == j;
      assert (f + [job])[k] == j;
    }
    assert (f + [job])[|f|] == job;
  }

  lemma AddGrows(p: Part, job: Job, now: int)
    requires FreeListOk(p.store)
    ensures |p.live| <= |AddOne(p, job, now).live| <= |p.live| + 1 && AddOne(p, job, now).capacity == p.capacity
  {
  }

  predicate Named(cmd: Command) {
    cmd.AddJobs? ==> forall i | 0 <= i < |cmd.ids| :: cmd.ids[i] != ""
  }

  function AddCount(cmd: Command): nat {
    if cmd.AddJobs? then |cmd.ids| else 0
  }

  /** Every forwarded command does to the stored jobs what replay says. */
  lemma ReceiveRefinesReplay(p: Part, dead: set<JobId>, cmd: Command, clock: nat -> int, size: JobId -> nat)
    requires PartOk(p) && Named(cmd) && |p.live| + AddCount(cmd) <= p.capacity && FreeListOk(p.store)
    ensures var q := PartReceives(p, Replay.Forward(dead, cmd), clock, size);
            && PartOk(q) && |q.live| <= |p.live| + AddCount(cmd) && q.capacity == p.capacity
            && Stored(q.store) == Replay.Receive(Stored(p.store), Replay.Forward(dead, cmd))
  {
    hide StoreOk, Stored, FreeListOk, DoneAll, DropAll;
    var f := Replay.Forward(dead, cmd);
    match f
    case Nothing =>
    case Add(jobs) =>
      AddAllRefinesReplay(p, JobsOf(jobs, size), clock);
      NoneRejected(p, JobsOf(jobs, size), clock);
      UnmarkedOf(jobs, size);
    case Pass(Done(ids)) => DoneRefinesReplay(p.store, ids);
    case Pass(Drop(ids)) => DropRefinesReplay(p.store, ids);
    case Pass(_) =>
  }

  lemma UnmarkedOf(jobs: seq<Replay.MarkedJob>, size: JobId -> nat)
    ensures Unmarked(JobsOf(jobs, size)) == set j | j in jobs && !j.done :: j.id
  {
    var js := JobsOf(jobs, size);
    forall j | j in jobs && !j.done
      ensures j.id in Unmarked(js)
    {
      var k :| 0 <= k < |jobs| && jobs[k] == j;
      assert js[k] in js;
    }
    forall j | j in js && !j.done
      ensures j.id in set j | j in jobs && !j.done :: j.id
    {
      var k :| 0 <= k < |js| && js[k] == j;
      assert jobs[k] in jobs;
    }
  }

  // ---------------------------------------------------------------- a whole log

  datatype Replaying = Replaying(part: Part, dead: set<JobId>)

  predicate NamedLog(h: seq<Record>) {
    forall i | 0 <= i < |h| :: Named(h[i].cmd)
  }

  function TotalAdds(h: seq<Record>): nat {
    if h == [] then 0 else TotalAdds(h[..|h| - 1]) + AddCount(h[|h| - 1].cmd)
  }

  /** The log can be replayed without meeting a full queue or an empty id. */
  ghost predicate HasRoom(p: Part, h: seq<Record>) {
    PartOk(p) && NamedLog(h) && |p.live| + TotalAdds(h) <= p.capacity
  }

  /** The log replayed through the filter into a partition; record `n` reads the clock `clock(n, i)`. */
  ghost function PartReplay(s: Replaying, h: seq<Record>, clock: (nat, nat) -> int, size: JobId -> nat): (t: Replaying)
    requires HasRoom(s.part, h)
    ensures PartOk(t.part) && |t.part.live| <= |s.part.live| + TotalAdds(h) && t.part.capacity == s.part.capacity
  {
    if h == [] then s
    else
      var n := |h| - 1;
      var u := PartReplay(s, h[..n], clock, size);
      StoreHasFreeList(u.part.store);
      ReceiveRefinesReplay(u.part, u.dead, h[n].cmd, (i: nat) => clock(n, i), size);
      Replaying(PartReceives(u.part, Replay.Forward(u.dead, h[n].cmd), (i: nat) => clock(n, i), size),
                Replay.DeadAfter(u.dead, h[n].cmd))
  }

  /** Over every log, the partition's stored jobs and marks are those of the replay on plain maps. */
  lemma {:induction false} PartReplayRefines(s: Replaying, h: seq<Record>, clock: (nat, nat) -> int, size: JobId -> nat)
    requires HasRoom(s.part, h)
    ensures var t := PartReplay(s, h, clock, size);
            Replay.Filtered(Stored(t.part.store), t.dead) == Replay.FilteredReplay(Replay.Filtered(Stored(s.part.store), s.dead), h)
  {
    hide StoreOk, Stored, FreeListOk, PartReceives;
    if h != [] {
      var n := |h| - 1;
      PartReplayRefines(s, h[..n], clock, size);
      var u := PartReplay(s, h[..n], clock, size);
      StoreHasFreeList(u.part.store);
      ReceiveRefinesReplay(u.part, u.dead, h[n].cmd, (i: nat) => clock(n, i), size);
    }
  }

  ghost function UndoneStored(p: Part): set<JobId>
    requires PartOk(p)
  {
    Replay.Undone(Stored(p.store))
  }

  function EmptyPart(capacity: nat): Part {
    Part(Store([], [], map[]), [], capacity, [])
  }

  lemma EmptyPartHasRoom(h: seq<Record>, capacity: nat)
    requires NamedLog(h) && TotalAdds(h) <= capacity
    ensures HasRoom(EmptyPart(capacity), h) && Stored(EmptyPart(capacity).store) == map[]
  {
  }

  /** A restart that skips the adds of completed jobs leaves the partition with the same undone jobs as a restart
      that replays everything, and with no job marked dead. */
  lemma FilteredRestartKeepsUndone(h: seq<Record>, capacity: nat, clock: (nat, nat) -> int, size: JobId -> nat)
    requires NamedLog(h) && TotalAdds(h) <= capacity
    ensures HasRoom(EmptyPart(capacity), h)
    ensures var t := PartReplay(Replaying(EmptyPart(capacity), CompletedJobs(h)), h, clock, size);
            var full := PartReplay(Replaying(EmptyPart(capacity), {}), h, clock, size);
            UndoneStored(t.part) == UndoneStored(full.part) == Replay.Undone(Replay.Replayed(map[], h)) && t.dead == {}
  {
    EmptyPartHasRoom(h, capacity);
    hide HasRoom, PartReplay, Stored, StoreOk;
    PartReplayRefines(Replaying(EmptyPart(capacity), CompletedJobs(h)), h, clock, size);
    PartReplayRefines(Replaying(EmptyPart(capacity), {}), h, clock, size);
    Replay.FilterPreservesUndone(h);
    UnfilteredIsPlain(h);
  }

  lemma UnfilteredIsPlain(h: seq<Record>)
    ensures Replay.FilteredReplay(Replay.Filtered(map[], {}), h).jobs == Replay.Replayed(map[], h)
  {
    var f, r := Replay.FilteredReplay(Replay.Filtered(map[], {}), h).jobs, Replay.Replayed(map[], h);
    forall id: JobId
      ensures id in f <==> id in r
      ensures id in f ==> f[id] == r[id]
    {
      Replay.LivingAreUntouched(map[], {}, h, id);
    }
  }
}
