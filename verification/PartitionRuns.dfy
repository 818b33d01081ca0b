/** Whole runs of a partition: no undone job is forgotten, and references stay sound despite slot reuse. */
module PartitionRuns {
  import opened History
  import opened Slab
  import opened ReadyQueue
  import opened BatchSelection
  import opened Scheduler

  /** The partition with two history variables: the jobs whose drop was proposed and the jobs whose
      proposal was thrown away because the channel was full. A released job leaves both sets. */
  datatype State = State(part: Part, proposed: set<JobId>, discarded: set<JobId>)

  datatype Action =
    | Add(job: Job, now: int)
    | MarkDone(id: JobId)
    | DropJob(id: JobId)
    | Dispatch(count: int, now: int, clock: nat -> int, accepted: bool)
    | FlushDlq(accepted: bool)

  function Drops(items: seq<JobId>): set<JobId> {
    set id | id in items
  }

  /** A flush that panics has no successor state. */
  predicate Enabled(s: State, e: Action) {
    match e
    case Add(job, _) => job.id != ""
    case FlushDlq(_) => FlushAll(s.part.store, s.part.dlq).Flushed?
    case _ => true
  }

  ghost function Next(s: State, cfg: Config, e: Action): State
    requires PartOk(s.part) && Enabled(s, e)
  {
    var p := s.part;
    match e
    case Add(job, now) => s.(part := AddOne(p, job, now))
    case MarkDone(id) => s.(part := p.(store := MarkedDone(p.store, id)))
    case DropJob(id) => State(p.(store := ForceReleased(p.store, id)), s.proposed - {id}, s.discarded - {id})
    case Dispatch(count, now, clock, accepted) => s.(part := Dispatched(p, cfg, count, now, clock, accepted))
    case FlushDlq(accepted) =>
      var f := FlushAll(p.store, p.dlq);
      State(p.(store := f.store, dlq := []),
            (if accepted then s.proposed + Drops(f.drops) else s.proposed) * f.store.byId.Keys,
            (if accepted then s.discarded else s.discarded + Drops(f.drops)) * f.store.byId.Keys)
  }

  function Start(capacity: nat): State {
    State(Part(Store([], [], map[]), [], capacity, []), {}, {})
  }

  ghost predicate IsRun(states: seq<State>, cfg: Config, events: seq<Action>) {
    && |states| == |events| + 1 && (exists capacity :: states[0] == Start(capacity))
    && forall i | 0 <= i < |events| && PartOk(states[i].part) ::
         Enabled(states[i], events[i]) && states[i + 1] == Next(states[i], cfg, events[i])
  }

  // ---------------------------------------------------------------- well-formedness

  lemma AddKeepsPart(p: Part, job: Job, now: int)
    requires PartOk(p) && job.id != ""
    ensures PartOk(AddOne(p, job, now))
  {
    if !job.done && job.id !in p.store.byId {
      var slot, s := SlotFor(p.store), Created(p.store, job);
      CreateKeepsStoreIff(p.store, job);
      if |p.live| >= p.capacity {
        SlotIsUsed(p.store, job);
        ReleaseKeepsStore(s, slot);
      }
    }
  }

  lemma SlotIsUsed(s: Store, job: Job)
    requires StoreOk(s) && job.id !in s.byId && job.id != ""
    ensures Live(Created(s, job), SlotFor(s))
  {
  }

  lemma DispatchLive(p: Part, cfg: Config, count: int, now: int, clock: nat -> int, accepted: bool) returns (mid: seq<JobRef>)
    requires Numbered(p.live)
    ensures |mid| == |p.live| && Numbered(mid)
    ensures forall k | 0 <= k < |mid| :: mid[k].index == p.live[k].index
    ensures Dispatched(p, cfg, count, now, clock, accepted).live ==
            RemoveRefs(mid, CellsOf(Leaving(p.store, Batch(p.live, count, now), cfg.maxRetries)))
  {
    hide PutOff, RemoveRefs, Leaving, Sendable, Batch;
    var sent := Sendable(p.store, Batch(p.live, count, now), cfg.maxRetries);
    mid := if accepted && sent != [] then PutOff(p.live, sent, clock, cfg.maxBackoff) else p.live;
    PutOffKeeps(p.live, sent, clock, cfg.maxBackoff);
  }

  lemma CellsAreDistinct(live: seq<JobRef>, items: seq<JobRef>)
    requires IsBatch(live, items)
    ensures DistinctCells(CellsOf(items))
  {
  }

  /** Where the references go in a dispatch: position `k` of the new queue holds the slot that position
      `left[k]` held, and exactly the hit cells are gone. */
  lemma DispatchMoves(p: Part, cfg: Config, count: int, now: int, clock: nat -> int, accepted: bool)
    returns (cells: seq<int>)
    requires PartOk(p)
    ensures cells == CellsOf(Leaving(p.store, Batch(p.live, count, now), cfg.maxRetries)) && DistinctCells(cells)
    ensures var live := Dispatched(p, cfg, count, now, clock, accepted).live;
            && |live| == |Left(|p.live|, cells)| <= |p.live| && Numbered(live)
            && forall k | 0 <= k < |live| :: Left(|p.live|, cells)[k] < |p.live| && live[k].index == p.live[Left(|p.live|, cells)[k]].index
    ensures forall k: nat :: k in Left(|p.live|, cells) <==> k < |p.live| && !Removed(|p.live|, cells, k)
    ensures forall j, k | 0 <= j < k < |Left(|p.live|, cells)| :: Left(|p.live|, cells)[j] != Left(|p.live|, cells)[k]
  {
    hide StoreOk, Leaving, Batch, Removed, Dispatched, RemoveRefs, CellsOf, Left;
    var items := Batch(p.live, count, now);
    BatchIsBatch(p.live, count, now);
    LeavingMembers(p.store, items, cfg.maxRetries, p.live);
    var leaving := Leaving(p.store, items, cfg.maxRetries);
    CellsAreDistinct(p.live, leaving);
    cells := CellsOf(leaving);
    var mid := DispatchLive(p, cfg, count, now, clock, accepted);
    RemovedRefs(mid, cells);
    SwapRemovalIsExact(|mid|, cells);
    RemoveAllPlaces(mid, cells);
  }

  /** A cell that is removed belongs to a reference that leaves. */
  lemma RemovedCellLeaves(p: Part, cfg: Config, items: seq<JobRef>, k: nat)
    requires IsBatch(p.live, items) && k < |p.live|
    requires Removed(|p.live|, CellsOf(Leaving(p.store, items, cfg.maxRetries)), k)
    ensures p.live[k] in items && (IsDead(p.store, p.live[k]) || IsExhausted(p.store, p.live[k], cfg.maxRetries))
  {
    hide Hits;
    LeavingMembers(p.store, items, cfg.maxRetries, p.live);
    var l := Leaving(p.store, items, cfg.maxRetries);
    hide Leaving;
    var i :| 0 <= i < |CellsOf(l)| && CellsOf(l)[i] == k;
    assert l[i].cell == k && l[i] in l;
  }

  lemma {:induction false} FlushKeepsStore(s: Store, items: seq<DlqItem>)
    requires StoreOk(s) && FlushAll(s, items).Flushed?
    ensures StoreOk(FlushAll(s, items).store) && |FlushAll(s, items).store.jobs| == |s.jobs|
    ensures forall i | 0 <= i < |s.jobs| :: FlushAll(s, items).store.jobs[i] in {s.jobs[i], NO_JOB}
    ensures forall i | Live(s, i) && !s.jobs[i].done :: FlushAll(s, items).store.jobs[i] == s.jobs[i]
    ensures forall k | 0 <= k < |items| && Live(s, items[k].ref.index) && !s.jobs[items[k].ref.index].done ::
              s.jobs[items[k].ref.index].id in FlushAll(s, items).drops
  {
    hide StoreOk;
    if items != [] {
      var f := items[..|items| - 1];
      FlushKeepsStore(s, f);
      var t, slot := FlushAll(s, f).store, items[|items| - 1].ref.index;
      if t.jobs[slot].done {
        ReleaseKeepsStore(t, slot);
      }
    }
  }

  lemma StepKeepsPart(s: State, cfg: Config, e: Action)
    requires PartOk(s.part) && Enabled(s, e)
    ensures PartOk(Next(s, cfg, e).part)
  {
    hide StoreOk;
    match e
    case Add(job, now) => AddKeepsPart(s.part, job, now);
    case MarkDone(id) => MarkKeepsStore(s.part.store, id);
    case DropJob(id) => ForceReleaseKeepsStore(s.part.store, id);
    case Dispatch(count, now, clock, accepted) =>
      hide Dispatched;
      DispatchKeepsRest(s.part, cfg, count, now, clock, accepted);
      var cells := DispatchMoves(s.part, cfg, count, now, clock, accepted);
    case FlushDlq(_) => FlushKeepsStore(s.part.store, s.part.dlq);
  }

  lemma DispatchKeepsRest(p: Part, cfg: Config, count: int, now: int, clock: nat -> int, accepted: bool)
    ensures var q := Dispatched(p, cfg, count, now, clock, accepted);
            && q.store == p.store && q.capacity == p.capacity
            && q.dlq == p.dlq + Buried(p.store, Batch(p.live, count, now), cfg.maxRetries)
  {
  }

  // ---------------------------------------------------------------- no undone job is forgotten

  ghost predicate InQueue(p: Part, slot: int) {
    exists k :: 0 <= k < |p.live| && p.live[k].index == slot
  }

  ghost predicate InDlq(p: Part, slot: int) {
    exists k :: 0 <= k < |p.dlq| && p.dlq[k].ref.index == slot
  }

  ghost predicate Remembered(s: State, slot: int)
    requires Live(s.part.store, slot)
  {
    || InQueue(s.part, slot) || InDlq(s.part, slot)
    || s.part.store.jobs[slot].id in s.proposed || s.part.store.jobs[slot].id in s.discarded
  }

  /** Every stored job that is not done is referred to by the queue or the dead-letter buffer, or its
      drop was proposed, or its proposal was discarded. */
  ghost predicate NoneForgotten(s: State) {
    forall slot | Live(s.part.store, slot) && !s.part.store.jobs[slot].done :: Remembered(s, slot)
  }

  lemma AddForgetsNone(s: State, cfg: Config, job: Job, now: int)
    requires PartOk(s.part) && job.id != "" && NoneForgotten(s)
    ensures NoneForgotten(Next(s, cfg, Add(job, now)))
  {
    var p, q := s.part, AddOne(s.part, job, now);
    if !job.done && job.id !in p.store.byId {
      var fresh' := SlotFor(p.store);
      CreateKeepsStoreIff(p.store, job);
      forall slot | Live(q.store, slot) && !q.store.jobs[slot].done
        ensures Remembered(s.(part := q), slot)
      {
        if slot == fresh' {
          assert q.live[|p.live|].index == slot;
        } else {
          assert Live(p.store, slot) && q.store.jobs[slot] == p.store.jobs[slot];
          assert Remembered(s, slot);
          if InQueue(p, slot) {
            var k :| 0 <= k < |p.live| && p.live[k].index == slot;
            assert q.live[k].index == slot;
          }
        }
      }
    }
  }

  lemma CommandsForgetNone(s: State, cfg: Config, e: Action)
    requires PartOk(s.part) && NoneForgotten(s) && (e.MarkDone? || e.DropJob?)
    ensures NoneForgotten(Next(s, cfg, e))
  {
    var t := Next(s, cfg, e);
    forall slot | Live(t.part.store, slot) && !t.part.store.jobs[slot].done
      ensures Remembered(t, slot)
    {
      assert Live(s.part.store, slot) && t.part.store.jobs[slot] == s.part.store.jobs[slot];
      assert Remembered(s, slot);
      assert InQueue(s.part, slot) ==> InQueue(t.part, slot);
      assert InDlq(s.part, slot) ==> InDlq(t.part, slot);
    }
  }

  lemma DispatchForgetsNone(s: State, cfg: Config, count: int, now: int, clock: nat -> int, accepted: bool)
    requires PartOk(s.part) && NoneForgotten(s)
    ensures NoneForgotten(s.(part := Dispatched(s.part, cfg, count, now, clock, accepted)))
  {
    hide StoreOk, Dispatched, Batch, Leaving, Buried, Removed;
    var p, q := s.part, Dispatched(s.part, cfg, count, now, clock, accepted);
    var items := Batch(p.live, count, now);
    DispatchKeepsRest(p, cfg, count, now, clock, accepted);
    var cells := DispatchMoves(p, cfg, count, now, clock, accepted);
    BatchIsBatch(p.live, count, now);
    BuriedMembers(p.store, items, cfg.maxRetries);
    var left := Left(|p.live|, cells);
    hide Left, CellsOf;
    forall slot | Live(q.store, slot) && !q.store.jobs[slot].done
      ensures Remembered(s.(part := q), slot)
    {
      assert Remembered(s, slot);
      if InQueue(p, slot) {
        var k :| 0 <= k < |p.live| && p.live[k].index == slot;
        if Removed(|p.live|, cells, k) {
          RemovedCellLeaves(p, cfg, items, k);
          var b := Buried(p.store, items, cfg.maxRetries);
          var j :| 0 <= j < |b| && b[j].ref == p.live[k];
          assert q.dlq[|p.dlq| + j].ref.index == slot;
        } else {
          assert k in left;
          var j :| 0 <= j < |left| && left[j] == k;
          assert q.live[j].index == slot;
        }
      } else if InDlq(p, slot) {
        var j :| 0 <= j < |p.dlq| && p.dlq[j].ref.index == slot;
        assert q.dlq[j].ref.index == slot;
      }
    }
  }

  lemma IdsAreStored(s: Store)
    requires StoreOk(s)
    ensures forall slot | Live(s, slot) :: s.jobs[slot].id in s.byId && s.byId[s.jobs[slot].id] == slot
  {
  }

  lemma FlushForgetsNone(s: State, cfg: Config, accepted: bool)
    requires PartOk(s.part) && NoneForgotten(s) && Enabled(s, FlushDlq(accepted))
    ensures NoneForgotten(Next(s, cfg, FlushDlq(accepted)))
  {
    var t := Next(s, cfg, FlushDlq(accepted));
    FlushKeepsStore(s.part.store, s.part.dlq);
    IdsAreStored(t.part.store);
    hide StoreOk, FlushAll;
    forall slot | Live(t.part.store, slot) && !t.part.store.jobs[slot].done
      ensures Remembered(t, slot)
    {
      assert Live(s.part.store, slot) && t.part.store.jobs[slot] == s.part.store.jobs[slot];
      assert Remembered(s, slot);
      assert InQueue(s.part, slot) ==> InQueue(t.part, slot);
    }
  }

  lemma StepForgetsNone(s: State, cfg: Config, e: Action)
    requires PartOk(s.part) && Enabled(s, e) && NoneForgotten(s)
    ensures NoneForgotten(Next(s, cfg, e))
  {
    hide PartOk, NoneForgotten, Dispatched;
    match e
    case Add(job, now) => AddForgetsNone(s, cfg, job, now);
    case Dispatch(count, now, clock, accepted) => DispatchForgetsNone(s, cfg, count, now, clock, accepted);
    case FlushDlq(accepted) => FlushForgetsNone(s, cfg, accepted);
    case _ => CommandsForgetNone(s, cfg, e);
  }

  /** In every run no undone job is ever forgotten. */
  lemma {:induction false} NoUndoneJobIsForgotten(states: seq<State>, cfg: Config, events: seq<Action>, i: nat)
    requires IsRun(states, cfg, events) && i <= |events|
    ensures PartOk(states[i].part) && NoneForgotten(states[i])
  {
    hide Next;
    if i == 0 {
      var capacity :| states[0] == Start(capacity);
    } else {
      NoUndoneJobIsForgotten(states, cfg, events, i - 1);
      StepKeepsPart(states[i - 1], cfg, events[i - 1]);
      StepForgetsNone(states[i - 1], cfg, events[i - 1]);
    }
  }
}
