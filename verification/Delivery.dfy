/** What becomes of a job that no reference points to. */
module Delivery {
  import opened History
  import opened Slab
  import opened ReadyQueue
  import opened BatchSelection
  import opened Scheduler
  import opened PartitionRuns
  import opened References

  // ---------------------------------------------------------------- a discarded proposal

  /** The job `id` is stored in `slot`, and neither queue nor dead-letter buffer refers to it. */
  ghost predicate Stranded(p: Part, slot: nat, id: JobId) {
    Live(p.store, slot) && p.store.jobs[slot].id == id && !Referenced(p, slot)
  }

  lemma StrandedThroughAdd(p: Part, slot: nat, id: JobId, job: Job, now: int)
    requires PartOk(p) && Stranded(p, slot, id) && job.id != ""
    ensures Stranded(AddOne(p, job, now), slot, id)
  {
    if !job.done && job.id !in p.store.byId {
      CreateKeepsStoreIff(p.store, job);
      hide StoreOk;
      var q := AddOne(p, job, now);
      forall k | 0 <= k < |q.live|
        ensures q.live[k].index != slot
      {
        if k < |p.live| {
          assert q.live[k] == p.live[k];
        }
      }
    }
  }

  lemma StrandedThroughDispatch(p: Part, slot: nat, id: JobId, cfg: Config, count: int, now: int, clock: nat -> int, accepted: bool)
    requires PartOk(p) && Stranded(p, slot, id)
    ensures Stranded(Dispatched(p, cfg, count, now, clock, accepted), slot, id)
  {
    hide StoreOk, Dispatched, Batch, Leaving, Buried, Left, Removed;
    var q, items := Dispatched(p, cfg, count, now, clock, accepted), Batch(p.live, count, now);
    DispatchKeepsRest(p, cfg, count, now, clock, accepted);
    var cells := DispatchMoves(p, cfg, count, now, clock, accepted);
    var left := Left(|p.live|, cells);
    forall k | 0 <= k < |q.live|
      ensures q.live[k].index != slot
    {
      assert p.live[left[k]].index != slot;
    }
    BatchIsBatch(p.live, count, now);
    var b := Buried(p.store, items, cfg.maxRetries);
    forall k | 0 <= k < |b|
      ensures b[k].ref.index != slot
    {
      BuriedWasQueued(p, cfg, items, k);
      assert p.live[b[k].ref.cell].index != slot;
    }
    forall k | 0 <= k < |q.dlq|
      ensures q.dlq[k].ref.index != slot
    {
      if k >= |p.dlq| {
        assert q.dlq[k] == b[k - |p.dlq|];
      }
    }
  }

  lemma StrandedThroughFlush(p: Part, slot: nat, id: JobId)
    requires PartOk(p) && Stranded(p, slot, id) && FlushAll(p.store, p.dlq).Flushed?
    ensures Stranded(p.(store := FlushAll(p.store, p.dlq).store, dlq := []), slot, id)
  {
    hide StoreOk;
    FlushedSlots(p.store, p.dlq);
    assert !Buffered(p.dlq, slot);
  }

  lemma StrandedStays(s: State, cfg: Config, e: Action, slot: nat, id: JobId)
    requires PartOk(s.part) && Enabled(s, e) && Stranded(s.part, slot, id) && e != DropJob(id)
    ensures Stranded(Next(s, cfg, e).part, slot, id)
  {
    hide Dispatched, FlushAll;
    match e
    case Add(job, now) => StrandedThroughAdd(s.part, slot, id, job, now);
    case MarkDone(other) => MarkKeepsStore(s.part.store, other);
    case DropJob(other) =>
    case Dispatch(count, now, clock, accepted) => StrandedThroughDispatch(s.part, slot, id, cfg, count, now, clock, accepted);
    case FlushDlq(_) => StrandedThroughFlush(s.part, slot, id);
  }

  /** Over any run, a stranded job is never sent and never proposed again until its drop is committed. */
  lemma {:induction false} StrandedForGood(states: seq<State>, cfg: Config, events: seq<Action>, i: nat, j: nat, slot: nat, id: JobId)
    requires IsRun(states, cfg, events) && i <= j <= |events|
    requires Stranded(states[i].part, slot, id) && forall k | i <= k < j :: events[k] != DropJob(id)
    ensures Stranded(states[j].part, slot, id)
    decreases j
  {
    hide Next, Stranded;
    if i < j {
      StrandedForGood(states, cfg, events, i, j - 1, slot, id);
      NoUndoneJobIsForgotten(states, cfg, events, j - 1);
      StrandedStays(states[j - 1], cfg, events[j - 1], slot, id);
    }
  }

  /** Every undone job is referred to or has its drop proposed. */
  ghost predicate AllReachable(s: State) {
    forall slot | Live(s.part.store, slot) && !s.part.store.jobs[slot].done ::
      Referenced(s.part, slot) || s.part.store.jobs[slot].id in s.proposed
  }

  /** Jobs whose drop is proposed are no longer buffered. */
  ghost predicate ProposedAreGone(s: State) {
    forall k | 0 <= k < |s.part.dlq| && Live(s.part.store, s.part.dlq[k].ref.index) ::
      s.part.store.jobs[s.part.dlq[k].ref.index].id !in s.proposed
  }

  predicate OnlyDoneBuffered(p: Part) {
    forall k | 0 <= k < |p.dlq| :: Live(p.store, p.dlq[k].ref.index) ==> p.store.jobs[p.dlq[k].ref.index].done
  }

  /** A flush keeps every undone job reachable exactly when the channel takes the proposal or there was
      nothing to propose: a full channel strands every undone job of the buffer. */
  lemma FlushKeepsReachableIff(s: State, cfg: Config, accepted: bool)
    requires PartOk(s.part) && RefsOk(s.part) && AllReachable(s) && ProposedAreGone(s)
    ensures Enabled(s, FlushDlq(accepted))
    ensures AllReachable(Next(s, cfg, FlushDlq(accepted))) <==> accepted || OnlyDoneBuffered(s.part)
  {
    FlushKeepsRefs(s.part);
    FlushKeepsStore(s.part.store, s.part.dlq);
    hide StoreOk, FlushAll;
    var p, t := s.part, Next(s, cfg, FlushDlq(accepted));
    forall slot | Live(t.part.store, slot) && !t.part.store.jobs[slot].done
      ensures Live(p.store, slot) && t.part.store.jobs[slot] == p.store.jobs[slot]
      ensures Referenced(t.part, slot) <==> InQueue(p, slot)
      ensures InDlq(p, slot) && accepted ==> t.part.store.jobs[slot].id in t.proposed
      ensures InDlq(p, slot) && OnlyDoneBuffered(p) ==> false
    {
      assert t.part.store.jobs[slot] in {p.store.jobs[slot], NO_JOB};
    }
    if !accepted && !OnlyDoneBuffered(p) {
      var k :| 0 <= k < |p.dlq| && Live(p.store, p.dlq[k].ref.index) && !p.store.jobs[p.dlq[k].ref.index].done;
      var slot := p.dlq[k].ref.index;
      assert Live(t.part.store, slot) && !InQueue(p, slot) && p.store.jobs[slot].id !in t.proposed;
    }
  }

  /** Jobs whose drop was proposed or whose proposal was discarded are stored, and nothing refers to them. */
  ghost predicate DroppedAreStranded(s: State) {
    forall id | id in s.proposed + s.discarded ::
      id in s.part.store.byId && Stranded(s.part, s.part.store.byId[id], id)
  }

  /** The jobs a flush proposes are stranded by it. */
  lemma {:induction false} DropsWereBuffered(s: Store, items: seq<DlqItem>, id: JobId)
    requires FlushAll(s, items).Flushed? && id in FlushAll(s, items).drops
    ensures exists k :: 0 <= k < |items| && Live(s, items[k].ref.index) && s.jobs[items[k].ref.index].id == id && !s.jobs[items[k].ref.index].done
  {
    var f, r := items[..|items| - 1], items[|items| - 1].ref.index;
    var t := FlushAll(s, f);
    FlushedSlots(s, f);
    if id in t.drops {
      DropsWereBuffered(s, f, id);
      var k :| 0 <= k < |f| && Live(s, f[k].ref.index) && s.jobs[f[k].ref.index].id == id && !s.jobs[f[k].ref.index].done;
      assert items[k] == f[k];
    } else {
      assert t.store.jobs[r].id == id && t.store.jobs[r] == s.jobs[r];
    }
  }

  lemma FlushStrands(s: State, cfg: Config, accepted: bool, id: JobId)
    requires PartOk(s.part) && RefsOk(s.part) && Enabled(s, FlushDlq(accepted))
    requires id in FlushAll(s.part.store, s.part.dlq).drops
    ensures var t := Next(s, cfg, FlushDlq(accepted)).part; id in t.store.byId && Stranded(t, t.store.byId[id], id)
  {
    var p, t := s.part, Next(s, cfg, FlushDlq(accepted)).part;
    FlushKeepsStore(p.store, p.dlq);
    DropsWereBuffered(p.store, p.dlq, id);
    IdsAreStored(t.store);
    hide StoreOk, FlushAll;
    var k :| 0 <= k < |p.dlq| && Live(p.store, p.dlq[k].ref.index) && p.store.jobs[p.dlq[k].ref.index].id == id && !p.store.jobs[p.dlq[k].ref.index].done;
    var slot := p.dlq[k].ref.index;
    assert t.store.jobs[slot] == p.store.jobs[slot] && Live(t.store, slot);
  }

  lemma StepKeepsDroppedStranded(s: State, cfg: Config, e: Action)
    requires PartOk(s.part) && RefsOk(s.part) && Enabled(s, e) && DroppedAreStranded(s)
    ensures DroppedAreStranded(Next(s, cfg, e))
  {
    var t := Next(s, cfg, e);
    StepKeepsPart(s, cfg, e);
    IdsAreStored(t.part.store);
    hide StoreOk, Dispatched, FlushAll, AddOne, Stranded;
    forall id | id in t.proposed + t.discarded
      ensures id in t.part.store.byId && Stranded(t.part, t.part.store.byId[id], id)
    {
      if id in s.proposed + s.discarded {
        var slot := s.part.store.byId[id];
        StrandedStays(s, cfg, e, slot, id);
        StrandedIsStored(t.part, slot, id);
      } else {
        FlushStrands(s, cfg, e.accepted, id);
      }
    }
  }

  lemma StrandedIsStored(p: Part, slot: nat, id: JobId)
    requires PartOk(p) && Stranded(p, slot, id)
    ensures id in p.store.byId && p.store.byId[id] == slot
  {
    IdsAreStored(p.store);
  }

  lemma StrandedAreNotBuffered(s: State)
    requires PartOk(s.part) && DroppedAreStranded(s)
    ensures ProposedAreGone(s)
  {
    forall k | 0 <= k < |s.part.dlq| && Live(s.part.store, s.part.dlq[k].ref.index)
      ensures s.part.store.jobs[s.part.dlq[k].ref.index].id !in s.proposed
    {
      IdsAreStored(s.part.store);
    }
  }

  /** Over every careful run, nothing refers to a job whose drop was proposed or whose proposal was lost. */
  lemma {:induction false} DroppedStayStranded(states: seq<State>, cfg: Config, events: seq<Action>, i: nat)
    requires IsRun(states, cfg, events) && i <= |events|
    requires forall k | 0 <= k < |events| :: Careful(states[k], cfg, events[k])
    ensures DroppedAreStranded(states[i]) && ProposedAreGone(states[i])
  {
    hide Next, Careful, RefsOk, PartOk;
    ReferencesStaySound(states, cfg, events, i);
    if i > 0 {
      ReferencesStaySound(states, cfg, events, i - 1);
      DroppedStayStranded(states, cfg, events, i - 1);
      StepKeepsDroppedStranded(states[i - 1], cfg, events[i - 1]);
    } else {
      var capacity :| states[0] == Start(capacity);
    }
    StrandedAreNotBuffered(states[i]);
  }

  /** In any state of a careful run in which every undone job is reachable, a flush keeps it so exactly when the
      channel takes the proposal or there was nothing to propose. */
  lemma RunFlushKeepsReachableIff(states: seq<State>, cfg: Config, events: seq<Action>, i: nat, accepted: bool)
    requires IsRun(states, cfg, events) && i <= |events| && AllReachable(states[i])
    requires forall k | 0 <= k < |events| :: Careful(states[k], cfg, events[k])
    ensures PartOk(states[i].part) && Enabled(states[i], FlushDlq(accepted))
    ensures AllReachable(Next(states[i], cfg, FlushDlq(accepted))) <==> accepted || OnlyDoneBuffered(states[i].part)
  {
    hide Next, Careful, RefsOk, PartOk, AllReachable, OnlyDoneBuffered, ProposedAreGone;
    ReferencesStaySound(states, cfg, events, i);
    DroppedStayStranded(states, cfg, events, i);
    FlushKeepsReachableIff(states[i], cfg, accepted);
  }
}
