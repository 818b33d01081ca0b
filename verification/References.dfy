/** Referential integrity: every reference of the queue and of the dead-letter buffer points to a used
    slot, and no slot has two references, although slots are reused. */
module References {
  import opened History
  import opened Slab
  import opened ReadyQueue
  import opened BatchSelection
  import opened Scheduler
  import opened PartitionRuns

  ghost predicate AllLive(p: Part) {
    && (forall k | 0 <= k < |p.live| :: Live(p.store, p.live[k].index))
    && (forall k | 0 <= k < |p.dlq| :: Live(p.store, p.dlq[k].ref.index))
  }

  ghost predicate AllDistinct(p: Part) {
    && (forall j, k | 0 <= j < k < |p.live| :: p.live[j].index != p.live[k].index)
    && (forall j, k | 0 <= j < k < |p.dlq| :: p.dlq[j].ref.index != p.dlq[k].ref.index)
    && (forall j, k | 0 <= j < |p.live| && 0 <= k < |p.dlq| :: p.live[j].index != p.dlq[k].ref.index)
  }

  ghost predicate RefsOk(p: Part) {
    AllLive(p) && AllDistinct(p)
  }

  ghost predicate Referenced(p: Part, slot: int) {
    InQueue(p, slot) || InDlq(p, slot)
  }

  lemma AddNamedKeepsRefs(p: Part, job: Job, now: int)
    requires PartOk(p) && RefsOk(p) && job.id != ""
    ensures RefsOk(AddOne(p, job, now))
  {
    if !job.done && job.id !in p.store.byId {
      var slot, s := SlotFor(p.store), Created(p.store, job);
      CreateFrame(p.store, job);
      SlotIsUsed(p.store, job);
      hide StoreOk, Created, SlotFor;
      assert (forall k | 0 <= k < |p.live| :: p.live[k].index != slot) && forall k | 0 <= k < |p.dlq| :: p.dlq[k].ref.index != slot;
      assert forall i | Live(p.store, i) :: Live(s, i) && Live(Released(s, slot), i);
    }
  }

  /** Unless it panics, adding a job keeps the references sound exactly when it is marked done or its id is
      not empty. */
  lemma AddKeepsRefsIff(p: Part, job: Job, now: int)
    requires PartOk(p) && RefsOk(p) && !AddPanics(p, job)
    ensures RefsOk(AddOne(p, job, now)) <==> job.done || job.id != ""
  {
    StoreHasFreeList(p.store);
    CreatedJob(p.store, job);
    hide StoreOk, FreeListOk, Created, SlotFor, AllDistinct;
    if job.id != "" {
      AddNamedKeepsRefs(p, job, now);
    } else if !job.done {
      var q := AddOne(p, job, now);
      assert !Live(q.store, q.live[|p.live|].index);
    }
  }

  /** Dropping a job keeps the references sound exactly when nothing refers to it any more. */
  lemma DropKeepsRefsIff(p: Part, id: JobId)
    requires PartOk(p) && RefsOk(p)
    ensures RefsOk(p.(store := ForceReleased(p.store, id))) <==> !(id in p.store.byId && Referenced(p, p.store.byId[id]))
  {
    if id in p.store.byId {
      var slot := p.store.byId[id];
      ReleaseKeepsStore(p.store, slot);
      var q := p.(store := ForceReleased(p.store, id));
      if Referenced(p, slot) {
        if InQueue(p, slot) {
          var k :| 0 <= k < |p.live| && p.live[k].index == slot;
          assert !Live(q.store, q.live[k].index);
        } else {
          var k :| 0 <= k < |p.dlq| && p.dlq[k].ref.index == slot;
          assert !Live(q.store, q.dlq[k].ref.index);
        }
      } else {
        assert forall k | 0 <= k < |p.live| :: p.live[k].index != slot;
        assert forall k | 0 <= k < |p.dlq| :: p.dlq[k].ref.index != slot;
      }
    }
  }

  // ---------------------------------------------------------------- dispatch

  /** Every exhausted reference of the batch is really removed from the queue. */
  ghost predicate ExhaustedAreRemoved(p: Part, cfg: Config, count: int, now: int) {
    var leaving := Leaving(p.store, Batch(p.live, count, now), cfg.maxRetries);
    forall i | 0 <= i < |leaving| && IsExhausted(p.store, leaving[i], cfg.maxRetries) :: Hits(|p.live|, CellsOf(leaving), i)
  }

  predicate DistinctItems(b: seq<DlqItem>) {
    forall j, k | 0 <= j < k < |b| :: b[j].ref.index != b[k].ref.index
  }

  lemma {:induction false} BuriedDistinct(s: Store, items: seq<JobRef>, maxRetries: int, live: seq<JobRef>)
    requires IsBatch(live, items) && forall j, k | 0 <= j < k < |live| :: live[j].index != live[k].index
    ensures DistinctItems(Buried(s, items, maxRetries))
  {
    if items != [] {
      var f, r := items[..|items| - 1], items[|items| - 1];
      BuriedDistinct(s, f, maxRetries, live);
      BuriedMembers(s, f, maxRetries);
      var b := Buried(s, f, maxRetries);
      forall j | 0 <= j < |b|
        ensures b[j].ref.index != r.index
      {
        assert b[j].ref in f;
        var k :| 0 <= k < |f| && f[k] == b[j].ref;
        OtherCellOtherSlot(live, items, k, |f|);
      }
    }
  }

  lemma OtherCellOtherSlot(live: seq<JobRef>, items: seq<JobRef>, j: nat, k: nat)
    requires IsBatch(live, items) && j < k < |items|
    requires forall j, k | 0 <= j < k < |live| :: live[j].index != live[k].index
    ensures items[j].index != items[k].index
  {
    var x, y := items[j].cell, items[k].cell;
    assert x < y || y < x;
    assert live[x].index != live[y].index;
  }

  /** A buried reference sat in the queue at its own cell, and its cell is listed for removal. */
  lemma BuriedWasQueued(p: Part, cfg: Config, items: seq<JobRef>, k: nat)
    requires IsBatch(p.live, items) && k < |Buried(p.store, items, cfg.maxRetries)|
    ensures var r := Buried(p.store, items, cfg.maxRetries)[k].ref;
            && 0 <= r.cell < |p.live| && p.live[r.cell] == r && IsExhausted(p.store, r, cfg.maxRetries)
            && r in Leaving(p.store, items, cfg.maxRetries)
  {
    BuriedMembers(p.store, items, cfg.maxRetries);
    LeavingMembers(p.store, items, cfg.maxRetries, p.live);
    var r := Buried(p.store, items, cfg.maxRetries)[k].ref;
    var i :| 0 <= i < |items| && items[i] == r;
  }

  lemma ExhaustedCellIsRemoved(p: Part, cfg: Config, items: seq<JobRef>, r: JobRef)
    requires IsBatch(p.live, items) && r in Leaving(p.store, items, cfg.maxRetries) && IsExhausted(p.store, r, cfg.maxRetries)
    requires var l := Leaving(p.store, items, cfg.maxRetries);
             forall i | 0 <= i < |l| && IsExhausted(p.store, l[i], cfg.maxRetries) :: Hits(|p.live|, CellsOf(l), i)
    ensures Removed(|p.live|, CellsOf(Leaving(p.store, items, cfg.maxRetries)), r.cell)
  {
    hide Hits;
    var l := Leaving(p.store, items, cfg.maxRetries);
    var i :| 0 <= i < |l| && l[i] == r;
    assert CellsOf(l)[i] == r.cell && Hits(|p.live|, CellsOf(l), i);
  }

  lemma MovedAreDistinct(p: Part, live: seq<JobRef>, left: seq<nat>)
    requires forall j, k | 0 <= j < k < |p.live| :: p.live[j].index != p.live[k].index
    requires |live| == |left| && forall k | 0 <= k < |live| :: left[k] < |p.live| && live[k].index == p.live[left[k]].index
    requires forall j, k | 0 <= j < k < |left| :: left[j] != left[k]
    ensures forall j, k | 0 <= j < k < |live| :: live[j].index != live[k].index
  {
  }

  lemma DispatchKeepsRefs(p: Part, cfg: Config, count: int, now: int, clock: nat -> int, accepted: bool)
    requires PartOk(p) && RefsOk(p) && ExhaustedAreRemoved(p, cfg, count, now)
    ensures RefsOk(Dispatched(p, cfg, count, now, clock, accepted))
  {
    hide StoreOk, Dispatched, Batch, Leaving, Buried, Removed, Left, CellsOf, Hits, PartOk;
    assert Numbered(p.live) by { PartIsNumbered(p); }
    var q, items := Dispatched(p, cfg, count, now, clock, accepted), Batch(p.live, count, now);
    DispatchKeepsRest(p, cfg, count, now, clock, accepted);
    var cells := DispatchMoves(p, cfg, count, now, clock, accepted);
    BatchIsBatch(p.live, count, now);
    var b, left := Buried(p.store, items, cfg.maxRetries), Left(|p.live|, cells);
    BuriedDistinct(p.store, items, cfg.maxRetries, p.live);
    MovedAreDistinct(p, q.live, left);
    forall k | 0 <= k < |b|
      ensures Live(p.store, b[k].ref.index)
      ensures forall j | 0 <= j < |q.live| :: q.live[j].index != b[k].ref.index
      ensures forall j | 0 <= j < |p.dlq| :: p.dlq[j].ref.index != b[k].ref.index
    {
      BuriedWasQueued(p, cfg, items, k);
      var r := b[k].ref;
      ExhaustedCellIsRemoved(p, cfg, items, r);
      assert r.cell !in left;
      forall j | 0 <= j < |q.live|
        ensures q.live[j].index != r.index
      {
        assert left[j] in left && left[j] != r.cell;
      }
    }
    assert AllLive(q);
    assert AllDistinct(q);
  }

  lemma PartIsNumbered(p: Part)
    requires PartOk(p)
    ensures Numbered(p.live)
  {
  }

  /** An exhausted reference that stays in the queue is referred to twice from then on. */
  lemma MissedRemovalDoublesRef(p: Part, cfg: Config, count: int, now: int, clock: nat -> int, accepted: bool)
    requires PartOk(p) && RefsOk(p) && !ExhaustedAreRemoved(p, cfg, count, now)
    ensures !AllDistinct(Dispatched(p, cfg, count, now, clock, accepted))
  {
    hide StoreOk, Dispatched, Batch, Leaving, Buried, Left, PartOk, RefsOk, AllDistinct, Removed, Hits, IsExhausted, IsDead;
    assert Numbered(p.live) by { PartIsNumbered(p); }
    var q, items := Dispatched(p, cfg, count, now, clock, accepted), Batch(p.live, count, now);
    DispatchKeepsRest(p, cfg, count, now, clock, accepted);
    var cells := DispatchMoves(p, cfg, count, now, clock, accepted);
    BatchIsBatch(p.live, count, now);
    var l := Leaving(p.store, items, cfg.maxRetries);
    LeavingMembers(p.store, items, cfg.maxRetries, p.live);
    BuriedMembers(p.store, items, cfg.maxRetries);
    var i :| 0 <= i < |l| && IsExhausted(p.store, l[i], cfg.maxRetries) && !Hits(|p.live|, CellsOf(l), i);
    var r, left := l[i], Left(|p.live|, cells);
    assert r in l;
    NotRemoved(|p.live|, cells, i);
    assert r.cell in left;
    var j :| 0 <= j < |left| && left[j] == r.cell;
    var b := Buried(p.store, items, cfg.maxRetries);
    var k :| 0 <= k < |b| && b[k].ref == r;
    assert q.live[j].index == r.index && q.dlq[|p.dlq| + k].ref.index == r.index;
    SharedSlotIsDouble(q, j, |p.dlq| + k);
  }

  lemma SharedSlotIsDouble(p: Part, j: nat, k: nat)
    requires j < |p.live| && k < |p.dlq| && p.live[j].index == p.dlq[k].ref.index
    ensures !AllDistinct(p)
  {
  }

  lemma NotRemoved(n: nat, cells: seq<int>, i: nat)
    requires DistinctCells(cells) && i < |cells| && !Hits(n, cells, i)
    ensures !Removed(n, cells, cells[i])
  {
  }

  /** A dispatch keeps the references sound exactly when every exhausted reference of the batch is removed. */
  lemma DispatchKeepsRefsIff(p: Part, cfg: Config, count: int, now: int, clock: nat -> int, accepted: bool)
    requires PartOk(p) && RefsOk(p)
    ensures RefsOk(Dispatched(p, cfg, count, now, clock, accepted)) <==> ExhaustedAreRemoved(p, cfg, count, now)
  {
    hide PartOk, AllDistinct, AllLive, Dispatched, ExhaustedAreRemoved;
    if ExhaustedAreRemoved(p, cfg, count, now) {
      DispatchKeepsRefs(p, cfg, count, now, clock, accepted);
    } else {
      MissedRemovalDoublesRef(p, cfg, count, now, clock, accepted);
    }
  }

  // ---------------------------------------------------------------- when every removal takes effect

  lemma {:induction false} LeavingAscends(s: Store, items: seq<JobRef>, maxRetries: int)
    requires CellsAscend(items)
    ensures CellsAscend(Leaving(s, items, maxRetries))
    ensures forall r | r in Leaving(s, items, maxRetries) :: r in items
  {
    if items != [] {
      var f := items[..|items| - 1];
      LeavingAscends(s, f, maxRetries);
      forall r | r in Leaving(s, f, maxRetries)
        ensures r.cell < items[|items| - 1].cell
      {
        var k :| 0 <= k < |f| && f[k] == r;
        assert items[k] == r;
      }
    }
  }

  /** If the cells of the batch ascend, every reference that leaves is removed. */
  lemma AscendingBatchIsRemoved(p: Part, cfg: Config, count: int, now: int)
    requires PartOk(p) && CellsAscend(Batch(p.live, count, now))
    ensures ExhaustedAreRemoved(p, cfg, count, now)
  {
    hide StoreOk, Batch, Leaving, Hits, IsExhausted;
    var items := Batch(p.live, count, now);
    var l := Leaving(p.store, items, cfg.maxRetries);
    BatchIsBatch(p.live, count, now);
    LeavingAscends(p.store, items, cfg.maxRetries);
    var cells := CellsOf(l);
    forall j | 0 <= j < |cells|
      ensures 0 <= cells[j] < |p.live|
    {
      assert l[j] in items;
    }
    forall i | 0 <= i < |cells|
      ensures 0 <= cells[i] <= |p.live| - |cells| + i
    {
      AscendingFits(|p.live|, cells, i);
    }
    AllHitIff(|p.live|, cells);
  }

  predicate OneDueTime(b: seq<JobRef>) {
    forall i, j | 0 <= i < j < |b| :: b[i].dueTimeSec == b[j].dueTimeSec
  }

  /** A batch that reaches into the second due time has two. */
  lemma SecondShows(first: seq<JobRef>, second: seq<JobRef>, b: seq<JobRef>, t1: int, t2: int)
    requires b <= first + second && first != [] && t1 != t2
    requires (forall r | r in first :: r.dueTimeSec == t1) && forall r | r in second :: r.dueTimeSec == t2
    ensures |b| > |first| ==> !OneDueTime(b)
  {
    if |b| > |first| {
      assert b[0] == first[0] && b[|first|] == second[0];
    }
  }

  /** A batch with one due time lists its cells in ascending order. */
  lemma OneDueTimeAscends(live: seq<JobRef>, count: int, now: int)
    requires Numbered(live) && OneDueTime(Batch(live, count, now))
    ensures CellsAscend(Batch(live, count, now))
  {
    var d := Dues(live, now);
    if d != {} && count > 0 {
      var t1 := Least(d);
      var first, b := DueAt(live, t1), Batch(live, count, now);
      DueAtMembers(live, t1);
      var i :| 0 <= i < |live| && live[i].dueTimeSec <= now && live[i].dueTimeSec == t1;
      assert live[i] in first;
      if d - {t1} != {} {
        var t2 := Least(d - {t1});
        DueAtMembers(live, t2);
        TakeIsPrefix(first + DueAt(live, t2), count);
        SecondShows(first, DueAt(live, t2), b, t1, t2);
      } else {
        TakeIsPrefix(first + [], count);
      }
      assert b <= first;
    }
  }

  // ---------------------------------------------------------------- flush

  predicate Buffered(items: seq<DlqItem>, slot: int) {
    exists k | 0 <= k < |items| :: items[k].ref.index == slot
  }

  lemma BufferedNext(items: seq<DlqItem>, slot: int)
    requires items != []
    ensures Buffered(items, slot) <==> Buffered(items[..|items| - 1], slot) || items[|items| - 1].ref.index == slot
  {
    var f := items[..|items| - 1];
    if Buffered(f, slot) {
      var k :| 0 <= k < |f| && f[k].ref.index == slot;
      assert items[k].ref.index == slot;
    }
  }

  /** The buffered reference `k` finds its slot free: it was free from the start, or an earlier reference
      to the same slot found the job done and released it. */
  predicate FindsFreeSlot(s: Store, items: seq<DlqItem>, k: nat)
    requires k < |items|
  {
    || !Live(s, items[k].ref.index)
    || (s.jobs[items[k].ref.index].done && Buffered(items[..k], items[k].ref.index))
  }

  /** A flush empties exactly the slots of done jobs that the buffer refers to. */
  lemma {:induction false} FlushedSlots(s: Store, items: seq<DlqItem>)
    requires FlushAll(s, items).Flushed?
    ensures |FlushAll(s, items).store.jobs| == |s.jobs|
    ensures forall i | 0 <= i < |s.jobs| :: FlushAll(s, items).store.jobs[i] ==
              if s.jobs[i].id != "" && s.jobs[i].done && Buffered(items, i) then NO_JOB else s.jobs[i]
  {
    if items != [] {
      FlushedSlots(s, items[..|items| - 1]);
      forall i | 0 <= i < |s.jobs|
        ensures Buffered(items, i) <==> Buffered(items[..|items| - 1], i) || items[|items| - 1].ref.index == i
      {
        BufferedNext(items, i);
      }
      hide Buffered;
    }
  }

  /** A flush panics exactly when some buffered reference finds its slot free. */
  lemma {:induction false} FlushPanicsIff(s: Store, items: seq<DlqItem>)
    ensures FlushAll(s, items).Panicked? <==> exists k :: 0 <= k < |items| && FindsFreeSlot(s, items, k)
  {
    if items != [] {
      var n := |items| - 1;
      var f := items[..n];
      FlushPanicsIff(s, f);
      forall k | 0 <= k < n
        ensures FindsFreeSlot(s, f, k) == FindsFreeSlot(s, items, k)
      {
        assert f[..k] == items[..k];
      }
      if FlushAll(s, f).Flushed? {
        FlushedSlots(s, f);
        hide Buffered;
        assert FindsFreeSlot(s, items, n) <==> !Live(FlushAll(s, f).store, items[n].ref.index);
      }
    }
  }

  lemma FlushKeepsRefs(p: Part)
    requires PartOk(p) && RefsOk(p)
    ensures FlushAll(p.store, p.dlq).Flushed?
    ensures RefsOk(p.(store := FlushAll(p.store, p.dlq).store, dlq := []))
  {
    hide StoreOk, FlushAll;
    FlushPanicsIff(p.store, p.dlq);
    forall k | 0 <= k < |p.dlq|
      ensures !FindsFreeSlot(p.store, p.dlq, k)
    {
      assert forall j | 0 <= j < k :: p.dlq[..k][j] == p.dlq[j];
    }
    FlushedSlots(p.store, p.dlq);
  }

  // ---------------------------------------------------------------- runs

  /** Drops name jobs nothing refers to; dispatches remove every exhausted reference. */
  ghost predicate Careful(s: State, cfg: Config, e: Action) {
    match e
    case DropJob(id) => !(id in s.part.store.byId && Referenced(s.part, s.part.store.byId[id]))
    case Dispatch(count, now, _, _) => ExhaustedAreRemoved(s.part, cfg, count, now)
    case _ => true
  }

  lemma StepKeepsRefs(s: State, cfg: Config, e: Action)
    requires PartOk(s.part) && RefsOk(s.part) && Enabled(s, e) && Careful(s, cfg, e)
    ensures RefsOk(Next(s, cfg, e).part)
  {
    match e
    case Add(job, now) => AddNamedKeepsRefs(s.part, job, now);
    case MarkDone(id) => MarkKeepsStore(s.part.store, id);
    case DropJob(id) => DropKeepsRefsIff(s.part, id);
    case Dispatch(count, now, clock, accepted) => DispatchKeepsRefs(s.part, cfg, count, now, clock, accepted);
    case FlushDlq(_) => FlushKeepsRefs(s.part);
  }

  /** Over every careful run all references are sound, so a flush never meets a free slot and neither
      the double-release nor the corrupt-free-list panic can happen. */
  lemma {:induction false} ReferencesStaySound(states: seq<State>, cfg: Config, events: seq<Action>, i: nat)
    requires IsRun(states, cfg, events) && i <= |events|
    requires forall k | 0 <= k < |events| :: Careful(states[k], cfg, events[k])
    ensures PartOk(states[i].part) && RefsOk(states[i].part)
    ensures FlushAll(states[i].part.store, states[i].part.dlq).Flushed?
  {
    hide Next, Careful;
    NoUndoneJobIsForgotten(states, cfg, events, i);
    if i == 0 {
      var capacity :| states[0] == Start(capacity);
    } else {
      ReferencesStaySound(states, cfg, events, i - 1);
      StepKeepsRefs(states[i - 1], cfg, events[i - 1]);
    }
    FlushKeepsRefs(states[i].part);
  }

  /** What a caller sees: a drop names a job nothing refers to, and the batch of a dispatch has one due time or
      lists its cells in ascending order. */
  ghost predicate Tidy(s: State, e: Action) {
    match e
    case DropJob(id) => !(id in s.part.store.byId && Referenced(s.part, s.part.store.byId[id]))
    case Dispatch(count, now, _, _) =>
      OneDueTime(Batch(s.part.live, count, now)) || CellsAscend(Batch(s.part.live, count, now))
    case _ => true
  }

  lemma TidyIsCareful(s: State, cfg: Config, e: Action)
    requires PartOk(s.part) && Tidy(s, e)
    ensures Careful(s, cfg, e)
  {
    hide StoreOk, Batch, CellsAscend, OneDueTime, ExhaustedAreRemoved;
    if e.Dispatch? {
      if OneDueTime(Batch(s.part.live, e.count, e.now)) {
        OneDueTimeAscends(s.part.live, e.count, e.now);
      }
      AscendingBatchIsRemoved(s.part, cfg, e.count, e.now);
    }
  }

  /** Over every tidy run all references are sound and no flush panics. */
  lemma TidyRunsStaySound(states: seq<State>, cfg: Config, events: seq<Action>, i: nat)
    requires IsRun(states, cfg, events) && i <= |events|
    requires forall k | 0 <= k < |events| :: Tidy(states[k], events[k])
    ensures PartOk(states[i].part) && RefsOk(states[i].part)
    ensures FlushAll(states[i].part.store, states[i].part.dlq).Flushed?
  {
    hide Next, PartOk, RefsOk, Careful, Tidy;
    forall k | 0 <= k < |events|
      ensures Careful(states[k], cfg, events[k])
    {
      NoUndoneJobIsForgotten(states, cfg, events, k);
      TidyIsCareful(states[k], cfg, events[k]);
    }
    ReferencesStaySound(states, cfg, events, i);
  }
}
