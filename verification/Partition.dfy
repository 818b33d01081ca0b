/** One partition as the program keeps it: the slab, the queue, the dead-letter buffer and the proxy
    table, updated in place and tied together by slot and cell numbers. */
module Dispatching {
  import opened History
  import opened Slab
  import opened ReadyQueue
  import opened BatchSelection
  import opened Queue
  import opened Scheduler
  import opened Proxies

  function Bytes(items: seq<DlqItem>): nat {
    if items == [] then 0 else Bytes(items[..|items| - 1]) + items[|items| - 1].size
  }

  lemma NoBytes()
    ensures Bytes([]) == 0
  {
  }

  class DlqBuffer {
    const store: JobStore
    const maxBytes: int
    const maxAgeMs: int
    var jobs: seq<DlqItem>
    var bytes: int
    var lastFlush: int

    ghost predicate Valid()
      reads this
    {
      bytes == Bytes(jobs) && forall k | 0 <= k < |jobs| :: jobs[k].ref.index >= 0
    }

    constructor (store: JobStore, maxBytes: int, maxAgeMs: int, now: int)
      ensures Valid() && this.store == store && jobs == [] && lastFlush == now
      ensures this.maxBytes == maxBytes && this.maxAgeMs == maxAgeMs
    {
      this.store, this.maxBytes, this.maxAgeMs := store, maxBytes, maxAgeMs;
      jobs, bytes, lastFlush := [], 0, now;
    }

    predicate ShouldFlush(now: int)
      reads this
    {
      bytes >= maxBytes || now - lastFlush >= maxAgeMs
    }

    /** Buffers a reference; a job that is already done is released instead. */
    method Add(ref: JobRef, size: nat, alreadyDone: bool, now: int) returns (full: bool, panicked: bool)
      requires Valid() && FreeListOk(store.Model()) && ref.index >= 0
      modifies this, store
      ensures Valid() && FreeListOk(store.Model()) && (old(store.Valid()) ==> store.Valid()) && lastFlush == old(lastFlush)
      ensures panicked <==> alreadyDone && ref.index < |old(store.jobs)| && !Live(old(store.Model()), ref.index)
      ensures alreadyDone ==> !full && jobs == old(jobs)
      ensures alreadyDone && !panicked ==> store.Model() == Released(old(store.Model()), ref.index)
      ensures !alreadyDone ==> (full <==> Bytes(jobs) >= maxBytes || now - lastFlush >= maxAgeMs)
      ensures !alreadyDone ==> jobs == old(jobs) + [DlqItem(ref, size)] && store.Model() == old(store.Model())
    {
      hide StoreOk, FreeListOk, Released;
      if alreadyDone {
        panicked := store.Release(ref.index);
        return false, panicked;
      }
      jobs := jobs + [DlqItem(ref, size)];
      assert jobs[..|jobs| - 1] == old(jobs);
      bytes := bytes + size;
      return ShouldFlush(now), false;
    }

    /** Turns the buffer into drop proposals. `None` stands for the panic on a free slot. */
    method Flush(now: int) returns (drops: Option<seq<JobId>>)
      requires Valid() && FreeListOk(store.Model())
      modifies this, store
      ensures drops.None? <==> FlushAll(old(store.Model()), old(jobs)).Panicked?
      ensures FreeListOk(store.Model()) && (old(store.Valid()) ==> store.Valid())
      ensures drops.Some? ==> Valid() && jobs == []
      ensures drops.Some? ==> lastFlush == if old(jobs) == [] then old(lastFlush) else now
      ensures drops.Some? ==> Flushed(store.Model(), drops.value) == FlushAll(old(store.Model()), old(jobs))
    {
      hide StoreOk, FreeListOk, Bytes, Released;
      if jobs == [] {
        return Some([]);
      }
      ghost var s := store.Model();
      var ids := [];
      for i := 0 to |jobs|
        invariant jobs == old(jobs) && FreeListOk(store.Model()) && (old(store.Valid()) ==> store.Valid())
        invariant FlushAll(s, jobs[..i]) == Flushed(store.Model(), ids)
      {
        assert jobs[..i + 1][..i] == jobs[..i];
        var slot := jobs[i].ref.index;
        var job := store.Get(slot);
        if job.None? {
          PanicPersists(s, jobs, i + 1);
          return None;
        }
        if job.value.done {
          var panicked := store.Release(slot);
          assert !panicked;
        } else {
          ids := ids + [job.value.id];
        }
      }
      assert jobs[..|jobs|] == jobs;
      jobs, bytes, lastFlush := [], 0, now;
      NoBytes();
      return Some(ids);
    }
  }

  lemma {:induction false} PanicPersists(s: Store, items: seq<DlqItem>, i: nat)
    requires i <= |items| && FlushAll(s, items[..i]).Panicked?
    ensures FlushAll(s, items).Panicked?
  {
    if i < |items| {
      assert items[..|items| - 1][..i] == items[..i];
      PanicPersists(s, items[..|items| - 1], i);
    } else {
      assert items[..i] == items;
    }
  }

  function BatchSize(wanted: int, room: int): (size: int)
    ensures size <= wanted && size <= room && size <= 4096 && size in {wanted, room, 4096}
  {
    var fits := if wanted < room then wanted else room;
    if fits > 4096 then 4096 else fits
  }

  datatype Outcome = Kept | TurnedAway | Crashed

  class Partition {
    const store: JobStore
    const queue: ProcessQueue
    const dlq: DlqBuffer
    const proxyMap: ProxyMap
    const cfg: Config
    const dispatchBatchSize: int

    ghost function Model(): Part
      requires queue.liveCount <= queue.records.Length
      reads this, store, queue, queue.records, dlq
    {
      Part(store.Model(), queue.Live(), queue.records.Length, dlq.jobs)
    }

    ghost predicate Valid()
      reads this, store, queue, queue.records, dlq, proxyMap
    {
      && dlq.store == store && store.Valid() && queue.Valid() && dlq.Valid() && proxyMap.Valid()
      && forall k | 0 <= k < |queue.Live()| :: queue.Live()[k].index >= 0
    }

    constructor (store: JobStore, queue: ProcessQueue, dlq: DlqBuffer, proxyMap: ProxyMap, cfg: Config, dispatchBatchSize: int)
      ensures this.store == store && this.queue == queue && this.dlq == dlq && this.proxyMap == proxyMap
      ensures this.cfg == cfg && this.dispatchBatchSize == dispatchBatchSize
    {
      this.store, this.queue, this.dlq, this.proxyMap := store, queue, dlq, proxyMap;
      this.cfg, this.dispatchBatchSize := cfg, dispatchBatchSize;
    }

    /** What is left of validity if a job with an empty id was stored. */
    ghost predicate Usable()
      reads this, store, queue, queue.records, dlq, proxyMap
    {
      && dlq.store == store && FreeListOk(store.Model()) && queue.Valid() && dlq.Valid() && proxyMap.Valid()
      && forall k | 0 <= k < |queue.Live()| :: queue.Live()[k].index >= 0
    }

    /** Adds one job. A job that finds the queue full is given back, which panics if its id is empty. */
    method AddJob(job: Job, now: int) returns (o: Outcome)
      requires Usable()
      modifies store, queue`liveCount, queue.records
      ensures Usable()
      ensures o.Crashed? <==> AddPanics(old(Model()), job)
      ensures o.TurnedAway? <==> IsRejected(old(Model()), job) && !AddPanics(old(Model()), job)
      ensures !o.Crashed? ==> Model() == AddOne(old(Model()), job, now)
      ensures old(Valid()) && !o.Crashed? ==> (Valid() <==> job.done || job.id != "")
    {
      hide StoreOk, Created, Released;
      if job.done {
        return Kept;
      }
      assert Valid() ==> "" !in store.byId by { if Valid() { StoreHasFreeList(store.Model()); } }
      var slot := store.Create(job);
      if slot.None? {
        return Kept;
      }
      CreatedJob(old(store.Model()), job);
      var ok := queue.AddNewJob(JobRef(slot.value, 0, 0, now));
      if ok {
        return Kept;
      }
      var panicked := store.Release(slot.value);
      return if panicked then Crashed else TurnedAway;
    }

    /** Adds the jobs of one command and reports those that were turned away. */
    method HandleAddJobs(jobs: seq<Job>, clock: nat -> int) returns (panicked: bool, failures: seq<JobId>)
      requires Usable()
      modifies store, queue`liveCount, queue.records
      ensures Usable() && panicked == AnyAddPanics(old(Model()), jobs, clock)
      ensures !panicked ==> Model() == AddAll(old(Model()), jobs, clock) && failures == Rejected(old(Model()), jobs, clock)
      ensures old(Valid()) && NamedJobs(jobs) ==> Valid() && !panicked
    {
      hide StoreOk, FreeListOk, AddOne, AddPanics, IsRejected, NamedJobs;
      ghost var p := Model();
      failures := [];
      for i := 0 to |jobs|
        invariant Usable() && (old(Valid()) && NamedJobs(jobs[..i]) ==> Valid())
        invariant Model() == AddAll(p, jobs[..i], clock) && failures == Rejected(p, jobs[..i], clock)
        invariant !AnyAddPanics(p, jobs[..i], clock)
      {
        assert jobs[..i + 1][..i] == jobs[..i];
        var o := AddJob(jobs[i], clock(i));
        NamedNext(jobs, i);
        if o.Crashed? {
          AddPanicPersists(p, jobs, clock, i + 1);
          NamedNeverPanic(p, jobs, clock);
          return true, failures;
        }
        if o.TurnedAway? {
          failures := failures + [jobs[i].id];
        }
      }
      assert jobs[..|jobs|] == jobs;
      return false, failures;
    }

    method HandleDone(ids: seq<JobId>)
      requires Usable()
      modifies store
      ensures Usable() && (old(Valid()) ==> Valid())
      ensures Model() == old(Model()).(store := DoneAll(old(store.Model()), ids))
    {
      hide StoreOk, FreeListOk, MarkedDone;
      ghost var s := store.Model();
      for i := 0 to |ids|
        invariant Usable() && (old(Valid()) ==> Valid()) && store.Model() == DoneAll(s, ids[..i])
      {
        assert ids[..i + 1][..i] == ids[..i];
        var found := store.MarkDone(ids[i]);
      }
      assert ids[..|ids|] == ids;
    }

    /** Drops the jobs of one command; `panicked` says that an id led to a slot that looks free. */
    method HandleDrop(ids: seq<JobId>) returns (panicked: bool)
      requires Usable()
      modifies store
      ensures Usable() && (old(Valid()) ==> Valid() && !panicked)
      ensures panicked == AnyDropPanics(old(store.Model()), ids)
      ensures !panicked ==> Model() == old(Model()).(store := DropAll(old(store.Model()), ids))
    {
      hide StoreOk, FreeListOk, ForceReleased, ReleasePanics;
      ghost var s := store.Model();
      for i := 0 to |ids|
        invariant Usable() && (old(Valid()) ==> Valid())
        invariant store.Model() == DropAll(s, ids[..i]) && !AnyDropPanics(s, ids[..i])
      {
        assert ids[..i + 1][..i] == ids[..i];
        var found, panics := store.ForceRelease(ids[i]);
        if panics {
          DropPanicPersists(s, ids, i + 1);
          return true;
        }
      }
      assert ids[..|ids|] == ids;
      return false;
    }

    /** The retry delay as the program computes it. */
    method CalculateRetryDelaySec(retryCount: int) returns (delay: int)
      ensures delay == RetryDelay(retryCount, cfg.maxBackoff) && 1 <= delay <= 20
      ensures retryCount > 0 && cfg.maxBackoff > 0 ==> delay <= cfg.maxBackoff
    {
      if retryCount <= 0 {
        return 1;
      }
      match retryCount {
        case 1 => delay := 3;
        case 2 => delay := 6;
        case 3 => delay := 10;
        case 4 => delay := 15;
        case _ => delay := 20;
      }
      if cfg.maxBackoff > 0 && delay > cfg.maxBackoff {
        delay := cfg.maxBackoff;
      }
      if delay < 1 {
        delay := 1;
      }
    }

    /** Splits a batch into references to send and references to remove, and buries the exhausted ones. */
    method Classify(items: seq<JobRef>, nowMs: int) returns (sent: seq<JobRef>, leaving: seq<JobRef>)
      requires Usable() && forall i | 0 <= i < |items| :: items[i].index >= 0
      modifies dlq, store
      ensures Usable() && store.Model() == old(store.Model())
      ensures sent == Sendable(store.Model(), items, cfg.maxRetries)
      ensures leaving == Leaving(store.Model(), items, cfg.maxRetries)
      ensures dlq.jobs == old(dlq.jobs) + Buried(store.Model(), items, cfg.maxRetries)
    {
      hide StoreOk, FreeListOk;
      sent, leaving := [], [];
      ghost var s := store.Model();
      for i := 0 to |items|
        invariant Usable() && store.Model() == s
        invariant sent == Sendable(s, items[..i], cfg.maxRetries) && leaving == Leaving(s, items[..i], cfg.maxRetries)
        invariant dlq.jobs == old(dlq.jobs) + Buried(s, items[..i], cfg.maxRetries)
      {
        assert items[..i + 1][..i] == items[..i];
        var item := items[i];
        var job := store.Get(item.index);
        if job.None? || job.value.done {
          leaving := leaving + [item];
        } else if item.retryCount >= cfg.maxRetries {
          var full, panicked := dlq.Add(item, job.value.size, job.value.done, nowMs);
          leaving := leaving + [item];
        } else {
          sent := sent + [item];
        }
      }
      assert items[..|items|] == items;
    }

    /** Puts off the references that were sent. */
    method PutOffSent(sent: seq<JobRef>, clock: nat -> int)
      requires Usable()
      modifies queue.records
      ensures Usable() && queue.Live() == PutOff(old(queue.Live()), sent, clock, cfg.maxBackoff)
    {
      hide RetryDelay, StoreOk, FreeListOk;
      ghost var live := queue.Live();
      for i := 0 to |sent|
        invariant Usable() && queue.Live() == PutOff(live, sent[..i], clock, cfg.maxBackoff)
      {
        assert sent[..i + 1][..i] == sent[..i];
        var delay := CalculateRetryDelaySec(sent[i].retryCount + 1);
        var ok := queue.UpdateRetry(sent[i].cell, sent[i].retryCount + 1, clock(i) + delay);
      }
      assert sent[..|sent|] == sent;
    }

    /** Reads a batch, classifies it, sends what can be sent and removes what leaves. */
    method DispatchBatch(count: int, now: int, nowMs: int, clock: nat -> int, marshals: bool, channelTakes: bool)
      requires Usable() && now <= MAX_INT64
      modifies queue`liveCount, queue.records, dlq, store
      ensures Usable() && (old(Valid()) ==> Valid())
      ensures Model() == Dispatched(old(Model()), cfg, count, now, clock, marshals && channelTakes)
    {
      hide StoreOk, FreeListOk, Batch, PutOff, RemoveRefs, Sendable, Leaving, Buried;
      ghost var p := Model();
      var items := queue.ReadBatch(count, now);
      BatchIsBatch(p.live, count, now);
      if items == [] {
        EmptyBatch(p, cfg);
        return;
      }
      var sent, leaving := Classify(items, nowMs);
      if sent == [] || !marshals {
        queue.RemoveCells(leaving);
        SlotsSurviveRemoval(p.live, CellsOf(leaving));
        return;
      }
      if channelTakes {
        PutOffSent(sent, clock);
      }
      ghost var mid := queue.Live();
      queue.RemoveCells(leaving);
      SlotsSurviveRemoval(mid, CellsOf(leaving));
    }

    /** One dispatch: a batch is read exactly when the node leads and the channel of the proxy whose turn it
        is has room; the batch is as large as its consumers, the room and the limit of 4096 allow. Every
        attempt by a leader moves the turn on, whether or not anything is read. */
    method Dispatch(isLeader: bool, pushRoom: map<ProxyId, int>, now: int, nowMs: int, clock: nat -> int,
                    marshals: bool, channelTakes: bool) returns (read: Option<int>)
      requires Usable() && now <= MAX_INT64
      modifies queue`liveCount, queue.records, dlq, store, proxyMap`roundRobin
      ensures Usable() && (old(Valid()) ==> Valid())
      ensures read.None? ==> Model() == old(Model())
      ensures read.Some? ==> Model() == Dispatched(old(Model()), cfg, read.value, now, clock, marshals && channelTakes)
      ensures !isLeader || proxyMap.available == [] ==> read.None? && proxyMap.roundRobin == old(proxyMap.roundRobin)
      ensures isLeader && proxyMap.available != [] ==>
                var n := |proxyMap.available|;
                var id := proxyMap.available[old(proxyMap.roundRobin) % n];
                && proxyMap.roundRobin == Successor(old(proxyMap.roundRobin), n)
                && (read.Some? <==> id in pushRoom && pushRoom[id] > 0)
                && (read.Some? ==> read.value == BatchSize(proxyMap.proxies[id].consumers * dispatchBatchSize, pushRoom[id]))
    {
      hide Dispatched, StoreOk, FreeListOk;
      if !isLeader || |proxyMap.available| == 0 {
        return None;
      }
      var choice := proxyMap.GetNextAvailable();
      if choice.NoProxy? || choice.consumers <= 0 || choice.id !in pushRoom || pushRoom[choice.id] <= 0 {
        return None;
      }
      var want, room := choice.consumers * dispatchBatchSize, pushRoom[choice.id];
      var size := if want < room then want else room;
      if size > 4096 {
        size := 4096;
      }
      DispatchBatch(size, now, nowMs, clock, marshals, channelTakes);
      return Some(size);
    }

    /** Flushes the dead-letter buffer if it holds enough bytes or the last flush is long enough ago, which empties it.
        The proposal is lost if the channel is full; `panicked` says that a buffered reference met a free slot. */
    method FlushDlqIfNeeded(nowMs: int, channelTakes: bool) returns (panicked: bool, proposed: seq<JobId>)
      requires Usable()
      modifies dlq, store
      ensures old(dlq.ShouldFlush(nowMs)) <==> Bytes(old(dlq.jobs)) >= dlq.maxBytes || nowMs - old(dlq.lastFlush) >= dlq.maxAgeMs
      ensures !panicked ==> dlq.lastFlush == if old(dlq.ShouldFlush(nowMs)) && old(dlq.jobs) != [] then nowMs else old(dlq.lastFlush)
      ensures panicked <==> old(dlq.ShouldFlush(nowMs)) && FlushAll(old(store.Model()), old(dlq.jobs)).Panicked?
      ensures !old(dlq.ShouldFlush(nowMs)) ==> Model() == old(Model()) && proposed == []
      ensures !panicked ==> Usable() && (old(Valid()) ==> Valid())
      ensures !panicked && old(dlq.ShouldFlush(nowMs)) ==>
                var f := FlushAll(old(store.Model()), old(dlq.jobs));
                && Model() == old(Model()).(store := f.store, dlq := [])
                && proposed == if channelTakes then f.drops else []
    {
      hide StoreOk, FreeListOk;
      if !dlq.ShouldFlush(nowMs) {
        return false, [];
      }
      var drops := dlq.Flush(nowMs);
      if drops.None? {
        return true, [];
      }
      if channelTakes {
        return false, drops.value;
      }
      return false, [];
    }
  }

  lemma EmptyBatch(p: Part, cfg: Config)
    ensures Sendable(p.store, [], cfg.maxRetries) == [] && Buried(p.store, [], cfg.maxRetries) == []
    ensures RemoveRefs(p.live, CellsOf(Leaving(p.store, [], cfg.maxRetries))) == p.live
  {
  }

  lemma {:induction false} SlotsSurviveRemoval(live: seq<JobRef>, cells: seq<int>)
    requires forall k | 0 <= k < |live| :: live[k].index >= 0
    ensures forall k | 0 <= k < |RemoveRefs(live, cells)| :: RemoveRefs(live, cells)[k].index >= 0
  {
    if cells != [] {
      SlotsSurviveRemoval(live, cells[1..]);
    }
  }
}
