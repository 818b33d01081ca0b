/** One partition as a value: what each command, each dispatch and each dead-letter flush does to the
    slab, the queue and the dead-letter buffer together. */
module Scheduler {
  import opened History
  import opened Slab
  import opened ReadyQueue
  import opened BatchSelection
  import opened Queue

  datatype DlqItem = DlqItem(ref: JobRef, size: nat)

  datatype Part = Part(store: Store, live: seq<JobRef>, capacity: nat, dlq: seq<DlqItem>)

  ghost predicate PartOk(p: Part) {
    StoreOk(p.store) && Numbered(p.live) && |p.live| <= p.capacity
  }

  // ---------------------------------------------------------------- commands

  /** One job of an add command: skipped if marked done or already stored; given back if the queue is full. */
  function AddOne(p: Part, job: Job, now: int): Part
    requires p.store.free != [] ==> p.store.free[|p.store.free| - 1] < |p.store.jobs|
  {
    if job.done || job.id in p.store.byId then p
    else
      var slot := SlotFor(p.store);
      var s := Created(p.store, job);
      if |p.live| >= p.capacity then p.(store := Released(s, slot))
      else p.(store := s, live := p.live + [JobRef(slot, 0, |p.live|, now)])
  }

  ghost predicate NamedJobs(jobs: seq<Job>) {
    forall i | 0 <= i < |jobs| :: jobs[i].id != ""
  }

  /** The jobs of one command, one after the other; `clock(i)` is read for the `i`-th. */
  ghost function AddAll(p: Part, jobs: seq<Job>, clock: nat -> int): (q: Part)
    requires FreeListOk(p.store)
    ensures FreeListOk(q.store)
  {
    if jobs == [] then p
    else
      var n := |jobs| - 1;
      var q := AddAll(p, jobs[..n], clock);
      AddKeepsFreeList(q, jobs[n], clock(n));
      AddOne(q, jobs[n], clock(n))
  }

  lemma AddKeepsFreeList(p: Part, job: Job, now: int)
    requires FreeListOk(p.store)
    ensures FreeListOk(AddOne(p, job, now).store)
  {
    CreateKeepsFreeList(p.store, job);
  }

  /** A job is turned away when it is new and the queue is full. */
  predicate IsRejected(p: Part, job: Job) {
    !job.done && job.id !in p.store.byId && |p.live| >= p.capacity
  }

  /** Giving back a job with an empty id is a release of a slot that looks free. */
  predicate AddPanics(p: Part, job: Job) {
    IsRejected(p, job) && job.id == ""
  }

  /** The ids reported as failed. */
  ghost function Rejected(p: Part, jobs: seq<Job>, clock: nat -> int): seq<JobId>
    requires FreeListOk(p.store)
  {
    if jobs == [] then []
    else
      var n := |jobs| - 1;
      var front := Rejected(p, jobs[..n], clock);
      if IsRejected(AddAll(p, jobs[..n], clock), jobs[n]) then front + [jobs[n].id] else front
  }

  /** Some job of the command meets the panic. */
  ghost predicate AnyAddPanics(p: Part, jobs: seq<Job>, clock: nat -> int)
    requires FreeListOk(p.store)
  {
    jobs != [] &&
    (var n := |jobs| - 1;
     AnyAddPanics(p, jobs[..n], clock) || AddPanics(AddAll(p, jobs[..n], clock), jobs[n]))
  }

  lemma {:induction false} AddPanicPersists(p: Part, jobs: seq<Job>, clock: nat -> int, i: nat)
    requires FreeListOk(p.store) && i <= |jobs| && AnyAddPanics(p, jobs[..i], clock)
    ensures AnyAddPanics(p, jobs, clock)
  {
    if i < |jobs| {
      assert jobs[..|jobs| - 1][..i] == jobs[..i];
      AddPanicPersists(p, jobs[..|jobs| - 1], clock, i);
    } else {
      assert jobs[..i] == jobs;
    }
  }

  lemma {:induction false} NamedNeverPanic(p: Part, jobs: seq<Job>, clock: nat -> int)
    requires FreeListOk(p.store)
    ensures NamedJobs(jobs) ==> !AnyAddPanics(p, jobs, clock)
  {
    if jobs != [] {
      NamedNeverPanic(p, jobs[..|jobs| - 1], clock);
    }
  }

  lemma NamedNext(jobs: seq<Job>, i: nat)
    requires i < |jobs|
    ensures NamedJobs(jobs[..i + 1]) <==> NamedJobs(jobs[..i]) && jobs[i].id != ""
    ensures NamedJobs(jobs) ==> NamedJobs(jobs[..i + 1])
  {
    assert jobs[..i + 1] == jobs[..i] + [jobs[i]];
  }

  lemma CreatedJob(s: Store, job: Job)
    requires FreeListOk(s)
    ensures SlotFor(s) < |Created(s, job).jobs| && Created(s, job).jobs[SlotFor(s)] == job
  {
  }

  /** A job that is taken is stored as it came and gets one reference at the end of the queue, due at once and never
      sent; any other job leaves queue, buffer and the index by id alone. */
  lemma AddedIsDueNow(p: Part, job: Job, now: int)
    requires FreeListOk(p.store)
    ensures var q := AddOne(p, job, now);
            if job.done || job.id in p.store.byId || |p.live| >= p.capacity then
              q.live == p.live && q.dlq == p.dlq && (IsRejected(p, job) || q.store == p.store) && q.store.byId == p.store.byId
            else
              && job.id in q.store.byId && q.store.byId[job.id] < |q.store.jobs| && q.store.jobs[q.store.byId[job.id]] == job
              && q.store.byId - {job.id} == p.store.byId && q.dlq == p.dlq
              && q.live == p.live + [JobRef(q.store.byId[job.id], 0, |p.live|, now)]
  {
    CreatedJob(p.store, job);
  }

  function DoneAll(s: Store, ids: seq<JobId>): Store {
    if ids == [] then s else MarkedDone(DoneAll(s, ids[..|ids| - 1]), ids[|ids| - 1])
  }

  function DropAll(s: Store, ids: seq<JobId>): Store {
    if ids == [] then s else ForceReleased(DropAll(s, ids[..|ids| - 1]), ids[|ids| - 1])
  }

  /** Some id of a drop command leads to a slot that looks free. */
  predicate AnyDropPanics(s: Store, ids: seq<JobId>) {
    ids != [] &&
    (AnyDropPanics(s, ids[..|ids| - 1]) || ReleasePanics(DropAll(s, ids[..|ids| - 1]), ids[|ids| - 1]))
  }

  lemma {:induction false} DropPanicPersists(s: Store, ids: seq<JobId>, i: nat)
    requires i <= |ids| && AnyDropPanics(s, ids[..i])
    ensures AnyDropPanics(s, ids)
  {
    if i < |ids| {
      assert ids[..|ids| - 1][..i] == ids[..i];
      DropPanicPersists(s, ids[..|ids| - 1], i);
    } else {
      assert ids[..i] == ids;
    }
  }

  // ---------------------------------------------------------------- dispatch

  /** The delay before the next attempt, in seconds. */
  function RetryDelay(retryCount: int, maxBackoff: int): (d: int)
    ensures 1 <= d <= 20
    ensures maxBackoff > 0 && retryCount > 0 ==> d <= maxBackoff
  {
    if retryCount <= 0 then 1
    else
      var base := match retryCount case 1 => 3 case 2 => 6 case 3 => 10 case 4 => 15 case _ => 20;
      var capped := if maxBackoff > 0 && base > maxBackoff then maxBackoff else base;
      if capped < 1 then 1 else capped
  }

  /** The delay does not shrink from one attempt to the next, and a configured maximum only cuts it off. */
  lemma RetryDelayGrows(retryCount: int, later: int, maxBackoff: int)
    requires retryCount <= later
    ensures RetryDelay(retryCount, maxBackoff) <= RetryDelay(later, maxBackoff)
    ensures 1 <= retryCount <= 5 ==> RetryDelay(retryCount, 0) == [3, 6, 10, 15, 20][retryCount - 1]
    ensures retryCount <= 0 ==> RetryDelay(retryCount, maxBackoff) == 1
    ensures retryCount > 0 && maxBackoff > 0 ==>
              var free := RetryDelay(retryCount, 0);
              RetryDelay(retryCount, maxBackoff) == if free < maxBackoff then free else maxBackoff
  {
  }

  predicate IsDead(s: Store, ref: JobRef) {
    !Live(s, ref.index) || s.jobs[ref.index].done
  }

  predicate IsExhausted(s: Store, ref: JobRef, maxRetries: int) {
    !IsDead(s, ref) && ref.retryCount >= maxRetries
  }

  /** The references of a batch that leave the queue: dead ones and exhausted ones, in batch order. */
  function Leaving(s: Store, items: seq<JobRef>, maxRetries: int): seq<JobRef> {
    if items == [] then []
    else
      var r := items[|items| - 1];
      var front := Leaving(s, items[..|items| - 1], maxRetries);
      if IsDead(s, r) || IsExhausted(s, r, maxRetries) then front + [r] else front
  }

  /** The references of a batch that are sent. */
  function Sendable(s: Store, items: seq<JobRef>, maxRetries: int): seq<JobRef> {
    if items == [] then []
    else
      var r := items[|items| - 1];
      var front := Sendable(s, items[..|items| - 1], maxRetries);
      if IsDead(s, r) || IsExhausted(s, r, maxRetries) then front else front + [r]
  }

  /** The dead-letter entries a batch adds. */
  function Buried(s: Store, items: seq<JobRef>, maxRetries: int): seq<DlqItem> {
    if items == [] then []
    else
      var r := items[|items| - 1];
      var front := Buried(s, items[..|items| - 1], maxRetries);
      if IsExhausted(s, r, maxRetries) then front + [DlqItem(r, s.jobs[r.index].size)] else front
  }

  /** The queue after the sent references have been put off; `clock(i)` is read for the `i`-th of them. */
  function PutOff(live: seq<JobRef>, sent: seq<JobRef>, clock: nat -> int, maxBackoff: int): seq<JobRef> {
    if sent == [] then live
    else
      var r, i := sent[|sent| - 1], |sent| - 1;
      Retried(PutOff(live, sent[..i], clock, maxBackoff), r.cell, r.retryCount + 1,
              clock(i) + RetryDelay(r.retryCount + 1, maxBackoff))
  }

  datatype Config = Config(maxRetries: int, maxBackoff: int)

  /** One dispatch of a batch of at most `count` references at time `now`; `accepted` says whether the
      proxy's channel took the message. */
  ghost function Dispatched(p: Part, cfg: Config, count: int, now: int, clock: nat -> int, accepted: bool): Part {
    var items := Batch(p.live, count, now);
    var sent := Sendable(p.store, items, cfg.maxRetries);
    var live := if accepted && sent != [] then PutOff(p.live, sent, clock, cfg.maxBackoff) else p.live;
    p.(live := RemoveRefs(live, CellsOf(Leaving(p.store, items, cfg.maxRetries))),
       dlq := p.dlq + Buried(p.store, items, cfg.maxRetries))
  }

  // ---------------------------------------------------------------- dead-letter flush

  /** A flush reads the job of every buffered reference without checking that its slot is still used. */
  datatype Flush = Panicked | Flushed(store: Store, drops: seq<JobId>)

  function FlushAll(s: Store, items: seq<DlqItem>): Flush {
    if items == [] then Flushed(s, [])
    else
      match FlushAll(s, items[..|items| - 1])
      case Panicked => Panicked
      case Flushed(t, drops) =>
        var slot := items[|items| - 1].ref.index;
        if !Live(t, slot) then Panicked
        else if t.jobs[slot].done then Flushed(Released(t, slot), drops)
        else Flushed(t, drops + [t.jobs[slot].id])
  }

  // ---------------------------------------------------------------- facts about a batch

  /** Items of a batch are references of the queue, at distinct cells. */
  ghost predicate IsBatch(live: seq<JobRef>, items: seq<JobRef>) {
    && (forall i | 0 <= i < |items| :: 0 <= items[i].cell < |live| && live[items[i].cell] == items[i])
    && (forall i, j | 0 <= i < j < |items| :: items[i].cell != items[j].cell)
  }

  lemma BatchIsBatch(live: seq<JobRef>, count: int, now: int)
    requires Numbered(live)
    ensures IsBatch(live, Batch(live, count, now))
  {
    hide Batch;
    BatchIsOldestFirst(live, count, now);
    var b := Batch(live, count, now);
    forall i | 0 <= i < |b|
      ensures 0 <= b[i].cell < |live| && live[b[i].cell] == b[i]
    {
      var k :| 0 <= k < |live| && live[k] == b[i];
    }
    forall i, j | 0 <= i < j < |b|
      ensures b[i].cell != b[j].cell
    {
      assert CellsOf(b)[i] != CellsOf(b)[j];
    }
  }

  lemma {:induction false} LeavingMembers(s: Store, items: seq<JobRef>, maxRetries: int, live: seq<JobRef>)
    requires IsBatch(live, items)
    ensures IsBatch(live, Leaving(s, items, maxRetries))
    ensures forall r :: r in Leaving(s, items, maxRetries) <==> r in items && (IsDead(s, r) || IsExhausted(s, r, maxRetries))
  {
    if items != [] {
      var f, r := items[..|items| - 1], items[|items| - 1];
      assert items == f + [r];
      LeavingMembers(s, f, maxRetries, live);
      var l := Leaving(s, f, maxRetries);
      forall i | 0 <= i < |l|
        ensures l[i].cell != r.cell
      {
        assert l[i] in f;
        var k :| 0 <= k < |f| && f[k] == l[i];
        assert items[k].cell != items[|f|].cell;
      }
    }
  }

  lemma {:induction false} SendableMembers(s: Store, items: seq<JobRef>, maxRetries: int, live: seq<JobRef>)
    requires IsBatch(live, items)
    ensures IsBatch(live, Sendable(s, items, maxRetries))
    ensures forall r :: r in Sendable(s, items, maxRetries) <==> r in items && !IsDead(s, r) && !IsExhausted(s, r, maxRetries)
  {
    if items != [] {
      var f, r := items[..|items| - 1], items[|items| - 1];
      assert items == f + [r];
      SendableMembers(s, f, maxRetries, live);
      var l := Sendable(s, f, maxRetries);
      forall i | 0 <= i < |l|
        ensures l[i].cell != r.cell
      {
        assert l[i] in f;
        var k :| 0 <= k < |f| && f[k] == l[i];
        assert items[k].cell != items[|f|].cell;
      }
    }
  }

  lemma {:induction false} BuriedMembers(s: Store, items: seq<JobRef>, maxRetries: int)
    ensures forall k | 0 <= k < |Buried(s, items, maxRetries)| ::
              Buried(s, items, maxRetries)[k].ref in items && IsExhausted(s, Buried(s, items, maxRetries)[k].ref, maxRetries)
    ensures forall r | r in items && IsExhausted(s, r, maxRetries) ::
              exists k :: 0 <= k < |Buried(s, items, maxRetries)| && Buried(s, items, maxRetries)[k].ref == r
  {
    if items != [] {
      var f, r := items[..|items| - 1], items[|items| - 1];
      assert items == f + [r];
      BuriedMembers(s, f, maxRetries);
      var b, c := Buried(s, f, maxRetries), Buried(s, items, maxRetries);
      forall q | q in items && IsExhausted(s, q, maxRetries)
        ensures exists k :: 0 <= k < |c| && c[k].ref == q
      {
        if q in f {
          var k :| 0 <= k < |b| && b[k].ref == q;
          assert c[k].ref == q;
        } else {
          assert c[|c| - 1].ref == q;
        }
      }
    }
  }

  /** A reference whose job is stored, not done and has attempts left. */
  predicate HasAttempt(s: Store, r: JobRef, maxRetries: int) {
    0 <= r.index < |s.jobs| && s.jobs[r.index].id != "" && !s.jobs[r.index].done && r.retryCount < maxRetries
  }

  /** A reference whose job is stored and not done, without attempts left. */
  predicate UsedUp(s: Store, r: JobRef, maxRetries: int) {
    0 <= r.index < |s.jobs| && s.jobs[r.index].id != "" && !s.jobs[r.index].done && r.retryCount >= maxRetries
  }

  /** What becomes of a batch of one. */
  lemma SplitOfOne(s: Store, r: JobRef, maxRetries: int)
    ensures Sendable(s, [r], maxRetries) == if HasAttempt(s, r, maxRetries) then [r] else []
    ensures Leaving(s, [r], maxRetries) == if HasAttempt(s, r, maxRetries) then [] else [r]
    ensures Buried(s, [r], maxRetries) == if UsedUp(s, r, maxRetries) then [DlqItem(r, s.jobs[r.index].size)] else []
  {
    assert [r][..0] == [];
  }

  lemma {:induction false} SendableOfConcat(s: Store, a: seq<JobRef>, b: seq<JobRef>, maxRetries: int)
    ensures Sendable(s, a + b, maxRetries) == Sendable(s, a, maxRetries) + Sendable(s, b, maxRetries)
    decreases |b|
  {
    hide IsDead, IsExhausted;
    if b == [] {
      assert a + b == a;
    } else {
      assert (a + b)[..|a + b| - 1] == a + b[..|b| - 1];
      SendableOfConcat(s, a, b[..|b| - 1], maxRetries);
    }
  }

  lemma {:induction false} LeavingOfConcat(s: Store, a: seq<JobRef>, b: seq<JobRef>, maxRetries: int)
    ensures Leaving(s, a + b, maxRetries) == Leaving(s, a, maxRetries) + Leaving(s, b, maxRetries)
    decreases |b|
  {
    hide IsDead, IsExhausted;
    if b == [] {
      assert a + b == a;
    } else {
      assert (a + b)[..|a + b| - 1] == a + b[..|b| - 1];
      LeavingOfConcat(s, a, b[..|b| - 1], maxRetries);
    }
  }

  lemma {:induction false} BuriedOfConcat(s: Store, a: seq<JobRef>, b: seq<JobRef>, maxRetries: int)
    ensures Buried(s, a + b, maxRetries) == Buried(s, a, maxRetries) + Buried(s, b, maxRetries)
    decreases |b|
  {
    if b == [] {
      assert a + b == a;
    } else {
      assert (a + b)[..|a + b| - 1] == a + b[..|b| - 1];
      BuriedOfConcat(s, a, b[..|b| - 1], maxRetries);
    }
  }

  /** A batch is treated item by item in its order. */
  lemma SplitInOrder(s: Store, a: seq<JobRef>, b: seq<JobRef>, maxRetries: int)
    ensures Sendable(s, a + b, maxRetries) == Sendable(s, a, maxRetries) + Sendable(s, b, maxRetries)
    ensures Leaving(s, a + b, maxRetries) == Leaving(s, a, maxRetries) + Leaving(s, b, maxRetries)
    ensures Buried(s, a + b, maxRetries) == Buried(s, a, maxRetries) + Buried(s, b, maxRetries)
  {
    SendableOfConcat(s, a, b, maxRetries);
    LeavingOfConcat(s, a, b, maxRetries);
    BuriedOfConcat(s, a, b, maxRetries);
  }

  /** A flush treats its buffer item by item in order: a panic anywhere is a panic of the whole. */
  lemma {:induction false} FlushInOrder(s: Store, a: seq<DlqItem>, b: seq<DlqItem>)
    ensures FlushAll(s, a + b) ==
            match FlushAll(s, a)
            case Panicked => Panicked
            case Flushed(t, first) =>
              match FlushAll(t, b)
              case Panicked => Panicked
              case Flushed(u, second) => Flushed(u, first + second)
    decreases |b|
  {
    if b == [] {
      assert a + b == a;
    } else {
      assert (a + b)[..|a + b| - 1] == a + b[..|b| - 1];
      FlushInOrder(s, a, b[..|b| - 1]);
    }
  }

  /** An add command treats its jobs in order: the jobs of `a` find the queue as it was, those of `b` what `a` left. */
  lemma {:induction false} AddInOrder(p: Part, a: seq<Job>, b: seq<Job>, clock: nat -> int)
    requires FreeListOk(p.store)
    ensures var later := (i: nat) => clock(|a| + i);
            && AddAll(p, a + b, clock) == AddAll(AddAll(p, a, clock), b, later)
            && Rejected(p, a + b, clock) == Rejected(p, a, clock) + Rejected(AddAll(p, a, clock), b, later)
    decreases |b|
  {
    hide AddOne, FreeListOk, IsRejected;
    if b == [] {
      assert a + b == a;
    } else {
      var f := b[..|b| - 1];
      assert (a + b)[..|a + b| - 1] == a + f && (a + b)[|a + b| - 1] == b[|b| - 1];
      AddInOrder(p, a, f, clock);
    }
  }

  /** Putting off leaves slots, cells and everything that was not sent alone. */
  lemma {:induction false} PutOffKeeps(live: seq<JobRef>, sent: seq<JobRef>, clock: nat -> int, maxBackoff: int)
    ensures |PutOff(live, sent, clock, maxBackoff)| == |live|
    ensures forall k | 0 <= k < |live| ::
              PutOff(live, sent, clock, maxBackoff)[k].index == live[k].index &&
              PutOff(live, sent, clock, maxBackoff)[k].cell == live[k].cell
    ensures forall k | 0 <= k < |live| && (forall i | 0 <= i < |sent| :: sent[i].cell != k) ::
              PutOff(live, sent, clock, maxBackoff)[k] == live[k]
  {
    hide RetryDelay;
    if sent != [] {
      PutOffKeeps(live, sent[..|sent| - 1], clock, maxBackoff);
    }
  }

  /** A sent reference has one attempt more and is due after the delay for that attempt. */
  lemma {:induction false} PutOffSent(live: seq<JobRef>, sent: seq<JobRef>, clock: nat -> int, maxBackoff: int, i: nat)
    requires IsBatch(live, sent) && i < |sent|
    ensures |PutOff(live, sent, clock, maxBackoff)| == |live|
    ensures PutOff(live, sent, clock, maxBackoff)[sent[i].cell] ==
              sent[i].(retryCount := sent[i].retryCount + 1,
                       dueTimeSec := clock(i) + RetryDelay(sent[i].retryCount + 1, maxBackoff))
  {
    hide RetryDelay;
    var f := sent[..|sent| - 1];
    PutOffKeeps(live, f, clock, maxBackoff);
    if i < |f| {
      PutOffSent(live, f, clock, maxBackoff, i);
      assert sent[i].cell != sent[|f|].cell;
    } else {
      forall j | 0 <= j < |f|
        ensures f[j].cell != sent[i].cell
      {
        assert sent[j].cell != sent[|f|].cell;
      }
    }
  }
}
