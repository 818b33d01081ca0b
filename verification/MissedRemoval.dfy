/** A run of seven steps after which a dispatch misses the removal of an exhausted reference.

    Jobs x, a and b are queued; x is done and leaves, so b moves into its cell, before a. Then a is sent, then
    b, and both are exhausted: a is due first and sits in the later cell. */
module MissedRemoval {
  import opened Slab
  import opened ReadyQueue
  import opened BatchSelection
  import opened Queue
  import opened Scheduler
  import opened PartitionRuns
  import opened References

  const ONE_RETRY := Config(1, 0)
  const JOB_X := Job("x", false, 0)
  const JOB_A := Job("a", false, 0)
  const JOB_B := Job("b", false, 0)
  const STORE_X := Store([JOB_X], [], map["x" := 0])
  const STORE_XA := Store([JOB_X, JOB_A], [], map["x" := 0, "a" := 1])
  const STORE_XAB := Store([JOB_X, JOB_A, JOB_B], [], map["x" := 0, "a" := 1, "b" := 2])
  const X_DONE := Store([Job("x", true, 0), JOB_A, JOB_B], [], map["x" := 0, "a" := 1, "b" := 2])

  const REF_X := JobRef(0, 0, 0, 1)
  const REF_A := JobRef(1, 0, 1, 1)
  const REF_B := JobRef(2, 0, 2, 2)
  const MOVED_B := JobRef(2, 0, 0, 2)
  const SENT_A := JobRef(1, 1, 1, 5)
  const SENT_B := JobRef(2, 1, 0, 6)

  function Queued(store: Store, live: seq<JobRef>): State {
    State(Part(store, live, 3, []), {}, {})
  }

  function Tick(now: int): Action {
    Dispatch(1, now, (i: nat) => now, true)
  }

  // ---------------------------------------------------------------- reading small batches

  /** The batch is taken from the oldest due time alone. */
  lemma BatchAtOldest(live: seq<JobRef>, count: int, now: int, t: int)
    requires 0 < count <= |DueAt(live, t)| && t in Dues(live, now) && forall u | u in Dues(live, now) :: t <= u
    ensures Batch(live, count, now) == DueAt(live, t)[..count]
  {
    hide DueAt;
    assert Least(Dues(live, now)) == t;
    hide Dues;
  }

  lemma DueAtOne(r: JobRef, t: int)
    ensures DueAt([r], t) == if r.dueTimeSec == t then [r] else []
  {
    assert [r][..0] == [] && [] + [r] == [r];
  }

  lemma DueAtNext(live: seq<JobRef>, r: JobRef, t: int)
    ensures DueAt(live + [r], t) == if r.dueTimeSec == t then DueAt(live, t) + [r] else DueAt(live, t)
  {
    assert (live + [r])[..|live|] == live;
  }

  lemma OneItem(s: Store, r: JobRef)
    ensures Leaving(s, [r], 1) == if IsDead(s, r) || IsExhausted(s, r, 1) then [r] else []
    ensures Sendable(s, [r], 1) == if IsDead(s, r) || IsExhausted(s, r, 1) then [] else [r]
    ensures Buried(s, [r], 1) == if IsExhausted(s, r, 1) then [DlqItem(r, s.jobs[r.index].size)] else []
  {
    assert [r][..0] == [] && [] + [r] == [r];
  }

  lemma RemoveOne(live: seq<JobRef>, r: JobRef)
    ensures RemoveRefs(live, CellsOf([r])) == RemoveRef(live, r.cell)
    ensures RemoveRefs(live, CellsOf([])) == live
  {
    assert CellsOf([r]) == [r.cell] && [r.cell][1..] == [];
  }

  lemma PutOffOne(live: seq<JobRef>, r: JobRef, clock: nat -> int)
    ensures PutOff(live, [r], clock, 0) == Retried(live, r.cell, r.retryCount + 1, clock(0) + RetryDelay(r.retryCount + 1, 0))
  {
    assert [r][..0] == [];
  }

  /** A dispatch of one dead reference removes it. */
  lemma TickRemoves(s: Store, live: seq<JobRef>, r: JobRef, now: int)
    requires Batch(live, 1, now) == [r] && IsDead(s, r)
    ensures Dispatched(Part(s, live, 3, []), ONE_RETRY, 1, now, (i: nat) => now, true) == Part(s, RemoveRef(live, r.cell), 3, [])
  {
    hide Batch, IsDead;
    OneItem(s, r);
    RemoveOne(live, r);
  }

  /** A dispatch of one reference with an attempt left sends it. */
  lemma TickSends(s: Store, live: seq<JobRef>, r: JobRef, now: int)
    requires Batch(live, 1, now) == [r] && !IsDead(s, r) && r.retryCount == 0
    ensures Dispatched(Part(s, live, 3, []), ONE_RETRY, 1, now, (i: nat) => now, true) ==
            Part(s, Retried(live, r.cell, 1, now + 3), 3, [])
  {
    hide Batch, IsDead;
    OneItem(s, r);
    PutOffOne(live, r, (i: nat) => now);
    RemoveOne(Retried(live, r.cell, 1, now + 3), r);
  }

  // ---------------------------------------------------------------- the steps

  lemma AddsFill()
    ensures AddOne(Part(Store([], [], map[]), [], 3, []), JOB_X, 1) == Part(STORE_X, [REF_X], 3, [])
    ensures AddOne(Part(STORE_X, [REF_X], 3, []), JOB_A, 1) == Part(STORE_XA, [REF_X, REF_A], 3, [])
    ensures AddOne(Part(STORE_XA, [REF_X, REF_A], 3, []), JOB_B, 2) == Part(STORE_XAB, [REF_X, REF_A, REF_B], 3, [])
    ensures MarkedDone(STORE_XAB, "x") == X_DONE
  {
  }

  lemma XLeaves()
    ensures Batch([REF_X, REF_A, REF_B], 1, 2) == [REF_X]
    ensures RemoveRef([REF_X, REF_A, REF_B], 0) == [MOVED_B, REF_A]
  {
    var live := [REF_X, REF_A, REF_B];
    DueAtOne(REF_X, 1);
    DueAtNext([REF_X], REF_A, 1);
    DueAtNext([REF_X] + [REF_A], REF_B, 1);
    assert live == [REF_X] + [REF_A] + [REF_B];
    assert live[0].dueTimeSec in Dues(live, 2);
    BatchAtOldest(live, 1, 2, 1);
  }

  lemma AIsSent()
    ensures Batch([MOVED_B, REF_A], 1, 2) == [REF_A]
    ensures Retried([MOVED_B, REF_A], 1, 1, 5) == [MOVED_B, SENT_A]
  {
    var live := [MOVED_B, REF_A];
    DueAtOne(MOVED_B, 1);
    DueAtNext([MOVED_B], REF_A, 1);
    assert live == [MOVED_B] + [REF_A];
    assert live[1].dueTimeSec in Dues(live, 2);
    BatchAtOldest(live, 1, 2, 1);
  }

  lemma BIsSent()
    ensures Batch([MOVED_B, SENT_A], 1, 3) == [MOVED_B]
    ensures Retried([MOVED_B, SENT_A], 0, 1, 6) == [SENT_B, SENT_A]
  {
    var live := [MOVED_B, SENT_A];
    DueAtOne(MOVED_B, 2);
    DueAtNext([MOVED_B], SENT_A, 2);
    assert live == [MOVED_B] + [SENT_A];
    assert live[0].dueTimeSec in Dues(live, 3);
    BatchAtOldest(live, 1, 3, 2);
  }

  /** Both are due; the older one sits in the later cell. */
  lemma LastBatch()
    ensures Batch([SENT_B, SENT_A], 2, 6) == [SENT_A, SENT_B]
  {
    var live := [SENT_B, SENT_A];
    var d := Dues(live, 6);
    assert live == [SENT_B] + [SENT_A];
    assert live[0].dueTimeSec in d && live[1].dueTimeSec in d;
    assert d == {5, 6} && d - {5} == {6};
    DueAtOne(SENT_B, 5);
    DueAtOne(SENT_B, 6);
    DueAtNext([SENT_B], SENT_A, 5);
    DueAtNext([SENT_B], SENT_A, 6);
  }

  /** Removal starts with cell 0 and moves a there; cell 1 is outside the queue when its turn comes. */
  lemma RemovalIsMissed()
    ensures !ExhaustedAreRemoved(Part(X_DONE, [SENT_B, SENT_A], 3, []), ONE_RETRY, 2, 6)
  {
    LastBatch();
    var items := [SENT_A, SENT_B];
    OneItem(X_DONE, SENT_A);
    assert items[..1] == [SENT_A];
    assert Leaving(X_DONE, items, 1) == items;
    var cells := CellsOf(items);
    assert cells[0] == 1 && cells[1..] == [0];
    assert LeftOf(2, [0]) == 1 by { assert [0][1..] == []; }
    assert !Hits(2, cells, 0);
  }

  ghost function Steps(): (es: seq<Action>)
    ensures |es| == 7
  {
    [Add(JOB_X, 1), Add(JOB_A, 1), Add(JOB_B, 2), MarkDone("x"), Tick(2), Tick(2), Tick(3)]
  }

  function States(): (ss: seq<State>)
    ensures |ss| == 8
  {
    [Queued(Store([], [], map[]), []), Queued(STORE_X, [REF_X]), Queued(STORE_XA, [REF_X, REF_A]),
     Queued(STORE_XAB, [REF_X, REF_A, REF_B]), Queued(X_DONE, [REF_X, REF_A, REF_B]),
     Queued(X_DONE, [MOVED_B, REF_A]), Queued(X_DONE, [MOVED_B, SENT_A]), Queued(X_DONE, [SENT_B, SENT_A])]
  }

  lemma EachStepIsNext(i: nat)
    requires i < 7 && PartOk(States()[i].part)
    ensures Enabled(States()[i], Steps()[i]) && States()[i + 1] == Next(States()[i], ONE_RETRY, Steps()[i])
  {
    hide PartOk, Batch, Dispatched, Retried, RemoveRef;
    AddsFill();
    hide AddOne, MarkedDone;
    XLeaves();
    AIsSent();
    BIsSent();
    TickRemoves(X_DONE, [REF_X, REF_A, REF_B], REF_X, 2);
    TickSends(X_DONE, [MOVED_B, REF_A], REF_A, 2);
    TickSends(X_DONE, [MOVED_B, SENT_A], MOVED_B, 3);
  }

  /** The steps are a run with a clock that does not run backwards, every reference is sound at its end, and
      the next dispatch misses a removal. */
  lemma RunMissesARemoval()
    ensures IsRun(States(), ONE_RETRY, Steps()) && RefsOk(States()[7].part)
    ensures !ExhaustedAreRemoved(States()[7].part, ONE_RETRY, 2, 6)
  {
    RemovalIsMissed();
    assert States()[0] == Start(3);
    forall i | 0 <= i < 7 && PartOk(States()[i].part)
      ensures Enabled(States()[i], Steps()[i]) && States()[i + 1] == Next(States()[i], ONE_RETRY, Steps()[i])
    {
      EachStepIsNext(i);
    }
    assert RefsOk(States()[7].part);
  }
}
