/** Three steps after which one exhausted job sits in the dead-letter buffer, and what a drop or a full channel does
    to it then. */
module DeadLetters {
  import opened Slab
  import opened ReadyQueue
  import opened BatchSelection
  import opened Queue
  import opened Scheduler
  import opened PartitionRuns
  import opened References
  import opened Delivery
  import opened MissedRemoval

  const STORE_A := Store([JOB_A], [], map["a" := 0])
  const NEW_A := JobRef(0, 0, 0, 1)
  const LATE_A := JobRef(0, 1, 0, 4)
  const BURIED_A := DlqItem(LATE_A, 0)

  function BuryingSteps(): (es: seq<Action>)
    ensures |es| == 3
  {
    [Add(JOB_A, 1), Tick(1), Tick(4)]
  }

  function BuryingStates(): (ss: seq<State>)
    ensures |ss| == 4
  {
    [Queued(Store([], [], map[]), []), Queued(STORE_A, [NEW_A]), Queued(STORE_A, [LATE_A]),
     State(Part(STORE_A, [], 3, [BURIED_A]), {}, {})]
  }

  lemma OneDue(r: JobRef, now: int)
    requires r.dueTimeSec <= now
    ensures Batch([r], 1, now) == [r]
  {
    DueAtOne(r, r.dueTimeSec);
    assert [r][0].dueTimeSec in Dues([r], now);
    BatchAtOldest([r], 1, now, r.dueTimeSec);
  }

  /** A dispatch of one exhausted reference buries it. */
  lemma TickBuries()
    ensures Dispatched(Part(STORE_A, [LATE_A], 3, []), ONE_RETRY, 1, 4, (i: nat) => 4, true) == Part(STORE_A, [], 3, [BURIED_A])
  {
    OneDue(LATE_A, 4);
    hide Batch;
    OneItem(STORE_A, LATE_A);
    RemoveOne([LATE_A], LATE_A);
  }

  lemma AddsA()
    ensures AddOne(Part(Store([], [], map[]), [], 3, []), JOB_A, 1) == Part(STORE_A, [NEW_A], 3, [])
    ensures Retried([NEW_A], 0, 1, 4) == [LATE_A] && !IsDead(STORE_A, NEW_A)
  {
  }

  lemma EachStepBuries(i: nat)
    requires i < 3 && PartOk(BuryingStates()[i].part)
    ensures Enabled(BuryingStates()[i], BuryingSteps()[i])
    ensures BuryingStates()[i + 1] == Next(BuryingStates()[i], ONE_RETRY, BuryingSteps()[i])
  {
    hide PartOk, Batch, Dispatched, AddOne, Retried, IsDead;
    AddsA();
    OneDue(NEW_A, 1);
    TickSends(STORE_A, [NEW_A], NEW_A, 1);
    TickBuries();
  }

  lemma BuryingRun()
    ensures IsRun(BuryingStates(), ONE_RETRY, BuryingSteps())
    ensures PartOk(BuryingStates()[3].part) && RefsOk(BuryingStates()[3].part)
  {
    assert BuryingStates()[0] == Start(3);
    forall i | 0 <= i < 3 && PartOk(BuryingStates()[i].part)
      ensures Enabled(BuryingStates()[i], BuryingSteps()[i])
      ensures BuryingStates()[i + 1] == Next(BuryingStates()[i], ONE_RETRY, BuryingSteps()[i])
    {
      EachStepBuries(i);
    }
  }

  /** A committed drop of the buffered job leaves a dangling reference, and the next flush panics. */
  lemma DropThenFlushPanics()
    ensures IsRun(BuryingStates(), ONE_RETRY, BuryingSteps()) && PartOk(BuryingStates()[3].part)
    ensures var p := Next(BuryingStates()[3], ONE_RETRY, DropJob("a")).part;
            !RefsOk(p) && FlushAll(p.store, p.dlq).Panicked?
  {
    BuryingRun();
    var p := Next(BuryingStates()[3], ONE_RETRY, DropJob("a")).part;
    assert p.dlq[0] == BURIED_A && !Live(p.store, 0);
    assert FindsFreeSlot(p.store, p.dlq, 0);
    FlushPanicsIff(p.store, p.dlq);
  }

  /** A flush into a full channel: before it the job is reachable, after it nothing refers to the job. */
  lemma FullChannelStrandsJob()
    ensures IsRun(BuryingStates(), ONE_RETRY, BuryingSteps()) && AllReachable(BuryingStates()[3])
    ensures PartOk(BuryingStates()[3].part) && Enabled(BuryingStates()[3], FlushDlq(false))
    ensures !AllReachable(Next(BuryingStates()[3], ONE_RETRY, FlushDlq(false)))
  {
    BuryingRun();
    var s := BuryingStates()[3];
    assert s.part.dlq[0].ref.index == 0 && Live(s.part.store, 0) && !s.part.store.jobs[0].done;
    assert InDlq(s.part, 0);
    FlushKeepsReachableIff(s, ONE_RETRY, false);
  }
}
