/** Short runs of storage that end where a promise fails: a job added again after its completion, a log emptied by
    compaction, and a pending job whose add is the record at the cut. */
module LostJobs {
  import opened History
  import opened JobIndex
  import opened Segments
  import opened WalSteps
  import opened WalFiles
  import opened Compaction
  import opened NodeRuns

  const ADD_1 := Record(1, AddJobs(["a"]), 20)
  const DONE_2 := Record(2, Done(["a"]), 20)
  const ADD_3 := Record(3, AddJobs(["a"]), 20)

  const OPENED: Index := map["a" := JobState(1, 0, Open)]
  const FINISHED: Index := map["a" := JobState(1, 2, ByDone)]
  const REOPENED: Index := map["a" := JobState(3, 2, Open)]

  function CoreOf(index: Index): Core {
    Core(index, map[], 1, 0, 0)
  }

  lemma IndexSteps()
    ensures Note(map[], ADD_1, Live) == OPENED && Note(OPENED, DONE_2, Live) == FINISHED
    ensures Note(FINISHED, ADD_3, Live) == REOPENED && Note(FINISHED, ADD_B, Live) == WITH_B
  {
  }

  lemma JobIsPending(h: seq<Record>)
    requires h == [ADD_1] || h == [ADD_1, DONE_2, ADD_3]
    ensures "a" in PendingJobs(h) && LastEvent(h, "a") == Added(h[|h| - 1].index)
    ensures h == [ADD_1, DONE_2, ADD_3] ==> LastCompletion(h, "a") == 2
  {
    PendingIsAdded(h, "a");
    var f := h[..|h| - 1];
    assert h == f + [h[|h| - 1]];
    LastEventOfNext(f, h[|h| - 1], "a");
    if h == [ADD_1, DONE_2, ADD_3] {
      assert f == [ADD_1] + [DONE_2];
      LastEventOfNext([ADD_1], DONE_2, "a");
    }
  }

  // ---------------------------------------------------------------- added again after completion

  ghost function ReAddSteps(): (steps: seq<Step>)
    ensures |steps| == 4
  {
    [Commit(ADD_1), Commit(DONE_2), Commit(ADD_3), Compact]
  }

  ghost function ReAddStates(): (states: seq<State>)
    ensures |states| == 5
  {
    [EMPTY, State(CoreOf(OPENED), [ADD_1]), State(CoreOf(FINISHED), [ADD_1, DONE_2]),
     State(CoreOf(REOPENED), [ADD_1, DONE_2, ADD_3]), State(Compacted(CoreOf(REOPENED)), [ADD_1, DONE_2, ADD_3])]
  }

  lemma ReAddCut()
    ensures KeepFrom(REOPENED, 1) == 3 && "a" !in Compacted(CoreOf(REOPENED)).index
  {
    assert REOPENED["a"].addIndex in OpenAdds(REOPENED);
    assert OpenAdds(REOPENED) == {3};
  }

  /** Add, complete and add again, then compact: the job is pending, and the index has forgotten it. */
  lemma CompactionForgetsReAddedJob()
    ensures IsRun(ReAddStates(), ReAddSteps())
    ensures var s := ReAddStates()[4]; "a" in PendingJobs(s.history) && !Tracks(s.core, s.history)
  {
    ReAddIsRun();
    ReAddCut();
    JobIsPending([ADD_1, DONE_2, ADD_3]);
    hide Compacted, PendingJobs, LastEvent, IsRun, Increasing, Sound;
  }

  lemma ReAddIsRun()
    ensures IsRun(ReAddStates(), ReAddSteps())
  {
    IndexSteps();
    Prefixes(ADD_1, DONE_2, ADD_3);
    InIncreasingOrder(ADD_1, DONE_2, ADD_3);
    hide Note, Compacted, Increasing;
    var states, steps := ReAddStates(), ReAddSteps();
    forall i | 0 <= i < 4
      ensures InOrder(states[i], steps[i]) && states[i + 1] == Next(states[i], steps[i])
    {
    }
  }

  /** The same history recovered after a restart: the job is pending, and the rebuilt index calls it completed. */
  lemma RecoveryMistakesReAddedJob()
    ensures var h := [ADD_1, DONE_2, ADD_3];
            Increasing(h) && "a" in PendingJobs(h) && !Tracks(Recovered(h, 0), h) && "a" !in OpenJobs(Recovered(h, 0).index)
  {
    var h := [ADD_1, DONE_2, ADD_3];
    assert Increasing(h);
    JobIsPending(h);
    RecoveryTracksIff(h, 0);
    RecoveredStates(h, 0, "a");
  }

  function OpenJobs(m: Index): set<JobId> {
    set id | id in m && IsOpen(m[id])
  }

  // ---------------------------------------------------------------- a log emptied by compaction

  ghost function EmptyingSteps(): (steps: seq<Step>)
    ensures |steps| == 4
  {
    [Replicate(map[1 := ADD_1, 2 := DONE_2], 1, 2), Commit(ADD_1), Commit(DONE_2), Compact]
  }

  function Filled(index: Index): Core {
    Core(index, map[1 := ADD_1, 2 := DONE_2], 1, 2, 0)
  }

  ghost function EmptyingStates(): (states: seq<State>)
    ensures |states| == 5
  {
    [EMPTY, State(Filled(map[]), []), State(Filled(OPENED), [ADD_1]), State(Filled(FINISHED), [ADD_1, DONE_2]),
     State(Compacted(Filled(FINISHED)), [ADD_1, DONE_2])]
  }

  lemma EmptyingCut()
    ensures KeepFrom(FINISHED, 1) == 3
    ensures Compacted(Filled(FINISHED)).firstIndex == 1 && Compacted(Filled(FINISHED)).snapshot == 2
  {
    assert FINISHED["a"].completeIndex in Completions(FINISHED);
    assert Completions(FINISHED) == {2} && OpenAdds(FINISHED) == {};
    KeepsNone(Filled(FINISHED).entries, 3);
  }

  /** Add and complete one job, then compact: the first index lies below the snapshot. */
  lemma BoundsAreStaleAfterEmptying()
    ensures IsRun(EmptyingStates(), EmptyingSteps())
    ensures var c := EmptyingStates()[4].core; c.firstIndex == 1 && c.snapshot == 2
  {
    IndexSteps();
    EmptyingCut();
    hide Note, Compacted;
    var states, steps := EmptyingStates(), EmptyingSteps();
    assert [] + [ADD_1] == [ADD_1] && [ADD_1] + [DONE_2] == [ADD_1, DONE_2];
    forall i | 0 <= i < 4
      ensures InOrder(states[i], steps[i]) && states[i + 1] == Next(states[i], steps[i])
    {
    }
  }

  // ---------------------------------------------------------------- the record at the cut

  const ADD_B := Record(3, AddJobs(["b"]), 20)
  const WITH_B: Index := map["a" := JobState(1, 2, ByDone), "b" := JobState(3, 0, Open)]
  const ONE_FILE := Wal(map[Active(1) := [ADD_1, DONE_2, ADD_B]], Layout([], Some(Tail(1, [ADD_1, DONE_2, ADD_B]))), 4)

  ghost function LossMoves(): (moves: seq<Move>)
    ensures |moves| == 7
  {
    [Decided(ADD_1), Decided(DONE_2), Decided(ADD_B), Delivered, Delivered, Delivered, FlushNow]
  }

  const LOSS_1 := Node(Fresh(1), [], [ADD_1], CoreOf(map[]), [ADD_1], 0)
  const LOSS_2 := Node(Fresh(1), [], [ADD_1, DONE_2], CoreOf(map[]), [ADD_1, DONE_2], 0)
  const LOSS_3 := Node(Fresh(1), [], [ADD_1, DONE_2, ADD_B], CoreOf(map[]), [ADD_1, DONE_2, ADD_B], 0)
  const LOSS_4 := Node(Fresh(1), [ADD_1], [DONE_2, ADD_B], CoreOf(OPENED), [ADD_1, DONE_2, ADD_B], 0)
  const LOSS_5 := Node(Fresh(1), [ADD_1, DONE_2], [ADD_B], CoreOf(FINISHED), [ADD_1, DONE_2, ADD_B], 0)
  const LOSS_6 := Node(Fresh(1), [ADD_1, DONE_2, ADD_B], [], CoreOf(WITH_B), [ADD_1, DONE_2, ADD_B], 0)
  const LOSS_7 := Node(ONE_FILE, [], [], CoreOf(WITH_B), [ADD_1, DONE_2, ADD_B], 3)

  ghost function LossNodes(): (nodes: seq<Node>)
    ensures |nodes| == 8
  {
    [FRESH_NODE, LOSS_1, LOSS_2, LOSS_3, LOSS_4, LOSS_5, LOSS_6, LOSS_7]
  }

  function InOne(recs: seq<Record>): Wal {
    Wal(map[Active(1) := recs], Layout([], Some(Tail(1, recs))), LastIndex(recs) + 1)
  }

  lemma SmallAppend(recs: seq<Record>, r: Record)
    requires Size(recs) < 100 && r.index > LastIndex(recs)
    ensures InOne(recs).Writable() && Appended(InOne(recs), r, 100) == InOne(recs + [r])
  {
  }

  lemma ThreeAppends()
    ensures Fresh(1) == InOne([]) && InOne([ADD_1, DONE_2, ADD_B]) == ONE_FILE
    ensures InOne([]).Writable() && Appended(InOne([]), ADD_1, 100) == InOne([ADD_1])
    ensures InOne([ADD_1]).Writable() && Appended(InOne([ADD_1]), DONE_2, 100) == InOne([ADD_1, DONE_2])
    ensures InOne([ADD_1, DONE_2]).Writable() && Appended(InOne([ADD_1, DONE_2]), ADD_B, 100) == InOne([ADD_1, DONE_2, ADD_B])
  {
    assert Fresh(1) == InOne([]) && InOne([ADD_1, DONE_2, ADD_B]) == ONE_FILE;
    hide InOne, Appended, Wal.Writable, Fresh;
    SizeOfNext([], ADD_1);
    SizeOfNext([ADD_1], DONE_2);
    assert [] + [ADD_1] == [ADD_1] && [ADD_1] + [DONE_2] == [ADD_1, DONE_2] && [ADD_1, DONE_2] + [ADD_B] == [ADD_1, DONE_2, ADD_B];
    SmallAppend([], ADD_1);
    SmallAppend([ADD_1], DONE_2);
    SmallAppend([ADD_1, DONE_2], ADD_B);
  }

  lemma FlushThree()
    ensures Fresh(1).Writable() && AppendAll(Fresh(1), [ADD_1, DONE_2, ADD_B], 100) == ONE_FILE
  {
    hide InOne, Appended, Wal.Writable, Fresh;
    var h := [ADD_1, DONE_2, ADD_B];
    ThreeAppends();
    AppendedIsWritable(InOne([]), ADD_1, 100);
    AppendedIsWritable(InOne([ADD_1]), DONE_2, 100);
    AppendedIsWritable(InOne([ADD_1, DONE_2]), ADD_B, 100);
    assert h[1..] == [DONE_2, ADD_B] && [DONE_2, ADD_B][1..] == [ADD_B] && [ADD_B][1..] == [];
    assert AppendAll(InOne([ADD_1, DONE_2]), [ADD_B], 100) == InOne(h);
    assert AppendAll(InOne([ADD_1]), [DONE_2, ADD_B], 100) == InOne(h);
  }

  lemma ThreeSealWell()
    ensures Fresh(1).Writable() && SealsWell(Fresh(1), [ADD_1, DONE_2, ADD_B], 100)
  {
    hide SealsWell;
    TruthfulNameSealsWell(Fresh(1), [ADD_1, DONE_2, ADD_B], 100);
  }

  lemma DecisionIsNext(n: Node, r: Record)
    requires n.wal.Valid() && Increasing(n.history + [r])
    ensures Possible(n, Decided(r), 100) && Allowed(n, Decided(r), 100)
    ensures NextNode(n, Decided(r), 100) == n.(awaiting := n.awaiting + [r], history := n.history + [r])
  {
    hide Wal.Valid, Increasing;
  }

  lemma DeliveryIsNext(n: Node, m: Index)
    requires n.wal.Valid() && n.awaiting != [] && m == Note(n.core.index, n.awaiting[0], Live)
    ensures Possible(n, Delivered, 100) && Allowed(n, Delivered, 100)
    ensures NextNode(n, Delivered, 100) ==
            n.(buffer := n.buffer + [n.awaiting[0]], awaiting := n.awaiting[1..], core := n.core.(index := m))
  {
    hide Wal.Valid, Note;
  }

  lemma FlushIsNext(n: Node)
    requires n.wal.Valid() && n.wal == Fresh(1) && n.buffer == [ADD_1, DONE_2, ADD_B]
    ensures Possible(n, FlushNow, 100) && Allowed(n, FlushNow, 100)
    ensures NextNode(n, FlushNow, 100) == n.(wal := ONE_FILE, buffer := [], written := 3)
  {
    FlushThree();
    ThreeSealWell();
    hide Wal.Valid, AppendAll, SealsWell, Fresh;
  }

  predicate Appends(a: seq<Record>, r: Record, b: seq<Record>) {
    b == a + [r]
  }

  lemma Prefixes(a: Record, b: Record, c: Record)
    ensures Appends([], a, [a]) && Appends([a], b, [a, b]) && Appends([a, b], c, [a, b, c])
  {
  }

  lemma Suffixes(a: Record, b: Record, c: Record)
    ensures [a, b, c][1..] == [b, c] && [b, c][1..] == [c] && [c][1..] == []
  {
  }

  lemma InIncreasingOrder(a: Record, b: Record, c: Record)
    requires 0 < a.index < b.index < c.index
    ensures Increasing([a]) && Increasing([a, b]) && Increasing([a, b, c])
  {
  }

  /** `m` leads from `a` to `b`. */
  ghost predicate Leads(a: Node, m: Move, b: Node)
    requires a.wal.Valid()
  {
    Possible(a, m, 100) && Allowed(a, m, 100) && b == NextNode(a, m, 100)
  }

  lemma DecisionsLead()
    ensures Fresh(1).Valid() && Leads(FRESH_NODE, Decided(ADD_1), LOSS_1)
    ensures Leads(LOSS_1, Decided(DONE_2), LOSS_2) && Leads(LOSS_2, Decided(ADD_B), LOSS_3)
  {
    FreshIsValid(1);
    Prefixes(ADD_1, DONE_2, ADD_B);
    InIncreasingOrder(ADD_1, DONE_2, ADD_B);
    hide Wal.Valid, Possible, Allowed, NextNode, Fresh, Increasing;
    DecisionIsNext(FRESH_NODE, ADD_1);
    DecisionIsNext(LOSS_1, DONE_2);
    DecisionIsNext(LOSS_2, ADD_B);
  }

  lemma DeliveriesLead()
    ensures Fresh(1).Valid() && Leads(LOSS_3, Delivered, LOSS_4) && Leads(LOSS_4, Delivered, LOSS_5) && Leads(LOSS_5, Delivered, LOSS_6)
  {
    FreshIsValid(1);
    Prefixes(ADD_1, DONE_2, ADD_B);
    Suffixes(ADD_1, DONE_2, ADD_B);
    IndexSteps();
    hide Wal.Valid, Possible, Allowed, NextNode, Fresh, Increasing, Note;
    DeliveryIsNext(LOSS_3, OPENED);
    DeliveryIsNext(LOSS_4, FINISHED);
    DeliveryIsNext(LOSS_5, WITH_B);
  }

  lemma CutAtB()
    ensures KeepFrom(WITH_B, 1) == 3 && Compacted(CoreOf(WITH_B)).snapshot == 2
    ensures ONE_FILE.Valid() && Truncated(ONE_FILE, 3).Log() == []
  {
    assert WITH_B["b"].addIndex in OpenAdds(WITH_B);
    assert OpenAdds(WITH_B) == {3};
    hide OpenAdds;
    assert Flatten([]) == [];
  }

  lemma OnlyBIsPending()
    ensures PendingJobs([ADD_1, DONE_2, ADD_B]) == {"b"}
  {
    var h := [ADD_1, DONE_2, ADD_B];
    assert h == [ADD_1, DONE_2] + [ADD_B] && [ADD_1, DONE_2] == [ADD_1] + [DONE_2] && [ADD_1] == [] + [ADD_1];
    forall id
      ensures id in PendingJobs(h) <==> id == "b"
    {
      PendingIsAdded(h, id);
      LastEventOfNext([ADD_1, DONE_2], ADD_B, id);
      LastEventOfNext([ADD_1], DONE_2, id);
      LastEventOfNext([], ADD_1, id);
    }
  }

  /** A finished job, then a pending one, flushed to one file: compaction cuts at the pending add, and truncation
      deletes the file that holds it. Nothing of the job is left in files, buffer or coming deliveries. */
  lemma PendingJobLostOnDisk()
    ensures IsNodeRun(LossNodes(), LossMoves(), 100)
    ensures var n := LossNodes()[7];
            && n.wal.Valid() && PendingJobs(n.history) == {"b"} && !Allowed(n, CompactNow, 100)
            && NextNode(n, CompactNow, 100).All() == [] && NextNode(n, CompactNow, 100).core.snapshot == 2
  {
    LossIsRun();
    OnlyBIsPending();
    CutAtB();
    hide Wal.Valid, Truncated, Compacted, KeepFrom, PendingJobs, IsNodeRun;
    var n := LossNodes()[7];
    assert n.wal == ONE_FILE && n.core == CoreOf(WITH_B) && NextCut(n) == 3;
    assert NextNode(n, CompactNow, 100).All() == [] + [] + [];
    assert ADD_B in ONE_FILE.Log() && ADD_B.index == 3;
    TruncationSurvivors(ONE_FILE, 3, ADD_B);
  }

  lemma LossIsRun()
    ensures IsNodeRun(LossNodes(), LossMoves(), 100)
  {
    hide Wal.Valid, Possible, Allowed, NextNode, Fresh;
    DecisionsLead();
    DeliveriesLead();
    FlushIsNext(LOSS_6);
    var nodes, moves := LossNodes(), LossMoves();
    forall i | 0 <= i < 7 && nodes[i].wal.Valid()
      ensures Leads(nodes[i], moves[i], nodes[i + 1])
    {
    }
  }
}
