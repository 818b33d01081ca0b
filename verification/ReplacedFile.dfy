/** A run in which a retried flush seals one file over another, and recovery takes a pending job for a completed one. */
module ReplacedFile {
  import opened History
  import opened JobIndex
  import opened Segments
  import opened WalSteps
  import opened WalFiles
  import opened WalOpen
  import opened Compaction
  import opened AnyOrder
  import FlushProtocol

  const R1 := Record(1, AddJobs(["x"]), 20)
  const R2 := Record(2, Done(["x"]), 20)
  const R3 := Record(3, AddJobs(["x"]), 20)
  const R4 := Record(4, Other, 20)
  const R5 := Record(5, Other, 20)
  const R6 := Record(6, Other, 20)

  // ---------------------------------------------------------------- eleven appends into segments of two entries

  function At(sealed: seq<Segment>, d: Dir, start: nat, recs: seq<Record>, next: nat): Wal {
    Wal(d[Active(start) := recs], Layout(sealed, Some(Tail(start, recs))), next)
  }

  predicate OnlySealed(d: Dir) {
    forall n | n in d :: n.Sealed?
  }

  lemma Fills(sealed: seq<Segment>, d: Dir, start: nat, recs: seq<Record>, next: nat, r: Record)
    requires OnlySealed(d) && Size(recs) < 40 && next > 0
    ensures At(sealed, d, start, recs, next).Writable()
    ensures Appended(At(sealed, d, start, recs, next), r, 40) ==
            At(sealed, d, start, recs + [r], if r.index + 1 > next then r.index + 1 else next)
  {
    hide RotationDirs;
  }

  lemma Turns(sealed: seq<Segment>, d: Dir, start: nat, recs: seq<Record>, next: nat, r: Record)
    requires OnlySealed(d) && Size(recs) >= 40 && next > 0
    ensures At(sealed, d, start, recs, next).Writable()
    ensures Appended(At(sealed, d, start, recs, next), r, 40) ==
            At(sealed + [Segment(start, next - 1, recs)], d[Sealed(start, next - 1) := recs], next, [r],
               if r.index + 1 > next then r.index + 1 else next)
  {
    assert [] + [r] == [r];
    var w := At(sealed, d, start, recs, next);
    assert Appended(w, r, 40).files == d[Sealed(start, next - 1) := recs][Active(next) := [r]];
  }

  lemma Sizes(a: Record, b: Record)
    requires a.size == b.size == 20
    ensures Size([]) == 0 && Size([a]) == 20 && Size([a, b]) == 40
    ensures [] + [a] == [a] && [a] + [b] == [a, b]
  {
    assert [a, b][..1] == [a] && [a][..0] == [];
  }

  const L1 := [Segment(1, 2, [R1, R2])]
  const L2 := L1 + [Segment(3, 4, [R3, R4])]
  const L3 := L2 + [Segment(5, 5, [R5, R1])]
  const L4 := L3 + [Segment(6, 5, [R2, R3])]
  const L5 := L4 + [Segment(6, 5, [R4, R5])]
  const D1: Dir := map[Sealed(1, 2) := [R1, R2]]
  const D2: Dir := D1[Sealed(3, 4) := [R3, R4]]
  const D3: Dir := D2[Sealed(5, 5) := [R5, R1]]
  const D4: Dir := D3[Sealed(6, 5) := [R2, R3]]
  const D5: Dir := D4[Sealed(6, 5) := [R4, R5]]

  const W0 := At([], map[], 1, [], 1)
  const W5 := At(L2, D2, 5, [R5], 6)
  const W10 := At(L4, D4, 6, [R4, R5], 6)
  const W11 := At(L5, D5, 6, [R6], 7)

  lemma DirsAreSealed()
    ensures OnlySealed(map[]) && OnlySealed(D1) && OnlySealed(D2) && OnlySealed(D3) && OnlySealed(D4)
    ensures [] + [Segment(1, 2, [R1, R2])] == L1 && map[][Sealed(1, 2) := [R1, R2]] == D1
  {
  }

  /** One entry leads from one log to another that can be written to. */
  ghost predicate Takes(w: Wal, r: Record, w': Wal) {
    w.Writable() && Appended(w, r, 40) == w'
  }

  lemma FirstFive()
    ensures Takes(W0, R1, At([], map[], 1, [R1], 2)) && Takes(At([], map[], 1, [R1], 2), R2, At([], map[], 1, [R1, R2], 3))
    ensures Takes(At([], map[], 1, [R1, R2], 3), R3, At(L1, D1, 3, [R3], 4))
    ensures Takes(At(L1, D1, 3, [R3], 4), R4, At(L1, D1, 3, [R3, R4], 5)) && Takes(At(L1, D1, 3, [R3, R4], 5), R5, W5)
  {
    Sizes(R1, R2);
    Sizes(R3, R4);
    DirsAreSealed();
    hide At, Appended, Wal.Writable, Size, OnlySealed;
    Fills([], map[], 1, [], 1, R1);
    Fills([], map[], 1, [R1], 2, R2);
    Turns([], map[], 1, [R1, R2], 3, R3);
    Fills(L1, D1, 3, [R3], 4, R4);
    Turns(L1, D1, 3, [R3, R4], 5, R5);
  }

  lemma SecondFive()
    ensures Takes(W5, R1, At(L2, D2, 5, [R5, R1], 6)) && Takes(At(L2, D2, 5, [R5, R1], 6), R2, At(L3, D3, 6, [R2], 6))
    ensures Takes(At(L3, D3, 6, [R2], 6), R3, At(L3, D3, 6, [R2, R3], 6))
    ensures Takes(At(L3, D3, 6, [R2, R3], 6), R4, At(L4, D4, 6, [R4], 6)) && Takes(At(L4, D4, 6, [R4], 6), R5, W10)
    ensures Takes(W10, R6, W11)
  {
    Sizes(R5, R1);
    Sizes(R2, R3);
    Sizes(R4, R5);
    DirsAreSealed();
    hide At, Appended, Wal.Writable, Size, OnlySealed;
    Fills(L2, D2, 5, [R5], 6, R1);
    Turns(L2, D2, 5, [R5, R1], 6, R2);
    Fills(L3, D3, 6, [R2], 6, R3);
    Turns(L3, D3, 6, [R2, R3], 6, R4);
    Fills(L4, D4, 6, [R4], 6, R5);
    Turns(L4, D4, 6, [R4, R5], 6, R6);
  }

  lemma TakeFirst(w: Wal, w': Wal, r: Record, b: seq<Record>)
    requires Takes(w, r, w')
    ensures w'.Writable() && AppendAll(w, [r] + b, 40) == AppendAll(w', b, 40)
  {
    AppendedIsWritable(w, r, 40);
    assert ([r] + b)[1..] == b;
  }

  lemma TakeFive(a: Wal, b: Wal, c: Wal, d: Wal, e: Wal, f: Wal)
    requires Takes(a, R1, b) && Takes(b, R2, c) && Takes(c, R3, d) && Takes(d, R4, e) && Takes(e, R5, f)
    ensures a.Writable() && f.Writable() && AppendAll(a, [R1, R2, R3, R4, R5], 40) == f
  {
    hide Appended, Wal.Writable, AppendAll;
    TakeFirst(a, b, R1, [R2, R3, R4, R5]);
    TakeFirst(b, c, R2, [R3, R4, R5]);
    TakeFirst(c, d, R3, [R4, R5]);
    TakeFirst(d, e, R4, [R5]);
    TakeFirst(e, f, R5, []);
    Displays(R1, R2, R3, R4, R5);
    NoMore(f);
  }

  lemma NoMore(w: Wal)
    requires w.Writable()
    ensures AppendAll(w, [], 40) == w
  {
  }

  lemma Displays(a: Record, b: Record, c: Record, d: Record, e: Record)
    ensures [a] + [b, c, d, e] == [a, b, c, d, e] && [b] + [c, d, e] == [b, c, d, e]
    ensures [c] + [d, e] == [c, d, e] && [d] + [e] == [d, e] && [e] + [] == [e]
  {
  }

  lemma Writes()
    ensures W0.Writable() && AppendAll(W0, [R1, R2, R3, R4, R5], 40) == W5 && W5.Writable()
    ensures AppendAll(W5, [R1, R2, R3, R4, R5], 40) == W10 && W10.Writable()
    ensures AppendAll(W10, [R6], 40) == W11
  {
    FirstFive();
    SecondFive();
    hide At, Takes, Wal.Writable;
    TakeFive(W0, At([], map[], 1, [R1], 2), At([], map[], 1, [R1, R2], 3), At(L1, D1, 3, [R3], 4), At(L1, D1, 3, [R3, R4], 5), W5);
    TakeFive(W5, At(L2, D2, 5, [R5, R1], 6), At(L3, D3, 6, [R2], 6), At(L3, D3, 6, [R2, R3], 6), At(L4, D4, 6, [R4], 6), W10);
    TakeFirst(W10, W11, R6, []);
    assert [R6] + [] == [R6];
  }

  // ---------------------------------------------------------------- the run

  const H1 := [R1]
  const H2 := [R1, R2]
  const H3 := [R1, R2, R3]
  const H4 := [R1, R2, R3, R4]
  const H5 := [R1, R2, R3, R4, R5]
  const H6 := [R1, R2, R3, R4, R5, R6]

  function Idle(h: seq<Record>, w: Wal, failures: nat): FlushProtocol.State {
    FlushProtocol.State(h, h, w, FlushProtocol.Idle, failures)
  }

  ghost function Steps(): (steps: seq<FlushProtocol.Step>)
    ensures |steps| == 13
  {
    [FlushProtocol.Commit(R1), FlushProtocol.Commit(R2), FlushProtocol.Commit(R3), FlushProtocol.Commit(R4), FlushProtocol.Commit(R5),
     FlushProtocol.BeginFlush, FlushProtocol.FailedWrite(5), FlushProtocol.BeginFlush, FlushProtocol.Write, FlushProtocol.Trim,
     FlushProtocol.Commit(R6), FlushProtocol.BeginFlush, FlushProtocol.Write]
  }

  const LAST := FlushProtocol.State(H6, [R6], W11, FlushProtocol.Trimming(1), 1)

  ghost function States(): (states: seq<FlushProtocol.State>)
    ensures |states| == 14
  {
    [Idle([], W0, 0), Idle(H1, W0, 0), Idle(H2, W0, 0), Idle(H3, W0, 0), Idle(H4, W0, 0), Idle(H5, W0, 0),
     Idle(H5, W0, 0).(phase := FlushProtocol.Writing(H5)), Idle(H5, W5, 1), Idle(H5, W5, 1).(phase := FlushProtocol.Writing(H5)),
     Idle(H5, W10, 1).(phase := FlushProtocol.Trimming(5)), FlushProtocol.State(H5, [], W10, FlushProtocol.Idle, 1),
     FlushProtocol.State(H6, [R6], W10, FlushProtocol.Idle, 1), FlushProtocol.State(H6, [R6], W10, FlushProtocol.Writing([R6]), 1), LAST]
  }

  ghost predicate Leads(s: FlushProtocol.State, step: FlushProtocol.Step, t: FlushProtocol.State) {
    s.wal.Writable() && FlushProtocol.Enabled(s, step) && FlushProtocol.Next(s, step, 40) == t
  }

  lemma CommitLeads(h: seq<Record>, b: seq<Record>, w: Wal, failures: nat, r: Record)
    requires w.Writable() && Increasing(h) && LastIndex(h) < r.index
    ensures Leads(FlushProtocol.State(h, b, w, FlushProtocol.Idle, failures), FlushProtocol.Commit(r),
                  FlushProtocol.State(h + [r], b + [r], w, FlushProtocol.Idle, failures))
    ensures Increasing(h + [r]) && LastIndex(h + [r]) == r.index
  {
    IncreasingNext(h, r);
  }

  lemma Extended(a: Record, b: Record, c: Record, d: Record, e: Record, f: Record)
    ensures [] + [a] == [a] && [a] + [b] == [a, b] && [a, b] + [c] == [a, b, c]
    ensures [a, b, c] + [d] == [a, b, c, d] && [a, b, c, d] + [e] == [a, b, c, d, e]
    ensures [a, b, c, d, e] + [f] == [a, b, c, d, e, f]
  {
  }

  lemma CommitsLead()
    requires W0.Writable() && W10.Writable()
    ensures Leads(Idle([], W0, 0), FlushProtocol.Commit(R1), Idle(H1, W0, 0))
    ensures Leads(Idle(H1, W0, 0), FlushProtocol.Commit(R2), Idle(H2, W0, 0))
    ensures Leads(Idle(H2, W0, 0), FlushProtocol.Commit(R3), Idle(H3, W0, 0))
    ensures Leads(Idle(H3, W0, 0), FlushProtocol.Commit(R4), Idle(H4, W0, 0))
    ensures Leads(Idle(H4, W0, 0), FlushProtocol.Commit(R5), Idle(H5, W0, 0))
    ensures Leads(FlushProtocol.State(H5, [], W10, FlushProtocol.Idle, 1), FlushProtocol.Commit(R6),
                  FlushProtocol.State(H6, [R6], W10, FlushProtocol.Idle, 1))
    ensures Increasing(H6)
  {
    Extended(R1, R2, R3, R4, R5, R6);
    assert [] + [R6] == [R6] && Increasing([]) && LastIndex([]) == 0;
    hide At, Wal.Writable, Increasing, LastIndex, Leads;
    CommitLeads([], [], W0, 0, R1);
    CommitLeads(H1, H1, W0, 0, R2);
    CommitLeads(H2, H2, W0, 0, R3);
    CommitLeads(H3, H3, W0, 0, R4);
    CommitLeads(H4, H4, W0, 0, R5);
    CommitLeads(H5, [], W10, 1, R6);
  }

  lemma CommitsAreNext()
    requires W0.Writable() && W10.Writable()
    ensures Increasing(H6) && forall i | i in {0, 1, 2, 3, 4, 10} :: Leads(States()[i], Steps()[i], States()[i + 1])
  {
    CommitsLead();
    hide At, Wal.Writable, Increasing, Leads, Idle;
  }

  lemma FlushesLead()
    requires W0.Writable() && W5.Writable() && W10.Writable()
    requires AppendAll(W0, H5, 40) == W5 && AppendAll(W5, H5, 40) == W10 && AppendAll(W10, [R6], 40) == W11
    ensures forall i | i in {5, 6, 7, 8, 9, 11, 12} :: Leads(States()[i], Steps()[i], States()[i + 1])
  {
    hide At, Wal.Writable, AppendAll;
    assert H5[..5] == H5 && H5[5..] == [];
  }

  lemma RetryIsRun()
    ensures FlushProtocol.IsRun(States(), Steps(), 40) && Increasing(H6)
  {
    hide At, Wal.Writable, AppendAll, FlushProtocol.Next, FlushProtocol.Enabled, Increasing, States, Steps;
    StartsEmpty();
    Writes();
    CommitsAreNext();
    FlushesLead();
    var states, steps := States(), Steps();
    forall i | 0 <= i < |steps| && states[i].wal.Writable()
      ensures FlushProtocol.Enabled(states[i], steps[i]) && states[i + 1] == FlushProtocol.Next(states[i], steps[i], 40)
    {
      assert i in {5, 6, 7, 8, 9, 11, 12} || i in {0, 1, 2, 3, 4, 10};
      assert Leads(states[i], steps[i], states[i + 1]);
    }
  }

  lemma StartsEmpty()
    ensures States()[0] == FlushProtocol.EMPTY
  {
    assert Fresh(1) == W0;
  }

  // ---------------------------------------------------------------- what a restart finds

  const NAMES := [Parsed(1, 2, false), Parsed(3, 4, false), Parsed(5, 5, false), Parsed(6, 5, false), Parsed(6, 0, true)]
  const FILES: Dir := map[Sealed(1, 2) := [R1, R2], Sealed(3, 4) := [R3, R4], Sealed(5, 5) := [R5, R1], Sealed(6, 5) := [R4, R5],
                          Active(6) := [R6]]

  lemma NamesOfFiles()
    ensures W11.files == FILES && IsSortedNames(FILES, NAMES) && Continuous(NAMES)
  {
    NamesAreSorted();
    hide SortedByStart, Distinct, Continuous;
    forall q
      ensures q in NAMES <==> q in ParsedNames(FILES)
    {
      if q in NAMES {
        var n := if q.active then Active(q.lo) else Sealed(q.lo, q.hi);
        assert n in FILES && ParseName(n) == q;
      }
    }
  }

  lemma NamesAreSorted()
    ensures SortedByStart(NAMES) && Distinct(NAMES) && Continuous(NAMES)
  {
    assert SortedByStart(NAMES) by { hide Distinct, Continuous; }
    assert Distinct(NAMES) by { hide SortedByStart, Continuous; }
    hide SortedByStart, Distinct;
  }

  lemma SpansOfNames()
    ensures SpansIn(NAMES) == [Span(1, 2), Span(3, 4), Span(5, 5), Span(6, 5)] && ActivesIn(NAMES) == [6]
  {
    var n4, n3, n2, n1 := NAMES[..4], NAMES[..3], NAMES[..2], NAMES[..1];
    assert n4[..3] == n3 && n3[..2] == n2 && n2[..1] == n1 && n1[..0] == [];
    assert SpansIn(n1) == [Span(1, 2)] && ActivesIn(n1) == [];
    assert SpansIn(n2) == [Span(1, 2), Span(3, 4)] && ActivesIn(n2) == [];
    assert SpansIn(n3) == [Span(1, 2), Span(3, 4), Span(5, 5)] && ActivesIn(n3) == [];
    assert SpansIn(n4) == [Span(1, 2), Span(3, 4), Span(5, 5), Span(6, 5)] && ActivesIn(n4) == [];
  }

  const READ := [R1, R2] + [R3, R4] + [R5, R1] + [R4, R5] + [R6]

  lemma FlattenFour(a: Segment, b: Segment, c: Segment, d: Segment)
    ensures Flatten([a, b, c, d]) == a.recs + b.recs + c.recs + d.recs
  {
    assert [a, b, c, d][..3] == [a, b, c] && [a, b, c][..2] == [a, b] && [a, b][..1] == [a] && [a][..0] == [];
    assert Flatten([a]) == a.recs;
    assert Flatten([a, b]) == a.recs + b.recs;
    assert Flatten([a, b, c]) == a.recs + b.recs + c.recs;
  }

  lemma ReadInOrder()
    ensures Records(LayoutNamed(FILES, NAMES)) == READ
  {
    SpansOfNames();
    var a, b, c, d := Segment(1, 2, [R1, R2]), Segment(3, 4, [R3, R4]), Segment(5, 5, [R5, R1]), Segment(6, 5, [R4, R5]);
    hide SpansIn, ActivesIn, Flatten;
    FlattenFour(a, b, c, d);
    assert LayoutNamed(FILES, NAMES).sealed == [a, b, c, d];
    assert LayoutNamed(FILES, NAMES).active == Some(Tail(6, [R6]));
  }

  /** The last word on `x` among the records read: its first add and its completion. */
  lemma LastOfRead()
    ensures Positive(READ) && LastAdd(READ, "x") == 1 && LastCompletion(READ, "x") == 2
  {
    var h := [R1, R2, R3, R4, R5, R1, R4, R5, R6];
    assert READ == h;
    assert h[..8][..7] == h[..7] && h[..7][..6] == h[..6] && h[..6] == h[..5] + [R1];
    assert LastAdd(h[..6], "x") == 1;
    assert h[..6][..5] == h[..5] && h[..5][..4] == h[..4] && h[..4][..3] == h[..3] && h[..3][..2] == h[..2];
    assert LastCompletion(h[..2], "x") == 2 && LastCompletion(h[..3], "x") == 2 && LastCompletion(h[..5], "x") == 2;
    assert LastCompletion(h[..6], "x") == 2 && LastCompletion(h[..8], "x") == 2;
    assert LastAdd(h[..7], "x") == 1 && LastAdd(h[..8], "x") == 1;
  }

  lemma PendingInHistory()
    ensures "x" in PendingJobs(H6)
  {
    assert H6[..5] == H5 && H5[..4] == H4 && H4[..3] == H3;
    assert LastEvent(H3, "x") == Added(3);
    assert LastEvent(H4, "x") == Added(3);
    assert LastEvent(H5, "x") == Added(3);
    PendingIsAdded(H6, "x");
  }

  lemma NotIntact()
    ensures !W11.Intact()
  {
    var s := Segment(6, 5, [R2, R3]);
    assert W11.layout.sealed[3] == s && W11.files[FileOf(s)] != s.recs;
  }

  /** Add `x`, complete it and add it again, with two more entries, into segments of two: a flush fails after all five
      were written and is tried again, and one more entry is flushed. The second copy of the last add is replaced by
      a later file. The directory opens, and recovery calls the pending job completed. */
  lemma RetryMistakesReAddedJob()
    ensures FlushProtocol.IsRun(States(), Steps(), 40) && States()[13] == LAST
    ensures LAST.wal.files == FILES && !LAST.wal.Intact() && "x" in PendingJobs(LAST.committed)
    ensures IsSortedNames(FILES, NAMES) && Continuous(NAMES)
    ensures "x" in CompletedIn(NoteAll(map[], FlushProtocol.Recoverable(LAST, NAMES), Recovery))
  {
    RetryIsRun();
    NamesOfFiles();
    ReadInOrder();
    LastOfRead();
    PendingInHistory();
    NotIntact();
    hide FlushProtocol.IsRun, At, IsSortedNames, Continuous, LayoutNamed, Records, NoteAll, CompletedIn, PendingJobs, Wal.Intact;
    assert FlushProtocol.Unwritten(LAST) == [];
    assert READ + [] == READ;
    CompletedByIndex(READ, "x");
  }
}
