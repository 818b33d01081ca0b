/** Whole runs of one node whose consensus library delivers, after every restart, all entries above the snapshot again:
    also those that are in the files, which are then written once more. */
module Redelivery {
  import opened History
  import opened JobIndex
  import opened Segments
  import opened WalSteps
  import opened WalFiles
  import opened WalRuns
  import opened Compaction
  import opened Durability
  import opened NodeRuns
  import opened AnyOrder

  /** The decided entries above the cut. */
  function Above(n: Node): seq<Record> {
    From(n.history, n.Cut())
  }

  /** Those that have been delivered since the last restart. */
  function Delivery(n: Node): seq<Record> {
    if |n.awaiting| <= |Above(n)| then Above(n)[..|Above(n)| - |n.awaiting|] else []
  }

  /** Nothing that is still to be delivered was ever written. */
  predicate CaughtUp(n: Node) {
    Beyond(n.awaiting, n.written)
  }

  function Higher(a: nat, b: nat): nat {
    if a > b then a else b
  }

  /** The node after a crash: all entries above the snapshot will be delivered again. */
  ghost function Again(n: Node, w: Wal, k: nat, snapshot: nat): Node
    requires k <= |n.buffer|
  {
    Node(w, [], From(n.history, snapshot + 1), Recovered(w.Log(), snapshot), n.history, Higher(n.written, LastIndex(n.buffer[..k])))
  }

  ghost function Next(n: Node, m: Move, segmentSize: nat): Node
    requires n.wal.Valid() && NodeRuns.Possible(n, m, segmentSize)
  {
    if IsCrash(m) then Again(n, Found(n, m, segmentSize), Flushed(m), SnapshotFound(n, m))
    else if m.FlushNow? then NextNode(n, m, segmentSize).(written := Higher(n.written, LastIndex(n.buffer)))
    else NextNode(n, m, segmentSize)
  }

  /** A full file can be sealed whenever one has to be. A compaction that moves the cut waits until the entries in the
      files have been delivered again; it does not lose the record at the cut, empties the active file only if that
      holds nothing above the cut, and, unless it crashes, meets no stale completion. Nothing is asked of re-adds at a
      restart. */
  ghost predicate Allows(n: Node, m: Move, segmentSize: nat)
    requires n.wal.Valid() && NodeRuns.Possible(n, m, segmentSize)
  {
    ValidIsWritable(n.wal);
    && (m.FlushNow? ==> SealsWell(n.wal, n.buffer, segmentSize))
    && FilesAllow(n, m, segmentSize)
    && (IsCompaction(m) && NextCut(n) > n.core.firstIndex ==> CaughtUp(n) && SafeToEmpty(n.wal.Tail(), NextCut(n)))
    && (m.CompactNow? && NextCut(n) > n.core.firstIndex ==> NoStaleCompletion(n.core.index, NextCut(n)))
  }

  // ---------------------------------------------------------------- the invariant

  /** What an index says was said by a record of `k` up to `last`. */
  ghost predicate About(x: Index, k: seq<Record>, last: nat) {
    forall id | id in x :: SaidBy(x[id], k, last, id)
  }

  ghost predicate SaidBy(s: JobState, k: seq<Record>, last: nat, id: JobId) {
    && (s.addIndex > 0 || s.completeIndex > 0)
    && (s.addIndex > 0 ==> exists r :: r in k && Adds(r, id) && r.index == s.addIndex <= last)
    && (s.completeIndex > 0 ==> exists r :: r in k && Completes(r, id) && r.index == s.completeIndex <= last)
  }

  /** The index is what the deliveries since the restart made of what recovery found in the files. */
  ghost predicate Redone(n: Node) {
    exists x :: About(x, Above(n), n.written) && n.core.index == NoteAll(x, Delivery(n), Live)
  }

  /** The coming deliveries are the last entries above the cut, which fits the history. */
  ghost predicate InLine(n: Node) {
    && Increasing(n.history) && n.core.snapshot <= LastIndex(n.history) && CutFits(n.history, n.core.snapshot)
    && Above(n) == Delivery(n) + n.awaiting
  }

  /** The files hold every decided entry above the cut up to the highest one ever written, and the buffer what has been
      delivered beyond. */
  ghost predicate Filed(n: Node) {
    && n.written <= LastIndex(n.history)
    && (forall r | r in n.wal.Log() :: r in n.history && r.index <= n.written)
    && (forall r | r in Above(n) && r.index <= n.written :: r in n.wal.Log())
    && (forall r | r in Delivery(n) && r.index > n.written :: r in n.buffer)
    && Increasing(n.buffer) && (forall r | r in n.buffer :: r in n.history)
    && forall b, a | b in n.buffer && a in n.awaiting :: b.index < a.index
  }

  ghost predicate Steady(n: Node) {
    && n.wal.Valid() && InLine(n) && Filed(n)
    && if CaughtUp(n) then Tracks(n.core, Delivery(n)) else Redone(n)
  }

  // ---------------------------------------------------------------- the index after redelivery

  /** Once everything in the files has been delivered again, the index says exactly what those entries say, whatever
      recovery had made of them. */
  lemma RedoneState(x: Index, d: seq<Record>, k: seq<Record>, last: nat, id: JobId)
    requires Increasing(d) && About(x, k, last) && forall r | r in k && r.index <= last :: r in d
    ensures var s := StateOf(NoteAll(x, d, Live), id);
            && (id in NoteAll(x, d, Live) <==> id in Mentioned(d))
            && s.addIndex == LastAdd(d, id) && s.completeIndex == LastCompletion(d, id)
            && (id in Mentioned(d) ==> (s.completeType == Open <==> LastEvent(d, id).Added?))
  {
    hide NoteAll, LastAdd, LastCompletion, LastEvent, LastCompleteType;
    LiveState(x, d, id);
    LastIsHeld(d, id);
    LastEventByIndex(d, id);
    EventOnlyIfMentioned(d, id);
    TypeOfCompletion(d, id);
    if id in x {
      assert SaidBy(x[id], k, last, id);
    }
  }

  lemma RedoneTracks(c: Core, x: Index, d: seq<Record>, k: seq<Record>, last: nat)
    requires Increasing(d) && Beyond(d, c.snapshot) && About(x, k, last) && (forall r | r in k && r.index <= last :: r in d)
    requires c.index == NoteAll(x, d, Live)
    ensures Tracks(c, d)
  {
    hide NoteAll, LastAdd, LastCompletion, LastEvent, PendingJobs, About, Mentioned;
    forall id
      ensures id in PendingJobs(d) ==>
                && id in c.index && IsOpen(c.index[id]) && LastEvent(d, id).Added?
                && c.index[id].addIndex == LastEvent(d, id).index > c.snapshot
      ensures id in c.index ==> SoundState(c.index[id], d, id, c.snapshot)
    {
      RedoneState(x, d, k, last, id);
      RedoneJob(c, d, id);
    }
    hide Increasing, Beyond;
  }

  lemma RedoneJob(c: Core, d: seq<Record>, id: JobId)
    requires Increasing(d) && Beyond(d, c.snapshot) && (id in c.index <==> id in Mentioned(d))
    requires StateOf(c.index, id).addIndex == LastAdd(d, id) && StateOf(c.index, id).completeIndex == LastCompletion(d, id)
    requires id in Mentioned(d) ==> (StateOf(c.index, id).completeType == Open <==> LastEvent(d, id).Added?)
    ensures id in PendingJobs(d) ==>
              id in c.index && IsOpen(c.index[id]) && LastEvent(d, id).Added? && c.index[id].addIndex == LastEvent(d, id).index > c.snapshot
    ensures id in c.index ==> SoundState(c.index[id], d, id, c.snapshot)
  {
    hide LastAdd, LastCompletion, LastEvent, PendingJobs, Mentioned;
    LastEventByIndex(d, id);
    PendingIsAdded(d, id);
    LastIsHeld(d, id);
    EventOnlyIfMentioned(d, id);
  }

  lemma SteadyIndex(n: Node)
    requires InLine(n) && Redone(n) && CaughtUp(n)
    ensures Tracks(n.core, Delivery(n))
  {
    hide From, CutFits, NoteAll, About, Tracks;
    var x :| About(x, Above(n), n.written) && n.core.index == NoteAll(x, Delivery(n), Live);
    DeliveryIsAbove(n);
    RedoneTracks(n.core, x, Delivery(n), Above(n), n.written);
  }

  lemma DeliveryIsAbove(n: Node)
    requires InLine(n)
    ensures Increasing(Delivery(n)) && Increasing(n.awaiting) && Increasing(Above(n))
    ensures Beyond(Delivery(n), n.core.snapshot) && Beyond(n.awaiting, n.core.snapshot)
    ensures forall i, j | 0 <= i < |Delivery(n)| && 0 <= j < |n.awaiting| :: Delivery(n)[i].index < n.awaiting[j].index
    ensures forall r | r in Above(n) :: r in n.history && r.index <= LastIndex(n.history)
  {
    hide From, CutFits;
    var k, d := Above(n), Delivery(n);
    FromIncreases(n.history, n.Cut());
    FromStays(n.history, n.Cut(), LastIndex(n.history));
    IncreasingParts(d, n.awaiting);
    assert forall i | 0 <= i < |d| :: d[i] == k[i];
    assert forall i | 0 <= i < |n.awaiting| :: n.awaiting[i] == k[|d| + i];
    UpToLast(n.history);
  }

  // ---------------------------------------------------------------- decisions and deliveries

  lemma AboutMore(x: Index, k: seq<Record>, k': seq<Record>, last: nat, last': nat)
    requires About(x, k, last) && last <= last' && forall r | r in k :: r in k'
    ensures About(x, k', last')
  {
    forall id | id in x
      ensures SaidBy(x[id], k', last', id)
    {
      assert SaidBy(x[id], k, last, id);
    }
  }

  lemma DecisionLines(n: Node, r: Record)
    requires InLine(n) && Increasing(n.history + [r])
    ensures var n' := n.(awaiting := n.awaiting + [r], history := n.history + [r]);
            InLine(n') && Above(n') == Above(n) + [r] && Delivery(n') == Delivery(n)
  {
    hide From, CutFits, Increasing;
    var n' := n.(awaiting := n.awaiting + [r], history := n.history + [r]);
    EndAdvances(n.history, r);
    CutFitsNext(n.history, r, n.core.snapshot);
    FromNext(n.history, r, n.Cut());
    assert Above(n') == Delivery(n) + n'.awaiting;
  }

  lemma DecisionIsSteady(n: Node, r: Record, segmentSize: nat)
    requires Steady(n) && NodeRuns.Possible(n, Decided(r), segmentSize)
    ensures Steady(Next(n, Decided(r), segmentSize))
  {
    hide Wal.Valid, Records, Tracks, InLine, About, NoteAll, Above, Delivery;
    var n' := Next(n, Decided(r), segmentSize);
    DecisionInLine(n, r);
    EndAdvances(n.history, r);
    hide Increasing;
    assert n'.awaiting == n.awaiting + [r];
    assert CaughtUp(n') <==> CaughtUp(n) by { BeyondNext(n.awaiting, r, n.written); }
    if !CaughtUp(n) {
      var x :| About(x, Above(n), n.written) && n.core.index == NoteAll(x, Delivery(n), Live);
      AboutMore(x, Above(n), Above(n'), n.written, n.written);
    }
  }

  lemma DecisionInLine(n: Node, r: Record)
    requires InLine(n) && Filed(n) && Increasing(n.history + [r])
    ensures var n' := n.(awaiting := n.awaiting + [r], history := n.history + [r]);
            && InLine(n') && Filed(n') && Above(n') == Above(n) + [r] && Delivery(n') == Delivery(n)
  {
    hide InLine, Above, Delivery, Records;
    DecisionLines(n, r);
    EndAdvances(n.history, r);
    IncreasingParts(n.history, [r]);
    var n' := n.(awaiting := n.awaiting + [r], history := n.history + [r]);
    forall b | b in n.buffer
      ensures b.index < r.index
    {
      InHistory(n.history, b);
    }
    hide Increasing;
  }

  lemma InHistory(h: seq<Record>, r: Record)
    requires Increasing(h) && r in h
    ensures r.index <= LastIndex(h)
  {
    UpToLast(h);
  }

  lemma BeyondNext(a: seq<Record>, r: Record, last: nat)
    ensures Beyond(a + [r], last) <==> Beyond(a, last) && r.index > last
  {
    assert (a + [r])[|a|] == r && forall i | 0 <= i < |a| :: (a + [r])[i] == a[i];
  }

  lemma DeliveryLines(n: Node, n': Node)
    requires InLine(n) && n.awaiting != [] && n'.awaiting == n.awaiting[1..] && n'.history == n.history
    requires n'.core.snapshot == n.core.snapshot
    ensures InLine(n') && Above(n') == Above(n) && Delivery(n') == Delivery(n) + [n.awaiting[0]]
  {
    hide From, CutFits, Increasing;
    assert Above(n) == (Delivery(n) + [n.awaiting[0]]) + n'.awaiting;
  }

  lemma DeliveryFiled(n: Node, n': Node)
    requires Filed(n) && n.awaiting != [] && n'.awaiting == n.awaiting[1..] && n'.buffer == n.buffer + [n.awaiting[0]]
    requires n'.history == n.history && n'.wal == n.wal && n'.written == n.written
    requires Above(n') == Above(n) && Delivery(n') == Delivery(n) + [n.awaiting[0]]
    requires Increasing(n.awaiting) && n.awaiting[0] in n.history
    ensures Filed(n')
  {
    hide Records, Above, Delivery, Increasing;
    var r := n.awaiting[0];
    FirstIsNext(n.buffer, n.awaiting);
  }

  /** The first of `late` goes to the end of `early`. */
  lemma FirstIsNext(early: seq<Record>, late: seq<Record>)
    requires Increasing(early) && Increasing(late) && late != [] && forall b, a | b in early && a in late :: b.index < a.index
    ensures Increasing(early + [late[0]]) && forall b, a | b in early + [late[0]] && a in late[1..] :: a in late && b.index < a.index
  {
    var r := late[0];
    assert forall i | 0 <= i < |early| :: early[i] in early;
    IncreasingParts(early, [r]);
    forall a | a in late[1..]
      ensures a in late && r.index < a.index
    {
      var j :| 0 <= j < |late[1..]| && late[1..][j] == a;
      assert late[j + 1] == a;
    }
  }

  lemma DeliveryInLine(n: Node)
    requires InLine(n) && Filed(n) && n.awaiting != []
    ensures var n' := n.(buffer := n.buffer + [n.awaiting[0]], awaiting := n.awaiting[1..], core := Committed(n.core, n.awaiting[0]));
            && InLine(n') && Filed(n') && Above(n') == Above(n) && Delivery(n') == Delivery(n) + [n.awaiting[0]]
  {
    hide Filed, Records, Committed, Increasing, Delivery, Above, CutFits;
    var r := n.awaiting[0];
    var n' := n.(buffer := n.buffer + [r], awaiting := n.awaiting[1..], core := Committed(n.core, r));
    CommitKeepsCut(n.core, r);
    DeliveryLines(n, n');
    DeliveryIsAbove(n);
    assert Above(n)[|Delivery(n)|] == r;
    DeliveryFiled(n, n');
  }

  lemma CommitKeepsCut(c: Core, r: Record)
    ensures Committed(c, r).snapshot == c.snapshot && Committed(c, r).index == Note(c.index, r, Live)
  {
  }

  lemma DeliveryIsSteady(n: Node, segmentSize: nat)
    requires Steady(n) && NodeRuns.Possible(n, Delivered, segmentSize)
    ensures Steady(Next(n, Delivered, segmentSize))
  {
    hide Wal.Valid, Records, Tracks, InLine, Filed, About, NoteAll, Above, Delivery, Committed;
    var n', r := Next(n, Delivered, segmentSize), n.awaiting[0];
    DeliveryInLine(n);
    CommitKeepsCut(n.core, r);
    if CaughtUp(n) {
      DeliveryTracksOn(n);
      assert CaughtUp(n') by { assert forall j | 0 <= j < |n'.awaiting| :: n'.awaiting[j] == n.awaiting[j + 1]; }
    } else {
      var x :| About(x, Above(n), n.written) && n.core.index == NoteAll(x, Delivery(n), Live);
      NoteNext(x, Delivery(n), r);
      assert Redone(n');
      if CaughtUp(n') {
        SteadyIndex(n');
      }
    }
  }

  lemma NoteNext(x: Index, d: seq<Record>, r: Record)
    ensures NoteAll(x, d + [r], Live) == Note(NoteAll(x, d, Live), r, Live)
  {
    assert (d + [r])[..|d|] == d;
  }

  lemma DeliveryTracksOn(n: Node)
    requires InLine(n) && n.awaiting != [] && Tracks(n.core, Delivery(n))
    ensures Tracks(Committed(n.core, n.awaiting[0]), Delivery(n) + [n.awaiting[0]])
  {
    hide From, CutFits, Tracks, Committed;
    DeliveryIsAbove(n);
    IncreasingParts(Delivery(n), [n.awaiting[0]]);
    CommitKeepsTrack(n.core, Delivery(n), n.awaiting[0]);
  }

  lemma ReplicationIsSteady(n: Node, m: Move, segmentSize: nat)
    requires Steady(n) && m.Replicated?
    ensures Steady(Next(n, m, segmentSize))
  {
    hide Wal.Valid, Increasing, PendingJobs, LastEvent, Records, From, About, NoteAll, CutFits;
    var n' := Next(n, m, segmentSize);
    assert Above(n') == Above(n) && Delivery(n') == Delivery(n);
  }

  // ---------------------------------------------------------------- flushes

  /** After the first `k` buffered entries have been written. */
  lemma FiledAfter(n: Node, k: nat, r: Record)
    requires InLine(n) && Filed(n) && k <= |n.buffer| && r in Above(n) && r.index <= Higher(n.written, LastIndex(n.buffer[..k]))
    ensures r in n.wal.Log() + n.buffer[..k]
  {
    hide From, CutFits, Records;
    if r.index > n.written {
      var b := n.buffer[..k];
      assert b[k - 1] in n.buffer;
      assert r in Delivery(n) || r in n.awaiting;
      assert r in n.buffer;
      var i :| 0 <= i < |n.buffer| && n.buffer[i] == r;
      assert i < k && b[i] == r;
    }
  }

  lemma PrefixUpTo(b: seq<Record>, h: seq<Record>, k: nat)
    requires Increasing(b) && Increasing(h) && k <= |b| && forall r | r in b :: r in h
    ensures Positive(b[..k]) && LastIndex(b[..k]) <= LastIndex(h)
    ensures forall i | 0 <= i < k :: b[..k][i] in h && b[..k][i].index <= LastIndex(b[..k])
  {
    IncreasingSuffix(b, k);
    UpToLast(b[..k]);
    assert forall i | 0 <= i < k :: b[..k][i] in b;
    if k > 0 {
      InHistory(h, b[..k][k - 1]);
    }
  }

  lemma WrittenAfter(n: Node, k: nat)
    requires InLine(n) && Filed(n) && k <= |n.buffer|
    ensures Higher(n.written, LastIndex(n.buffer[..k])) <= LastIndex(n.history)
    ensures forall r | r in n.wal.Log() + n.buffer[..k] :: r in n.history && r.index <= Higher(n.written, LastIndex(n.buffer[..k]))
    ensures Positive(n.buffer[..k])
  {
    hide From, CutFits, Records, Above, Delivery;
    var b := n.buffer[..k];
    PrefixUpTo(n.buffer, n.history, k);
    hide Increasing, Positive;
    forall r | r in n.wal.Log() + b
      ensures r in n.history && r.index <= Higher(n.written, LastIndex(b))
    {
      if r !in n.wal.Log() {
        var i :| 0 <= i < k && b[i] == r;
      }
    }
  }

  lemma FlushIsSteady(n: Node, segmentSize: nat)
    requires Steady(n) && segmentSize > 0 && NodeRuns.Possible(n, FlushNow, segmentSize) && Allows(n, FlushNow, segmentSize)
    ensures Steady(Next(n, FlushNow, segmentSize))
  {
    hide NamesOk, ContentsOk, Holds, Records, Tracks, InLine, About, NoteAll, Above, Delivery, AppendAll, SealsWell, Increasing;
    var n', k := Next(n, FlushNow, segmentSize), |n.buffer|;
    assert n.buffer[..k] == n.buffer;
    WrittenAfter(n, k);
    ValidIsWritable(n.wal);
    AppendAllKeepsLayoutIff(n.wal, n.buffer, segmentSize);
    SameLine(n, n');
    forall r | r in Above(n) && r.index <= n'.written
      ensures r in n'.wal.Log()
    {
      FiledAfter(n, k, r);
    }
    assert Filed(n') by { EmptyBuffer(n, n'); }
    FlushedCaughtUp(n, n');
    if !CaughtUp(n) {
      var x :| About(x, Above(n), n.written) && n.core.index == NoteAll(x, Delivery(n), Live);
      AboutMore(x, Above(n), Above(n'), n.written, n'.written);
    }
  }

  lemma SameLine(a: Node, b: Node)
    requires InLine(a) && a.awaiting == b.awaiting && a.history == b.history && a.core.snapshot == b.core.snapshot
    ensures InLine(b) && Above(a) == Above(b) && Delivery(a) == Delivery(b)
  {
    hide From, CutFits, Increasing;
  }

  lemma EmptyBuffer(n: Node, n': Node)
    requires Filed(n) && n'.buffer == [] && n'.awaiting == n.awaiting && n'.history == n.history
    requires Above(n') == Above(n) && Delivery(n') == Delivery(n) && n'.written == Higher(n.written, LastIndex(n.buffer))
    requires n'.written <= LastIndex(n.history) && (forall r | r in n'.wal.Log() :: r in n.history && r.index <= n'.written)
    requires forall r | r in Above(n) && r.index <= n'.written :: r in n'.wal.Log()
    ensures Filed(n')
  {
    hide From, Records, Above, Delivery;
    forall r | r in Delivery(n)
      ensures r.index <= n'.written
    {
      if r.index > n.written {
        var i :| 0 <= i < |n.buffer| && n.buffer[i] == r;
        assert r.index <= n.buffer[|n.buffer| - 1].index;
      }
    }
    assert Increasing([]);
  }

  lemma FlushedCaughtUp(n: Node, n': Node)
    requires Filed(n) && n'.awaiting == n.awaiting && n'.written == Higher(n.written, LastIndex(n.buffer))
    ensures CaughtUp(n') <==> CaughtUp(n)
  {
    hide From, Records, Above, Delivery, Increasing;
    if n.buffer != [] {
      assert n.buffer[|n.buffer| - 1] in n.buffer;
      assert forall j | 0 <= j < |n.awaiting| :: n.awaiting[j] in n.awaiting;
    }
  }

  // ---------------------------------------------------------------- compaction

  /** A record above the cut, or the one at it if it is not lost, lies in a file that truncation keeps. */
  lemma SharesIfKept(w: Wal, u: nat, r: Record)
    requires w.Valid() && SafeToEmpty(w.Tail(), u) && !LosesRecordAt(w, u) && r in w.Log() && r.index >= u
    ensures SharesSegmentWithLater(w.layout, r, u)
  {
    hide Holds, NamesOk, Positive;
    if r.index > u {
      FlattenMember(w.layout.sealed, r);
      hide Flatten;
      if r in Flatten(w.layout.sealed) {
        var i :| 0 <= i < |w.layout.sealed| && r in w.layout.sealed[i].recs;
        assert Within(w.layout.sealed[i].recs, w.layout.sealed[i].hi);
      }
    }
  }

  /** So it is still there while sealed files are being removed. */
  lemma StaysWhileRemoving(w: Wal, u: nat, j: nat, r: Record)
    requires w.Valid() && j <= Below(w.layout.sealed, u) && SharesSegmentWithLater(w.layout, r, u)
    ensures r in WithoutOldest(w, j).Log()
  {
    hide Holds, ContentsOk, NamesOf;
    var sealed := w.layout.sealed;
    FlattenMember(sealed[j..], r);
    hide Flatten, Linked;
    if i :| 0 <= i < |sealed| && r in sealed[i].recs && sealed[i].hi > u {
      KeptSegments(sealed, u, i);
      assert sealed[j..][i - j] == sealed[i];
    }
  }

  /** The next cut keeps the deliveries in line. */
  lemma NextCutInLine(n: Node)
    requires InLine(n) && Tracks(n.core, Delivery(n)) && NextCut(n) > n.core.firstIndex
    ensures var n' := n.(core := n.core.(snapshot := NextCut(n) - 1));
            && n.core.snapshot < NextCut(n) && InLine(n') && Above(n') == From(Above(n), NextCut(n))
            && Delivery(n') == From(Delivery(n), NextCut(n))
  {
    hide From, KeepFrom, PendingJobs, LastEvent, Tracks;
    var u, d := NextCut(n), Delivery(n);
    var n' := n.(core := n.core.(snapshot := u - 1));
    CutIsSafe(n.core, d);
    DeliveryIsAbove(n);
    LateAreLater(n);
    FromFrom(n.history, n.Cut(), u);
    FromConcat(d, n.awaiting, u);
    FromAll(n.awaiting, u);
    assert Above(n') == From(d, u) + n.awaiting;
    NextCutFits(n, u);
    hide Increasing, CutFits;
  }

  lemma FromAll(c: seq<Record>, u: nat)
    requires u > 0 && Beyond(c, u - 1)
    ensures From(c, u) == c
  {
    FromKeepsAll(c, u);
  }

  lemma LateAreLater(n: Node)
    requires InLine(n)
    ensures Beyond(n.awaiting, LastIndex(Delivery(n))) && LastIndex(Delivery(n)) <= LastIndex(n.history)
  {
    hide From, CutFits;
    DeliveryIsAbove(n);
    var d := Delivery(n);
    if d != [] {
      assert d[|d| - 1] in Above(n);
    }
    hide Increasing;
  }

  lemma NextCutFits(n: Node, u: nat)
    requires InLine(n) && u <= LastIndex(Delivery(n)) + 1
    requires forall p | p in PendingJobs(Delivery(n)) :: u <= LastEvent(Delivery(n), p).index
    ensures u > 0 ==> CutFits(n.history, u - 1)
  {
    hide From, Increasing, LastEvent;
    DeliveryIsAbove(n);
    LateAreLater(n);
    FromAll(n.awaiting, n.Cut());
    forall id | id in PendingJobs(n.history)
      ensures LastEvent(n.history, id).index >= u
    {
      PendingFitsNextCut(n, Delivery(n), u, id);
    }
  }

  /** What stays above the next cut is filed as before. */
  lemma FiledAbove(n: Node, n': Node, u: nat)
    requires Filed(n) && n'.buffer == n.buffer && n'.awaiting == n.awaiting && n'.history == n.history && n'.written == n.written
    requires Above(n') == From(Above(n), u) && Delivery(n') == From(Delivery(n), u)
    requires forall r | r in n'.wal.Log() :: r in n.wal.Log()
    requires forall r | r in n.wal.Log() && r.index >= u :: r in n'.wal.Log()
    ensures Filed(n')
  {
    hide From, Records, Above, Delivery, Increasing;
    forall r
      ensures r in Above(n') ==> r in Above(n) && r.index >= u
      ensures r in Delivery(n') ==> r in Delivery(n)
    {
      FromMember(Above(n), u, r);
      FromMember(Delivery(n), u, r);
    }
  }

  lemma TruncatedKeeps(w: Wal, u: nat)
    requires w.Valid() && SafeToEmpty(w.Tail(), u) && !LosesRecordAt(w, u)
    ensures Truncated(w, u).Valid()
    ensures forall r | r in Truncated(w, u).Log() :: r in w.Log()
    ensures forall r | r in w.Log() && r.index >= u :: r in Truncated(w, u).Log()
  {
    hide NamesOk, ContentsOk, Holds, Truncated, LosesRecordAt, Records, Dropped, SharesSegmentWithLater;
    TruncationKeepsAboveIff(w, u);
    forall r | r in w.Log() && r.index >= u
      ensures r in Truncated(w, u).Log()
    {
      SharesIfKept(w, u, r);
      TruncationSurvivors(w, u, r);
    }
  }

  lemma CompactIsSteady(n: Node, segmentSize: nat)
    requires Steady(n) && NodeRuns.Possible(n, CompactNow, segmentSize) && Allows(n, CompactNow, segmentSize)
    ensures Steady(Next(n, CompactNow, segmentSize))
  {
    hide NamesOk, ContentsOk, Holds, Records, KeepFrom, Compacted, Truncated, LosesRecordAt, NoStaleCompletion, Tracks, From,
         CutFits, InLine, Filed, Above, Delivery;
    var u, d := NextCut(n), Delivery(n);
    if u > n.core.firstIndex {
      var n' := Next(n, CompactNow, segmentSize);
      NextCutInLine(n);
      CompactedCases(n.core);
      TruncatedKeeps(n.wal, u);
      SameLine(n.(core := n.core.(snapshot := u - 1)), n');
      FiledAbove(n, n', u);
      CompactionTracksIff(n.core, d);
      TracksFrom(Compacted(n.core), d);
    }
  }

  // ---------------------------------------------------------------- crashes

  lemma RecoveredAbout(log: seq<Record>, k: seq<Record>, snapshot: nat, last: nat)
    requires Positive(log) && forall r | r in log && r.index > snapshot :: r in k && r.index <= last
    ensures About(Recovered(log, snapshot).index, k, last)
  {
    var kept := From(log, snapshot + 1);
    var x := Recovered(log, snapshot).index;
    BuildIsNoteAll(kept, Recovery);
    KeptAre(log, snapshot, k, last);
    hide Recovered, From, NoteAll, LastAdd, LastCompletion, LastCompleteType, Mentioned;
    forall id | id in x
      ensures SaidBy(x[id], k, last, id)
    {
      RecoveredState(map[], kept, id);
      LastIsHeld(kept, id);
      MentionedMeans(kept, id);
    }
  }

  lemma KeptAre(log: seq<Record>, snapshot: nat, k: seq<Record>, last: nat)
    requires Positive(log) && forall r | r in log && r.index > snapshot :: r in k && r.index <= last
    ensures Positive(From(log, snapshot + 1)) && forall r | r in From(log, snapshot + 1) :: r in k && r.index <= last
  {
    hide From;
    forall r | r in From(log, snapshot + 1)
      ensures r in k && r.index <= last && 0 < r.index
    {
      FromMember(log, snapshot + 1, r);
    }
  }

  lemma {:induction false} MentionedMeans(h: seq<Record>, id: JobId)
    requires Positive(h)
    ensures id in Mentioned(h) ==> LastAdd(h, id) > 0 || LastCompletion(h, id) > 0
  {
    if h != [] {
      MentionedMeans(h[..|h| - 1], id);
    }
  }

  /** After a crash, whatever recovery makes of the files, the node is steady: all it may have got wrong will be
      delivered again. */
  lemma AgainIsSteady(n: Node, w: Wal, k: nat, snapshot: nat)
    requires Increasing(n.history) && snapshot <= LastIndex(n.history) && CutFits(n.history, snapshot) && k <= |n.buffer| && w.Valid()
    requires var last := Higher(n.written, LastIndex(n.buffer[..k]));
             && last <= LastIndex(n.history) && (forall r | r in w.Log() :: r in n.history && r.index <= last)
             && forall r | r in From(n.history, snapshot + 1) && r.index <= last :: r in w.Log()
    ensures Steady(Again(n, w, k, snapshot))
  {
    hide From, CutFits, Recovered, Records, Wal.Valid, NoteAll, About, Tracks;
    var n', h := Again(n, w, k, snapshot), n.history;
    RecoveredSnapshot(w.Log(), snapshot);
    assert Above(n') == n'.awaiting && Delivery(n') == [] && Above(n') == [] + n'.awaiting;
    assert Increasing([]);
    LogIsPositive(w, h);
    forall r | r in w.Log() && r.index > snapshot
      ensures r in Above(n') && r.index <= n'.written
    {
      FromMember(h, snapshot + 1, r);
    }
    hide Increasing;
    RecoveredAbout(w.Log(), Above(n'), snapshot, n'.written);
    NothingNoted(n'.core.index);
    assert Redone(n');
    if CaughtUp(n') {
      SteadyIndex(n');
    }
  }

  lemma NothingNoted(x: Index)
    ensures NoteAll(x, [], Live) == x
  {
  }

  lemma LogIsPositive(w: Wal, h: seq<Record>)
    requires Increasing(h) && forall r | r in w.Log() :: r in h
    ensures Positive(w.Log())
  {
    hide Records;
    forall i | 0 <= i < |w.Log()|
      ensures 0 < w.Log()[i].index
    {
      assert w.Log()[i] in h;
    }
  }

  lemma FlushCrashIsSteady(n: Node, m: Move, segmentSize: nat)
    requires Steady(n) && segmentSize > 0 && IsCrash(m) && !IsCompaction(m)
    requires NodeRuns.Possible(n, m, segmentSize) && FilesAllow(n, m, segmentSize)
    ensures Steady(Next(n, m, segmentSize))
  {
    hide Wal.Valid, Records, From, CutFits, Tracks, Found, FilesAllow, Recovered, About, NoteAll, Delivery, Filed, Increasing,
         Redone, Again;
    var w, k := Found(n, m, segmentSize), Flushed(m);
    assert k <= |n.buffer|;
    WrittenAfter(n, k);
    FlushCrashLog(n, m, segmentSize);
    forall r | r in Above(n) && r.index <= Higher(n.written, LastIndex(n.buffer[..k]))
      ensures r in w.Log()
    {
      FiledAfter(n, k, r);
    }
    AgainIsSteady(n, w, k, n.core.snapshot);
  }

  lemma CompactionCrashKeeps(n: Node, m: Move, segmentSize: nat)
    requires n.wal.Valid() && IsCrash(m) && IsCompaction(m) && NodeRuns.Possible(n, m, segmentSize)
    requires SafeToEmpty(n.wal.Tail(), NextCut(n)) && !LosesRecordAt(n.wal, NextCut(n))
    ensures Found(n, m, segmentSize).Valid()
    ensures forall r | r in Found(n, m, segmentSize).Log() :: r in n.wal.Log()
    ensures forall r | r in n.wal.Log() && r.index >= NextCut(n) :: r in Found(n, m, segmentSize).Log()
  {
    hide NamesOk, ContentsOk, Holds, Records, Reopened, LosesRecordAt, KeepFrom, WithoutOldest, SharesSegmentWithLater, Truncated;
    var w, u := n.wal, NextCut(n);
    if m.CrashInCompaction? {
      OldestAreBelow(w, u, m.removed);
      OldestRemovedKeepsLayout(w, m.removed);
      ReopenKeepsLog(WithoutOldest(w, m.removed).files, WithoutOldest(w, m.removed).layout);
      forall r | r in w.Log() && r.index >= u
        ensures r in WithoutOldest(w, m.removed).Log()
      {
        SharesIfKept(w, u, r);
        StaysWhileRemoving(w, u, m.removed, r);
      }
    } else {
      EmptiedIsFresh();
      EmptyingSummary(w, u);
      TruncatedKeeps(w, u);
    }
  }

  lemma CompactionCrashIsSteady(n: Node, m: Move, segmentSize: nat)
    requires Steady(n) && segmentSize > 0 && IsCrash(m) && IsCompaction(m)
    requires NodeRuns.Possible(n, m, segmentSize) && Allows(n, m, segmentSize)
    ensures Steady(Next(n, m, segmentSize))
  {
    hide NamesOk, ContentsOk, Holds, Records, From, CutFits, Tracks, Found, Recovered, About, NoteAll, Increasing, Redone,
         KeepFrom, LosesRecordAt, Again, SealsWell;
    var w, u := Found(n, m, segmentSize), NextCut(n);
    assert CaughtUp(n) && n.buffer[..0] == [];
    NextCutInLine(n);
    CompactionCrashKeeps(n, m, segmentSize);
    KeptAboveCut(n, w, u);
    hide Filed, Above, Delivery, CaughtUp, SafeToEmpty, Allows;
    AgainIsSteady(n, w, 0, u - 1);
  }

  lemma KeptAboveCut(n: Node, w: Wal, u: nat)
    requires InLine(n) && Filed(n) && u >= n.Cut()
    requires (forall r | r in w.Log() :: r in n.wal.Log()) && forall r | r in n.wal.Log() && r.index >= u :: r in w.Log()
    ensures forall r | r in w.Log() :: r in n.history && r.index <= n.written
    ensures forall r | r in From(n.history, u) && r.index <= n.written :: r in w.Log()
  {
    hide From, Records, CutFits, Increasing;
    forall r | r in From(n.history, u) && r.index <= n.written
      ensures r in w.Log()
    {
      FromMember(n.history, u, r);
      FromMember(n.history, n.Cut(), r);
    }
  }

  // ---------------------------------------------------------------- runs

  lemma StepIsSteady(n: Node, m: Move, segmentSize: nat)
    requires Steady(n) && segmentSize > 0 && NodeRuns.Possible(n, m, segmentSize) && Allows(n, m, segmentSize)
    ensures Steady(Next(n, m, segmentSize))
  {
    hide Next, NodeRuns.Possible, Steady, Wal.Valid, SealsWell, LosesRecordAt, KeepFrom, NoStaleCompletion;
    match m
    case Decided(r) => DecisionIsSteady(n, r, segmentSize);
    case Delivered => DeliveryIsSteady(n, segmentSize);
    case Replicated(_, _, _) => ReplicationIsSteady(n, m, segmentSize);
    case FlushNow => FlushIsSteady(n, segmentSize);
    case CompactNow => CompactIsSteady(n, segmentSize);
    case CrashInCompaction(_) => CompactionCrashIsSteady(n, m, segmentSize);
    case CrashAfterEmptying => CompactionCrashIsSteady(n, m, segmentSize);
    case _ => FlushCrashIsSteady(n, m, segmentSize);
  }

  ghost predicate IsRun(nodes: seq<Node>, moves: seq<Move>, segmentSize: nat) {
    && segmentSize > 0 && |nodes| == |moves| + 1 && nodes[0] == FRESH_NODE
    && forall i | 0 <= i < |moves| && nodes[i].wal.Valid() ::
         && NodeRuns.Possible(nodes[i], moves[i], segmentSize) && Allows(nodes[i], moves[i], segmentSize)
         && nodes[i + 1] == Next(nodes[i], moves[i], segmentSize)
  }

  lemma FreshIsSteady()
    ensures Steady(FRESH_NODE)
  {
    FreshIsValid(1);
    NothingTracked();
    assert FRESH_NODE.wal.Log() == [];
    hide Wal.Valid, Tracks, Redone, InLine, Filed, Records, Fresh;
    NothingYet(FRESH_NODE);
  }

  lemma NothingYet(n: Node)
    requires n.wal.Log() == [] && n.buffer == [] && n.awaiting == [] && n.history == [] && n.core.snapshot == n.written == 0
    ensures InLine(n) && Filed(n) && CaughtUp(n) && Delivery(n) == []
  {
    hide Records;
    assert Above(n) == [];
  }

  lemma SteadyIsValid(n: Node)
    requires Steady(n)
    ensures n.wal.Valid()
  {
  }

  lemma {:induction false} RunsAreSteady(nodes: seq<Node>, moves: seq<Move>, segmentSize: nat, i: nat)
    requires IsRun(nodes, moves, segmentSize) && i <= |moves|
    ensures Steady(nodes[i])
  {
    hide Next, NodeRuns.Possible, Allows, Steady, Wal.Valid;
    if i == 0 {
      FreshIsSteady();
    } else {
      RunsAreSteady(nodes, moves, segmentSize, i - 1);
      SteadyIsValid(nodes[i - 1]);
      StepIsSteady(nodes[i - 1], moves[i - 1], segmentSize);
    }
  }

  /** After any such run, wherever the node crashed and however often entries were delivered and written again: the files
      hold every decided entry above the snapshot up to the highest one ever written, and nothing that was not
      decided; what lies beyond is buffered or still to be delivered; the entries above the snapshot give exactly the
      pending jobs of the whole history; and once redelivery has caught up, the index tracks them. */
  lemma RedeliveredRunsKeepEverything(nodes: seq<Node>, moves: seq<Move>, segmentSize: nat, i: nat)
    requires IsRun(nodes, moves, segmentSize) && i <= |moves|
    ensures var n := nodes[i];
            && (forall r | r in n.wal.Log() :: r in n.history)
            && (forall r | r in n.history && n.core.snapshot < r.index <= n.written :: r in n.wal.Log())
            && (forall r | r in n.history && r.index > n.core.snapshot && r.index > n.written :: r in n.buffer || r in n.awaiting)
            && PendingJobs(From(n.history, n.Cut())) == PendingJobs(n.history)
            && (CaughtUp(n) ==> Tracks(n.core, Delivery(n)) && Above(n) == Delivery(n) + n.awaiting)
  {
    hide Next, NodeRuns.Possible, Allows, From, Wal.Valid, Records, Tracks, PendingJobs, LastEvent, Redone, CaughtUp, Increasing;
    RunsAreSteady(nodes, moves, segmentSize, i);
    var n := nodes[i];
    CutKeepsPendingIff(n.history, n.Cut());
    forall r | r in n.history && r.index > n.core.snapshot
      ensures r in Above(n)
    {
      FromMember(n.history, n.Cut(), r);
    }
  }

  // ---------------------------------------------------------------- a compaction that does not wait

  const OTHER_1 := Record(1, Other, 20)
  const ADD_2 := Record(2, AddJobs(["x"]), 20)
  const DONE_3 := Record(3, Done(["x"]), 20)
  const RESTARTED := Core(map["x" := JobState(2, 3, ByDone)], map[1 := OTHER_1, 2 := ADD_2, 3 := DONE_3], 1, 3, 0)

  /** A job added at 2 and done at 3, recovered from the files: a compaction before the entries have been delivered
      again cuts past both, and the next one, between the two deliveries, moves the cut back. */
  lemma HastyCompactionMovesCutBack()
    ensures Recovered([OTHER_1, ADD_2, DONE_3], 0) == RESTARTED
    ensures Compacted(RESTARTED).snapshot == 3
    ensures Compacted(Committed(Committed(Compacted(RESTARTED), OTHER_1), ADD_2)).snapshot == 1
  {
    FirstCut();
    SecondCut();
    RecoveredIs();
  }

  lemma RecoveredIs()
    ensures Recovered([OTHER_1, ADD_2, DONE_3], 0) == RESTARTED
  {
    var h := [OTHER_1, ADD_2, DONE_3];
    assert h[..2] == [OTHER_1, ADD_2] && [OTHER_1, ADD_2][..1] == [OTHER_1] && [OTHER_1][..0] == [];
    FromKeepsAll(h, 1);
    assert Build([OTHER_1], Recovery) == map[];
    assert Build([OTHER_1, ADD_2], Recovery) == map["x" := JobState(2, 0, Open)];
    assert Build(h, Recovery) == map["x" := JobState(2, 3, ByDone)];
    var none: map<nat, Record> := map[];
    assert StoreAll(none, [OTHER_1]) == map[1 := OTHER_1];
    assert StoreAll(none, [OTHER_1, ADD_2]) == map[1 := OTHER_1][2 := ADD_2] == map[1 := OTHER_1, 2 := ADD_2];
    assert StoreAll(none, h) == map[1 := OTHER_1, 2 := ADD_2][3 := DONE_3] == RESTARTED.entries;
    var keys := RESTARTED.entries.Keys;
    assert 1 in keys && 3 in keys && forall i | i in keys :: 1 <= i <= 3;
  }

  const CUT_AT_3 := Core(map[], map[], 1, 0, 3)

  lemma FirstCut()
    ensures Compacted(RESTARTED) == CUT_AT_3
  {
    var m := RESTARTED.index;
    assert OpenAdds(m) == {} && m["x"].completeIndex in Completions(m) && Completions(m) == {3};
    assert KeepFrom(m, 1) == 4;
    KeepsNone(RESTARTED.entries, 4);
    NoneStays(m, 4);
  }

  lemma SecondCut()
    ensures Compacted(Committed(Committed(CUT_AT_3, OTHER_1), ADD_2)).snapshot == 1
  {
    assert Committed(CUT_AT_3, OTHER_1) == CUT_AT_3;
    var c := Committed(CUT_AT_3, ADD_2);
    assert c.index == map["x" := JobState(2, 0, Open)];
    assert c.index["x"].addIndex in OpenAdds(c.index) && OpenAdds(c.index) == {2};
    assert KeepFrom(c.index, c.firstIndex) == 2;
  }
}
