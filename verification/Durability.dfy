/** Compaction on disk: the cut is the first index to keep, truncation removes segments that end at it. */
module Durability {
  import opened History
  import opened JobIndex
  import opened Segments
  import opened WalSteps
  import opened Compaction

  /** Truncating at `u` removes the record at `u` itself: it is on disk and no later record shares its segment. */
  ghost predicate LosesRecordAt(w: Wal, u: nat) {
    exists r :: r in w.Log() && r.index == u && !SharesSegmentWithLater(w.layout, r, u)
  }

  lemma AtOrAfter(log: seq<Record>, k: nat, i: nat)
    requires Increasing(log) && k <= |log| && i < |log| && log[i] in log[k..]
    ensures i >= k
  {
    var j :| k <= j < |log| && log[j] == log[i];
    assert log[i].index == log[j].index;
  }

  /** A log in order loses nothing above the truncation index. */
  lemma InOrderIsSafe(w: Wal, u: nat)
    requires w.Valid() && Increasing(w.Log())
    ensures SafeToEmpty(w.Tail(), u) && DropsOnlyUpTo(w.Log(), Dropped(w, u), u)
  {
    hide Holds, WellFormed, Truncated, Dropped;
    var flat, recs := Flatten(w.layout.sealed), w.Tail().recs;
    assert (flat + recs)[|flat|..] == recs;
    IncreasingSuffix(flat + recs, |flat|);
    UpToLast(recs);
    TruncationKeepsAboveIff(w, u);
  }

  /** The record at `u` is cut off exactly when it does not survive. */
  lemma CutAt(w: Wal, u: nat, i: nat)
    requires w.Valid() && Increasing(w.Log()) && i < |w.Log()| && w.Log()[i].index == u
    ensures Dropped(w, u) <= |w.Log()|
    ensures LosesRecordAt(w, u) ==> i < Dropped(w, u)
    ensures !LosesRecordAt(w, u) ==> i >= Dropped(w, u)
  {
    hide Holds, WellFormed, Truncated, Records, Dropped;
    var log, k, r := w.Log(), Dropped(w, u), w.Log()[i];
    TruncationKeepsAboveIff(w, u);
    assert r in log;
    TruncationSurvivors(w, u, r);
    if LosesRecordAt(w, u) {
      var q :| q in log && q.index == u && !SharesSegmentWithLater(w.layout, q, u);
      OneRecordPerIndex(log, q, r);
      assert forall j | k <= j < |log| :: log[j] in log[k..];
    } else {
      AtOrAfter(log, k, i);
    }
  }

  /** Either the records from `u` on survive a truncation at `u`, or exactly the one at `u` is lost. */
  lemma TruncatedFrom(w: Wal, u: nat)
    requires w.Valid() && Increasing(w.Log())
    ensures !LosesRecordAt(w, u) ==> From(Truncated(w, u).Log(), u) == From(w.Log(), u)
    ensures LosesRecordAt(w, u) ==> From(Truncated(w, u).Log(), u) == From(w.Log(), u + 1)
  {
    hide Holds, WellFormed, Truncated, Records, Dropped, LosesRecordAt, Increasing;
    InOrderIsSafe(w, u);
    TruncationKeepsAboveIff(w, u);
    var log, k := w.Log(), Dropped(w, u);
    forall i | 0 <= i < |log| && log[i].index == u
      ensures LosesRecordAt(w, u) <==> i < k
    {
      CutAt(w, u, i);
    }
    if LosesRecordAt(w, u) {
      FromSkipsPrefix(log, k, u + 1);
      FromWithout(log[k..], u);
    } else {
      FromSkipsPrefix(log, k, u);
    }
  }

  lemma NotBufferedToo(log: seq<Record>, buffered: seq<Record>, u: nat)
    requires Increasing(From(log + buffered, u)) && exists r :: r in log && r.index == u
    ensures forall i | 0 <= i < |buffered| :: buffered[i].index != u
  {
    FromConcat(log, buffered, u);
    var r :| r in log && r.index == u;
    FromMember(log, u, r);
    var a, b := From(log, u), From(buffered, u);
    var x :| 0 <= x < |a| && a[x] == r;
    forall y | 0 <= y < |b|
      ensures b[y].index > u
    {
      assert (a + b)[x].index < (a + b)[|a| + y].index;
    }
    forall i | 0 <= i < |buffered|
      ensures buffered[i].index >= u ==> buffered[i] in b
    {
      FromMember(buffered, u, buffered[i]);
    }
  }

  /** What a restart reads after compaction at `u`: the truncated files and the records still buffered. */
  lemma RecoveredAfterTruncation(w: Wal, buffered: seq<Record>, h: seq<Record>, cut: nat, u: nat)
    requires w.Valid() && Increasing(w.Log()) && Increasing(h) && cut <= u
    requires From(w.Log() + buffered, cut) == From(h, cut)
    ensures From(Truncated(w, u).Log() + buffered, u) == From(h, if LosesRecordAt(w, u) then u + 1 else u)
  {
    hide Holds, WellFormed, Truncated, Records, LosesRecordAt;
    var log := w.Log();
    TruncatedFrom(w, u);
    FromConcat(Truncated(w, u).Log(), buffered, u);
    var v := if LosesRecordAt(w, u) then u + 1 else u;
    FromFrom(log + buffered, cut, v);
    FromFrom(h, cut, v);
    FromConcat(log, buffered, v);
    if LosesRecordAt(w, u) {
      assert exists r :: r in log && r.index == u by { LostRecordExists(w, u); }
      FromFrom(log + buffered, cut, u);
      FromFrom(h, cut, u);
      FromIncreases(h, u);
      NotBufferedToo(log, buffered, u);
      FromWithout(buffered, u);
    }
  }

  lemma LostRecordExists(w: Wal, u: nat)
    requires LosesRecordAt(w, u)
    ensures exists r :: r in w.Log() && r.index == u
  {
  }

  /** With a pending job left, the cut is the add of a pending job. */
  lemma CutIsAPendingAdd(c: Core, h: seq<Record>)
    requires Tracks(c, h) && PendingJobs(h) != {}
    ensures exists id :: id in PendingJobs(h) && LastEvent(h, id).index == KeepFrom(c.index, c.firstIndex)
  {
    hide PendingJobs, Increasing, LastEvent, LastCompletion;
    var u := KeepFrom(c.index, c.firstIndex);
    var p :| p in PendingJobs(h);
    assert c.index[p].addIndex in OpenAdds(c.index);
    var id :| id in c.index && IsOpen(c.index[id]) && c.index[id].addIndex == u;
    assert SoundState(c.index[id], h, id, c.snapshot);
    PendingIsAdded(h, id);
  }

  /** A restart after compaction recovers the pending jobs of the whole history exactly when no job is
      pending or the record at the cut survives, that is, shares its segment file with a later record
      or has not reached the disk yet. */
  lemma RestartAfterCompactionIff(w: Wal, buffered: seq<Record>, c: Core, h: seq<Record>)
    requires w.Valid() && Increasing(w.Log()) && Tracks(c, h)
    requires KeepFrom(c.index, c.firstIndex) > c.firstIndex
    requires From(w.Log() + buffered, c.snapshot + 1) == From(h, c.snapshot + 1)
    ensures var u := KeepFrom(c.index, c.firstIndex);
            PendingJobs(From(Truncated(w, u).Log() + buffered, u)) == PendingJobs(h) <==>
            PendingJobs(h) == {} || !LosesRecordAt(w, u)
  {
    hide Holds, WellFormed, Truncated, Records, LosesRecordAt, PendingJobs, KeepFrom;
    var u := KeepFrom(c.index, c.firstIndex);
    CutIsSafe(c, h);
    RecoveredAfterTruncation(w, buffered, h, c.snapshot + 1, u);
    CutKeepsPendingIff(h, u);
    CutKeepsPendingIff(h, u + 1);
    if PendingJobs(h) != {} {
      CutIsAPendingAdd(c, h);
    }
  }
}
