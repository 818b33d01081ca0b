/** How far the log may be compacted, and that compaction preserves the pending jobs over every run. */
module Compaction {
  import opened History
  import opened JobIndex

  /** The in-memory state of the storage core that compaction reads and changes. */
  datatype Core = Core(index: Index, entries: map<nat, Record>, firstIndex: nat, lastIndex: nat, snapshot: nat)

  // ---------------------------------------------------------------- minimum and maximum of an index set

  ghost function Min(s: set<nat>): (m: nat)
    requires s != {}
    ensures m in s && forall x | x in s :: m <= x
  {
    assert |s| > 0;
    var x :| x in s;
    if s == {x} then x else
      var m := Min(s - {x});
      assert s == (s - {x}) + {x};
      if x < m then x else m
  }

  ghost function Max(s: set<nat>): (m: nat)
    requires s != {}
    ensures m in s && forall x | x in s :: x <= m
  {
    assert |s| > 0;
    var x :| x in s;
    if s == {x} then x else
      var m := Max(s - {x});
      assert s == (s - {x}) + {x};
      if x > m then x else m
  }

  // ---------------------------------------------------------------- the cut

  function OpenAdds(m: Index): set<nat> {
    set id | id in m && IsOpen(m[id]) :: m[id].addIndex
  }

  function Completions(m: Index): set<nat> {
    set id | id in m && m[id].completeIndex > 0 :: m[id].completeIndex
  }

  /** The first index to keep: the oldest open add; with no open job, one past the last completion. */
  ghost function KeepFrom(m: Index, firstIndex: nat): nat {
    if OpenAdds(m) != {} then Min(OpenAdds(m))
    else if Completions(m) != {} then Max(Completions(m)) + 1
    else firstIndex
  }

  /** Which state decides the cut: with open jobs the earliest open add; otherwise the latest completion, which lies
      right below the cut; with neither, the cut is the first index. */
  ghost predicate Decides(m: Index, firstIndex: nat, u: nat) {
    if exists id :: id in m && IsOpen(m[id]) then
      && (exists id :: id in m && IsOpen(m[id]) && m[id].addIndex == u)
      && forall id | id in m && IsOpen(m[id]) :: u <= m[id].addIndex
    else if exists id :: id in m && m[id].completeIndex > 0 then
      && (exists id :: id in m && m[id].completeIndex + 1 == u)
      && forall id | id in m :: m[id].completeIndex < u
    else u == firstIndex
  }

  lemma CutIsDecided(m: Index, firstIndex: nat)
    ensures Decides(m, firstIndex, KeepFrom(m, firstIndex))
  {
    if id :| id in m && IsOpen(m[id]) {
      assert m[id].addIndex in OpenAdds(m);
      assert forall x | x in m && IsOpen(m[x]) :: m[x].addIndex in OpenAdds(m);
      hide IsOpen;
    } else if id :| id in m && m[id].completeIndex > 0 {
      assert m[id].completeIndex in Completions(m);
      assert forall x | x in m && m[x].completeIndex > 0 :: m[x].completeIndex in Completions(m);
    }
  }

  /** The bounds of the in-memory log; those of the snapshot if it is empty. */
  ghost function Bounds(entries: map<nat, Record>, snapshot: nat): (nat, nat) {
    if entries == map[] then (snapshot + 1, snapshot) else (Min(entries.Keys), Max(entries.Keys))
  }

  predicate Stays(s: JobState, u: nat) {
    !(0 < s.completeIndex < u) && s.addIndex >= u
  }

  ghost function Compacted(c: Core): Core {
    var u := KeepFrom(c.index, c.firstIndex);
    if u <= c.firstIndex then c
    else
      var entries := map i | i in c.entries && i >= u :: c.entries[i];
      var (first, last) := Bounds(entries, c.snapshot);
      Core(map id | id in c.index && Stays(c.index[id], u) :: c.index[id], entries, first, last, u - 1)
  }

  // ---------------------------------------------------------------- what the index knows about the history

  /** The index knows every pending job, with the index of its add, and nothing below the cut. */
  ghost predicate Tracks(c: Core, h: seq<Record>) {
    && Increasing(h)
    && (forall id | id in PendingJobs(h) ::
          && id in c.index && IsOpen(c.index[id])
          && c.index[id].addIndex == LastEvent(h, id).index > c.snapshot)
    && Sound(c, h)
  }

  /** What the index holds is true of the history and lies above the cut. */
  ghost predicate Sound(c: Core, h: seq<Record>) {
    forall id | id in c.index :: SoundState(c.index[id], h, id, c.snapshot)
  }

  predicate SoundState(s: JobState, h: seq<Record>, id: JobId, snapshot: nat) {
    && (s.addIndex == 0 || s.addIndex > snapshot)
    && (s.completeIndex == 0 || s.completeIndex > snapshot)
    && (IsOpen(s) ==> LastEvent(h, id) == Added(s.addIndex))
    && (s.completeIndex == 0 || s.completeIndex == LastCompletion(h, id))
  }

  /** No open job carries a completion index from an earlier life below `u`. */
  predicate NoStaleCompletion(m: Index, u: nat) {
    forall id | id in m && IsOpen(m[id]) :: !(0 < m[id].completeIndex < u)
  }

  /** No job is added again after it was completed. */
  ghost predicate NeverReAdded(h: seq<Record>) {
    forall i, j, id | 0 <= i < j < |h| && Completes(h[i], id) :: !Adds(h[j], id)
  }

  lemma {:induction false} NotCompleted(h: seq<Record>, id: JobId)
    requires forall i | 0 <= i < |h| :: !Completes(h[i], id)
    ensures LastCompletion(h, id) == 0
  {
    if h != [] {
      NotCompleted(h[..|h| - 1], id);
    }
  }

  /** A job that is pending in such a history was never completed. */
  lemma {:induction false} PendingNeverCompleted(h: seq<Record>, id: JobId)
    requires NeverReAdded(h) && LastEvent(h, id).Added?
    ensures LastCompletion(h, id) == 0
  {
    var f := h[..|h| - 1];
    if Adds(h[|h| - 1], id) {
      assert forall i | 0 <= i < |f| :: f[i] == h[i];
      NotCompleted(f, id);
    } else {
      PendingNeverCompleted(f, id);
    }
  }

  lemma PendingIsAdded(h: seq<Record>, id: JobId)
    ensures id in PendingJobs(h) <==> LastEvent(h, id).Added?
  {
    EventOnlyIfMentioned(h, id);
  }

  /** The cut never moves back, and it is at or below the add of every pending job. */
  lemma CutIsSafe(c: Core, h: seq<Record>)
    requires Tracks(c, h)
    ensures KeepFrom(c.index, c.firstIndex) > c.firstIndex ==>
              c.snapshot < KeepFrom(c.index, c.firstIndex) <= LastIndex(h) + 1
    ensures KeepFrom(c.index, c.firstIndex) > c.firstIndex ==>
              forall id | id in PendingJobs(h) :: KeepFrom(c.index, c.firstIndex) <= LastEvent(h, id).index
  {
    hide PendingJobs, Increasing, LastEvent, LastCompletion;
    var u := KeepFrom(c.index, c.firstIndex);
    if OpenAdds(c.index) != {} {
      var id :| id in c.index && IsOpen(c.index[id]) && c.index[id].addIndex == u;
      assert SoundState(c.index[id], h, id, c.snapshot);
      LastEventByIndex(h, id);
    } else if Completions(c.index) != {} {
      var id :| id in c.index && c.index[id].completeIndex > 0 && c.index[id].completeIndex + 1 == u;
      assert SoundState(c.index[id], h, id, c.snapshot);
      LastEventByIndex(h, id);
    }
    forall id | id in PendingJobs(h)
      ensures u <= LastEvent(h, id).index
    {
      assert c.index[id].addIndex in OpenAdds(c.index);
    }
  }

  /** A compaction keeps track of every pending job exactly when no open job has a stale completion. */
  lemma CompactionTracksIff(c: Core, h: seq<Record>)
    requires Tracks(c, h) && KeepFrom(c.index, c.firstIndex) > c.firstIndex
    ensures Tracks(Compacted(c), h) <==> NoStaleCompletion(c.index, KeepFrom(c.index, c.firstIndex))
  {
    CutIsSafe(c, h);
    var u, c' := KeepFrom(c.index, c.firstIndex), Compacted(c);
    hide PendingJobs, Increasing, LastEvent, LastCompletion, KeepFrom;
    forall id | id in c'.index
      ensures SoundState(c'.index[id], h, id, c'.snapshot)
    {
      assert SoundState(c.index[id], h, id, c.snapshot);
    }
    if NoStaleCompletion(c.index, u) {
      forall id | id in PendingJobs(h)
        ensures id in c'.index
      {
        assert Stays(c.index[id], u);
      }
    } else {
      var id :| id in c.index && IsOpen(c.index[id]) && 0 < c.index[id].completeIndex < u;
      assert SoundState(c.index[id], h, id, c.snapshot);
      PendingIsAdded(h, id);
    }
  }

  /** If jobs are never added again after completion, no open job has a stale completion. */
  lemma NeverReAddedIsSafe(c: Core, h: seq<Record>, u: nat)
    requires Tracks(c, h) && NeverReAdded(h)
    ensures NoStaleCompletion(c.index, u)
  {
    hide PendingJobs, Increasing, LastEvent, LastCompletion;
    forall id | id in c.index && IsOpen(c.index[id])
      ensures c.index[id].completeIndex == 0
    {
      assert SoundState(c.index[id], h, id, c.snapshot);
      PendingNeverCompleted(h, id);
    }
  }

  // ---------------------------------------------------------------- one committed entry

  function Committed(c: Core, r: Record): Core {
    c.(index := Note(c.index, r, Live))
  }

  lemma LastEventOfNext(h: seq<Record>, r: Record, id: JobId)
    ensures LastEvent(h + [r], id) == if EventOf(r, id) != NoEvent then EventOf(r, id) else LastEvent(h, id)
    ensures LastCompletion(h + [r], id) == if Completes(r, id) then r.index else LastCompletion(h, id)
  {
    assert (h + [r])[..|h + [r]| - 1] == h;
  }

  lemma EndAdvances(h: seq<Record>, r: Record)
    requires Increasing(h + [r])
    ensures LastIndex(h) < r.index == LastIndex(h + [r])
  {
    assert r == (h + [r])[|h|];
    if h != [] {
      assert h[|h| - 1] == (h + [r])[|h| - 1];
    }
  }

  lemma CommitKeepsTrack(c: Core, h: seq<Record>, r: Record)
    requires Tracks(c, h) && Increasing(h + [r]) && c.snapshot < r.index
    ensures Tracks(Committed(c, r), h + [r])
  {
    var c' := Committed(c, r);
    hide PendingJobs, LastEvent, LastCompletion, Increasing, LastIndex;
    forall id | id in c'.index
      ensures SoundState(c'.index[id], h + [r], id, c'.snapshot)
    {
      LastEventOfNext(h, r, id);
      if id in c.index {
        assert SoundState(c.index[id], h, id, c.snapshot);
      }
    }
    forall id | id in PendingJobs(h + [r])
      ensures id in c'.index && IsOpen(c'.index[id])
      ensures c'.index[id].addIndex == LastEvent(h + [r], id).index > c'.snapshot
    {
      LastEventOfNext(h, r, id);
      PendingIsAdded(h, id);
      PendingIsAdded(h + [r], id);
    }
  }

  // ---------------------------------------------------------------- restart

  /** The core that recovery rebuilds from the records above the snapshot. */
  ghost function Recovered(h: seq<Record>, snapshot: nat): Core {
    var kept := From(h, snapshot + 1);
    var entries := StoreAll(map[], kept);
    var (first, last) := Bounds(entries, snapshot);
    Core(Build(kept, Recovery), entries, first, last, snapshot)
  }

  /** No pending job was completed above the cut and added again. */
  ghost predicate NoReAddAbove(h: seq<Record>, snapshot: nat) {
    forall id | id in PendingJobs(h) :: LastCompletion(h, id) <= snapshot
  }

  lemma RecoveredStates(h: seq<Record>, snapshot: nat, id: JobId)
    requires Increasing(h)
    ensures var s := StateOf(Recovered(h, snapshot).index, id);
            && s.addIndex == (if LastAdd(h, id) > snapshot then LastAdd(h, id) else 0)
            && s.completeIndex == (if LastCompletion(h, id) > snapshot then LastCompletion(h, id) else 0)
            && (s.completeType == Open <==> LastCompletion(h, id) <= snapshot)
  {
    FromIncreases(h, snapshot + 1);
    LastIndicesFrom(h, snapshot + 1, id);
    IndexRecordsLastEvents(From(h, snapshot + 1), Recovery, id);
  }

  /** The cut lies below the add of every pending job. */
  ghost predicate CutFits(h: seq<Record>, snapshot: nat) {
    forall id | id in PendingJobs(h) :: LastEvent(h, id).index > snapshot
  }

  /** Recovery does not reset the completion type of a job that is added again, so the index rebuilt above a
      snapshot tracks the pending jobs exactly when the cut fits the history and no pending job was completed
      above it and added again. */
  lemma RecoveryTracksIff(h: seq<Record>, snapshot: nat)
    requires Increasing(h)
    ensures Tracks(Recovered(h, snapshot), h) <==> CutFits(h, snapshot) && NoReAddAbove(h, snapshot)
  {
    var c' := Recovered(h, snapshot);
    hide Recovered, PendingJobs, Increasing, LastEvent, LastCompletion, LastAdd;
    assert c'.snapshot == snapshot by { RecoveredSnapshot(h, snapshot); }
    forall id
      ensures var s := StateOf(c'.index, id);
              && s.addIndex == (if LastAdd(h, id) > snapshot then LastAdd(h, id) else 0)
              && s.completeIndex == (if LastCompletion(h, id) > snapshot then LastCompletion(h, id) else 0)
              && (s.completeType == Open <==> LastCompletion(h, id) <= snapshot)
      ensures id in PendingJobs(h) <==> LastAdd(h, id) > LastCompletion(h, id)
      ensures id in PendingJobs(h) ==> LastEvent(h, id) == Added(LastAdd(h, id))
      ensures id in c'.index ==> SoundState(c'.index[id], h, id, snapshot)
    {
      RecoveredStates(h, snapshot, id);
      LastEventByIndex(h, id);
      PendingIsAdded(h, id);
    }
    assert Sound(c', h);
  }

  /** What is true of the whole history is true of what lies above the cut. */
  lemma TracksFrom(c: Core, h: seq<Record>)
    requires Tracks(c, h)
    ensures Tracks(c, From(h, c.snapshot + 1)) && CutFits(h, c.snapshot)
  {
    var kept := From(h, c.snapshot + 1);
    FromIncreases(h, c.snapshot + 1);
    hide PendingJobs, Increasing, LastEvent, LastCompletion, LastAdd, From;
    forall id | id in PendingJobs(kept)
      ensures id in PendingJobs(h) && LastEvent(kept, id) == LastEvent(h, id)
    {
      PendingFrom(h, c.snapshot, id);
    }
    forall id | id in c.index
      ensures SoundState(c.index[id], kept, id, c.snapshot)
    {
      assert SoundState(c.index[id], h, id, c.snapshot);
      SoundFrom(c.index[id], h, id, c.snapshot);
    }
  }

  lemma PendingFrom(h: seq<Record>, snapshot: nat, id: JobId)
    requires Increasing(h) && id in PendingJobs(From(h, snapshot + 1))
    ensures id in PendingJobs(h) && LastEvent(From(h, snapshot + 1), id) == LastEvent(h, id)
  {
    hide PendingJobs, Increasing, LastEvent, From;
    LastEventFrom(h, snapshot + 1, id);
    PendingIsAdded(h, id);
    PendingIsAdded(From(h, snapshot + 1), id);
  }

  lemma SoundFrom(s: JobState, h: seq<Record>, id: JobId, snapshot: nat)
    requires Increasing(h) && SoundState(s, h, id, snapshot)
    ensures SoundState(s, From(h, snapshot + 1), id, snapshot)
  {
    hide Increasing, LastEvent, LastCompletion, LastAdd, From;
    LastEventFrom(h, snapshot + 1, id);
    LastIndicesFrom(h, snapshot + 1, id);
  }

  /** Above the cut, every cut fits. */
  lemma CutFitsAbove(h: seq<Record>, snapshot: nat)
    requires Increasing(h) && forall i | 0 <= i < |h| :: h[i].index > snapshot
    ensures CutFits(h, snapshot)
  {
    forall id | id in PendingJobs(h)
      ensures LastEvent(h, id).index > snapshot
    {
      EventIsInHistory(h, id);
    }
  }

  lemma {:induction false} EventIsInHistory(h: seq<Record>, id: JobId)
    requires LastEvent(h, id) != NoEvent
    ensures exists i :: 0 <= i < |h| && h[i].index == LastEvent(h, id).index
  {
    var n := |h| - 1;
    if EventOf(h[n], id) == NoEvent {
      EventIsInHistory(h[..n], id);
      var i :| 0 <= i < n && h[..n][i].index == LastEvent(h, id).index;
      assert h[i] == h[..n][i];
    } else {
      assert h[n].index == LastEvent(h, id).index;
    }
  }

  lemma RecoveredSnapshot(h: seq<Record>, snapshot: nat)
    ensures Recovered(h, snapshot).snapshot == snapshot
  {
  }

  // ---------------------------------------------------------------- runs

  /** `Replicate` stands for `appendEntries`: it changes the in-memory log and its bounds only. */
  datatype Step =
    | Commit(r: Record)
    | Replicate(entries: map<nat, Record>, firstIndex: nat, lastIndex: nat)
    | Compact
    | Restart

  datatype State = State(core: Core, history: seq<Record>)

  ghost function Next(s: State, step: Step): State {
    match step
    case Commit(r) => State(Committed(s.core, r), s.history + [r])
    case Replicate(e, first, last) => s.(core := s.core.(entries := e, firstIndex := first, lastIndex := last))
    case Compact => s.(core := Compacted(s.core))
    case Restart => s.(core := Recovered(s.history, s.core.snapshot))
  }

  /** Committed entries carry increasing indices. */
  ghost predicate InOrder(s: State, step: Step) {
    step.Commit? ==> Increasing(s.history + [step.r])
  }

  /** A compaction that moves the cut meets no stale completion, a restart no job re-added above the cut. */
  ghost predicate Guarded(s: State, step: Step) {
    match step
    case Compact =>
      var u := KeepFrom(s.core.index, s.core.firstIndex);
      u > s.core.firstIndex ==> NoStaleCompletion(s.core.index, u)
    case Restart => NoReAddAbove(s.history, s.core.snapshot)
    case _ => true
  }

  const EMPTY := State(Core(map[], map[], 1, 0, 0), [])

  ghost predicate IsRun(states: seq<State>, steps: seq<Step>) {
    && |states| == |steps| + 1 && states[0] == EMPTY
    && forall i | 0 <= i < |steps| :: InOrder(states[i], steps[i]) && states[i + 1] == Next(states[i], steps[i])
  }

  ghost predicate IsGuardedRun(states: seq<State>, steps: seq<Step>) {
    IsRun(states, steps) && forall i | 0 <= i < |steps| :: Guarded(states[i], steps[i])
  }

  lemma StepKeepsTrack(s: State, step: Step)
    requires Tracks(s.core, s.history) && s.core.snapshot <= LastIndex(s.history) && InOrder(s, step) && Guarded(s, step)
    ensures Tracks(Next(s, step).core, Next(s, step).history)
    ensures Next(s, step).core.snapshot >= s.core.snapshot
  {
    hide PendingJobs, Increasing, KeepFrom, Compacted, Recovered;
    match step
    case Commit(r) =>
      EndAdvances(s.history, r);
      CommitKeepsTrack(s.core, s.history, r);
    case Replicate(_, _, _) =>
    case Compact =>
      CompactedCases(s.core);
      if KeepFrom(s.core.index, s.core.firstIndex) > s.core.firstIndex {
        CutIsSafe(s.core, s.history);
        CompactionTracksIff(s.core, s.history);
      }
    case Restart =>
      RecoveryTracksIff(s.history, s.core.snapshot);
      RecoveredSnapshot(s.history, s.core.snapshot);
  }

  lemma CompactedCases(c: Core)
    ensures KeepFrom(c.index, c.firstIndex) <= c.firstIndex ==> Compacted(c) == c
    ensures KeepFrom(c.index, c.firstIndex) > c.firstIndex ==> Compacted(c).snapshot == KeepFrom(c.index, c.firstIndex) - 1
  {
  }

  lemma {:induction false} RunsKeepTrack(states: seq<State>, steps: seq<Step>, i: nat)
    requires IsGuardedRun(states, steps) && i <= |steps|
    ensures Tracks(states[i].core, states[i].history)
  {
    if i > 0 {
      RunsKeepTrack(states, steps, i - 1);
      RunsKeepRecorded(states, steps, i - 1);
      StepKeepsTrack(states[i - 1], steps[i - 1]);
    }
  }

  /** After any run of commits and compactions, replaying only what lies above the cut gives the same
      pending jobs as replaying the whole history. */
  lemma CompactionPreservesMeaning(states: seq<State>, steps: seq<Step>, i: nat)
    requires IsGuardedRun(states, steps) && i <= |steps|
    ensures PendingJobs(From(states[i].history, states[i].core.snapshot + 1)) == PendingJobs(states[i].history)
  {
    RunsKeepTrack(states, steps, i);
    CutKeepsPendingIff(states[i].history, states[i].core.snapshot + 1);
  }

  /** In a run without pending jobs the next cut passes every recorded completion and lies right after the last one. */
  lemma IdleCutPassesCompletions(states: seq<State>, steps: seq<Step>, i: nat, job: JobId)
    requires IsGuardedRun(states, steps) && i <= |steps| && PendingJobs(states[i].history) == {}
    requires job in states[i].core.index && states[i].core.index[job].completeIndex > 0
    ensures var m, u := states[i].core.index, KeepFrom(states[i].core.index, states[i].core.firstIndex);
            (forall id | id in m :: m[id].completeIndex < u) && exists id :: id in m && m[id].completeIndex + 1 == u
  {
    hide Guarded, Next, PendingJobs, LastEvent, LastCompletion, KeepFrom, Increasing;
    var c, h := states[i].core, states[i].history;
    RunsKeepTrack(states, steps, i);
    forall id | id in c.index
      ensures !IsOpen(c.index[id])
    {
      assert SoundState(c.index[id], h, id, c.snapshot);
      PendingIsAdded(h, id);
    }
    CutIsDecided(c.index, c.firstIndex);
  }

  /** Every recorded index lies between the cut and the end of the history. */
  ghost predicate Recorded(c: Core, h: seq<Record>) {
    && Increasing(h) && c.snapshot <= LastIndex(h)
    && forall id | id in c.index :: Between(c.index[id].addIndex, c, h) && Between(c.index[id].completeIndex, c, h)
  }

  predicate Between(i: nat, c: Core, h: seq<Record>) {
    i == 0 || c.snapshot < i <= LastIndex(h)
  }

  /** Every step keeps recorded indices between the cut and the end, and never moves the cut back. */
  lemma StepKeepsRecorded(s: State, step: Step)
    requires Recorded(s.core, s.history) && InOrder(s, step)
    ensures Recorded(Next(s, step).core, Next(s, step).history)
    ensures Next(s, step).core.snapshot >= s.core.snapshot
  {
    hide Increasing, Recovered, LastIndex;
    match step
    case Commit(r) => EndAdvances(s.history, r);
    case Replicate(_, _, _) =>
    case Compact => CompactKeepsRecorded(s.core, s.history);
    case Restart => RestartKeepsRecorded(s.history, s.core.snapshot);
  }

  lemma CompactKeepsRecorded(c: Core, h: seq<Record>)
    requires Recorded(c, h)
    ensures Recorded(Compacted(c), h) && Compacted(c).snapshot >= c.snapshot
  {
    hide Increasing, LastIndex, Bounds;
    var u := KeepFrom(c.index, c.firstIndex);
    if u > c.firstIndex {
      if OpenAdds(c.index) != {} {
        var id :| id in c.index && IsOpen(c.index[id]) && c.index[id].addIndex == u;
      } else {
        var id :| id in c.index && c.index[id].completeIndex > 0 && c.index[id].completeIndex + 1 == u;
      }
      assert c.snapshot < u <= LastIndex(h) + 1;
    }
  }

  lemma RestartKeepsRecorded(h: seq<Record>, snapshot: nat)
    requires Increasing(h) && snapshot <= LastIndex(h)
    ensures Recorded(Recovered(h, snapshot), h) && Recovered(h, snapshot).snapshot == snapshot
  {
    var c := Recovered(h, snapshot);
    RecoveredSnapshot(h, snapshot);
    hide Recovered;
    forall id | id in c.index
      ensures Between(c.index[id].addIndex, c, h) && Between(c.index[id].completeIndex, c, h)
    {
      RecoveredStates(h, snapshot, id);
      LastEventByIndex(h, id);
    }
  }

  lemma {:induction false} RunsKeepRecorded(states: seq<State>, steps: seq<Step>, i: nat)
    requires IsRun(states, steps) && i <= |steps|
    ensures Recorded(states[i].core, states[i].history)
  {
    hide Next;
    if i > 0 {
      RunsKeepRecorded(states, steps, i - 1);
      StepKeepsRecorded(states[i - 1], steps[i - 1]);
    }
  }

  /** Over every run, guarded or not, the cut never moves back. */
  lemma {:induction false} CutNeverMovesBack(states: seq<State>, steps: seq<Step>, i: nat, j: nat)
    requires IsRun(states, steps) && i <= j <= |steps|
    ensures states[i].core.snapshot <= states[j].core.snapshot
    decreases j
  {
    hide Next, Recorded;
    if i < j {
      CutNeverMovesBack(states, steps, i, j - 1);
      RunsKeepRecorded(states, steps, j - 1);
      StepKeepsRecorded(states[j - 1], steps[j - 1]);
    }
  }

  lemma {:induction false} HistoryGrows(states: seq<State>, steps: seq<Step>, i: nat, j: nat)
    requires IsRun(states, steps) && i <= j <= |steps|
    ensures states[i].history <= states[j].history
    decreases j
  {
    if i < j {
      HistoryGrows(states, steps, i, j - 1);
    }
  }

  /** A run whose history never re-adds a completed job meets no stale completion at any compaction. */
  lemma {:induction false} NeverReAddedRunsAreGuarded(states: seq<State>, steps: seq<Step>, i: nat)
    requires IsRun(states, steps) && i <= |steps| && NeverReAdded(states[|steps|].history)
    ensures IsGuardedRun(states[..i + 1], steps[..i])
  {
    if i > 0 {
      NeverReAddedRunsAreGuarded(states, steps, i - 1);
      var s, t := states[..i + 1], steps[..i];
      RunsKeepTrack(states[..i], steps[..i - 1], i - 1);
      HistoryGrows(states, steps, i - 1, |steps|);
      assert NeverReAdded(states[i - 1].history) by {
        PrefixNeverReAdds(states[i - 1].history, states[|steps|].history);
      }
      assert NoReAddAbove(states[i - 1].history, states[i - 1].core.snapshot) by {
        NeverReAddedAbove(states[i - 1].history, states[i - 1].core.snapshot);
      }
      hide Tracks, PendingJobs, NoStaleCompletion, NoReAddAbove;
      if t[i - 1].Compact? {
        NeverReAddedIsSafe(states[i - 1].core, states[i - 1].history,
                           KeepFrom(states[i - 1].core.index, states[i - 1].core.firstIndex));
      }
      forall k | 0 <= k < |t|
        ensures InOrder(s[k], t[k]) && s[k + 1] == Next(s[k], t[k]) && Guarded(s[k], t[k])
      {
        if k < i - 1 {
          assert s[k] == states[..i][k] && t[k] == steps[..i - 1][k] && s[k + 1] == states[..i][k + 1];
        }
      }
    }
  }

  lemma NeverReAddedAbove(h: seq<Record>, snapshot: nat)
    requires NeverReAdded(h)
    ensures NoReAddAbove(h, snapshot)
  {
    forall id | id in PendingJobs(h)
      ensures LastCompletion(h, id) == 0
    {
      PendingNeverCompleted(h, id);
    }
  }

  lemma PrefixNeverReAdds(p: seq<Record>, h: seq<Record>)
    requires p <= h && NeverReAdded(h)
    ensures NeverReAdded(p)
  {
    forall i, j, id | 0 <= i < j < |p| && Completes(p[i], id)
      ensures !Adds(p[j], id)
    {
      assert p[i] == h[i] && p[j] == h[j];
    }
  }

  // ---------------------------------------------------------------- when the guard fails

  lemma KeepsNone(entries: map<nat, Record>, u: nat)
    requires forall i | i in entries :: i < u
    ensures (map i | i in entries && i >= u :: entries[i]) == map[]
  {
  }

  lemma NoneStays(m: Index, u: nat)
    requires forall id | id in m :: !Stays(m[id], u)
    ensures (map id | id in m && Stays(m[id], u) :: m[id]) == map[]
  {
  }

  lemma SeqOfSet(s: set<JobId>) returns (ids: seq<JobId>)
    ensures forall id :: id in ids <==> id in s
  {
    if s == {} {
      ids := [];
    } else {
      assert |s| > 0;
      var x :| x in s;
      ids := SeqOfSet(s - {x});
      ids := ids + [x];
    }
  }

  /** One completion record that names the whole index and not `job`, then a second compaction. */
  lemma SecondCutPassesEverything(c: Core, r: Record)
    requires r.cmd.Done? && c.index.Keys <= IdSet(r.cmd.ids) && r.cmd.ids != [] && r.index > 0
    requires forall id | id in c.index :: c.index[id].completeIndex < r.index
    ensures KeepFrom(Committed(c, r).index, c.firstIndex) == r.index + 1
  {
    var m := Committed(c, r).index;
    forall id | id in m
      ensures m[id].completeIndex == r.index && !IsOpen(m[id])
    {
      assert id in r.cmd.ids;
    }
    assert OpenAdds(m) == {};
    assert r.cmd.ids[0] in m && m[r.cmd.ids[0]].completeIndex in Completions(m);
    assert forall x | x in Completions(m) :: x == r.index;
  }

  /** If a compaction meets a stale completion, the job that carries it is forgotten: one further
      record, which does not name it, and one further compaction put the cut past its add. */
  lemma StaleCompletionLosesJob(c: Core, h: seq<Record>, job: JobId) returns (r: Record)
    requires Tracks(c, h) && KeepFrom(c.index, c.firstIndex) > c.firstIndex
    requires job in c.index && IsOpen(c.index[job])
    requires 0 < c.index[job].completeIndex < KeepFrom(c.index, c.firstIndex)
    ensures Increasing(h + [r]) && job in PendingJobs(h + [r])
    ensures var last := Compacted(Committed(Compacted(c), r));
            job !in PendingJobs(From(h + [r], last.snapshot + 1))
  {
    hide PendingJobs, Increasing, LastEvent, LastCompletion, LastAdd, KeepFrom, Compacted, From, Committed;
    CompactedForgets(c, job);
    var c1 := Compacted(c);
    var ids := SeqOfSet(c1.index.Keys);
    r := Record(LastIndex(h) + c1.firstIndex + 1, Done(ids + [job + "'"]), 0);
    assert job !in r.cmd.ids by { assert |job + "'"| != |job|; }
    IncreasingNext(h, r);
    assert SoundState(c.index[job], h, job, c.snapshot);
    LastEventOfNext(h, r, job);
    PendingIsAdded(h + [r], job);
    forall id | id in c1.index
      ensures c1.index[id].completeIndex < r.index
    {
      assert SoundState(c.index[id], h, id, c.snapshot);
      LastEventByIndex(h, id);
    }
    assert (ids + [job + "'"])[|ids|] == job + "'";
    SecondCutPassesEverything(c1, r);
    LastEventByIndex(h, job);
    var c2 := Committed(c1, r);
    CommitChangesIndexOnly(c1, r);
    CompactedCases(c2);
    LastEventFrom(h + [r], Compacted(c2).snapshot + 1, job);
    PendingIsAdded(From(h + [r], Compacted(c2).snapshot + 1), job);
  }

  lemma CommitChangesIndexOnly(c: Core, r: Record)
    ensures Committed(c, r).firstIndex == c.firstIndex
  {
  }

  /** A compaction keeps only states it had, and drops a job with a stale completion. */
  lemma CompactedForgets(c: Core, job: JobId)
    requires KeepFrom(c.index, c.firstIndex) > c.firstIndex
    requires job in c.index && 0 < c.index[job].completeIndex < KeepFrom(c.index, c.firstIndex)
    ensures job !in Compacted(c).index
    ensures forall id | id in Compacted(c).index :: id in c.index && Compacted(c).index[id] == c.index[id]
  {
    hide KeepFrom, Bounds;
  }

  lemma IncreasingNext(h: seq<Record>, r: Record)
    requires Increasing(h) && LastIndex(h) < r.index
    ensures Increasing(h + [r])
  {
    forall i | 0 <= i < |h|
      ensures h[i].index < r.index
    {
      assert h[i].index <= h[|h| - 1].index;
    }
  }

  /** The bounds are recomputed before the new snapshot index is stored, so after a compaction the
      first index lies above the snapshot exactly when an entry is left or the cut had not moved. */
  lemma BoundsFreshIff(c: Core, h: seq<Record>)
    requires Tracks(c, h) && KeepFrom(c.index, c.firstIndex) > c.firstIndex
    ensures Compacted(c).firstIndex > Compacted(c).snapshot <==>
            || (exists i :: i in c.entries && i >= KeepFrom(c.index, c.firstIndex))
            || KeepFrom(c.index, c.firstIndex) == c.snapshot + 1
  {
    CutIsSafe(c, h);
    var u, c' := KeepFrom(c.index, c.firstIndex), Compacted(c);
    if i :| i in c.entries && i >= u {
      assert i in c'.entries;
    }
  }
}
