/** The storage core as the program keeps it: maps and counters that the methods update in place. */
module Storage {
  import opened History
  import opened JobIndex
  import opened Segments
  import opened WalSteps
  import opened WalFiles
  import opened Compaction
  import opened InMemoryLog

  /** The ids of one record, applied one after the other. */
  method UpdateIndex(m: Index, r: Record, kind: Builder) returns (m': Index)
    ensures m' == Note(m, r, kind)
  {
    m' := m;
    if r.cmd.Other? {
      return;
    }
    var ids := r.cmd.ids;
    for i := 0 to |ids|
      invariant m'.Keys == m.Keys + IdSet(ids[..i])
      invariant forall id | id in m' :: m'[id] == if id in ids[..i] then Touch(StateOf(m, id), r, kind) else m[id]
    {
      assert ids[..i + 1] == ids[..i] + [ids[i]];
      m' := m'[ids[i] := Touch(StateOf(m', ids[i]), r, kind)];
    }
    assert ids[..|ids|] == ids;
  }

  /** The smallest add index among the open jobs, 0 if there is none. */
  method MinOpenAdd(m: Index) returns (u: nat)
    ensures u == if OpenAdds(m) == {} then 0 else Min(OpenAdds(m))
  {
    u := 0;
    var todo := m.Keys;
    while todo != {}
      invariant todo <= m.Keys
      invariant u == 0 ==> forall id | id in m && id !in todo :: !IsOpen(m[id])
      invariant u != 0 ==> u in OpenAdds(m) && forall id | id in m && id !in todo && IsOpen(m[id]) :: u <= m[id].addIndex
      decreases |todo|
    {
      var id :| id in todo;
      if IsOpen(m[id]) && (u == 0 || m[id].addIndex < u) {
        u := m[id].addIndex;
      }
      todo := todo - {id};
    }
  }

  /** The largest completion index, 0 if there is none. */
  method MaxCompletion(m: Index) returns (u: nat)
    ensures u == if Completions(m) == {} then 0 else Max(Completions(m))
  {
    u := 0;
    var todo := m.Keys;
    while todo != {}
      invariant todo <= m.Keys
      invariant u == 0 || u in Completions(m)
      invariant forall id | id in m && id !in todo :: m[id].completeIndex <= u
      decreases |todo|
    {
      var id :| id in todo;
      if m[id].completeIndex > u {
        u := m[id].completeIndex;
      }
      todo := todo - {id};
    }
    assert forall id | id in m && m[id].completeIndex > 0 :: m[id].completeIndex in Completions(m);
  }

  /** Deletes, one key after the other, the jobs that compaction at `u` forgets. */
  method CleanIndex(m: Index, u: nat) returns (m': Index)
    ensures m' == map id | id in m && Stays(m[id], u) :: m[id]
    ensures forall id :: id in m' <==> id in m && m[id].addIndex >= u && (m[id].completeIndex == 0 || m[id].completeIndex >= u)
  {
    m' := m;
    var todo := m.Keys;
    while todo != {}
      invariant todo <= m.Keys
      invariant forall id | id in m' :: id in m && m'[id] == m[id] && (id in todo || !(0 < m[id].completeIndex < u))
      invariant forall id | id in m && (id in todo || !(0 < m[id].completeIndex < u)) :: id in m'
      decreases |todo|
    {
      var id :| id in todo;
      if m[id].completeIndex > 0 && m[id].completeIndex < u {
        m' := m' - {id};
      }
      todo := todo - {id};
    }
    todo := m'.Keys;
    var kept := m';
    while todo != {}
      invariant todo <= kept.Keys
      invariant forall id | id in m' :: id in kept && m'[id] == kept[id] && (id in todo || kept[id].addIndex >= u)
      invariant forall id | id in kept && (id in todo || kept[id].addIndex >= u) :: id in m'
      decreases |todo|
    {
      var id :| id in todo;
      if kept[id].addIndex < u {
        m' := m' - {id};
      }
      todo := todo - {id};
    }
  }

  /** Smallest and largest key of the in-memory log, or the snapshot's bounds if it is empty. */
  method FindBounds(entries: map<nat, Record>, snapshot: nat) returns (first: nat, last: nat)
    ensures (first, last) == Bounds(entries, snapshot)
    ensures entries == map[] ==> first == snapshot + 1 && last == snapshot
    ensures entries != map[] ==> first in entries && last in entries && forall i | i in entries :: first <= i <= last
  {
    if entries == map[] {
      return snapshot + 1, snapshot;
    }
    var todo := entries.Keys;
    var k :| k in todo;
    first, last := k, k;
    while todo != {}
      invariant todo <= entries.Keys && first in entries.Keys && last in entries.Keys
      invariant forall i | i in entries.Keys && i !in todo :: first <= i <= last
      decreases |todo|
    {
      var i :| i in todo;
      first := if i < first then i else first;
      last := if i > last then i else last;
      todo := todo - {i};
    }
  }

  method DropBelow(entries: map<nat, Record>, u: nat) returns (kept: map<nat, Record>)
    ensures kept == map i | i in entries && i >= u :: entries[i]
  {
    kept := entries;
    var todo := entries.Keys;
    while todo != {}
      invariant todo <= entries.Keys
      invariant forall i | i in kept :: i in entries && kept[i] == entries[i] && (i in todo || i >= u)
      invariant forall i | i in entries && (i in todo || i >= u) :: i in kept
      decreases |todo|
    {
      var i :| i in todo;
      if i < u {
        kept := kept - {i};
      }
      todo := todo - {i};
    }
  }

  class StorageCore {
    const wal: SegmentedWal
    const flushThreshold: nat
    var entries: map<nat, Record>
    var firstIndex: nat
    var lastIndex: nat
    var snapshotIndex: nat
    var jobIndex: Index
    var writeBuffer: seq<Record>

    ghost function Model(): Core
      reads this
    {
      Core(jobIndex, entries, firstIndex, lastIndex, snapshotIndex)
    }

    ghost predicate Valid()
      reads this, wal, wal.disk
    {
      wal.Valid()
    }

    constructor (wal: SegmentedWal, flushThreshold: nat, snapshotIndex: nat)
      ensures this.wal == wal && this.flushThreshold == flushThreshold && writeBuffer == []
      ensures Model() == Core(map[], map[], 0, 0, snapshotIndex)
    {
      this.wal, this.flushThreshold, this.snapshotIndex := wal, flushThreshold, snapshotIndex;
      entries, jobIndex, firstIndex, lastIndex, writeBuffer := map[], map[], 0, 0, [];
    }

    ghost function Log(): RaftLog
      reads this
    {
      RaftLog(entries, firstIndex, lastIndex)
    }

    /** Removes the conflicting tail, then stores the entry. */
    method AppendEntry(e: Record)
      modifies this`entries, this`firstIndex, this`lastIndex
      ensures Log() == Overwrite(old(Log()), e)
      ensures e.index in entries && entries[e.index] == e
      ensures forall i | i != e.index ::
                && (i in entries <==> i in old(entries) && (i < e.index || i > old(lastIndex)))
                && (i in entries ==> entries[i] == old(entries)[i])
      ensures firstIndex == (if old(firstIndex) == 0 || e.index < old(firstIndex) then e.index else old(firstIndex))
      ensures lastIndex >= e.index && lastIndex >= old(lastIndex) && lastIndex in {e.index, old(lastIndex)}
    {
      ghost var before := entries;
      if e.index <= lastIndex {
        var i := e.index;
        while i <= lastIndex
          invariant e.index <= i <= lastIndex + 1 && firstIndex == old(firstIndex) && lastIndex == old(lastIndex)
          invariant entries == map j | j in before && !(e.index <= j < i) :: before[j]
        {
          entries := entries - {i};
          i := i + 1;
        }
      }
      assert entries == map j | j in before && !(e.index <= j <= lastIndex) :: before[j];
      entries := entries[e.index := e];
      if e.index > lastIndex {
        lastIndex := e.index;
      }
      if firstIndex == 0 || e.index < firstIndex {
        firstIndex := e.index;
      }
    }

    /** Appends replicated entries. */
    method AppendEntries(batch: seq<Record>)
      modifies this`entries, this`firstIndex, this`lastIndex
      ensures Log() == OverwriteAll(old(Log()), batch)
    {
      ghost var l := Log();
      for k := 0 to |batch|
        invariant Log() == OverwriteAll(l, batch[..k])
      {
        assert batch[..k + 1][..k] == batch[..k];
        AppendEntry(batch[k]);
      }
      assert batch[..|batch|] == batch;
    }

    /** Buffers one committed entry for the log files and updates the job index; a full buffer is flushed. Files and
        buffer then hold what they held and the entry, exactly unless the flush seals a file over a remembered one. */
    method AppendCommitted(r: Record)
      requires wal.Writable()
      modifies this`jobIndex, this`writeBuffer, wal, wal.disk
      ensures wal.Writable() && Model() == Committed(old(Model()), r)
      ensures if |old(writeBuffer)| + 1 >= flushThreshold
              then writeBuffer == [] && wal.Model() == AppendAll(old(wal.Model()), old(writeBuffer) + [r], wal.segmentSize)
              else writeBuffer == old(writeBuffer) + [r] && wal.Model() == old(wal.Model())
      ensures old(wal.Intact()) ==>
                (wal.Intact() <==> writeBuffer != [] || SparesFiles(old(wal.Model()), old(writeBuffer) + [r], wal.segmentSize))
      ensures old(wal.Intact()) && wal.Intact() ==> wal.OnDisk() + writeBuffer == old(wal.OnDisk() + writeBuffer) + [r]
      ensures old(Valid()) ==>
                (Valid() <==>
                   || writeBuffer != []
                   || (Positive(old(writeBuffer) + [r]) && SealsWell(old(wal.Model()), old(writeBuffer) + [r], wal.segmentSize)))
    {
      hide Wal.Valid, Wal.Intact, Wal.Writable, Records, Note, AppendAll, SparesFiles, SealsWell, Positive;
      writeBuffer := writeBuffer + [r];
      jobIndex := UpdateIndex(jobIndex, r, Live);
      if |writeBuffer| >= flushThreshold {
        FlushBuffer();
      }
    }

    /** Writes the buffer to the log files and removes what was written. */
    method FlushBuffer()
      requires wal.Writable()
      modifies this`writeBuffer, wal, wal.disk
      ensures wal.Writable() && writeBuffer == []
      ensures wal.Model() == AppendAll(old(wal.Model()), old(writeBuffer), wal.segmentSize)
      ensures old(wal.Intact()) ==> (wal.Intact() <==> SparesFiles(old(wal.Model()), old(writeBuffer), wal.segmentSize))
      ensures old(wal.Intact()) && wal.Intact() ==> wal.OnDisk() == old(wal.OnDisk()) + old(writeBuffer)
      ensures old(Valid()) ==>
                (Valid() <==> Positive(old(writeBuffer)) && SealsWell(old(wal.Model()), old(writeBuffer), wal.segmentSize))
    {
      hide Wal.Valid, Wal.Intact, Wal.Writable, Records, RecoverPrefixes;
      if writeBuffer == [] {
        return;
      }
      hide AppendAll, SparesFiles, SealsWell, Positive;
      var batch := writeBuffer;
      wal.AppendBatch(batch);
      writeBuffer := if |writeBuffer| >= |batch| then writeBuffer[|batch|..] else [];
    }

    method FindFirstIndexToKeep() returns (u: nat)
      ensures u == KeepFrom(jobIndex, firstIndex) && Decides(jobIndex, firstIndex, u)
    {
      CutIsDecided(jobIndex, firstIndex);
      u := MinOpenAdd(jobIndex);
      if u != 0 {
        return;
      }
      assert forall id | id in jobIndex && IsOpen(jobIndex[id]) :: jobIndex[id].addIndex in OpenAdds(jobIndex);
      u := MaxCompletion(jobIndex);
      if u > 0 {
        return u + 1;
      }
      assert forall id | id in jobIndex && jobIndex[id].completeIndex > 0 :: jobIndex[id].completeIndex in Completions(jobIndex);
      return firstIndex;
    }

    /** Compacts the log up to the first index to keep; the log files are truncated at that index. */
    method Compact()
      requires Valid()
      modifies this, wal, wal.disk
      ensures Valid() && Model() == Compacted(old(Model())) && writeBuffer == old(writeBuffer)
      ensures var u := KeepFrom(old(jobIndex), old(firstIndex));
              wal.Model() == if u <= old(firstIndex) then old(wal.Model()) else Truncated(old(wal.Model()), u)
    {
      hide KeepFrom, Bounds, Wal.Valid, Truncated, RecoverAbove, Decides, SharesSegmentWithLater, Records;
      var u := FindFirstIndexToKeep();
      if u <= firstIndex {
        return;
      }
      entries := DropBelow(entries, u);
      firstIndex, lastIndex := FindBounds(entries, snapshotIndex);
      jobIndex := CleanIndex(jobIndex, u);
      snapshotIndex := u - 1;
      wal.Truncate(u);
    }

    /** Rebuilds the in-memory log and the job index from the log files, which may repeat records or hold them out of
        order. */
    method Recover()
      requires wal.Intact()
      modifies this
      ensures wal.Intact() && writeBuffer == old(writeBuffer) && snapshotIndex == old(snapshotIndex)
      ensures var kept := From(wal.OnDisk(), snapshotIndex + 1);
              && entries == StoreAll(old(entries), kept) && jobIndex == NoteAll(map[], kept, Recovery)
              && (firstIndex, lastIndex) == Bounds(entries, snapshotIndex)
    {
      hide Wal.Intact, Bounds, From;
      jobIndex := map[];
      var kept := wal.Recover(snapshotIndex);
      for i := 0 to |kept|
        invariant wal.Intact() && unchanged(wal) && unchanged(wal.disk)
        invariant writeBuffer == old(writeBuffer) && snapshotIndex == old(snapshotIndex)
        invariant entries == StoreAll(old(entries), kept[..i]) && jobIndex == NoteAll(map[], kept[..i], Recovery)
      {
        assert kept[..i + 1][..i] == kept[..i];
        entries := entries[kept[i].index := kept[i]];
        jobIndex := UpdateIndex(jobIndex, kept[i], Recovery);
      }
      assert kept[..|kept|] == kept;
      firstIndex, lastIndex := FindBounds(entries, snapshotIndex);
    }

    /** The jobs that were added and whose last event is a completion, by either builder of the index. */
    method GetCompletedJobIDs() returns (completed: set<JobId>)
      ensures completed == CompletedIn(jobIndex)
      ensures forall h, kind | Increasing(h) && jobIndex == Build(h, kind) :: completed == CompletedJobs(h)
    {
      completed := {};
      var todo := jobIndex.Keys;
      while todo != {}
        invariant todo <= jobIndex.Keys
        invariant completed == set id | id in jobIndex && id !in todo && IsCompleted(jobIndex[id])
        decreases |todo|
      {
        var id :| id in todo;
        if IsCompleted(jobIndex[id]) {
          completed := completed + {id};
        }
        todo := todo - {id};
      }
      forall h, kind | Increasing(h) && jobIndex == Build(h, kind)
        ensures completed == CompletedJobs(h)
      {
        BuildersAgree(h, kind);
      }
    }
  }
}
