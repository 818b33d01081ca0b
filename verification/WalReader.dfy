/** Reading the log from an index on, across segment boundaries. */
module WalReader {
  import opened History
  import opened Segments
  import opened WalSteps
  import opened WalFiles

  lemma {:induction false} EarlierFilesArePrefix(d: Dir, names: seq<Name>, i: nat)
    requires i <= |names| && forall j | 0 <= j < |names| :: names[j] in d
    ensures ReadFiles(d, names[..i]) <= ReadFiles(d, names)
  {
    if i == |names| {
      assert names[..i] == names;
    } else {
      EarlierFilesArePrefix(d, names[..|names| - 1], i);
      assert names[..|names| - 1][..i] == names[..i];
    }
  }

  /** Where record `pos` of file `i` sits in the concatenation of all files. */
  lemma PlaceOf(d: Dir, names: seq<Name>, i: nat, pos: nat)
    requires i < |names| && (forall j | 0 <= j < |names| :: names[j] in d) && pos <= |d[names[i]]|
    ensures |ReadFiles(d, names[..i])| + pos <= |ReadFiles(d, names)|
    ensures pos < |d[names[i]]| ==> |ReadFiles(d, names[..i])| + pos < |ReadFiles(d, names)|
    ensures pos < |d[names[i]]| ==> ReadFiles(d, names)[|ReadFiles(d, names[..i])| + pos] == d[names[i]][pos]
    ensures pos > 0 ==> ReadFiles(d, names)[|ReadFiles(d, names[..i])| + pos - 1] == d[names[i]][pos - 1]
    ensures |ReadFiles(d, names[..i + 1])| == |ReadFiles(d, names[..i])| + |d[names[i]]|
  {
    ReadNextFile(d, names, i);
    EarlierFilesArePrefix(d, names, i + 1);
  }

  class Reader {
    const disk: Disk
    const names: seq<Name>
    var segIdx: nat
    var pos: nat

    ghost predicate Valid()
      reads this, disk
    {
      && (forall i | 0 <= i < |names| :: names[i] in disk.files)
      && segIdx <= |names|
      && (if segIdx < |names| then pos <= |disk.files[names[segIdx]]| else pos == 0)
    }

    ghost function Consumed(): nat
      requires Valid()
      reads this, disk
    {
      |ReadFiles(disk.files, names[..segIdx])| + pos
    }

    /** What the reader still has to deliver. */
    ghost function Remaining(): seq<Record>
      requires Valid()
      reads this, disk
    {
      if Consumed() <= |ReadFiles(disk.files, names)| then ReadFiles(disk.files, names)[Consumed()..] else []
    }

    constructor (disk: Disk, names: seq<Name>, segIdx: nat, pos: nat)
      ensures this.disk == disk && this.names == names && this.segIdx == segIdx && this.pos == pos
    {
      this.disk, this.names, this.segIdx, this.pos := disk, names, segIdx, pos;
    }

    /** Delivers the next record, moving on to later files as earlier ones run out; `None` only at the end. */
    method ReadEntry() returns (e: Option<Record>)
      requires Valid()
      modifies this
      ensures Valid()
      ensures e.None? ==> old(Remaining()) == [] && Remaining() == []
      ensures e.Some? ==> old(Remaining()) == [e.value] + Remaining()
    {
      hide ReadFiles;
      while segIdx < |names|
        invariant Valid() && Remaining() == old(Remaining())
        decreases |names| - segIdx
      {
        PlaceOf(disk.files, names, segIdx, pos);
        var file := disk.files[names[segIdx]];
        if pos < |file| {
          ghost var total, c := ReadFiles(disk.files, names), Consumed();
          e := Some(file[pos]);
          pos := pos + 1;
          PlaceOf(disk.files, names, segIdx, pos);
          assert total[c..] == [total[c]] + total[c + 1..];
          return;
        }
        segIdx, pos := segIdx + 1, 0;
      }
      assert names[..|names|] == names;
      e := None;
    }
  }

  /** The first index that segment `i` of a layout may hold; the active segment comes last. */
  function StartOf(l: Layout, i: nat): nat
    requires l.active.Some? && i <= |l.sealed|
  {
    if i < |l.sealed| then l.sealed[i].lo else l.active.value.start
  }

  /** The records of segment `i`, which its file holds. */
  function RecsOf(l: Layout, i: nat): seq<Record>
    requires l.active.Some? && i <= |l.sealed|
  {
    if i < |l.sealed| then l.sealed[i].recs else l.active.value.recs
  }

  /** The name of segment `i` covers `from`; the active one has no end. */
  predicate Covers(l: Layout, i: nat, from: nat)
    requires l.active.Some? && i <= |l.sealed|
  {
    StartOf(l, i) <= from && (i < |l.sealed| ==> from <= l.sealed[i].hi)
  }

  lemma FileAt(w: Wal, i: nat)
    requires w.Valid() && i <= |w.layout.sealed|
    ensures NamesInOrder(w.layout)[i] in w.files && w.files[NamesInOrder(w.layout)[i]] == RecsOf(w.layout, i)
  {
    hide WellFormed, HasNoOthers;
  }

  /** A sealed segment reaches up to right below the next one. */
  lemma SegmentBounds(w: Wal, i: nat)
    requires w.Valid() && i < |w.layout.sealed|
    ensures StartOf(w.layout, i) <= w.layout.sealed[i].hi && w.layout.sealed[i].hi + 1 == StartOf(w.layout, i + 1)
  {
    hide Holds, ContentsOk;
  }

  /** At most one segment covers an index. */
  lemma CoverIsUnique(w: Wal, i: nat, j: nat, from: nat)
    requires w.Valid() && i < j <= |w.layout.sealed| && Covers(w.layout, i, from)
    ensures !Covers(w.layout, j, from)
  {
    hide Holds, ContentsOk;
    if j < |w.layout.sealed| {
      SegmentsAscend(w.layout.sealed, i, j);
    } else if i < j - 1 {
      SegmentsAscend(w.layout.sealed, i, j - 1);
    }
  }

  /** In a sorted list the records at or above `cut` are a suffix. */
  lemma FromIsSuffix(c: seq<Record>, k: nat, cut: nat)
    requires Increasing(c) && k <= |c|
    requires k > 0 ==> c[k - 1].index < cut
    requires k < |c| ==> cut <= c[k].index
    ensures From(c, cut) == c[k..]
  {
    forall i | 0 <= i < k
      ensures c[i].index < cut
    {
      assert c[i].index <= c[k - 1].index;
    }
    forall i | k <= i < |c|
      ensures cut <= c[i].index
    {
      assert c[k].index <= c[i].index;
    }
    hide From;
    FromSkipsPrefix(c, k, cut);
    FromKeepsAll(c[k..], cut);
  }

  lemma SealedLieBelow(w: Wal, i: nat)
    requires w.Valid() && i <= |w.layout.sealed| && i > 0
    ensures Within(Flatten(w.layout.sealed[..i]), StartOf(w.layout, i) - 1)
  {
    hide Holds, Linked, Positive, Within, Flatten;
    var gone := w.layout.sealed[..i];
    SegmentBounds(w, i - 1);
    forall k | 0 <= k < i
      ensures gone[k].hi <= StartOf(w.layout, i) - 1
    {
      if k < i - 1 {
        SegmentsAscend(w.layout.sealed, k, i - 1);
      }
    }
    FlattenWithin(gone, StartOf(w.layout, i) - 1);
  }

  /** The last record before segment `i` lies below its start. */
  lemma BeforeSegment(w: Wal, i: nat, from: nat)
    requires w.Valid() && i <= |w.layout.sealed| && StartOf(w.layout, i) <= from
    requires |ReadFiles(w.files, NamesInOrder(w.layout)[..i])| > 0
    ensures |ReadFiles(w.files, NamesInOrder(w.layout)[..i])| <= |w.Log()|
    ensures w.Log()[|ReadFiles(w.files, NamesInOrder(w.layout)[..i])| - 1].index < from
  {
    hide HasNoOthers, Linked;
    ReadSealedFiles(w.files, w.layout, i);
    var gone, l := w.layout.sealed[..i], w.layout;
    assert l.sealed == gone + l.sealed[i..];
    FlattenConcat(gone, l.sealed[i..]);
    SealedLieBelow(w, i);
  }

  /** A reader positioned at the first record at or above `from` in segment `i` has the rest of the log still to
      come: exactly the records from `from` on, if the log is in order. */
  lemma ReaderPlacement(w: Wal, i: nat, pos: nat, from: nat)
    requires w.Valid() && i <= |w.layout.sealed|
    requires StartOf(w.layout, i) <= from && NamesInOrder(w.layout)[i] in w.files
    requires var file := w.files[NamesInOrder(w.layout)[i]];
             pos < |file| && from <= file[pos].index && (pos > 0 ==> file[pos - 1].index < from)
    ensures var k := |ReadFiles(w.files, NamesInOrder(w.layout)[..i])| + pos;
            && k < |w.Log()| && from <= w.Log()[k].index
            && (Increasing(w.Log()) ==> w.Log()[k..] == From(w.Log(), from))
  {
    hide Holds, WellFormed, ReadFiles, NamesInOrder, Records, Increasing;
    var names := NamesInOrder(w.layout);
    ValidIsWritable(w);
    FilesInOrder(w);
    NamesCount(w.layout);
    PlaceOf(w.files, names, i, pos);
    if pos == 0 && |ReadFiles(w.files, names[..i])| > 0 {
      BeforeSegment(w, i, from);
    }
    if Increasing(w.Log()) {
      FromIsSuffix(w.Log(), |ReadFiles(w.files, names[..i])| + pos, from);
    }
  }

  /** The segment that covers `from` holds an index at or above it. */
  ghost predicate CanRead(l: Layout, from: nat)
    requires l.active.Some?
  {
    exists i, j :: 0 <= i <= |l.sealed| && 0 <= j < |RecsOf(l, i)| && Covers(l, i, from) && from <= RecsOf(l, i)[j].index
  }

  /** No record lies at or above `from` when the active segment covers `from` but holds none. */
  lemma NothingAtOrAbove(w: Wal, from: nat)
    requires w.Valid() && w.Tail().start <= from
    requires forall i | 0 <= i < |w.Tail().recs| :: w.Tail().recs[i].index < from
    ensures forall i | 0 <= i < |w.Log()| :: w.Log()[i].index < from
  {
    hide Holds, Linked, Positive;
    var n := |w.layout.sealed|;
    assert w.layout.sealed[..n] == w.layout.sealed;
    if n > 0 {
      SealedLieBelow(w, n);
    }
  }

  lemma RecordIsInLog(w: Wal, i: nat, j: nat)
    requires w.Valid() && i <= |w.layout.sealed| && j < |RecsOf(w.layout, i)|
    ensures RecsOf(w.layout, i)[j] in w.Log()
  {
    hide Holds, WellFormed;
    FlattenMember(w.layout.sealed, RecsOf(w.layout, i)[j]);
  }

  lemma {:induction false} SomeSegmentCovers(w: Wal, i: nat, from: nat) returns (k: nat)
    requires w.Valid() && i <= |w.layout.sealed| && StartOf(w.layout, i) <= from
    ensures i <= k <= |w.layout.sealed| && Covers(w.layout, k, from)
    decreases |w.layout.sealed| - i
  {
    hide Holds, WellFormed;
    k := i;
    if i < |w.layout.sealed| {
      SegmentBounds(w, i);
      if from > w.layout.sealed[i].hi {
        k := SomeSegmentCovers(w, i + 1, from);
      }
    }
  }

  lemma StartsAscend(w: Wal, i: nat)
    requires w.Valid() && i <= |w.layout.sealed|
    ensures StartOf(w.layout, 0) <= StartOf(w.layout, i)
  {
    hide Holds, ContentsOk;
    if 0 < i < |w.layout.sealed| {
      SegmentsAscend(w.layout.sealed, 0, i);
    } else if i > 1 {
      SegmentsAscend(w.layout.sealed, 0, i - 1);
    }
  }

  /** If every name ends at its last record, an index can be read from exactly when the log starts at or below it and
      holds a record at or above it. */
  lemma ReadableIff(w: Wal, from: nat)
    requires w.Valid() && Truthful(w.layout)
    ensures CanRead(w.layout, from) <==>
            StartOf(w.layout, 0) <= from && exists i :: 0 <= i < |w.Log()| && from <= w.Log()[i].index
  {
    hide NamesOk, ContentsOk, Holds, Records, Increasing;
    var l := w.layout;
    if CanRead(l, from) {
      var i, j :| 0 <= i <= |l.sealed| && 0 <= j < |RecsOf(l, i)| && Covers(l, i, from) && from <= RecsOf(l, i)[j].index;
      StartsAscend(w, i);
      RecordIsInLog(w, i, j);
    }
    if StartOf(l, 0) <= from && exists i :: 0 <= i < |w.Log()| && from <= w.Log()[i].index {
      var k := SomeSegmentCovers(w, 0, from);
      if k < |l.sealed| {
        assert from <= RecsOf(l, k)[|RecsOf(l, k)| - 1].index;
      } else if forall j | 0 <= j < |w.Tail().recs| :: w.Tail().recs[j].index < from {
        NothingAtOrAbove(w, from);
        assert false;
      } else {
        var j :| 0 <= j < |w.Tail().recs| && from <= w.Tail().recs[j].index;
        assert from <= RecsOf(l, k)[j].index;
      }
    }
  }

  /** Finds the segment that may hold `from`: the one, if any, whose name covers it. */
  method FindSegment(w: SegmentedWal, from: nat) returns (found: Option<nat>)
    requires w.Valid()
    ensures found.Some? ==> found.value <= |w.sealed| && Covers(w.layout, found.value, from)
    ensures found.None? ==> forall i | 0 <= i <= |w.sealed| :: !Covers(w.layout, i, from)
  {
    hide Holds, WellFormed, Records;
    for i := 0 to |w.sealed|
      invariant forall j | 0 <= j < i :: !Covers(w.layout, j, from)
    {
      if w.sealed[i].lo <= from && from <= w.sealed[i].hi {
        return Some(i);
      }
    }
    if from >= w.active {
      return Some(|w.sealed|);
    }
    return None;
  }

  /** Skips to the first record at or above `from`; the end of the file if there is none. */
  method SkipTo(recs: seq<Record>, from: nat) returns (pos: nat)
    ensures pos <= |recs|
    ensures forall i | 0 <= i < pos :: recs[i].index < from
    ensures pos < |recs| ==> from <= recs[pos].index
  {
    pos := 0;
    while pos < |recs| && recs[pos].index < from
      invariant pos <= |recs| && forall i | 0 <= i < pos :: recs[i].index < from
    {
      pos := pos + 1;
    }
  }

  /** Opens a reader at `from`. It succeeds exactly when the segment that covers `from` holds a record at or above it,
      and then delivers the rest of the log: exactly the records from `from` on, if the log is in order. */
  method NewReader(w: SegmentedWal, from: nat) returns (r: Option<Reader>)
    requires w.Valid()
    ensures r.Some? <==> CanRead(w.layout, from)
    ensures r.Some? ==> fresh(r.value) && r.value.disk == w.disk && r.value.Valid()
    ensures r.Some? ==>
      exists k :: 0 <= k < |w.Model().Log()| && from <= w.Model().Log()[k].index && r.value.Remaining() == w.Model().Log()[k..]
    ensures r.Some? && Increasing(w.Model().Log()) ==> r.value.Remaining() == From(w.Model().Log(), from)
  {
    hide Holds, NamesOk, ContentsOk, Records, ReadFiles, NamesInOrder, From, Covers, CanRead, Increasing;
    ghost var m := w.Model();
    ValidIsWritable(m);
    FilesInOrder(m);
    var names := w.AllNames();
    var found := FindSegment(w, from);
    if found.None? {
      NotCovered(m, from);
      return None;
    }
    var i := found.value;
    NamesCount(m.layout);
    FileAt(m, i);
    var pos := SkipTo(w.disk.files[names[i]], from);
    CoveredAt(m, i, pos, from);
    if pos == |w.disk.files[names[i]]| {
      return None;
    }
    ReaderPlacement(m, i, pos, from);
    PlaceOf(w.disk.files, names, i, pos);
    var reader := new Reader(w.disk, names, i, pos);
    assert w.Model() == m;
    return Some(reader);
  }

  lemma NotCovered(w: Wal, from: nat)
    requires w.Valid() && forall i | 0 <= i <= |w.layout.sealed| :: !Covers(w.layout, i, from)
    ensures !CanRead(w.layout, from)
  {
    hide Covers;
  }

  lemma CoveredAt(w: Wal, i: nat, pos: nat, from: nat)
    requires w.Valid() && i <= |w.layout.sealed| && Covers(w.layout, i, from) && pos <= |RecsOf(w.layout, i)|
    requires forall k | 0 <= k < pos :: RecsOf(w.layout, i)[k].index < from
    requires pos < |RecsOf(w.layout, i)| ==> from <= RecsOf(w.layout, i)[pos].index
    ensures Covers(w.layout, i, from) && StartOf(w.layout, i) <= from
    ensures CanRead(w.layout, from) <==> pos < |RecsOf(w.layout, i)|
  {
    hide WellFormed, Holds;
    if CanRead(w.layout, from) {
      var a, b :| 0 <= a <= |w.layout.sealed| && 0 <= b < |RecsOf(w.layout, a)| && Covers(w.layout, a, from)
               && from <= RecsOf(w.layout, a)[b].index;
      if a < i {
        CoverIsUnique(w, a, i, from);
      } else if i < a {
        CoverIsUnique(w, i, a, from);
      }
    }
  }

  /** An entry appended after a truncation at `u` that emptied the log can be read through a reader opened at
      its index exactly when it lies above `u`: the new file is named after `u`. */
  lemma ReadableAfterEmptyingIff(w: Wal, u: nat, r: Record, segmentSize: nat)
    requires w.Valid() && segmentSize > 0 && TailIsBelow(w.Tail(), u) && r.index > 0
    ensures Truncated(w, u).Valid() && Truncated(w, u).Writable() && Appended(Truncated(w, u), r, segmentSize).Valid()
    ensures r in Appended(Truncated(w, u), r, segmentSize).Log()
    ensures CanRead(Appended(Truncated(w, u), r, segmentSize).layout, r.index) <==> r.index > u
  {
    hide Holds, NamesOk, ContentsOk, Truncated, Appended, Records, CanRead;
    AppendAfterEmptyingIff(w, u, r, segmentSize);
    OneFileReadable(Appended(Truncated(w, u), r, segmentSize), r);
  }

  /** A log of one record in one file can be read from its index exactly when the name covers it. */
  lemma OneFileReadable(w: Wal, r: Record)
    requires w.layout.active.Some? && w.layout.sealed == [] && w.Log() == [r]
    ensures CanRead(w.layout, r.index) <==> w.Tail().start <= r.index
  {
    var l := w.layout;
    assert Records(l) == [] + l.active.value.recs == RecsOf(l, 0);
    if w.Tail().start <= r.index {
      assert r.index <= RecsOf(l, 0)[0].index;
    }
  }

  const FIRST := Record(1, Other, 20)
  const SECOND := Record(2, Other, 20)

  /** One entry, a truncation one past it, as compaction does when no job is open, and the next entry: it is in the
      log, and no reader can be opened at its index. */
  lemma UnreadableEntry()
    ensures Fresh(1).Writable()
    ensures var w := Appended(Fresh(1), FIRST, 100);
            && w.Valid() && TailIsBelow(w.Tail(), 2) && Truncated(w, 2).Writable()
            && var t := Appended(Truncated(w, 2), SECOND, 100);
               t.Valid() && t.Log() == [SECOND] && !CanRead(t.layout, SECOND.index)
  {
    hide Holds, WellFormed;
    FreshIsValid(1);
    ValidIsWritable(Fresh(1));
    assert Fresh(1).Log() + [FIRST] == [FIRST];
    AppendKeepsLayoutIff(Fresh(1), FIRST, 100);
    var w := Appended(Fresh(1), FIRST, 100);
    EmptyingSummary(w, 2);
    AppendAfterEmptyingIff(w, 2, SECOND, 100);
    hide CanRead;
    OneFileReadable(Appended(Truncated(w, 2), SECOND, 100), SECOND);
  }

  lemma NamesCount(l: Layout)
    requires l.active.Some?
    ensures |NamesInOrder(l)| == |l.sealed| + 1
  {
  }
}
