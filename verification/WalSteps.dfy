/** What each operation of the segmented log does to the directory, one file-system step at a time. */
module WalSteps {
  import opened History
  import opened Segments

  /** An active file that can be sealed as `start` to `next - 1`: the range is not empty and covers its records
      from above. */
  predicate CanSeal(t: Tail, next: nat) {
    t.start < next && forall i | 0 <= i < |t.recs| :: t.recs[i].index < next
  }

  /** An open log: the directory, the layout it holds, and the next index it expects. */
  datatype Wal = Wal(files: Dir, layout: Layout, next: nat) {
    function Tail(): Tail
      requires layout.active.Some?
    {
      layout.active.value
    }

    ghost predicate Valid() {
      && layout.active.Some? && WellFormed(layout) && Holds(files, layout)
      && (forall n | n in files :: !n.Temp?) && next > 0
    }

    /** The files hold what the layout says, whatever other files there are and whatever the names look like. */
    ghost predicate Intact() {
      layout.active.Some? && next > 0 && HasFiles(files, layout) && forall n | n in files :: !n.Temp?
    }

    /** All that writing needs: the active file is on disk and no temporary is in the way. */
    ghost predicate Writable() {
      && layout.active.Some? && next > 0
      && Active(Tail().start) in files && files[Active(Tail().start)] == Tail().recs
      && (forall n | n in files :: !n.Temp?)
    }

    /** The plain indexed sequence that the log stands for. */
    function Log(): seq<Record> {
      Records(layout)
    }
  }

  /** A log with one empty active file that starts at `start`. */
  function Fresh(start: nat): Wal {
    Wal(map[Active(start) := []], Layout([], Some(Tail(start, []))), start)
  }

  lemma FreshIsValid(start: nat)
    requires start > 0
    ensures Fresh(start).Valid() && Fresh(start).Log() == []
  {
  }

  lemma ValidIsWritable(w: Wal)
    requires w.Valid() || w.Intact()
    ensures w.Intact() && w.Writable()
  {
    hide WellFormed, HasNoOthers;
  }

  // ---------------------------------------------------------------- rotation

  /** The directory after each of the three file-system steps of a rotation:
      create the temporary, seal the active file, promote the temporary. */
  function RotationDirs(d: Dir, start: nat, next: nat): seq<Dir>
    requires Active(start) in d && next > 0
  {
    var d1 := d[Temp(next) := []];
    var d2 := (d1 - {Active(start)})[Sealed(start, next - 1) := d[Active(start)]];
    var d3 := (d2 - {Temp(next)})[Active(next) := []];
    [d1, d2, d3]
  }

  /** The layout that a restart finds after step `k` of a rotation. */
  function RotationLayout(w: Wal, k: nat): Layout
    requires w.layout.active.Some? && w.next > 0
  {
    var sealed := w.layout.sealed + [Segment(w.Tail().start, w.next - 1, w.Tail().recs)];
    if k == 0 then w.layout
    else if k == 1 then Layout(sealed, None)
    else Layout(sealed, Some(Tail(w.next, [])))
  }

  function Rotated(w: Wal): Wal
    requires w.Writable()
  {
    Wal(RotationDirs(w.files, w.Tail().start, w.next)[2], RotationLayout(w, 2), w.next)
  }

  lemma PushSegment(sealed: seq<Segment>, s: Segment)
    ensures Flatten(sealed + [s]) == Flatten(sealed) + s.recs
  {
    assert (sealed + [s])[..|sealed|] == sealed;
  }

  lemma RotationNames(w: Wal, k: nat)
    requires w.layout.active.Some? && NamesOk(w.layout) && w.next > 0 && (k == 0 || w.Tail().start < w.next)
    ensures NamesOk(RotationLayout(w, k))
  {
  }

  lemma RotationRecords(w: Wal, k: nat)
    requires w.layout.active.Some? && w.next > 0
    ensures Records(RotationLayout(w, k)) == w.Log()
  {
    PushSegment(w.layout.sealed, Segment(w.Tail().start, w.next - 1, w.Tail().recs));
  }

  lemma SealedBelowTail(l: Layout, i: nat)
    requires NamesOk(l) && l.active.Some? && i < |l.sealed|
    ensures l.sealed[i].lo <= l.sealed[i].hi < l.active.value.start
  {
    if i < |l.sealed| - 1 {
      SegmentsAscend(l.sealed, i, |l.sealed| - 1);
    }
  }

  lemma SealStepHolds(d: Dir, l: Layout, hi: nat)
    requires l.active.Some? && NamesOk(l) && Holds(d, l)
    ensures var t := l.active.value;
            Holds((d - {Active(t.start)})[Sealed(t.start, hi) := t.recs],
                  Layout(l.sealed + [Segment(t.start, hi, t.recs)], None))
  {
    hide NamesOk;
    var t, n := l.active.value, |l.sealed|;
    var d', sealed' := (d - {Active(t.start)})[Sealed(t.start, hi) := t.recs], l.sealed + [Segment(t.start, hi, t.recs)];
    forall i | 0 <= i < n
      ensures l.sealed[i].lo < t.start
    {
      SealedBelowTail(l, i);
    }
    assert HasFiles(d', Layout(sealed', None)) by { hide HasNoOthers; }
    forall m | m in d'
      ensures IsFileOf(m, Layout(sealed', None))
    {
      if m == Sealed(t.start, hi) {
        assert sealed'[n].lo == m.lo && sealed'[n].hi == m.hi;
      } else {
        assert IsFileOf(m, l);
        StillAFile(m, l, Segment(t.start, hi, t.recs));
      }
    }
  }

  lemma StillAFile(m: Name, l: Layout, s: Segment)
    requires IsFileOf(m, l) && !m.Active?
    ensures IsFileOf(m, Layout(l.sealed + [s], None))
  {
    if m.Sealed? {
      var i :| 0 <= i < |l.sealed| && l.sealed[i].lo == m.lo && l.sealed[i].hi == m.hi;
      assert (l.sealed + [s])[i] == l.sealed[i];
    }
  }

  lemma PromoteStepHolds(d: Dir, sealed: seq<Segment>, next: nat)
    requires Holds(d, Layout(sealed, None))
    ensures Holds((d - {Temp(next)})[Active(next) := []], Layout(sealed, Some(Tail(next, []))))
  {
    var d' := (d - {Temp(next)})[Active(next) := []];
    forall m | m in d'
      ensures IsFileOf(m, Layout(sealed, Some(Tail(next, []))))
    {
      if m != Active(next) {
        assert IsFileOf(m, Layout(sealed, None));
      }
    }
  }

  /** The files after each step of a rotation, whatever the sealed name is. */
  lemma RotationHolds(w: Wal, k: nat)
    requires w.Valid() && k < 3
    ensures Active(w.Tail().start) in w.files
    ensures Holds(RotationDirs(w.files, w.Tail().start, w.next)[k], RotationLayout(w, k))
    ensures Records(RotationLayout(w, k)) == w.Log()
  {
    hide NamesOk, ContentsOk, HasFiles, HasNoOthers, Records;
    TempStepHolds(w);
    var dirs := RotationDirs(w.files, w.Tail().start, w.next);
    SealStepHolds(dirs[0], w.layout, w.next - 1);
    PromoteStepHolds(dirs[1], RotationLayout(w, 1).sealed, w.next);
    RotationRecords(w, k);
  }

  /** Stopping after any step of a rotation leaves names without a gap and at most one active file, from which a
      restart gets exactly the records held before, provided the sealed name has a range that is not empty. */
  lemma RotationIsCrashSafe(w: Wal, k: nat)
    requires w.Valid() && k < 3 && (k == 0 || w.Tail().start < w.next)
    ensures Active(w.Tail().start) in w.files
    ensures Holds(RotationDirs(w.files, w.Tail().start, w.next)[k], RotationLayout(w, k))
    ensures NamesOk(RotationLayout(w, k)) && Records(RotationLayout(w, k)) == w.Log()
    ensures RecoversTo(RotationDirs(w.files, w.Tail().start, w.next)[k], w.Log())
  {
    hide NamesOk, ContentsOk, HasFiles, HasNoOthers, Records;
    RotationHolds(w, k);
    RotationNames(w, k);
  }

  /** Sealing and starting a new file leaves a log that can be written to. */
  lemma RotatedIsWritable(w: Wal)
    requires w.Writable()
    ensures Rotated(w).Writable() && Rotated(w).Log() == w.Log()
  {
    RotationRecords(w, 2);
  }

  lemma TempStepHolds(w: Wal)
    requires w.Valid()
    ensures Active(w.Tail().start) in w.files
    ensures Holds(RotationDirs(w.files, w.Tail().start, w.next)[0], w.layout)
    ensures RotationDirs(w.files, w.Tail().start, w.next)[0][Active(w.Tail().start)] == w.Tail().recs
  {
    hide WellFormed;
    assert forall m | m in w.files :: IsFileOf(m, w.layout);
    hide IsFileOf;
  }

  lemma RotationContents(w: Wal)
    requires w.layout.active.Some? && ContentsOk(w.layout) && w.next > 0
    ensures ContentsOk(RotationLayout(w, 2)) <==> forall i | 0 <= i < |w.Tail().recs| :: w.Tail().recs[i].index < w.next
  {
    var l, n := RotationLayout(w, 2), |w.layout.sealed|;
    assert l.sealed[n] == Segment(w.Tail().start, w.next - 1, w.Tail().recs);
    assert forall i | 0 <= i < n :: l.sealed[i] == w.layout.sealed[i];
  }

  /** A rotation leaves a well-formed log exactly when the file can be sealed. */
  lemma RotationIsSoundIff(w: Wal)
    requires w.Valid()
    ensures w.Writable() && Rotated(w).Log() == w.Log()
    ensures Rotated(w).Valid() <==> CanSeal(w.Tail(), w.next)
  {
    ValidIsWritable(w);
    RotatedIsWritable(w);
    RotationContents(w);
    if CanSeal(w.Tail(), w.next) {
      hide NamesOk, ContentsOk, Holds, Records;
      RotationIsCrashSafe(w, 2);
    } else {
      var l := RotationLayout(w, 2);
      assert l.sealed[|w.layout.sealed|].lo == w.Tail().start && l.sealed[|w.layout.sealed|].hi == w.next - 1;
      hide Holds, Records, ContentsOk, Linked;
    }
  }

  /** What a rotation passes through. */
  lemma RotationSummary(w: Wal)
    requires w.Valid() && w.Tail().start < w.next
    ensures Active(w.Tail().start) in w.files && |RotationDirs(w.files, w.Tail().start, w.next)| == 3
    ensures forall k | 0 <= k < 3 :: RecoversTo(RotationDirs(w.files, w.Tail().start, w.next)[k], w.Log())
  {
    hide NamesOk, ContentsOk, Holds;
    ValidIsWritable(w);
    forall k | 0 <= k < 3
      ensures RecoversTo(RotationDirs(w.files, w.Tail().start, w.next)[k], w.Log())
    {
      RotationIsCrashSafe(w, k);
    }
  }

  // ---------------------------------------------------------------- a rename over an existing file

  /** The name the active file gets is that of a remembered file with other contents. */
  ghost predicate SealsOver(w: Wal)
    requires w.layout.active.Some? && w.next > 0
  {
    exists i :: 0 <= i < |w.layout.sealed| && FileOf(w.layout.sealed[i]) == Sealed(w.Tail().start, w.next - 1)
             && w.layout.sealed[i].recs != w.Tail().recs
  }

  /** If the files hold what the log remembers, they still do after a rotation exactly when the seal rename does
      not replace a remembered file. */
  lemma RotationKeepsFilesIff(w: Wal)
    requires w.Intact()
    ensures w.Writable() && Rotated(w).Log() == w.Log()
    ensures Rotated(w).Intact() <==> !SealsOver(w)
  {
    ValidIsWritable(w);
    RotatedIsWritable(w);
    var l, d, n := w.layout, Rotated(w).files, |w.layout.sealed|;
    var sealed' := Rotated(w).layout.sealed;
    assert forall i | 0 <= i < n :: sealed'[i] == l.sealed[i];
    assert sealed'[n] == Segment(w.Tail().start, w.next - 1, w.Tail().recs);
    hide Records;
    if SealsOver(w) {
      var i :| 0 <= i < n && FileOf(l.sealed[i]) == Sealed(w.Tail().start, w.next - 1) && l.sealed[i].recs != w.Tail().recs;
      assert d[FileOf(sealed'[i])] != sealed'[i].recs;
    }
  }

  /** In a well-formed log that never happens: the active file starts after every sealed one. */
  lemma ValidNeverSealsOver(w: Wal)
    requires w.Valid()
    ensures !SealsOver(w)
  {
    hide Holds, ContentsOk, Linked;
    forall i | 0 <= i < |w.layout.sealed|
      ensures w.layout.sealed[i].lo < w.Tail().start
    {
      SealedBelowTail(w.layout, i);
    }
  }

  /** The records that such a rename destroys lie below the last one it seals and below the index that the sealed name
      ends with: the truncation index, for a file that a truncation left. */
  lemma OverwrittenLieBelow(w: Wal, i: nat, r: Record)
    requires w.layout.active.Some? && Increasing(w.Log()) && w.Tail().recs != []
    requires i < |w.layout.sealed| && r in w.layout.sealed[i].recs
    ensures r.index < LastIndex(w.Tail().recs)
    ensures (forall k | 0 <= k < |w.Tail().recs| :: w.Tail().recs[k].index < w.next) ==> r.index + 1 < w.next
  {
    FlattenMember(w.layout.sealed, r);
    var flat, t := Flatten(w.layout.sealed), w.Tail();
    assert r in flat;
    var j :| 0 <= j < |flat| && flat[j] == r;
    var last := |w.Log()| - 1;
    assert w.Log()[j] == r && w.Log()[last] == t.recs[|t.recs| - 1];
  }

  // ---------------------------------------------------------------- append

  function Written(w: Wal, r: Record): Wal
    requires w.layout.active.Some?
  {
    var t := Tail(w.Tail().start, w.Tail().recs + [r]);
    Wal(w.files[Active(t.start) := t.recs], w.layout.(active := Some(t)),
        if r.index + 1 > w.next then r.index + 1 else w.next)
  }

  /** One entry of `AppendBatch`: rotate first if the active file is full, then write. */
  function Appended(w: Wal, r: Record, segmentSize: nat): Wal
    requires w.Writable()
  {
    if Size(w.Tail().recs) >= segmentSize then Written(Rotated(w), r) else Written(w, r)
  }

  predicate IsFull(w: Wal, segmentSize: nat)
    requires w.layout.active.Some?
  {
    Size(w.Tail().recs) >= segmentSize
  }

  /** The active file is not full, or it can be sealed. */
  predicate Ready(w: Wal, segmentSize: nat)
    requires w.layout.active.Some?
  {
    IsFull(w, segmentSize) ==> CanSeal(w.Tail(), w.next)
  }

  lemma AppendedIsWritable(w: Wal, r: Record, segmentSize: nat)
    requires w.Writable()
    ensures Appended(w, r, segmentSize).Writable() && Appended(w, r, segmentSize).Log() == w.Log() + [r]
  {
    if IsFull(w, segmentSize) {
      RotatedIsWritable(w);
      hide Rotated;
      WrittenIsWritable(Rotated(w), r);
    } else {
      WrittenIsWritable(w, r);
    }
  }

  lemma WrittenIsWritable(w: Wal, r: Record)
    requires w.Writable()
    ensures Written(w, r).Writable() && Written(w, r).Log() == w.Log() + [r]
  {
  }

  lemma WrittenKeepsFiles(w: Wal, r: Record)
    requires w.Writable()
    ensures Written(w, r).Intact() <==> w.Intact()
  {
    hide Records;
    assert forall i | 0 <= i < |w.layout.sealed| :: FileOf(w.layout.sealed[i]) != Active(w.Tail().start);
  }

  /** If the files hold what the log remembers, then after any entry they hold that and the entry, exactly unless a
      full file is sealed over a remembered one. */
  lemma AppendKeepsFilesIff(w: Wal, r: Record, segmentSize: nat)
    requires w.Intact()
    ensures w.Writable() && Appended(w, r, segmentSize).Log() == w.Log() + [r]
    ensures Appended(w, r, segmentSize).Intact() <==> !(IsFull(w, segmentSize) && SealsOver(w))
  {
    ValidIsWritable(w);
    AppendedIsWritable(w, r, segmentSize);
    hide Wal.Intact, Wal.Writable, Written, Rotated, SealsOver, Records;
    if IsFull(w, segmentSize) {
      RotatedIsWritable(w);
      RotationKeepsFilesIff(w);
      WrittenKeepsFiles(Rotated(w), r);
    } else {
      WrittenKeepsFiles(w, r);
    }
  }

  lemma WriteHolds(w: Wal, r: Record)
    requires w.Valid()
    ensures Holds(Written(w, r).files, Written(w, r).layout) && forall n | n in Written(w, r).files :: !n.Temp?
    ensures Written(w, r).Log() == w.Log() + [r]
  {
    hide WellFormed;
    var w' := Written(w, r);
    forall m | m in w'.files
      ensures IsFileOf(m, w'.layout)
    {
      assert IsFileOf(m, w.layout);
    }
  }

  lemma LastOfNext(c: seq<Record>, r: Record)
    requires Increasing(c + [r])
    ensures r.index > LastIndex(c) && LastIndex(c + [r]) == r.index
  {
    assert (c + [r])[|c|] == r;
    if c != [] {
      assert (c + [r])[|c| - 1] == c[|c| - 1];
    }
  }

  lemma PositiveNext(c: seq<Record>, r: Record)
    ensures Positive(c + [r]) <==> Positive(c) && r.index > 0
  {
    assert (c + [r])[|c|] == r;
    assert forall i | 0 <= i < |c| :: (c + [r])[i] == c[i];
  }

  lemma WriteKeepsLayoutIff(w: Wal, r: Record)
    requires w.Valid()
    ensures Written(w, r).Valid() <==> r.index > 0
    ensures Written(w, r).Log() == w.Log() + [r]
  {
    hide Holds, Linked, Records, Within, Positive;
    WriteHolds(w, r);
    PositiveNext(w.Tail().recs, r);
  }

  /** An entry leaves a well-formed log exactly when its index is positive and the active file, if it is full, can
      be sealed. */
  lemma AppendKeepsLayoutIff(w: Wal, r: Record, segmentSize: nat)
    requires w.Valid()
    ensures w.Writable() && Appended(w, r, segmentSize).Log() == w.Log() + [r]
    ensures Appended(w, r, segmentSize).Valid() <==> r.index > 0 && Ready(w, segmentSize)
  {
    ValidIsWritable(w);
    AppendedIsWritable(w, r, segmentSize);
    hide Holds, Records, WellFormed, Written, Wal.Writable, Wal.Intact;
    if !IsFull(w, segmentSize) {
      WriteKeepsLayoutIff(w, r);
    } else {
      RotationIsSoundIff(w);
      if CanSeal(w.Tail(), w.next) {
        WriteKeepsLayoutIff(Rotated(w), r);
      } else {
        BadSealStays(w, r);
      }
    }
  }

  /** Writing to the new active file does not repair a sealed one. */
  lemma BadSealStays(w: Wal, r: Record)
    requires w.Valid() && w.Writable() && !CanSeal(w.Tail(), w.next)
    ensures !Written(Rotated(w), r).Valid()
  {
    hide Holds, Linked, Flatten, Positive;
    var s, n := Written(Rotated(w), r).layout.sealed, |w.layout.sealed|;
    assert s[n] == Segment(w.Tail().start, w.next - 1, w.Tail().recs);
    if w.Tail().start < w.next {
      var i :| 0 <= i < |w.Tail().recs| && w.Tail().recs[i].index >= w.next;
      assert !Within(s[n].recs, s[n].hi);
    } else {
      assert s[n].lo > s[n].hi;
    }
  }

  lemma WriteSummary(w: Wal, r: Record)
    requires w.Valid() && r.index > 0
    ensures Written(w, r).Valid() && Written(w, r).Log() == w.Log() + [r]
    ensures RecoversTo(Written(w, r).files, w.Log() + [r])
  {
    WriteKeepsLayoutIff(w, r);
  }

  // ---------------------------------------------------------------- truncation

  /** How many leading segments end at or below `u`. */
  function Below(sealed: seq<Segment>, u: nat): (k: nat)
    ensures k <= |sealed|
    ensures forall i | 0 <= i < k :: sealed[i].hi <= u
    ensures k < |sealed| ==> sealed[k].hi > u
  {
    if sealed == [] || sealed[0].hi > u then 0 else
      var k := Below(sealed[1..], u);
      assert forall i | 0 <= i < k :: sealed[1..][i] == sealed[i + 1];
      k + 1
  }

  function NamesOf(sealed: seq<Segment>): set<Name> {
    set i | 0 <= i < |sealed| :: FileOf(sealed[i])
  }

  predicate TailIsBelow(t: Tail, u: nat) {
    t.start <= u && LastIndex(t.recs) <= u
  }

  /** The active file is judged by its last record: nothing above `u` is lost with it. */
  predicate SafeToEmpty(t: Tail, u: nat) {
    t.start <= u && LastIndex(t.recs) <= u ==> forall i | 0 <= i < |t.recs| :: t.recs[i].index <= u
  }

  /** The log after its oldest `j` sealed segments have been removed. */
  function WithoutOldest(w: Wal, j: nat): Wal
    requires j <= |w.layout.sealed|
  {
    Wal(w.files - NamesOf(w.layout.sealed[..j]), w.layout.(sealed := w.layout.sealed[j..]), w.next)
  }

  /** Truncation removes whole segments that end at or below `u`, and replaces an active file all of
      whose records are at or below `u` by an empty one. */
  function Truncated(w: Wal, u: nat): Wal
    requires w.layout.active.Some?
  {
    var w' := WithoutOldest(w, Below(w.layout.sealed, u));
    if TailIsBelow(w.Tail(), u)
    then Wal((w'.files - {Active(w.Tail().start)})[Active(u + 1) := []],
             w'.layout.(active := Some(Tail(u + 1, []))), u + 1)
    else w'
  }

  /** Cutting `c` before position `k` loses nothing above `u`. */
  predicate DropsOnlyUpTo(c: seq<Record>, k: nat, u: nat) {
    k <= |c| && forall i | 0 <= i < k :: c[i].index <= u
  }

  lemma SuffixOfSegments(sealed: seq<Segment>, j: nat)
    requires Linked(sealed) && j <= |sealed|
    ensures Linked(sealed[j..])
    ensures Flatten(sealed) == Flatten(sealed[..j]) + Flatten(sealed[j..])
  {
    assert sealed == sealed[..j] + sealed[j..];
    FlattenConcat(sealed[..j], sealed[j..]);
  }

  lemma GoneFromNames(l: Layout, j: nat, i: nat)
    requires NamesOk(l) && j <= i < |l.sealed|
    ensures FileOf(l.sealed[i]) !in NamesOf(l.sealed[..j])
  {
    forall m | 0 <= m < j
      ensures FileOf(l.sealed[m]) != FileOf(l.sealed[i])
    {
      SegmentsAscend(l.sealed, m, i);
    }
  }

  lemma NamesOfPrefix(sealed: seq<Segment>, j: nat)
    requires j <= |sealed|
    ensures forall m | 0 <= m < j :: FileOf(sealed[m]) in NamesOf(sealed[..j])
  {
    forall m | 0 <= m < j
      ensures FileOf(sealed[m]) in NamesOf(sealed[..j])
    {
      assert FileOf(sealed[..j][m]) in NamesOf(sealed[..j]);
    }
  }

  lemma KeptFile(n: Name, l: Layout, j: nat)
    requires IsFileOf(n, l) && j <= |l.sealed| && n !in NamesOf(l.sealed[..j])
    ensures IsFileOf(n, l.(sealed := l.sealed[j..]))
  {
    if n.Sealed? {
      NamesOfPrefix(l.sealed, j);
      var i :| 0 <= i < |l.sealed| && l.sealed[i].lo == n.lo && l.sealed[i].hi == n.hi;
      assert n == FileOf(l.sealed[i]);
      assert l.sealed[j..][i - j] == l.sealed[i];
    }
  }

  lemma RemovalHolds(d: Dir, l: Layout, j: nat)
    requires NamesOk(l) && Holds(d, l) && j <= |l.sealed|
    ensures Holds(d - NamesOf(l.sealed[..j]), l.(sealed := l.sealed[j..]))
  {
    hide NamesOk, NamesOf, IsFileOf;
    var kept, d' := l.sealed[j..], d - NamesOf(l.sealed[..j]);
    forall i | 0 <= i < |kept|
      ensures FileOf(kept[i]) in d' && d'[FileOf(kept[i])] == kept[i].recs
    {
      assert kept[i] == l.sealed[j + i];
      GoneFromNames(l, j, j + i);
    }
    forall n | n in d'
      ensures IsFileOf(n, l.(sealed := kept))
    {
      KeptFile(n, l, j);
    }
    TailNotSealed(l, j);
  }

  lemma TailNotSealed(l: Layout, j: nat)
    requires j <= |l.sealed|
    ensures forall start: nat :: Active(start) !in NamesOf(l.sealed[..j])
  {
  }

  lemma OldestRemovedKeepsLayout(w: Wal, j: nat)
    requires w.Valid() && j <= |w.layout.sealed|
    ensures WithoutOldest(w, j).Valid()
    ensures w.Log() == Flatten(w.layout.sealed[..j]) + WithoutOldest(w, j).Log()
  {
    hide Holds, Linked, Flatten, Within, Positive;
    SuffixOfSegments(w.layout.sealed, j);
    RemovalHolds(w.files, w.layout, j);
    var kept := w.layout.sealed[j..];
    assert forall i | 0 <= i < |kept| :: kept[i] == w.layout.sealed[j + i];
  }

  lemma OldestAreBelow(w: Wal, u: nat, j: nat)
    requires w.Valid() && j <= Below(w.layout.sealed, u)
    ensures DropsOnlyUpTo(w.Log(), |Flatten(w.layout.sealed[..j])|, u)
    ensures WithoutOldest(w, j).Log() == w.Log()[|Flatten(w.layout.sealed[..j])|..]
  {
    hide Holds, Linked, Positive;
    OldestRemovedKeepsLayout(w, j);
    var gone := w.layout.sealed[..j];
    FlattenWithin(gone, u);
  }

  /** Every directory that a truncation passes through while it removes segments has a gap-free
      layout and still holds every record above `u`. */
  lemma RemovalIsCrashSafe(w: Wal, u: nat, j: nat)
    requires w.Valid() && j <= Below(w.layout.sealed, u)
    ensures exists k: nat :: DropsOnlyUpTo(w.Log(), k, u) && RecoversTo(WithoutOldest(w, j).files, w.Log()[k..])
  {
    OldestRemovedKeepsLayout(w, j);
    OldestAreBelow(w, u, j);
    var k := |Flatten(w.layout.sealed[..j])|;
    assert RecoversTo(WithoutOldest(w, j).files, w.Log()[k..]);
  }

  /** When the active file goes, every sealed file has gone already. */
  lemma TailBelowAll(l: Layout, u: nat)
    requires l.active.Some? && NamesOk(l) && TailIsBelow(l.active.value, u)
    ensures Below(l.sealed, u) == |l.sealed|
  {
    var k := Below(l.sealed, u);
    if k < |l.sealed| {
      SealedBelowTail(l, k);
    }
  }

  lemma EmptiedLogWasBelowIff(w: Wal, u: nat)
    requires w.Valid() && TailIsBelow(w.Tail(), u)
    ensures DropsOnlyUpTo(w.Log(), |w.Log()|, u) <==> SafeToEmpty(w.Tail(), u)
  {
    hide Holds, Linked, Positive;
    TailBelowAll(w.layout, u);
    FlattenWithin(w.layout.sealed, u);
    var flat, recs := Flatten(w.layout.sealed), w.Tail().recs;
    assert forall i | 0 <= i < |recs| :: w.Log()[|flat| + i] == recs[i];
  }

  lemma OnlyTailLeft(w: Wal)
    requires w.Valid()
    ensures WithoutOldest(w, |w.layout.sealed|).files == map[Active(w.Tail().start) := w.Tail().recs]
  {
    var w' := WithoutOldest(w, |w.layout.sealed|);
    OldestRemovedKeepsLayout(w, |w.layout.sealed|);
    forall n | n in w'.files
      ensures n == Active(w.Tail().start)
    {
      assert IsFileOf(n, w'.layout);
    }
  }

  function Dropped(w: Wal, u: nat): nat
    requires w.layout.active.Some?
  {
    if TailIsBelow(w.Tail(), u) then |w.Log()| else |Flatten(w.layout.sealed[..Below(w.layout.sealed, u)])|
  }

  /** Truncation leaves a well-formed log whose records are a suffix. It loses nothing above `u` exactly when the
      active file, if its last record lies at or below `u`, holds none above. */
  lemma TruncationKeepsAboveIff(w: Wal, u: nat)
    requires w.Valid()
    ensures Truncated(w, u).Valid() && Dropped(w, u) <= |w.Log()|
    ensures Truncated(w, u).Log() == w.Log()[Dropped(w, u)..]
    ensures DropsOnlyUpTo(w.Log(), Dropped(w, u), u) <==> SafeToEmpty(w.Tail(), u)
  {
    hide Holds, WellFormed;
    if TailIsBelow(w.Tail(), u) {
      EmptiedLogWasBelowIff(w, u);
      EmptyingSummary(w, u);
    } else {
      OldestRemovedKeepsLayout(w, Below(w.layout.sealed, u));
      OldestAreBelow(w, u, Below(w.layout.sealed, u));
    }
  }

  /** Emptying the log passes through an empty directory and ends with a fresh active file. */
  lemma EmptyingSummary(w: Wal, u: nat)
    requires w.Valid() && TailIsBelow(w.Tail(), u)
    ensures Below(w.layout.sealed, u) == |w.layout.sealed|
    ensures WithoutOldest(w, |w.layout.sealed|).files - {Active(w.Tail().start)} == map[]
    ensures Truncated(w, u) == Fresh(u + 1) && Fresh(u + 1).Valid() && Fresh(u + 1).Log() == []
    ensures w.Log()[|w.Log()|..] == [] && RecoversTo(map[], []) && RecoversTo(Fresh(u + 1).files, [])
  {
    hide NamesOk, ContentsOk, Holds, RecoversTo, Records, NamesOf, Below;
    TailBelowAll(w.layout, u);
    OnlyTailLeft(w);
    FreshIsValid(u + 1);
    EmptyDirRecovers();
    FreshRecovers(u + 1);
  }

  lemma FreshRecovers(start: nat)
    requires start > 0
    ensures RecoversTo(Fresh(start).files, [])
  {
    FreshIsValid(start);
  }

  lemma EmptyDirRecovers()
    ensures RecoversTo(map[], [])
  {
    var l := Layout([], None);
    assert Holds(map[], l) && NamesOk(l) && Records(l) == [];
  }

  /** `r` lies in a sealed file named past `u`, or in an active file whose name or last record lies past `u`. */
  ghost predicate SharesSegmentWithLater(l: Layout, r: Record, u: nat) {
    || (exists i :: 0 <= i < |l.sealed| && r in l.sealed[i].recs && l.sealed[i].hi > u)
    || (l.active.Some? && r in l.active.value.recs && (l.active.value.start > u || LastIndex(l.active.value.recs) > u))
  }

  lemma KeptSegments(sealed: seq<Segment>, u: nat, i: nat)
    requires Linked(sealed) && forall k | 0 <= k < |sealed| :: sealed[k].lo <= sealed[k].hi
    requires i < |sealed|
    ensures Below(sealed, u) <= i <==> sealed[i].hi > u
  {
    var j := Below(sealed, u);
    if j < i {
      SegmentsAscend(sealed, j, i);
    }
  }

  /** A record survives truncation exactly when a file that holds it is kept: a sealed one named past `u`, or the
      active one if its last record or its name lies above `u`. In particular the record at `u` is lost whenever
      it is the last of its file. */
  lemma TruncationSurvivors(w: Wal, u: nat, r: Record)
    requires w.Valid()
    ensures r in Truncated(w, u).Log() <==> SharesSegmentWithLater(w.layout, r, u)
  {
    hide Holds, Linked, Flatten, NamesOf, ContentsOk;
    var sealed := w.layout.sealed;
    SurvivingSegments(sealed, u, r);
    if TailIsBelow(w.Tail(), u) {
      TailBelowAll(w.layout, u);
      FlattenMember(sealed[|sealed|..], r);
    }
  }

  lemma SurvivingSegments(sealed: seq<Segment>, u: nat, r: Record)
    requires Linked(sealed) && forall k | 0 <= k < |sealed| :: sealed[k].lo <= sealed[k].hi
    ensures r in Flatten(sealed[Below(sealed, u)..]) <==>
            exists i :: 0 <= i < |sealed| && r in sealed[i].recs && sealed[i].hi > u
  {
    hide Linked, Flatten;
    var j := Below(sealed, u);
    var kept := sealed[j..];
    FlattenMember(kept, r);
    forall i | 0 <= i < |sealed|
      ensures j <= i <==> sealed[i].hi > u
      ensures j <= i ==> kept[i - j] == sealed[i]
    {
      KeptSegments(sealed, u, i);
    }
  }

  /** After a truncation at `u` that empties the log, any entry is taken and recovered; but the name of its file
      covers it exactly when it lies above `u`. */
  lemma AppendAfterEmptyingIff(w: Wal, u: nat, r: Record, segmentSize: nat)
    requires w.Valid() && segmentSize > 0 && TailIsBelow(w.Tail(), u) && r.index > 0
    ensures Truncated(w, u).Valid() && Truncated(w, u).Writable() && Appended(Truncated(w, u), r, segmentSize).Valid()
    ensures Appended(Truncated(w, u), r, segmentSize).Log() == [r] && Appended(Truncated(w, u), r, segmentSize).layout.sealed == []
    ensures Appended(Truncated(w, u), r, segmentSize).Tail().start <= r.index <==> r.index > u
  {
    hide Holds, WellFormed;
    EmptyingSummary(w, u);
    AppendKeepsLayoutIff(Fresh(u + 1), r, segmentSize);
  }

  // ---------------------------------------------------------------- restart

  function WithoutTemps(d: Dir): Dir {
    map n | n in d && !n.Temp? :: d[n]
  }

  /** Opening a directory that holds layout `l`: temporaries go, and a missing active file is created
      after the last sealed one. */
  function Reopened(d: Dir, l: Layout): Wal {
    match l.active
    case Some(t) => Wal(WithoutTemps(d), l, LastIndex(t.recs) + 1)
    case None =>
      var next := if l.sealed == [] then 1 else l.sealed[|l.sealed| - 1].hi + 1;
      Wal(WithoutTemps(d)[Active(next) := []], l.(active := Some(Tail(next, []))), next)
  }

  /** The next index after opening: with an active file one past its last record, 1 if it holds none, whatever its name
      is; without one, the start of the file that is created, right after the last sealed name. */
  lemma ReopenedNext(d: Dir, l: Layout, other: nat)
    ensures l.active.Some? ==>
              var t := l.active.value;
              && Reopened(d, l).next == (if t.recs == [] then 1 else t.recs[|t.recs| - 1].index + 1)
              && Reopened(d, l).next == Reopened(d, l.(active := Some(t.(start := other)))).next
              && Reopened(d, l).Tail() == t
    ensures l.active.None? ==>
              var start := if l.sealed == [] then 1 else l.sealed[|l.sealed| - 1].hi + 1;
              Reopened(d, l).next == start && Reopened(d, l).layout.active == Some(Tail(start, []))
  {
  }

  /** Whatever the files hold: if the names describe a layout, the reopened log holds exactly its records, and it is
      well formed exactly when no sealed file holds an index above its name. */
  lemma ReopenKeepsLog(d: Dir, l: Layout)
    requires NamesOk(l) && Holds(d, l)
    ensures Reopened(d, l).Intact() && Reopened(d, l).Log() == Records(l)
    ensures Reopened(d, l).Valid() <==> ContentsOk(l)
  {
    hide Linked, Within, Flatten, HasNoOthers, HasFiles;
    ReopenHolds(d, l);
  }

  lemma ReopenHolds(d: Dir, l: Layout)
    requires Holds(d, l)
    ensures Holds(Reopened(d, l).files, Reopened(d, l).layout) && forall n | n in Reopened(d, l).files :: !n.Temp?
  {
    var w := Reopened(d, l);
    assert HasFiles(w.files, w.layout) by { hide IsFileOf; }
    forall n | n in w.files
      ensures IsFileOf(n, w.layout)
    {
      if n in d {
        assert IsFileOf(n, l);
      }
    }
  }
}
