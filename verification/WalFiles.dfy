/** The segmented log as the program keeps it: a directory that changes one file-system step at a time
    and an object that remembers the layout. The directory records every state it passes through, so
    each method also says what a restart would find had the process stopped anywhere inside it. */
module WalFiles {
  import opened History
  import opened Segments
  import opened WalSteps

  /** A directory with atomic create, rename, remove and whole-record append. */
  class Disk {
    var files: Dir
    ghost var trace: seq<Dir>

    constructor (files: Dir)
      ensures this.files == files && trace == []
    {
      this.files, trace := files, [];
    }

    /** Opening with the create flag keeps an existing file. */
    method Create(n: Name)
      modifies this
      ensures files == (if n in old(files) then old(files) else old(files)[n := []])
      ensures trace == old(trace) + [files]
    {
      if n !in files {
        files := files[n := []];
      }
      trace := trace + [files];
    }

    method Rename(from: Name, to: Name)
      requires from in files
      modifies this
      ensures files == (old(files) - {from})[to := old(files)[from]]
      ensures trace == old(trace) + [files]
    {
      files := (files - {from})[to := files[from]];
      trace := trace + [files];
    }

    method Remove(n: Name)
      modifies this
      ensures files == old(files) - {n}
      ensures trace == old(trace) + [files]
    {
      files := files - {n};
      trace := trace + [files];
    }

    method Write(n: Name, r: Record)
      requires n in files
      modifies this
      ensures files == old(files)[n := old(files)[n] + [r]]
      ensures trace == old(trace) + [files]
    {
      files := files[n := files[n] + [r]];
      trace := trace + [files];
    }
  }

  datatype Span = Span(lo: nat, hi: nat)

  function SpansOf(sealed: seq<Segment>): seq<Span> {
    seq(|sealed|, i requires 0 <= i < |sealed| => Span(sealed[i].lo, sealed[i].hi))
  }

  /** The log after a batch: entry by entry, with a rotation wherever the active file is full. */
  function AppendAll(w: Wal, b: seq<Record>, segmentSize: nat): Wal
    requires w.Writable()
    decreases |b|
  {
    if b == [] then w
    else
      AppendedIsWritable(w, b[0], segmentSize);
      AppendAll(Appended(w, b[0], segmentSize), b[1..], segmentSize)
  }

  /** Whenever an entry of the batch finds the active file full, the file can be sealed. */
  predicate SealsWell(w: Wal, b: seq<Record>, segmentSize: nat)
    requires w.Writable()
    decreases |b|
  {
    if b == [] then true
    else
      AppendedIsWritable(w, b[0], segmentSize);
      Ready(w, segmentSize) && SealsWell(Appended(w, b[0], segmentSize), b[1..], segmentSize)
  }

  /** No entry of the batch makes the log seal a file over a remembered one. */
  ghost predicate SparesFiles(w: Wal, b: seq<Record>, segmentSize: nat)
    requires w.Writable()
    decreases |b|
  {
    if b == [] then true
    else
      AppendedIsWritable(w, b[0], segmentSize);
      !(IsFull(w, segmentSize) && SealsOver(w)) && SparesFiles(Appended(w, b[0], segmentSize), b[1..], segmentSize)
  }

  lemma {:induction false} AppendAllExtends(w: Wal, b: seq<Record>, segmentSize: nat)
    requires w.Writable()
    ensures AppendAll(w, b, segmentSize).Writable() && AppendAll(w, b, segmentSize).Log() == w.Log() + b
    decreases |b|
  {
    hide Records, Appended, Wal.Writable;
    if b != [] {
      AppendedIsWritable(w, b[0], segmentSize);
      AppendAllExtends(Appended(w, b[0], segmentSize), b[1..], segmentSize);
      assert w.Log() + b == (w.Log() + [b[0]]) + b[1..];
    }
  }

  /** Two remembered files with one name and different contents. */
  ghost predicate Doubled(l: Layout) {
    exists i, j :: 0 <= i < j < |l.sealed| && FileOf(l.sealed[i]) == FileOf(l.sealed[j]) && l.sealed[i].recs != l.sealed[j].recs
  }

  lemma DoubledStays(w: Wal, r: Record, segmentSize: nat)
    requires w.Writable()
    ensures Doubled(w.layout) ==> Doubled(Appended(w, r, segmentSize).layout) && !w.Intact()
    ensures IsFull(w, segmentSize) && SealsOver(w) ==> Doubled(Appended(w, r, segmentSize).layout)
  {
    var s, s', n := w.layout.sealed, Appended(w, r, segmentSize).layout.sealed, |w.layout.sealed|;
    assert forall i | 0 <= i < n :: s'[i] == s[i];
    hide RotationDirs;
    if IsFull(w, segmentSize) && SealsOver(w) {
      var i :| 0 <= i < n && FileOf(s[i]) == Sealed(w.Tail().start, w.next - 1) && s[i].recs != w.Tail().recs;
      assert FileOf(s'[i]) == FileOf(s'[n]) && s'[i].recs != s'[n].recs;
    }
    if Doubled(w.layout) {
      var i, j :| 0 <= i < j < n && FileOf(s[i]) == FileOf(s[j]) && s[i].recs != s[j].recs;
      assert FileOf(s'[i]) == FileOf(s'[j]) && s'[i].recs != s'[j].recs;
    }
  }

  lemma {:induction false} DoubledForGood(w: Wal, b: seq<Record>, segmentSize: nat)
    requires w.Writable() && Doubled(w.layout)
    ensures !AppendAll(w, b, segmentSize).Intact()
    decreases |b|
  {
    hide Appended, Doubled, Wal.Intact;
    DoubledStays(w, Record(1, Other, 0), segmentSize);
    if b != [] {
      AppendedIsWritable(w, b[0], segmentSize);
      DoubledStays(w, b[0], segmentSize);
      DoubledForGood(Appended(w, b[0], segmentSize), b[1..], segmentSize);
    }
  }

  /** For any batch: if the files held what the log remembered, then they hold that and the batch, exactly unless some
      full file was sealed over a remembered one. */
  lemma {:induction false} AppendAllKeepsFilesIff(w: Wal, b: seq<Record>, segmentSize: nat)
    requires w.Intact()
    ensures w.Writable() && AppendAll(w, b, segmentSize).Log() == w.Log() + b
    ensures AppendAll(w, b, segmentSize).Intact() <==> SparesFiles(w, b, segmentSize)
    decreases |b|
  {
    ValidIsWritable(w);
    AppendAllExtends(w, b, segmentSize);
    hide Appended, Doubled, Wal.Intact, Wal.Writable, SealsOver, Records, IsFull;
    if b != [] {
      AppendedIsWritable(w, b[0], segmentSize);
      AppendKeepsFilesIff(w, b[0], segmentSize);
      if IsFull(w, segmentSize) && SealsOver(w) {
        DoubledStays(w, b[0], segmentSize);
        DoubledForGood(Appended(w, b[0], segmentSize), b[1..], segmentSize);
      } else {
        AppendAllKeepsFilesIff(Appended(w, b[0], segmentSize), b[1..], segmentSize);
      }
    }
  }

  /** A file name or a record that no well-formed log has. */
  ghost predicate Broken(l: Layout) {
    || (exists i :: 0 <= i < |l.sealed| && (l.sealed[i].lo > l.sealed[i].hi || !Within(l.sealed[i].recs, l.sealed[i].hi)))
    || !Positive(TailRecords(l))
  }

  lemma BrokenIsInvalid(w: Wal)
    requires Broken(w.layout)
    ensures !w.Valid()
  {
  }

  lemma BrokenStays(w: Wal, r: Record, segmentSize: nat)
    requires w.Writable()
    ensures Broken(w.layout) ==> Broken(Appended(w, r, segmentSize).layout)
    ensures w.Valid() && !Appended(w, r, segmentSize).Valid() ==> Broken(Appended(w, r, segmentSize).layout)
  {
    var w' := Appended(w, r, segmentSize);
    var s, s', n := w.layout.sealed, w'.layout.sealed, |w.layout.sealed|;
    assert forall i | 0 <= i < n :: s'[i] == s[i];
    if IsFull(w, segmentSize) {
      assert s'[n] == Segment(w.Tail().start, w.next - 1, w.Tail().recs);
    }
    PositiveNext(w.Tail().recs, r);
    PositiveNext([], r);
    if w.Valid() && !w'.Valid() {
      AppendKeepsLayoutIff(w, r, segmentSize);
      if r.index > 0 {
        SealIsBroken(w.Tail(), w.next);
      }
    }
    hide Holds, NamesOk, ContentsOk, RotationDirs;
  }

  lemma SealIsBroken(t: Tail, next: nat)
    requires next > 0 && !CanSeal(t, next)
    ensures t.start > next - 1 || !Within(t.recs, next - 1)
  {
    if t.start < next {
      var i :| 0 <= i < |t.recs| && t.recs[i].index >= next;
      assert !(t.recs[i].index <= next - 1);
    }
  }

  lemma {:induction false} BrokenForGood(w: Wal, b: seq<Record>, segmentSize: nat)
    requires w.Writable() && Broken(w.layout)
    ensures !AppendAll(w, b, segmentSize).Valid()
    decreases |b|
  {
    hide Appended, Broken, Wal.Valid;
    BrokenIsInvalid(w);
    if b != [] {
      AppendedIsWritable(w, b[0], segmentSize);
      BrokenStays(w, b[0], segmentSize);
      BrokenForGood(Appended(w, b[0], segmentSize), b[1..], segmentSize);
    }
  }

  /** A batch leaves a well-formed log exactly when its indices are positive and every full file it meets can be
      sealed; the order of its entries does not matter. */
  lemma {:induction false} AppendAllKeepsLayoutIff(w: Wal, b: seq<Record>, segmentSize: nat)
    requires w.Valid()
    ensures w.Writable() && AppendAll(w, b, segmentSize).Log() == w.Log() + b
    ensures AppendAll(w, b, segmentSize).Valid() <==> Positive(b) && SealsWell(w, b, segmentSize)
    decreases |b|
  {
    ValidIsWritable(w);
    AppendAllExtends(w, b, segmentSize);
    hide Appended, Broken, Wal.Valid, Wal.Intact, Wal.Writable, Records, Ready;
    if b != [] {
      var w' := Appended(w, b[0], segmentSize);
      AppendedIsWritable(w, b[0], segmentSize);
      AppendKeepsLayoutIff(w, b[0], segmentSize);
      assert Positive(b) <==> b[0].index > 0 && Positive(b[1..]) by { assert b == [b[0]] + b[1..]; }
      if w'.Valid() {
        AppendAllKeepsLayoutIff(w', b[1..], segmentSize);
      } else {
        BrokenStays(w, b[0], segmentSize);
        BrokenForGood(w', b[1..], segmentSize);
      }
    }
  }

  /** No record of the active file has reached the next index. */
  predicate IsAhead(w: Wal)
    requires w.layout.active.Some?
  {
    forall i | 0 <= i < |w.Tail().recs| :: w.Tail().recs[i].index < w.next
  }

  /** A batch in order that starts at or above the next index seals well if the file name has been passed already or
      its first entry reaches it. */
  lemma {:induction false} TruthfulNameSealsWell(w: Wal, b: seq<Record>, segmentSize: nat)
    requires w.Writable() && segmentSize > 0 && IsAhead(w) && Increasing(b) && (b != [] ==> b[0].index >= w.next)
    requires w.Tail().start < w.next || (w.Tail().recs == [] && b != [] && w.Tail().start <= b[0].index)
    ensures SealsWell(w, b, segmentSize)
    decreases |b|
  {
    hide RotationDirs;
    if b != [] {
      var w' := Appended(w, b[0], segmentSize);
      AppendedIsWritable(w, b[0], segmentSize);
      assert w.Tail().recs == [] ==> Size(w.Tail().recs) == 0;
      assert |b| > 1 ==> b[1..][0] == b[1];
      TruthfulNameSealsWell(w', b[1..], segmentSize);
    }
  }

  /** Every directory in `trace` from position `from` on recovers to `log` followed by a prefix of `b`. */
  ghost predicate RecoverPrefixes(trace: seq<Dir>, from: nat, log: seq<Record>, b: seq<Record>) {
    forall i | from <= i < |trace| :: exists k :: 0 <= k <= |b| && RecoversTo(trace[i], log + b[..k])
  }

  /** Every directory in `trace` from position `from` on recovers to a suffix of `log` with all above `u`. */
  ghost predicate RecoverAbove(trace: seq<Dir>, from: nat, log: seq<Record>, u: nat) {
    forall i | from <= i < |trace| ::
      exists k: nat :: DropsOnlyUpTo(log, k, u) && RecoversTo(trace[i], log[k..])
  }

  lemma PrefixesExtend(before: seq<Dir>, after: seq<Dir>, base: nat, log: seq<Record>, b: seq<Record>, i: nat)
    requires i < |b| && base <= |before| && before <= after
    requires RecoverPrefixes(before, base, log, b)
    requires RecoverPrefixes(after, |before|, log + b[..i], [b[i]])
    ensures RecoverPrefixes(after, base, log, b)
  {
    hide RecoversTo;
    forall j | base <= j < |after|
      ensures exists k :: 0 <= k <= |b| && RecoversTo(after[j], log + b[..k])
    {
      if j < |before| {
        assert after[j] == before[j];
      } else {
        var k :| 0 <= k <= 1 && RecoversTo(after[j], log + b[..i] + [b[i]][..k]);
        assert log + b[..i] + [b[i]][..k] == log + b[..i + k];
      }
    }
  }

  lemma OneMoreStep(start: seq<Dir>, before: seq<Dir>, after: seq<Dir>, log: seq<Record>, r: Record)
    requires |start| <= |before| && |after| == |before| + 1 && before <= after
    requires forall i | |start| <= i < |before| :: RecoversTo(before[i], log)
    requires RecoversTo(after[|before|], log + [r])
    ensures RecoverPrefixes(after, |start|, log, [r])
  {
    hide RecoversTo;
    assert log + [r][..0] == log && [r][..1] == [r];
    forall i | |start| <= i < |after|
      ensures exists k :: 0 <= k <= |[r]| && RecoversTo(after[i], log + [r][..k])
    {
      if i < |before| {
        assert RecoversTo(after[i], log + [r][..0]);
      } else {
        assert RecoversTo(after[i], log + [r][..1]);
      }
    }
  }

  lemma NoSteps(trace: seq<Dir>, log: seq<Record>, b: seq<Record>)
    ensures RecoverPrefixes(trace, |trace|, log, b)
  {
  }

  lemma SizeOfNext(recs: seq<Record>, r: Record)
    ensures Size(recs + [r]) == Size(recs) + r.size
  {
    assert (recs + [r])[..|recs|] == recs;
  }

  lemma NamesOfNext(sealed: seq<Segment>, i: nat)
    requires i < |sealed|
    ensures NamesOf(sealed[..i + 1]) == NamesOf(sealed[..i]) + {FileOf(sealed[i])}
  {
    var a, b := sealed[..i], sealed[..i + 1];
    assert b == a + [sealed[i]];
    assert FileOf(b[i]) in NamesOf(b);
    forall n | n in NamesOf(a)
      ensures n in NamesOf(b)
    {
      var k :| 0 <= k < |a| && n == FileOf(a[k]);
      assert n == FileOf(b[k]);
    }
  }

  lemma RemovedFirst(w: Wal, u: nat, i: nat)
    requires w.Valid() && i < |w.layout.sealed|
    ensures i < Below(w.layout.sealed, u) <==> w.layout.sealed[i].hi <= u
  {
    KeptSegments(w.layout.sealed, u, i);
  }

  lemma AboveStarts(trace: seq<Dir>, log: seq<Record>, u: nat)
    ensures RecoverAbove(trace, |trace|, log, u)
  {
  }

  lemma AboveExtends(before: seq<Dir>, after: seq<Dir>, base: nat, log: seq<Record>, u: nat)
    requires base <= |before| && |after| == |before| + 1 && before <= after
    requires RecoverAbove(before, base, log, u)
    requires exists k: nat :: DropsOnlyUpTo(log, k, u) && RecoversTo(after[|before|], log[k..])
    ensures RecoverAbove(after, base, log, u)
  {
    hide RecoversTo;
    forall i | base <= i < |after|
      ensures exists k: nat :: DropsOnlyUpTo(log, k, u) && RecoversTo(after[i], log[k..])
    {
      if i < |before| {
        assert after[i] == before[i];
      }
    }
  }

  lemma SpansOfSuffix(sealed: seq<Segment>, k: nat)
    requires k <= |sealed|
    ensures SpansOf(sealed)[k..] == SpansOf(sealed[k..])
  {
  }

  lemma SpansOfNext(sealed: seq<Segment>, s: Segment)
    ensures SpansOf(sealed + [s]) == SpansOf(sealed) + [Span(s.lo, s.hi)]
  {
  }

  lemma NoNames(sealed: seq<Segment>)
    ensures NamesOf(sealed[..0]) == {}
  {
  }

  lemma TailIsOnDisk(w: Wal)
    requires w.Valid()
    ensures Active(w.Tail().start) in w.files && w.files[Active(w.Tail().start)] == w.Tail().recs
  {
  }

  lemma TruncatedCases(w: Wal, u: nat)
    requires w.Valid()
    ensures var w' := WithoutOldest(w, Below(w.layout.sealed, u));
            && w'.Valid() && w'.layout.active == w.layout.active
            && (!TailIsBelow(w.Tail(), u) ==> Truncated(w, u) == w')
            && (TailIsBelow(w.Tail(), u) ==> Truncated(w, u) == Fresh(u + 1) && w'.files - {Active(w.Tail().start)} == map[])
  {
    hide Holds, WellFormed;
    OldestRemovedKeepsLayout(w, Below(w.layout.sealed, u));
    if TailIsBelow(w.Tail(), u) {
      EmptyingSummary(w, u);
    }
  }

  lemma AboveEmptied(w: Wal, u: nat, before: seq<Dir>, after: seq<Dir>, base: nat)
    requires w.Valid() && TailIsBelow(w.Tail(), u) && SafeToEmpty(w.Tail(), u)
    requires base <= |before| && RecoverAbove(before, base, w.Log(), u)
    requires after == before + [map[], Fresh(u + 1).files]
    ensures RecoverAbove(after, base, w.Log(), u)
  {
    hide Holds, WellFormed, RecoversTo, Records, Fresh, DropsOnlyUpTo, RecoverAbove;
    EmptyingSummary(w, u);
    EmptiedLogWasBelowIff(w, u);
    var log := w.Log();
    assert RecoversTo(map[], log[|log|..]) && RecoversTo(Fresh(u + 1).files, log[|log|..]);
    AboveExtends(before, before + [map[]], base, log, u);
    AboveExtends(before + [map[]], after, base, log, u);
  }

  class SegmentedWal {
    const disk: Disk
    const segmentSize: nat
    var sealed: seq<Span>
    var active: nat
    var size: nat
    var nextIndex: nat
    ghost var layout: Layout

    ghost function Model(): Wal
      reads this, disk
    {
      Wal(disk.files, layout, nextIndex)
    }

    ghost predicate Valid()
      reads this, disk
    {
      && segmentSize > 0
      && Model().Valid()
      && sealed == SpansOf(layout.sealed)
      && active == Model().Tail().start
      && size == Size(Model().Tail().recs)
    }

    constructor (disk: Disk, segmentSize: nat, sealed: seq<Span>, active: nat, size: nat, nextIndex: nat, ghost layout: Layout)
      ensures this.disk == disk && this.segmentSize == segmentSize && this.sealed == sealed && this.active == active
      ensures this.size == size && this.nextIndex == nextIndex && this.layout == layout
    {
      this.disk, this.segmentSize, this.sealed, this.active := disk, segmentSize, sealed, active;
      this.size, this.nextIndex, this.layout := size, nextIndex, layout;
    }

    /** All that writing needs. */
    ghost predicate Writable()
      reads this, disk
    {
      && segmentSize > 0
      && Model().Writable()
      && sealed == SpansOf(layout.sealed)
      && active == Model().Tail().start
      && size == Size(Model().Tail().recs)
    }

    /** The files hold what the log remembers. */
    ghost predicate Intact()
      reads this, disk
    {
      Writable() && Model().Intact()
    }

    /** What the files hold, read in the order of their names. */
    ghost function OnDisk(): (recs: seq<Record>)
      requires Intact()
      reads this, disk
      ensures recs == Model().Log()
    {
      FilesInOrder(Model());
      ReadFiles(disk.files, NamesInOrder(layout))
    }

    /** Header-only scan of the active file. */
    method ScanLastIndex() returns (last: nat)
      requires Active(active) in disk.files
      ensures last == LastIndex(disk.files[Active(active)])
    {
      var recs := disk.files[Active(active)];
      last := 0;
      for i := 0 to |recs|
        invariant last == LastIndex(recs[..i])
      {
        last := recs[i].index;
      }
      assert recs[..|recs|] == recs;
    }

    /** The file-system steps of a rotation, in the order in which they happen. */
    method RotateFiles(last: nat)
      requires Active(active) in disk.files && Temp(last + 1) !in disk.files
      modifies disk
      ensures disk.files == RotationDirs(old(disk.files), active, last + 1)[2]
      ensures disk.trace == old(disk.trace) + RotationDirs(old(disk.files), active, last + 1)
    {
      disk.Create(Temp(last + 1));
      disk.Rename(Active(active), Sealed(active, last));
      disk.Rename(Temp(last + 1), Active(last + 1));
    }

    /** Seals the active file and starts a new one. The rename may replace a file; it spares those the log remembers
        exactly unless the new name is theirs. If the new name has a range that is not empty, stopping after any
        step loses nothing. */
    method Rotate()
      requires Writable()
      modifies this, disk
      ensures Writable() && Model() == Rotated(old(Model())) && Model().Log() == old(Model().Log())
      ensures old(Intact()) && Intact() ==> OnDisk() == old(OnDisk())
      ensures disk.trace == old(disk.trace) + RotationDirs(old(disk.files), old(active), old(nextIndex))
      ensures old(Intact()) ==> (Intact() <==> !SealsOver(old(Model())))
      ensures old(Valid()) ==> (Valid() <==> CanSeal(old(Model().Tail()), old(nextIndex)))
      ensures old(Valid()) && old(active) < old(nextIndex) ==>
                forall i | |old(disk.trace)| <= i < |disk.trace| :: RecoversTo(disk.trace[i], old(Model().Log()))
    {
      hide NamesOk, ContentsOk, Holds, HasFiles, RotationDirs, RecoversTo, Records, SealsOver, CanSeal, SpansOf;
      ghost var w := Model();
      RotatedIsWritable(w);
      SpansOfNext(w.layout.sealed, Segment(active, nextIndex - 1, w.Tail().recs));
      if Intact() {
        RotationKeepsFilesIff(w);
      }
      if Valid() {
        RotationIsSoundIff(w);
        if active < nextIndex {
          RotationSummary(w);
        }
      }
      ghost var dirs := RotationDirs(w.files, active, nextIndex);
      var last := nextIndex - 1;
      RotateFiles(last);
      sealed, active, size := sealed + [Span(active, last)], nextIndex, 0;
      layout := RotationLayout(w, 2);
      assert Model() == Rotated(w);
      assert forall i | |old(disk.trace)| <= i < |disk.trace| :: disk.trace[i] == dirs[i - |old(disk.trace)|];
    }

    method WriteOne(r: Record)
      requires Writable()
      modifies this, disk
      ensures Writable() && Model() == Written(old(Model()), r) && disk.trace == old(disk.trace) + [disk.files]
      ensures old(Valid()) && r.index > 0 ==> Valid() && RecoversTo(disk.files, old(Model().Log()) + [r])
    {
      hide WellFormed, Holds, RecoversTo, Records;
      ghost var w := Model();
      WrittenIsWritable(w, r);
      SizeOfNext(w.Tail().recs, r);
      if Valid() && r.index > 0 {
        WriteSummary(w, r);
      }
      disk.Write(Active(active), r);
      size := size + r.size;
      if r.index + 1 > nextIndex {
        nextIndex := r.index + 1;
      }
      layout := Written(w, r).layout;
    }

    /** Writes one entry, after a rotation if the active file is full. */
    method AppendOne(r: Record)
      requires Writable()
      modifies this, disk
      ensures Writable() && Model() == Appended(old(Model()), r, segmentSize)
      ensures Model().Log() == old(Model().Log()) + [r] && old(disk.trace) <= disk.trace
      ensures old(Intact()) ==> (Intact() <==> !(IsFull(old(Model()), segmentSize) && SealsOver(old(Model()))))
      ensures old(Intact()) && Intact() ==> OnDisk() == old(OnDisk()) + [r]
      ensures old(Valid()) ==> (Valid() <==> r.index > 0 && Ready(old(Model()), segmentSize))
      ensures old(Valid()) && Valid() ==> RecoverPrefixes(disk.trace, |old(disk.trace)|, old(Model().Log()), [r])
    {
      hide NamesOk, ContentsOk, Holds, HasFiles, RotationDirs, RecoversTo, Records, Written, Rotated, RecoverPrefixes, SealsOver;
      ghost var w, ok := Model(), Valid();
      AppendedIsWritable(w, r, segmentSize);
      if Intact() {
        AppendKeepsFilesIff(w, r, segmentSize);
      }
      if ok {
        AppendKeepsLayoutIff(w, r, segmentSize);
      }
      if size >= segmentSize {
        Rotate();
      }
      ghost var before := disk.trace;
      WriteOne(r);
      if ok && r.index > 0 && Ready(w, segmentSize) {
        OneMoreStep(old(disk.trace), before, disk.trace, w.Log(), r);
      }
    }

    /** Appends any entries one by one. If the files held what the log remembered, they hold that and the batch exactly
        unless a file was sealed over a remembered one. If every full file can be sealed, stopping anywhere leaves
        the old records and a prefix of the batch. */
    method AppendBatch(batch: seq<Record>)
      requires Writable()
      modifies this, disk
      ensures Writable() && Model() == AppendAll(old(Model()), batch, segmentSize)
      ensures Model().Log() == old(Model().Log()) + batch
      ensures old(Intact()) ==> (Intact() <==> SparesFiles(old(Model()), batch, segmentSize))
      ensures old(Intact()) && Intact() ==> OnDisk() == old(OnDisk()) + batch
      ensures old(Valid()) ==> (Valid() <==> Positive(batch) && SealsWell(old(Model()), batch, segmentSize))
      ensures old(Valid()) && Valid() ==> RecoverPrefixes(disk.trace, |old(disk.trace)|, old(Model().Log()), batch)
    {
      hide NamesOk, ContentsOk, Holds, HasFiles, RecoversTo, Records, Appended, RecoverPrefixes, Ready, SealsOver, SparesFiles, IsFull;
      ghost var w, base := Model(), |disk.trace|;
      ghost var ok := Valid() && Positive(batch) && SealsWell(w, batch, segmentSize);
      if Intact() {
        AppendAllKeepsFilesIff(w, batch, segmentSize);
      }
      if Valid() {
        AppendAllKeepsLayoutIff(w, batch, segmentSize);
      }
      assert batch[0..] == batch;
      NoSteps(disk.trace, w.Log(), batch);
      for i := 0 to |batch|
        invariant Writable() && AppendAll(Model(), batch[i..], segmentSize) == AppendAll(w, batch, segmentSize)
        invariant Model().Log() == w.Log() + batch[..i] && base <= |disk.trace|
        invariant ok ==> Valid() && SealsWell(Model(), batch[i..], segmentSize)
        invariant ok ==> RecoverPrefixes(disk.trace, base, w.Log(), batch)
      {
        ghost var before := disk.trace;
        AppendOne(batch[i]);
        if ok {
          PrefixesExtend(before, disk.trace, base, w.Log(), batch, i);
        }
        assert batch[i..][1..] == batch[i + 1..];
        assert batch[..i + 1] == batch[..i] + [batch[i]];
      }
      assert batch[..|batch|] == batch;
    }

    /** Removes the sealed files that end at or below `u`, oldest first. */
    method RemoveSealed(u: nat)
      requires Valid()
      modifies this, disk
      ensures Valid() && Model() == WithoutOldest(old(Model()), Below(old(layout).sealed, u))
      ensures old(disk.trace) <= disk.trace
      ensures RecoverAbove(disk.trace, |old(disk.trace)|, old(Model().Log()), u)
    {
      hide Holds, WellFormed, RecoversTo, Records, DropsOnlyUpTo, RecoverAbove, NamesOf, Size, Below;
      ghost var w, b := Model(), Below(layout.sealed, u);
      var keep := [];
      ghost var j := 0;
      AboveStarts(disk.trace, w.Log(), u);
      NoNames(layout.sealed);
      for i := 0 to |sealed|
        invariant sealed == SpansOf(w.layout.sealed) && layout == w.layout && nextIndex == w.next
        invariant active == w.Tail().start && size == Size(w.Tail().recs)
        invariant j == (if i < b then i else b) && keep == sealed[j..i]
        invariant disk.files == WithoutOldest(w, j).files
        invariant old(disk.trace) <= disk.trace && RecoverAbove(disk.trace, |old(disk.trace)|, w.Log(), u)
      {
        RemovedFirst(w, u, i);
        if sealed[i].hi <= u {
          NamesOfNext(w.layout.sealed, i);
          ghost var before := disk.trace;
          disk.Remove(Sealed(sealed[i].lo, sealed[i].hi));
          j := j + 1;
          RemovalIsCrashSafe(w, u, j);
          assert disk.files == WithoutOldest(w, j).files;
          AboveExtends(before, disk.trace, |old(disk.trace)|, w.Log(), u);
        } else {
          keep := keep + [sealed[i]];
        }
      }
      sealed := keep;
      layout := WithoutOldest(w, b).layout;
      OldestRemovedKeepsLayout(w, b);
      SpansOfSuffix(w.layout.sealed, b);
    }

    /** Replaces the active file by an empty one that starts after `u`. */
    method ReplaceActive(u: nat)
      requires disk.files - {Active(active)} == map[] && segmentSize > 0
      modifies this, disk
      ensures Model() == Fresh(u + 1) && Valid()
      ensures disk.trace == old(disk.trace) + [map[], Fresh(u + 1).files]
    {
      FreshIsValid(u + 1);
      disk.Remove(Active(active));
      nextIndex := u + 1;
      disk.Create(Active(nextIndex));
      active, size := nextIndex, 0;
      sealed, layout := [], Fresh(u + 1).layout;
    }

    /** Removes whole segments up to `u`. If the active file is emptied only when it holds none above `u`, stopping
        anywhere keeps every record above `u`. */
    method Truncate(u: nat)
      requires Valid()
      modifies this, disk
      ensures Valid() && Model() == Truncated(old(Model()), u)
      ensures forall r :: r in Model().Log() <==> SharesSegmentWithLater(old(layout), r, u)
      ensures SafeToEmpty(old(Model().Tail()), u) ==> RecoverAbove(disk.trace, |old(disk.trace)|, old(Model().Log()), u)
    {
      hide NamesOk, ContentsOk, Holds, Truncated, WithoutOldest, Records, RecoverAbove, Fresh, Below, SharesSegmentWithLater;
      ghost var w := Model();
      RemoveSealed(u);
      ghost var before := disk.trace;
      TruncatedCases(w, u);
      forall r
        ensures r in Truncated(w, u).Log() <==> SharesSegmentWithLater(w.layout, r, u)
      {
        TruncationSurvivors(w, u, r);
      }
      TailIsOnDisk(Model());
      if active <= u {
        var last := ScanLastIndex();
        if last <= u {
          ReplaceActive(u);
          if SafeToEmpty(w.Tail(), u) {
            AboveEmptied(w, u, before, disk.trace, |old(disk.trace)|);
          }
        }
      }
    }

    /** Sealed segments, then the active one. */
    method AllNames() returns (names: seq<Name>)
      requires Writable()
      ensures names == NamesInOrder(layout)
    {
      names := [];
      for i := 0 to |sealed|
        invariant names == NamesInOrder(layout)[..i]
      {
        names := names + [Sealed(sealed[i].lo, sealed[i].hi)];
      }
      names := names + [Active(active)];
    }

    /** The records above the snapshot index, in the order they were written. */
    method Recover(snapshot: nat) returns (out: seq<Record>)
      requires Intact()
      ensures out == From(Model().Log(), snapshot + 1)
    {
      hide HasFiles, Records, Size, NamesInOrder, ReadFiles;
      FilesInOrder(Model());
      var names := AllNames();
      out := [];
      for i := 0 to |names|
        invariant out == From(ReadFiles(disk.files, names[..i]), snapshot + 1)
      {
        var recs := disk.files[names[i]];
        out := ReadAbove(recs, snapshot, out);
        ReadNextFile(disk.files, names, i);
        FromConcat(ReadFiles(disk.files, names[..i]), recs, snapshot + 1);
      }
      assert names[..|names|] == names;
    }
  }

  method ReadAbove(recs: seq<Record>, snapshot: nat, had: seq<Record>) returns (out: seq<Record>)
    ensures out == had + From(recs, snapshot + 1)
  {
    out := had;
    for i := 0 to |recs|
      invariant out == had + From(recs[..i], snapshot + 1)
    {
      assert recs[..i + 1][..i] == recs[..i];
      if recs[i].index > snapshot {
        out := out + [recs[i]];
      }
    }
    assert recs[..|recs|] == recs;
  }

  // ---------------------------------------------------------------- reading

  function NamesInOrder(l: Layout): seq<Name>
    requires l.active.Some?
  {
    seq(|l.sealed|, i requires 0 <= i < |l.sealed| => FileOf(l.sealed[i])) + [Active(l.active.value.start)]
  }

  function ReadFiles(d: Dir, names: seq<Name>): seq<Record>
    requires forall i | 0 <= i < |names| :: names[i] in d
  {
    if names == [] then [] else ReadFiles(d, names[..|names| - 1]) + d[names[|names| - 1]]
  }

  lemma {:induction false} ReadSealedFiles(d: Dir, l: Layout, k: nat)
    requires HasFiles(d, l) && l.active.Some? && k <= |l.sealed|
    ensures forall i | 0 <= i < k :: NamesInOrder(l)[..k][i] in d
    ensures ReadFiles(d, NamesInOrder(l)[..k]) == Flatten(l.sealed[..k])
  {
    if k > 0 {
      ReadSealedFiles(d, l, k - 1);
      assert NamesInOrder(l)[..k][..k - 1] == NamesInOrder(l)[..k - 1];
      assert l.sealed[..k][..k - 1] == l.sealed[..k - 1];
    }
  }

  /** Reading the files in the order of the remembered names gives the records. */
  lemma FilesInOrder(w: Wal)
    requires w.Intact()
    ensures forall i | 0 <= i < |NamesInOrder(w.layout)| :: NamesInOrder(w.layout)[i] in w.files
    ensures ReadFiles(w.files, NamesInOrder(w.layout)) == w.Log()
    ensures ReadFiles(w.files, NamesInOrder(w.layout)[..0]) == []
  {
    var names, n := NamesInOrder(w.layout), |w.layout.sealed|;
    ReadSealedFiles(w.files, w.layout, n);
    assert w.layout.sealed[..n] == w.layout.sealed;
    assert names[..|names| - 1] == names[..n];
  }

  lemma ReadNextFile(d: Dir, names: seq<Name>, i: nat)
    requires i < |names| && forall j | 0 <= j < |names| :: names[j] in d
    ensures ReadFiles(d, names[..i + 1]) == ReadFiles(d, names[..i]) + d[names[i]]
  {
    assert names[..i + 1][..i] == names[..i];
  }
}
