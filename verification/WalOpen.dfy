/** Reopening a log directory from its file names. */
module WalOpen {
  import opened History
  import opened Segments
  import opened WalSteps
  import opened WalFiles

  const DEFAULT_SEGMENT_SIZE: nat := 100 * 1024 * 1024

  /** The files of the directory are those of the layout, and its names leave no gap. */
  ghost predicate IsLayoutOf(d: Dir, l: Layout) {
    NamesOk(l) && Holds(d, l)
  }

  function ParsedNames(d: Dir): set<Parsed> {
    set n | n in d && !n.Temp? :: ParseName(n)
  }

  /** One of the orders in which sorting by start index can leave the parsed names. */
  ghost predicate IsSortedNames(d: Dir, segs: seq<Parsed>) {
    SortedByStart(segs) && Distinct(segs) && forall q :: q in segs <==> q in ParsedNames(d)
  }

  predicate Adjacent(a: Parsed, b: Parsed) {
    a.hi + 1 == b.lo
  }

  ghost predicate Continuous(segs: seq<Parsed>) {
    forall i, j | 0 <= i < j < |segs| && j == i + 1 :: Adjacent(segs[i], segs[j])
  }

  lemma ExpectedNames(d: Dir, l: Layout, q: Parsed)
    requires Holds(d, l)
    ensures q in Expected(l) <==> q in ParsedNames(d)
  {
    var e, n := Expected(l), |l.sealed|;
    if q in e {
      var i :| 0 <= i < |e| && e[i] == q;
      var name := if i < n then FileOf(l.sealed[i]) else Active(l.active.value.start);
      assert name in d && ParseName(name) == q;
    }
    if q in ParsedNames(d) {
      var name :| name in d && !name.Temp? && ParseName(name) == q;
      assert IsFileOf(name, l);
      if name.Sealed? {
        var i :| 0 <= i < n && l.sealed[i].lo == name.lo && l.sealed[i].hi == name.hi;
        assert e[i] == q;
      } else {
        assert e[n] == q;
      }
    }
  }

  lemma SortedNamesAreExpected(d: Dir, l: Layout, segs: seq<Parsed>)
    requires Holds(d, l) && StrictlySorted(Expected(l))
    requires IsSortedNames(d, segs)
    ensures segs == Expected(l)
  {
    forall q
      ensures q in segs <==> q in Expected(l)
    {
      ExpectedNames(d, l, q);
    }
    hide *;
    SortedArrangementIsUnique(segs, Expected(l));
  }

  /** The file names of a directory admit at most one layout, so what a restart finds is determined. */
  lemma LayoutIsUnique(d: Dir, l: Layout, m: Layout)
    requires IsLayoutOf(d, l) && IsLayoutOf(d, m)
    ensures l == m
  {
    hide NamesOk;
    assert Expected(l) == Expected(m) by {
      hide *;
      ExpectedAgree(d, l, m);
    }
    var e, f := Expected(l), Expected(m);
    SealedInExpected(l);
    SealedInExpected(m);
    forall i | 0 <= i < |l.sealed|
      ensures l.sealed[i] == m.sealed[i]
    {
      assert e[i] == f[i];
    }
    assert l.active == m.active by {
      if l.active.Some? {
        assert e[|l.sealed|] == f[|l.sealed|];
      }
    }
  }

  /** How many of the parsed names are sealed segments, when an active one can only come last. */
  function NumSealed(s: seq<Parsed>): nat {
    if s != [] && s[|s| - 1].active then |s| - 1 else |s|
  }

  lemma SealedInExpected(l: Layout)
    ensures NumSealed(Expected(l)) == |l.sealed|
    ensures |Expected(l)| == |l.sealed| + if l.active.Some? then 1 else 0
  {
  }

  lemma ExpectedAgree(d: Dir, l: Layout, m: Layout)
    requires IsLayoutOf(d, l) && IsLayoutOf(d, m)
    ensures Expected(l) == Expected(m)
  {
    ExpectedStrictlySorted(l);
    ExpectedStrictlySorted(m);
    forall q
      ensures q in Expected(l) <==> q in Expected(m)
    {
      ExpectedNames(d, l, q);
      ExpectedNames(d, m, q);
    }
    StrictIsSorted(Expected(l));
    hide *;
    SortedArrangementIsUnique(Expected(l), Expected(m));
  }

  lemma StrictIsSorted(s: seq<Parsed>)
    requires StrictlySorted(s)
    ensures SortedByStart(s) && Distinct(s)
  {
  }

  lemma TempsDoNotMatter(d: Dir, gone: set<Name>, l: Layout)
    requires IsLayoutOf(d, l) && forall n | n in gone :: n.Temp?
    ensures IsLayoutOf(d - gone, l) && RecoversTo(d - gone, Records(l))
  {
    hide NamesOk;
  }

  /** Removes temporaries that an interrupted rotation left behind. */
  method RemoveTemps(disk: Disk)
    modifies disk
    ensures disk.files == WithoutTemps(old(disk.files))
    ensures old(disk.trace) <= disk.trace
    ensures forall l | IsLayoutOf(old(disk.files), l) ::
              forall i | |old(disk.trace)| <= i < |disk.trace| :: RecoversTo(disk.trace[i], Records(l))
  {
    hide IsLayoutOf, RecoversTo, Records;
    var temps := set n | n in disk.files && n.Temp?;
    ghost var gone: set<Name> := {};
    var todo := temps;
    assert disk.files - gone == disk.files;
    while todo != {}
      invariant todo <= temps && gone == temps - todo && disk.files == old(disk.files) - gone
      invariant old(disk.trace) <= disk.trace
      invariant forall l | IsLayoutOf(old(disk.files), l) ::
                  forall i | |old(disk.trace)| <= i < |disk.trace| :: RecoversTo(disk.trace[i], Records(l))
      decreases |todo|
    {
      var n :| n in todo;
      disk.Remove(n);
      todo, gone := todo - {n}, gone + {n};
      assert disk.files == old(disk.files) - gone;
      forall l | IsLayoutOf(old(disk.files), l)
        ensures RecoversTo(disk.files, Records(l))
      {
        TempsDoNotMatter(old(disk.files), gone, l);
      }
    }
    assert disk.files == WithoutTemps(old(disk.files));
  }

  /** Parses the file names and sorts them by start index. */
  method SortedSegments(d: Dir) returns (segs: seq<Parsed>)
    ensures IsSortedNames(d, segs)
  {
    var todo := ParsedNames(d);
    segs := [];
    while todo != {}
      invariant SortedByStart(segs) && Distinct(segs)
      invariant todo <= ParsedNames(d) && forall q :: q in segs <==> q in ParsedNames(d) - todo
      decreases |todo|
    {
      var p :| p in todo;
      InsertSorts(segs, p);
      segs := Insert(segs, p);
      todo := todo - {p};
    }
  }

  /** Every segment has to start right after the one before it. */
  method ValidateContinuity(segs: seq<Parsed>) returns (ok: bool)
    ensures ok <==> Continuous(segs)
  {
    var j := 1;
    while j < |segs|
      invariant 1 <= j
      invariant forall i, k | 0 <= i < k < j && k < |segs| && k == i + 1 :: Adjacent(segs[i], segs[k])
    {
      if !Adjacent(segs[j - 1], segs[j]) {
        return false;
      }
      j := j + 1;
    }
    return true;
  }

  /** The sealed segments among parsed names, in order. */
  function SpansIn(segs: seq<Parsed>): seq<Span> {
    if segs == [] then []
    else
      var f, p := SpansIn(segs[..|segs| - 1]), segs[|segs| - 1];
      if p.active then f else f + [Span(p.lo, p.hi)]
  }

  /** The start indices of the active segments among parsed names, in order. */
  function ActivesIn(segs: seq<Parsed>): seq<nat> {
    if segs == [] then []
    else
      var f, p := ActivesIn(segs[..|segs| - 1]), segs[|segs| - 1];
      if p.active then f + [p.lo] else f
  }

  function FirstOf(starts: seq<nat>): Option<nat> {
    if starts == [] then None else Some(starts[0])
  }

  /** Separates the active segment from the sealed ones; fails exactly on a second active segment. */
  method Separate(segs: seq<Parsed>) returns (ok: bool, sealed: seq<Span>, active: Option<nat>)
    ensures ok <==> |ActivesIn(segs)| <= 1
    ensures ok ==> sealed == SpansIn(segs) && active == FirstOf(ActivesIn(segs))
  {
    sealed, active := [], None;
    for i := 0 to |segs|
      invariant sealed == SpansIn(segs[..i]) && |ActivesIn(segs[..i])| <= 1 && active == FirstOf(ActivesIn(segs[..i]))
    {
      assert segs[..i + 1][..i] == segs[..i];
      if segs[i].active {
        if active.Some? {
          MoreActives(segs, i + 1);
          return false, sealed, active;
        }
        active := Some(segs[i].lo);
      } else {
        sealed := sealed + [Span(segs[i].lo, segs[i].hi)];
      }
    }
    assert segs[..|segs|] == segs;
    return true, sealed, active;
  }

  lemma {:induction false} MoreActives(segs: seq<Parsed>, i: nat)
    requires i <= |segs|
    ensures |ActivesIn(segs[..i])| <= |ActivesIn(segs)|
  {
    if i < |segs| {
      MoreActives(segs[..|segs| - 1], i);
      assert segs[..|segs| - 1][..i] == segs[..i];
    } else {
      assert segs[..i] == segs;
    }
  }

  lemma ExpectedIsContinuous(l: Layout)
    requires NamesOk(l)
    ensures Continuous(Expected(l))
  {
    var e, n := Expected(l), |l.sealed|;
    forall i, j | 0 <= i < j < |e| && j == i + 1
      ensures Adjacent(e[i], e[j])
    {
      if j < n {
        assert l.sealed[i].hi + 1 == l.sealed[j].lo;
      }
    }
  }

  lemma {:induction false} SpansOfNames(l: Layout, k: nat)
    requires k <= |l.sealed|
    ensures SpansIn(Expected(l)[..k]) == SpansOf(l.sealed)[..k] && ActivesIn(Expected(l)[..k]) == []
  {
    if k > 0 {
      SpansOfNames(l, k - 1);
      assert Expected(l)[..k][..k - 1] == Expected(l)[..k - 1];
    }
  }

  /** The names of a layout are separated into its sealed files and its active file. */
  lemma ExpectedSeparates(l: Layout)
    ensures SpansIn(Expected(l)) == SpansOf(l.sealed)
    ensures ActivesIn(Expected(l)) == if l.active.Some? then [l.active.value.start] else []
  {
    var e, n := Expected(l), |l.sealed|;
    SpansOfNames(l, n);
    assert SpansOf(l.sealed)[..n] == SpansOf(l.sealed);
    if l.active.Some? {
      assert e[..|e| - 1] == e[..n];
    } else {
      assert e[..n] == e;
    }
  }

  // ---------------------------------------------------------------- the layout that names describe

  lemma {:induction false} ActiveIsNamed(segs: seq<Parsed>, i: nat) returns (q: Parsed)
    requires i < |ActivesIn(segs)|
    ensures q in segs && q.active && q.lo == ActivesIn(segs)[i]
  {
    var f := segs[..|segs| - 1];
    if i < |ActivesIn(f)| {
      q := ActiveIsNamed(f, i);
    } else {
      q := segs[|segs| - 1];
    }
  }

  lemma {:induction false} ActiveIsCounted(segs: seq<Parsed>, q: Parsed)
    requires q in segs && q.active
    ensures ActivesIn(segs) != []
  {
    if q != segs[|segs| - 1] {
      ActiveIsCounted(segs[..|segs| - 1], q);
    }
  }

  lemma ActivesAreFiles(d: Dir, segs: seq<Parsed>)
    requires IsSortedNames(d, segs)
    ensures ActivesIn(segs) != [] ==> Active(ActivesIn(segs)[0]) in d
    ensures ActivesIn(segs) == [] ==> forall n | n in d :: !n.Active?
  {
    if ActivesIn(segs) != [] {
      var q := ActiveIsNamed(segs, 0);
      var n :| n in d && !n.Temp? && ParseName(n) == q;
    } else {
      forall n | n in d
        ensures !n.Active?
      {
        if n.Active? {
          ActiveIsCounted(segs, ParseName(n));
        }
      }
    }
  }

  function Content(d: Dir, n: Name): seq<Record> {
    if n in d then d[n] else []
  }

  /** The layout that an order of the parsed names describes, whether or not it is well formed. */
  function LayoutNamed(d: Dir, segs: seq<Parsed>): Layout {
    var spans := SpansIn(segs);
    Layout(seq(|spans|, i requires 0 <= i < |spans| => Segment(spans[i].lo, spans[i].hi, Content(d, Sealed(spans[i].lo, spans[i].hi)))),
           match FirstOf(ActivesIn(segs)) case None => None case Some(a) => Some(Tail(a, Content(d, Active(a)))))
  }

  /** If the directory holds a layout, every order of its names describes that layout, is continuous and has at
      most one active file. */
  lemma NamesDescribe(d: Dir, segs: seq<Parsed>, l: Layout)
    requires IsSortedNames(d, segs) && IsLayoutOf(d, l)
    ensures LayoutNamed(d, segs) == l && Continuous(segs) && |ActivesIn(segs)| <= 1
  {
    hide NamesOk, IsSortedNames, Expected, SpansIn, ActivesIn, HasNoOthers, Continuous, StrictlySorted;
    ExpectedStrictlySorted(l);
    SortedNamesAreExpected(d, l, segs);
    ExpectedSeparates(l);
    ExpectedIsContinuous(l);
    SameSpans(d, segs, l);
  }

  /** Names that separate into the spans and the active file of a layout describe it. */
  lemma SameSpans(d: Dir, segs: seq<Parsed>, l: Layout)
    requires Holds(d, l) && SpansIn(segs) == SpansOf(l.sealed)
    requires ActivesIn(segs) == if l.active.Some? then [l.active.value.start] else []
    ensures LayoutNamed(d, segs) == l
  {
    hide SpansIn, ActivesIn, HasNoOthers;
    assert LayoutNamed(d, segs).sealed == l.sealed;
  }

  lemma SpansOfNamed(d: Dir, segs: seq<Parsed>)
    ensures SpansOf(LayoutNamed(d, segs).sealed) == SpansIn(segs)
  {
  }

  lemma LastSpan(l: Layout)
    ensures |SpansOf(l.sealed)| == |l.sealed|
    ensures l.sealed != [] ==> SpansOf(l.sealed)[|l.sealed| - 1].hi == l.sealed[|l.sealed| - 1].hi
  {
  }

  lemma ReopenSummary(d: Dir, l: Layout)
    requires IsLayoutOf(d, l)
    ensures Reopened(d, l).Intact() && Reopened(d, l).Log() == Records(l)
    ensures Reopened(d, l).Valid() <==> ContentsOk(l)
    ensures RecoversTo(WithoutTemps(d), Records(l)) && RecoversTo(Reopened(d, l).files, Records(l))
  {
    hide NamesOk, ContentsOk, Records, HasFiles, HasNoOthers;
    ReopenKeepsLog(d, l);
    LayoutWithoutTemps(d, l);
    ReopenNames(d, l);
    ReopenHolds(d, l);
    assert RecoversTo(Reopened(d, l).files, Reopened(d, l).Log());
  }

  lemma ReopenNames(d: Dir, l: Layout)
    requires NamesOk(l)
    ensures NamesOk(Reopened(d, l).layout)
  {
  }

  /** The active file of a layout is on disk; if it has none, the directory has none. */
  predicate ActiveMatches(d: Dir, l: Layout) {
    match l.active
    case Some(t) => Active(t.start) in d && d[Active(t.start)] == t.recs
    case None => forall n | n in d :: !n.Active?
  }

  /** The active file and the next index with which a log opens: the file that is there, counting on from its last
      record whatever its name is; or a new one right after the last sealed segment. */
  ghost predicate StartsAt(w: Wal, l: Layout) {
    match l.active
    case Some(t) => w.layout.active == Some(t) && w.next == if t.recs == [] then 1 else t.recs[|t.recs| - 1].index + 1
    case None => w.layout.active == Some(Tail(w.next, [])) && w.next == if l.sealed == [] then 1 else l.sealed[|l.sealed| - 1].hi + 1
  }

  /** Takes up the active file, or creates one after the last sealed segment. */
  method Attach(disk: Disk, segmentSize: nat, sealed: seq<Span>, active: Option<nat>, ghost d: Dir, ghost l: Layout)
    returns (w: SegmentedWal)
    requires disk.files == WithoutTemps(d) && segmentSize > 0 && ActiveMatches(d, l)
    requires sealed == SpansOf(l.sealed) && active == (if l.active.Some? then Some(l.active.value.start) else None)
    modifies disk
    ensures w.disk == disk && w.segmentSize == segmentSize && w.Model() == Reopened(d, l) && w.Writable()
    ensures StartsAt(w.Model(), l)
    ensures old(disk.trace) <= disk.trace <= old(disk.trace) + [disk.files]
    ensures IsLayoutOf(d, l) ==> w.Intact() && forall i | |old(disk.trace)| <= i < |disk.trace| :: RecoversTo(disk.trace[i], Records(l))
  {
    hide IsLayoutOf, RecoversTo, Records, SpansOf, Wal.Intact;
    var start, next, size;
    LastSpan(l);
    if IsLayoutOf(d, l) {
      ReopenSummary(d, l);
    }
    if active.Some? {
      start, size := active.value, Size(disk.files[Active(active.value)]);
      next := LastIndex(disk.files[Active(start)]) + 1;
    } else {
      next := if sealed == [] then 1 else sealed[|sealed| - 1].hi + 1;
      start, size := next, 0;
      disk.Create(Active(next));
    }
    w := new SegmentedWal(disk, segmentSize, sealed, start, size, next, Reopened(d, l).layout);
  }

  /** Opens a log directory. `segs` is the order in which sorting left the file names. Opening succeeds exactly
      when that order is continuous and has at most one active file, and takes up the layout it describes. If
      the directory holds a layout, every order is such, the open log holds exactly its records, and every
      directory on the way recovers to the same records; it is well formed if no sealed file holds an index above
      its name. */
  method Open(disk: Disk, requested: int) returns (r: Option<SegmentedWal>, ghost segs: seq<Parsed>)
    modifies disk
    ensures IsSortedNames(old(disk.files), segs)
    ensures r.Some? <==> Continuous(segs) && |ActivesIn(segs)| <= 1
    ensures r.Some? ==>
              && r.value.disk == disk && r.value.Writable()
              && r.value.Model() == Reopened(old(disk.files), LayoutNamed(old(disk.files), segs))
              && StartsAt(r.value.Model(), LayoutNamed(old(disk.files), segs))
              && r.value.segmentSize == if requested > 0 then requested else DEFAULT_SEGMENT_SIZE
    ensures forall l | IsLayoutOf(old(disk.files), l) ::
              && r.Some? && r.value.Intact() && r.value.Model() == Reopened(old(disk.files), l) && r.value.Model().Log() == Records(l)
              && (r.value.Valid() <==> ContentsOk(l))
              && forall i | |old(disk.trace)| <= i < |disk.trace| :: RecoversTo(disk.trace[i], Records(l))
  {
    hide IsLayoutOf, RecoversTo, Records, SpansOf, WithoutTemps, Reopened, Wal.Valid, Wal.Intact, Continuous, IsSortedNames,
         LayoutNamed, SpansIn, ActivesIn, StartsAt;
    var segmentSize: nat := if requested > 0 then requested else DEFAULT_SEGMENT_SIZE;
    ghost var d := disk.files;
    RemoveTemps(disk);
    var names := SortedSegments(disk.files);
    segs := names;
    SameNames(d, segs);
    ghost var l := LayoutNamed(d, segs);
    forall m | IsLayoutOf(d, m)
      ensures l == m && Continuous(segs) && |ActivesIn(segs)| <= 1
      ensures Reopened(d, m).Log() == Records(m) && (Reopened(d, m).Valid() <==> ContentsOk(m))
    {
      NamesDescribe(d, segs, m);
      ReopenSummary(d, m);
    }
    var continuous := ValidateContinuity(names);
    if !continuous {
      return None, segs;
    }
    var ok, sealed, active := Separate(names);
    if !ok {
      return None, segs;
    }
    NamedMatches(d, segs);
    var w := Attach(disk, segmentSize, sealed, active, d, l);
    return Some(w), segs;
  }

  lemma NamedMatches(d: Dir, segs: seq<Parsed>)
    requires IsSortedNames(d, segs)
    ensures ActiveMatches(d, LayoutNamed(d, segs)) && SpansOf(LayoutNamed(d, segs).sealed) == SpansIn(segs)
    ensures var l := LayoutNamed(d, segs);
            FirstOf(ActivesIn(segs)) == if l.active.Some? then Some(l.active.value.start) else None
  {
    ActivesAreFiles(d, segs);
    SpansOfNamed(d, segs);
  }

  lemma SameNames(d: Dir, segs: seq<Parsed>)
    requires IsSortedNames(WithoutTemps(d), segs)
    ensures IsSortedNames(d, segs)
  {
    assert ParsedNames(WithoutTemps(d)) == ParsedNames(d);
  }

  lemma LayoutWithoutTemps(d: Dir, l: Layout)
    requires IsLayoutOf(d, l)
    ensures IsLayoutOf(WithoutTemps(d), l) && RecoversTo(WithoutTemps(d), Records(l))
  {
    var temps := set n | n in d && n.Temp?;
    TempsDoNotMatter(d, temps, l);
    assert WithoutTemps(d) == d - temps;
  }

  // ---------------------------------------------------------------- reopening after a rotation

  /** The names after the seal step, in order, are adjacent whatever the new name is. */
  lemma SealedNamesInOrder(w: Wal)
    requires w.Valid()
    ensures StrictlySorted(Expected(RotationLayout(w, 1))) && Continuous(Expected(RotationLayout(w, 1)))
  {
    hide Holds, ContentsOk;
    var l, n := RotationLayout(w, 1), |w.layout.sealed|;
    var e := Expected(l);
    ExpectedStrictlySorted(w.layout);
    ExpectedIsContinuous(w.layout);
    var e0 := Expected(w.layout);
    assert forall i | 0 <= i < n :: e[i] == e0[i];
    assert e[n].lo == e0[n].lo;
  }

  /** Stopping before the new active file has its name is always harmless: the directory opens, whatever order
      sorting leaves, with exactly the records held before; and opening it after the seal step leads to the log that
      the whole rotation leads to. */
  lemma RotationStepsReopen(w: Wal, k: nat, segs: seq<Parsed>)
    requires w.Valid() && k < 2 && Active(w.Tail().start) in w.files
    requires IsSortedNames(RotationDirs(w.files, w.Tail().start, w.next)[k], segs)
    ensures Continuous(segs) && |ActivesIn(segs)| <= 1
    ensures var d := RotationDirs(w.files, w.Tail().start, w.next)[k];
            && LayoutNamed(d, segs) == RotationLayout(w, k)
            && Reopened(d, LayoutNamed(d, segs)).Log() == w.Log()
            && (k == 1 ==> w.Writable() && Reopened(d, LayoutNamed(d, segs)) == Rotated(w))
  {
    hide NamesOk, ContentsOk, Holds, IsSortedNames, SpansIn, ActivesIn, Continuous, StrictlySorted, Expected, LayoutNamed, Records;
    var d := RotationDirs(w.files, w.Tail().start, w.next)[k];
    RotationHolds(w, k);
    if k == 0 {
      NamesDescribe(d, segs, w.layout);
      ReopenSummary(d, w.layout);
    } else {
      SealedNamesInOrder(w);
      SortedNamesAreExpected(d, RotationLayout(w, 1), segs);
      ExpectedSeparates(RotationLayout(w, 1));
      SameSpans(d, segs, RotationLayout(w, 1));
      SealedReopens(w);
    }
  }

  lemma SealedReopens(w: Wal)
    requires w.Valid() && Active(w.Tail().start) in w.files
    ensures w.Writable() && Reopened(RotationDirs(w.files, w.Tail().start, w.next)[1], RotationLayout(w, 1)) == Rotated(w)
    ensures Rotated(w).Log() == w.Log()
  {
    ValidIsWritable(w);
    RotationRecords(w, 2);
    hide NamesOk, ContentsOk, Records, HasFiles, HasNoOthers;
    assert WithoutTemps(RotationDirs(w.files, w.Tail().start, w.next)[1])[Active(w.next) := []] == Rotated(w).files;
  }

  /** The sealed names among parsed names, in order. */
  function SealedIn(segs: seq<Parsed>): seq<Parsed> {
    if segs == [] then []
    else
      var f, p := SealedIn(segs[..|segs| - 1]), segs[|segs| - 1];
      if p.active then f else f + [p]
  }

  lemma {:induction false} SealedInSorted(segs: seq<Parsed>)
    requires SortedByStart(segs) && Distinct(segs)
    ensures SortedByStart(SealedIn(segs)) && Distinct(SealedIn(segs))
    ensures forall q :: q in SealedIn(segs) <==> q in segs && !q.active
  {
    if segs != [] {
      var f, p := segs[..|segs| - 1], segs[|segs| - 1];
      SealedInSorted(f);
      assert segs == f + [p];
      var g := SealedIn(f);
      forall i | 0 <= i < |g|
        ensures g[i].lo <= p.lo && g[i] != p
      {
        assert g[i] in f;
      }
    }
  }

  lemma {:induction false} SpansOfSealed(segs: seq<Parsed>)
    ensures SpansIn(SealedIn(segs)) == SpansIn(segs)
  {
    if segs != [] {
      var f, p := segs[..|segs| - 1], segs[|segs| - 1];
      SpansOfSealed(f);
      if !p.active {
        assert SealedIn(segs)[..|SealedIn(f)|] == SealedIn(f);
      }
    }
  }

  lemma {:induction false} OnlyActive(segs: seq<Parsed>, a: Parsed)
    requires Distinct(segs) && a.active && forall q | q in segs && q.active :: q == a
    ensures ActivesIn(segs) == if a in segs then [a.lo] else []
  {
    if segs != [] {
      var f, p := segs[..|segs| - 1], segs[|segs| - 1];
      OnlyActive(f, a);
      assert segs == f + [p] && p !in f;
    }
  }

  /** After a rotation, every order in which sorting can leave the names describes the same files. */
  lemma RotatedNamesDescribe(w: Wal, segs: seq<Parsed>)
    requires w.Valid() && w.Writable() && IsSortedNames(Rotated(w).files, segs)
    ensures LayoutNamed(Rotated(w).files, segs) == Rotated(w).layout && |ActivesIn(segs)| == 1
  {
    hide NamesOk, ContentsOk, Holds, SpansIn, ActivesIn, ParsedNames, LayoutNamed, StrictlySorted, RotationDirs, Expected,
         SortedByStart, Distinct;
    var m, a := RotationLayout(w, 1), Parsed(w.next, 0, true);
    SealedNamesInOrder(w);
    ExpectedSeparates(m);
    forall q
      ensures q in segs <==> q in Expected(m) || q == a
    {
      RotatedParsed(w, q);
    }
    SealedOnly(segs, m, a);
    RotationHolds(w, 2);
    SameSpans(Rotated(w).files, segs, RotationLayout(w, 2));
  }

  lemma SealedOnly(segs: seq<Parsed>, m: Layout, a: Parsed)
    requires SortedByStart(segs) && Distinct(segs) && m.active.None? && StrictlySorted(Expected(m)) && a.active
    requires forall q :: q in segs <==> q in Expected(m) || q == a
    ensures SpansIn(segs) == SpansIn(Expected(m)) && ActivesIn(segs) == [a.lo]
  {
    assert forall q | q in Expected(m) :: !q.active;
    SealedInSorted(segs);
    SpansOfSealed(segs);
    OnlyActive(segs, a);
    hide *;
    SortedArrangementIsUnique(SealedIn(segs), Expected(m));
  }

  lemma {:induction false} SomeOrder(ps: set<Parsed>) returns (segs: seq<Parsed>)
    ensures SortedByStart(segs) && Distinct(segs) && forall q :: q in segs <==> q in ps
  {
    segs := [];
    if ps != {} {
      var p :| p in ps;
      segs := SomeOrder(ps - {p});
      InsertSorts(segs, p);
      segs := Insert(segs, p);
    }
  }

  /** The active name has no end, so no order passes with another name behind it. */
  lemma ActiveComesLast(segs: seq<Parsed>, a: Parsed, s: Parsed)
    requires SortedByStart(segs) && a in segs && s in segs && a == Parsed(a.lo, 0, true) && 1 < a.lo < s.lo
    ensures !Continuous(segs)
  {
    var i :| 0 <= i < |segs| && segs[i] == a;
    var j :| 0 <= j < |segs| && segs[j] == s;
    assert i < j && segs[i + 1].lo >= a.lo;
    assert !Adjacent(segs[i], segs[i + 1]);
  }

  lemma RotatedParsed(w: Wal, q: Parsed)
    requires w.Valid() && w.Writable()
    ensures q in ParsedNames(Rotated(w).files) <==> q in Expected(RotationLayout(w, 1)) || q == Parsed(w.next, 0, true)
    ensures Expected(RotationLayout(w, 1)) == Expected(w.layout.(active := None)) + [Parsed(w.Tail().start, w.next - 1, false)]
  {
    hide NamesOk, ContentsOk, HasFiles, HasNoOthers, ParsedNames;
    RotationHolds(w, 2);
    ExpectedNames(Rotated(w).files, RotationLayout(w, 2), q);
    assert Expected(RotationLayout(w, 2)) == Expected(RotationLayout(w, 1)) + [Parsed(w.next, 0, true)];
  }

  /** Whatever order opens the directory after a rotation, the log then holds exactly the records held before. Every
      order in which sorting can leave the names opens it exactly when the sealed name has a range that is not
      empty; some order does exactly when the next index is not below the start of the sealed file. (The next index
      is above 1 as soon as a record has been written.) */
  lemma RotationReopensIff(w: Wal)
    requires w.Valid() && w.next > 1
    ensures w.Writable()
    ensures forall segs | IsSortedNames(Rotated(w).files, segs) ::
              |ActivesIn(segs)| == 1 && Reopened(Rotated(w).files, LayoutNamed(Rotated(w).files, segs)).Log() == w.Log()
    ensures (forall segs | IsSortedNames(Rotated(w).files, segs) :: Continuous(segs)) <==> w.Tail().start < w.next
    ensures (exists segs :: IsSortedNames(Rotated(w).files, segs) && Continuous(segs)) <==> w.Tail().start <= w.next
  {
    hide NamesOk, ContentsOk, Holds, IsSortedNames, Continuous, Rotated, Records, LayoutNamed, ActivesIn;
    ValidIsWritable(w);
    forall segs | IsSortedNames(Rotated(w).files, segs)
      ensures |ActivesIn(segs)| == 1 && Reopened(Rotated(w).files, LayoutNamed(Rotated(w).files, segs)).Log() == w.Log()
      ensures w.Tail().start < w.next ==> Continuous(segs)
      ensures w.Tail().start > w.next ==> !Continuous(segs)
    {
      RotatedOrder(w, segs);
    }
    RotatedOrders(w);
  }

  lemma RotatedOrder(w: Wal, segs: seq<Parsed>)
    requires w.Valid() && w.Writable() && w.next > 1 && IsSortedNames(Rotated(w).files, segs)
    ensures |ActivesIn(segs)| == 1 && Reopened(Rotated(w).files, LayoutNamed(Rotated(w).files, segs)).Log() == w.Log()
    ensures w.Tail().start < w.next ==> Continuous(segs)
    ensures w.Tail().start > w.next ==> !Continuous(segs)
  {
    hide NamesOk, ContentsOk, HasFiles, HasNoOthers, Continuous, Records, LayoutNamed, ActivesIn, RotationDirs, ParsedNames;
    RotatedNamesDescribe(w, segs);
    RotationRecords(w, 2);
    if w.Tail().start < w.next {
      RotationIsCrashSafe(w, 2);
      NamesDescribe(Rotated(w).files, segs, RotationLayout(w, 2));
    }
    if w.Tail().start > w.next {
      var a, s := Parsed(w.next, 0, true), Parsed(w.Tail().start, w.next - 1, false);
      RotatedParsed(w, a);
      RotatedParsed(w, s);
      ActiveComesLast(segs, a, s);
    }
  }

  lemma RotatedOrders(w: Wal)
    requires w.Valid() && w.Writable() && w.next > 1
    ensures exists segs :: IsSortedNames(Rotated(w).files, segs)
    ensures w.Tail().start == w.next ==> exists segs :: IsSortedNames(Rotated(w).files, segs) && Continuous(segs)
    ensures w.Tail().start == w.next ==> exists segs :: IsSortedNames(Rotated(w).files, segs) && !Continuous(segs)
  {
    hide NamesOk, ContentsOk, HasFiles, HasNoOthers, Continuous, Rotated, RotationDirs, ParsedNames;
    var some := SomeOrder(ParsedNames(Rotated(w).files));
    assert IsSortedNames(Rotated(w).files, some);
    if w.Tail().start == w.next {
      var rest, a, s := Expected(w.layout.(active := None)), Parsed(w.next, 0, true), Parsed(w.next, w.next - 1, false);
      forall q
        ensures q in ParsedNames(Rotated(w).files) <==> q in rest || q == a || q == s
      {
        RotatedParsed(w, q);
      }
      RotatedParsed(w, a);
      SealedNamesInOrder(w);
      TiedOrders(rest, a, s);
      assert IsSortedNames(Rotated(w).files, rest + [s, a]) && IsSortedNames(Rotated(w).files, rest + [a, s]);
    }
  }

  /** With equal starts both orders are sorted, and one of them passes. */
  lemma TiedOrders(rest: seq<Parsed>, a: Parsed, s: Parsed)
    requires a.lo > 1 && a == Parsed(a.lo, 0, true) && s == Parsed(a.lo, a.lo - 1, false)
    requires StrictlySorted(rest + [s]) && Continuous(rest + [s])
    ensures SortedByStart(rest + [s, a]) && Distinct(rest + [s, a]) && Continuous(rest + [s, a])
    ensures SortedByStart(rest + [a, s]) && Distinct(rest + [a, s]) && !Continuous(rest + [a, s])
  {
    var n, e, good, bad := |rest|, rest + [s], rest + [s, a], rest + [a, s];
    assert e[n] == s && good[n] == s && good[n + 1] == a && bad[n] == a && bad[n + 1] == s;
    assert forall i | 0 <= i < n :: good[i] == e[i] && bad[i] == e[i] && e[i].lo < s.lo;
    assert !Adjacent(bad[n], bad[n + 1]);
    forall i, j | 0 <= i < j < |good| && j == i + 1
      ensures Adjacent(good[i], good[j])
    {
      if j <= n {
        assert Adjacent(e[i], e[j]);
      }
    }
  }

  /** If every name is truthful, a file whose records lie below the index in its name is the only file of the log. */
  lemma UnsealableIsOnly(w: Wal)
    requires w.Valid() && Truthful(w.layout) && w.Tail().recs != [] && LastIndex(w.Tail().recs) < w.Tail().start
    ensures w.layout.sealed == [] && w.files == map[Active(w.Tail().start) := w.Tail().recs]
  {
    if w.layout.sealed != [] {
      LaterFileIsCovered(w);
    }
    hide Increasing, Holds, WellFormed;
    OnlyTailLeft(w);
    assert WithoutOldest(w, 0).files == w.files;
  }

  /** A record in a file that follows a truthfully named one lies at or above the start of its file. */
  lemma LaterFileIsCovered(w: Wal)
    requires w.Valid() && Truthful(w.layout) && w.Tail().recs != [] && w.layout.sealed != []
    ensures LastIndex(w.Tail().recs) >= w.Tail().start
  {
    hide Holds, Linked;
    var n, flat := |w.layout.sealed| - 1, Flatten(w.layout.sealed);
    var last := w.layout.sealed[n].recs;
    assert flat[|flat| - 1] == last[|last| - 1];
    assert w.Log()[|flat| - 1].index < w.Log()[|w.Log()| - 1].index;
  }

  const E1 := Record(1, Other, 20)
  const E2 := Record(2, Other, 20)
  const E3 := Record(3, Other, 20)
  const MISNAMED := Wal(map[Active(5) := [E1, E2, E3]], Layout([], Some(Tail(5, [E1, E2, E3]))), 4)

  /** A truncation at 4 of an empty log, three entries and a restart: the file is named past its records. With
      segments of 60 bytes it is full, and once the next entry has sealed it no order of the names passes. */
  lemma MisnamedFileCannotBeReopened()
    ensures Fresh(1).Valid() && Truncated(Fresh(1), 4).Writable()
    ensures var w := AppendAll(Truncated(Fresh(1), 4), [E1, E2, E3], 60); MISNAMED == Reopened(w.files, w.layout)
    ensures MISNAMED.Valid() && MISNAMED.Writable() && Size(MISNAMED.Tail().recs) >= 60
    ensures forall segs | IsSortedNames(Rotated(MISNAMED).files, segs) :: !Continuous(segs)
  {
    MisnamedIsReached();
    MisnamedIsValid();
    hide IsSortedNames, Continuous, WellFormed, Holds, Rotated;
    RotationReopensIff(MISNAMED);
  }

  lemma MisnamedIsValid()
    ensures MISNAMED.Valid() && MISNAMED.Writable() && Size(MISNAMED.Tail().recs) >= 60
  {
    assert [] + [E1] == [E1] && [E1] + [E2] == [E1, E2] && [E1, E2] + [E3] == [E1, E2, E3];
    SizeOfNext([], E1);
    SizeOfNext([E1], E2);
    SizeOfNext([E1, E2], E3);
    hide Size;
  }

  lemma MisnamedIsReached()
    ensures Fresh(1).Valid() && Truncated(Fresh(1), 4).Writable()
    ensures var w := AppendAll(Truncated(Fresh(1), 4), [E1, E2, E3], 60); MISNAMED == Reopened(w.files, w.layout)
  {
    FreshIsValid(1);
    assert Truncated(Fresh(1), 4) == Fresh(5) by {
      hide WellFormed, Holds;
      EmptyingSummary(Fresh(1), 4);
    }
    hide Wal.Valid, Truncated, AppendAll;
    SmallAppends();
    var w := AppendAll(Fresh(5), [E1, E2, E3], 60);
    assert WithoutTemps(w.files) == w.files;
  }

  function InFive(recs: seq<Record>): Wal {
    Wal(map[Active(5) := recs], Layout([], Some(Tail(5, recs))), 5)
  }

  lemma SmallAppend(recs: seq<Record>, r: Record)
    requires Size(recs) < 60 && r.index < 5
    ensures InFive(recs).Writable() && Appended(InFive(recs), r, 60) == InFive(recs + [r])
  {
  }

  lemma SmallAppends()
    ensures Fresh(5).Writable() && AppendAll(Fresh(5), [E1, E2, E3], 60) == InFive([E1, E2, E3])
  {
    SizeOfNext([], E1);
    SizeOfNext([E1], E2);
    assert [] + [E1] == [E1] && [E1] + [E2] == [E1, E2] && [E1, E2] + [E3] == [E1, E2, E3];
    SmallAppend([], E1);
    SmallAppend([E1], E2);
    SmallAppend([E1, E2], E3);
    assert Fresh(5) == InFive([]);
    hide InFive, Appended, Wal.Writable;
    AppendedIsWritable(InFive([]), E1, 60);
    AppendedIsWritable(InFive([E1]), E2, 60);
    AppendedIsWritable(InFive([E1, E2]), E3, 60);
    assert [E1, E2, E3][1..] == [E2, E3] && [E2, E3][1..] == [E3] && [E3][1..] == [];
    assert AppendAll(InFive([E1, E2]), [E3], 60) == InFive([E1, E2, E3]);
    assert AppendAll(InFive([E1]), [E2, E3], 60) == InFive([E1, E2, E3]);
  }

  /** The same truncation and entries with segments of 20 bytes: every entry finds the file full and seals it under
      the same name, so the second seal replaces the file that held the first entry. */
  lemma RotationOverwritesSealedFile()
    ensures Fresh(1).Valid() && Truncated(Fresh(1), 4).Writable()
    ensures var w := AppendAll(Truncated(Fresh(1), 4), [E1, E2, E3], 20);
            w.Log() == [E1, E2, E3] && w.files == map[Sealed(5, 4) := [E2], Active(5) := [E3]] && !w.Intact()
  {
    FreshIsValid(1);
    assert Truncated(Fresh(1), 4) == Fresh(5) by {
      hide WellFormed, Holds;
      EmptyingSummary(Fresh(1), 4);
    }
    hide Wal.Valid, Truncated, AppendAll;
    SealedTwice();
  }

  function FullFive(sealed: seq<Segment>, d: Dir, r: Record): Wal {
    Wal(d[Active(5) := [r]], Layout(sealed, Some(Tail(5, [r]))), 5)
  }

  lemma FullAppend(sealed: seq<Segment>, d: Dir, r: Record, next: Record)
    requires r.size == 20 && next.index < 5 && forall n | n in d :: n.Sealed?
    ensures FullFive(sealed, d, r).Writable()
    ensures Appended(FullFive(sealed, d, r), next, 20) ==
            FullFive(sealed + [Segment(5, 4, [r])], d[Sealed(5, 4) := [r]], next)
  {
    SizeOfNext([], r);
    assert [] + [r] == [r] && [] + [next] == [next];
    var w := FullFive(sealed, d, r);
    assert Appended(w, next, 20).files == d[Sealed(5, 4) := [r]][Active(5) := [next]];
  }

  const FIVE1 := FullFive([], map[], E1)
  const FIVE2 := FullFive([Segment(5, 4, [E1])], map[Sealed(5, 4) := [E1]], E2)
  const FIVE3 := FullFive([Segment(5, 4, [E1]), Segment(5, 4, [E2])], map[Sealed(5, 4) := [E2]], E3)

  lemma FullAppends()
    ensures Fresh(5).Writable() && Appended(Fresh(5), E1, 20) == FIVE1
    ensures FIVE1.Writable() && Appended(FIVE1, E2, 20) == FIVE2 && FIVE2.Writable() && Appended(FIVE2, E3, 20) == FIVE3
  {
    var s1, s2 := Segment(5, 4, [E1]), Segment(5, 4, [E2]);
    assert [] + [E1] == [E1] && [] + [s1] == [s1] && [s1] + [s2] == [s1, s2];
    FullAppend([], map[], E1, E2);
    FullAppend([s1], map[Sealed(5, 4) := [E1]], E2, E3);
    assert map[Sealed(5, 4) := [E1]][Sealed(5, 4) := [E2]] == map[Sealed(5, 4) := [E2]];
  }

  lemma SealedTwice()
    ensures Fresh(5).Writable()
    ensures var w := AppendAll(Fresh(5), [E1, E2, E3], 20);
            w.Log() == [E1, E2, E3] && w.files == map[Sealed(5, 4) := [E2], Active(5) := [E3]] && !w.Intact()
  {
    FullAppends();
    assert AppendAll(Fresh(5), [E1, E2, E3], 20) == FIVE3 by {
      hide Appended, Wal.Writable, FullFive;
      AppendedIsWritable(FIVE2, E3, 20);
      assert [E1, E2, E3][1..] == [E2, E3] && [E2, E3][1..] == [E3] && [E3][1..] == [];
      assert AppendAll(FIVE2, [E3], 20) == FIVE3;
      AppendedIsWritable(FIVE1, E2, 20);
      assert AppendAll(FIVE1, [E2, E3], 20) == FIVE3;
      AppendedIsWritable(Fresh(5), E1, 20);
    }
    hide AppendAll, Appended;
    AppendAllExtends(Fresh(5), [E1, E2, E3], 20);
    var s1 := Segment(5, 4, [E1]);
    assert FIVE3.layout.sealed[0] == s1 && FIVE3.files[FileOf(s1)] != s1.recs;
  }
}
