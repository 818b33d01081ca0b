/** What the files hold whatever is sealed over: a file that a seal rename replaces has a name with an empty range, so
    the first copy of every record stays in a file whose name covers it. */
module Coverage {
  import opened History
  import opened Segments
  import opened WalSteps
  import opened WalFiles
  import opened WalOpen

  predicate NameCovers(n: Name, x: nat) {
    match n
    case Sealed(lo, hi) => lo <= x <= hi
    case Active(start) => start <= x
    case Temp(_) => false
  }

  ghost predicate KeptIn(d: Dir, r: Record) {
    exists n :: n in d && r in d[n] && NameCovers(n, r.index)
  }

  /** The one active file starts after every sealed name and not past the next index. */
  ghost predicate NamedUpwards(w: Wal) {
    && w.Writable() && w.Tail().start <= w.next
    && forall n | n in w.files :: (n.Sealed? ==> n.hi < w.Tail().start) && (n.Active? ==> n.start == w.Tail().start)
  }

  /** Every record ever written lies below the next index and in a file whose name covers it, and the files hold no
      others. */
  ghost predicate Covered(w: Wal) {
    && NamedUpwards(w)
    && (forall r | r in w.Log() :: r.index < w.next && KeptIn(w.files, r))
    && forall n, r | n in w.files && r in w.files[n] :: r in w.Log()
  }

  lemma FreshIsCovered()
    ensures Covered(Fresh(1))
  {
    FreshIsValid(1);
    ValidIsWritable(Fresh(1));
    hide Wal.Valid;
    assert Fresh(1).Log() == [];
  }

  lemma RotatedFiles(w: Wal)
    requires NamedUpwards(w)
    ensures NamedUpwards(Rotated(w)) && Rotated(w).Tail().start == Rotated(w).next == w.next
    ensures var d := Rotated(w).files;
            && Sealed(w.Tail().start, w.next - 1) in d && d[Sealed(w.Tail().start, w.next - 1)] == w.Tail().recs
            && Active(w.next) in d && d[Active(w.next)] == []
            && (forall n | n in w.files && n.Sealed? && n != Sealed(w.Tail().start, w.next - 1) :: n in d && d[n] == w.files[n])
            && forall n | n in d && n != Active(w.next) && n != Sealed(w.Tail().start, w.next - 1) :: n in w.files && d[n] == w.files[n]
  {
    RotatedIsWritable(w);
  }

  lemma RotationKeepsRecord(w: Wal, r: Record)
    requires NamedUpwards(w) && r.index < w.next && KeptIn(w.files, r)
    ensures KeptIn(Rotated(w).files, r)
  {
    RotatedFiles(w);
    hide Rotated;
    var d, s := Rotated(w).files, Sealed(w.Tail().start, w.next - 1);
    var n :| n in w.files && r in w.files[n] && NameCovers(n, r.index);
    if n.Active? {
      assert r in d[s] && NameCovers(s, r.index);
    } else {
      assert n in d && r in d[n];
    }
  }

  lemma RotationKeepsCover(w: Wal)
    requires Covered(w)
    ensures Covered(Rotated(w))
  {
    RotatedIsWritable(w);
    RotatedFiles(w);
    TailIsLogged(w);
    hide Rotated, KeptIn, Records;
    forall r | r in Rotated(w).Log()
      ensures KeptIn(Rotated(w).files, r)
    {
      RotationKeepsRecord(w, r);
    }
  }

  lemma TailIsLogged(w: Wal)
    requires w.layout.active.Some?
    ensures forall r | r in w.Tail().recs :: r in w.Log()
  {
  }

  lemma WriteKeepsCover(w: Wal, r: Record)
    requires Covered(w) && (r in w.Log() || r.index >= w.next)
    ensures Covered(Written(w, r))
  {
    var w', a := Written(w, r), Active(w.Tail().start);
    WrittenIsWritable(w, r);
    assert w'.files[a] == w.files[a] + [r];
    hide Records, Wal.Writable;
    forall q | q in w'.Log()
      ensures q.index < w'.next && KeptIn(w'.files, q)
    {
      if q in w.Log() {
        var n :| n in w.files && q in w.files[n] && NameCovers(n, q.index);
        assert n in w'.files && q in w'.files[n];
      } else {
        assert q == r && q in w'.files[a] && NameCovers(a, q.index);
      }
    }
  }

  lemma AppendKeepsCover(w: Wal, r: Record, segmentSize: nat)
    requires Covered(w) && (r in w.Log() || r.index >= w.next)
    ensures Covered(Appended(w, r, segmentSize))
  {
    hide Covered, Written, Rotated;
    CoveredIsWritable(w);
    if Size(w.Tail().recs) >= segmentSize {
      RotationKeepsCover(w);
      RotatedIsWritable(w);
      RotatedNext(w);
      WriteKeepsCover(Rotated(w), r);
    } else {
      WriteKeepsCover(w, r);
    }
  }

  lemma RotatedNext(w: Wal)
    requires w.Writable()
    ensures Rotated(w).next == w.next
  {
  }

  // ---------------------------------------------------------------- batches of a history

  /** The first `i` records of `c` were written, and whatever of the others lies below the next index. */
  ghost predicate Reached(w: Wal, c: seq<Record>, i: nat) {
    && w.next <= LastIndex(c) + 1 && (forall r | r in w.Log() :: r in c)
    && forall k | 0 <= k < |c| && (k < i || c[k].index < w.next) :: c[k] in w.Log()
  }

  lemma CoveredIsWritable(w: Wal)
    requires Covered(w)
    ensures w.Writable()
  {
  }

  lemma ReachedNext(w: Wal, c: seq<Record>, i: nat, segmentSize: nat)
    requires w.Writable() && Increasing(c) && i < |c| && Reached(w, c, i)
    ensures c[i] in w.Log() || c[i].index >= w.next
    ensures Appended(w, c[i], segmentSize).Writable() && Reached(Appended(w, c[i], segmentSize), c, i + 1)
  {
    AppendedIsWritable(w, c[i], segmentSize);
    NextAfter(w, c[i], segmentSize);
    hide Records, Appended, Wal.Writable;
    assert c[i].index <= c[|c| - 1].index;
    assert forall k | i < k < |c| :: c[i].index < c[k].index;
  }

  lemma NextAfter(w: Wal, r: Record, segmentSize: nat)
    requires w.Writable()
    ensures Appended(w, r, segmentSize).next == if r.index + 1 > w.next then r.index + 1 else w.next
  {
    hide RotationDirs;
  }

  // ---------------------------------------------------------------- reading the names in any order

  lemma {:induction false} SpanIsNamed(segs: seq<Parsed>, lo: nat, hi: nat)
    ensures Span(lo, hi) in SpansIn(segs) <==> Parsed(lo, hi, false) in segs
  {
    if segs != [] {
      var f, p := segs[..|segs| - 1], segs[|segs| - 1];
      assert segs == f + [p];
      SpanIsNamed(f, lo, hi);
    }
  }

  ghost predicate OnFiles(d: Dir, r: Record) {
    exists n :: n in d && !n.Temp? && r in d[n]
  }

  lemma SealedAreNamed(d: Dir, segs: seq<Parsed>, r: Record)
    requires IsSortedNames(d, segs)
    ensures (exists n :: n in d && n.Sealed? && r in d[n]) <==> r in Flatten(LayoutNamed(d, segs).sealed)
  {
    var sealed, spans := LayoutNamed(d, segs).sealed, SpansIn(segs);
    FlattenMember(sealed, r);
    hide Flatten, SpansIn, ActivesIn;
    if n :| n in d && n.Sealed? && r in d[n] {
      assert ParseName(n) in ParsedNames(d);
      SpanIsNamed(segs, n.lo, n.hi);
      var i :| 0 <= i < |spans| && spans[i] == Span(n.lo, n.hi);
      assert r in sealed[i].recs;
    }
    if r in Flatten(sealed) {
      var i :| 0 <= i < |sealed| && r in sealed[i].recs;
      SpanIsNamed(segs, spans[i].lo, spans[i].hi);
      assert Sealed(spans[i].lo, spans[i].hi) in d;
    }
  }

  /** With one active file, every order of the names reads exactly what the files hold. */
  lemma EveryOrderReadsAll(d: Dir, segs: seq<Parsed>, start: nat, r: Record)
    requires IsSortedNames(d, segs) && Active(start) in d && forall n | n in d && n.Active? :: n.start == start
    ensures |ActivesIn(segs)| == 1
    ensures r in Records(LayoutNamed(d, segs)) <==> OnFiles(d, r)
  {
    SealedAreNamed(d, segs, r);
    var a := ParseName(Active(start));
    assert a in segs;
    forall q | q in segs && q.active
      ensures q == a
    {
      var n :| n in d && !n.Temp? && ParseName(n) == q;
    }
    OnlyActive(segs, a);
    hide Flatten, SpansIn, ActivesIn, IsSortedNames;
    if OnFiles(d, r) {
      var n :| n in d && !n.Temp? && r in d[n];
      assert n.Sealed? || n == Active(start);
    }
  }

  /** So every order of the names of a covered log reads exactly the records that were ever written. */
  lemma CoveredIsReadInAnyOrder(w: Wal, segs: seq<Parsed>, r: Record)
    requires Covered(w) && IsSortedNames(w.files, segs)
    ensures |ActivesIn(segs)| == 1
    ensures r in Records(LayoutNamed(w.files, segs)) <==> r in w.Log()
  {
    hide Records, LayoutNamed, ActivesIn, IsSortedNames;
    EveryOrderReadsAll(w.files, segs, w.Tail().start, r);
    if r in w.Log() {
      var n :| n in w.files && r in w.files[n] && NameCovers(n, r.index);
      assert !n.Temp?;
    }
  }

  // ---------------------------------------------------------------- which orders open

  /** The sealed names `pre` and the active one, in an order that opens. */
  ghost predicate Chained(w: Wal, pre: seq<Parsed>) {
    && w.layout.active.Some? && Opens(pre + [Parsed(w.Tail().start, 0, true)])
    && (forall q :: q in pre + [Parsed(w.Tail().start, 0, true)] <==> q in ParsedNames(w.files))
    && forall i | 0 <= i < |pre| ::
         !pre[i].active && pre[i].lo <= pre[i].hi + 1 <= w.Tail().start && pre[i].hi > 0
  }

  lemma FreshIsChained()
    ensures Chained(Fresh(1), [])
  {
    var a := Parsed(1, 0, true);
    assert ParseName(Active(1)) == a && a in ParsedNames(Fresh(1).files);
    assert forall q | q in ParsedNames(Fresh(1).files) :: q == a;
    assert [] + [a] == [a];
  }

  lemma NamesAfterRotation(w: Wal, q: Parsed)
    requires NamedUpwards(w)
    ensures q in ParsedNames(Rotated(w).files) <==>
            || q == Parsed(w.Tail().start, w.next - 1, false) || q == Parsed(w.next, 0, true)
            || (q in ParsedNames(w.files) && !q.active)
  {
    RotatedFiles(w);
    hide Rotated;
    var d, s := Rotated(w).files, Sealed(w.Tail().start, w.next - 1);
    if q in ParsedNames(d) {
      var n :| n in d && !n.Temp? && ParseName(n) == q;
      if n != s && n != Active(w.next) {
        assert n in w.files && n.Sealed?;
      }
    }
    if q in ParsedNames(w.files) && !q.active {
      var n :| n in w.files && !n.Temp? && ParseName(n) == q;
      assert n in d;
    }
    assert ParseName(s) in ParsedNames(d) && ParseName(Active(w.next)) in ParsedNames(d);
  }

  /** Sealing under a name that is there already leaves the names as they were. */
  function PreAfter(w: Wal, pre: seq<Parsed>): seq<Parsed>
    requires w.layout.active.Some? && w.next > 0
  {
    var s := Parsed(w.Tail().start, w.next - 1, false);
    if s in pre then pre else pre + [s]
  }

  /** Sorted, without repetition and without a gap. */
  ghost predicate Opens(e: seq<Parsed>) {
    SortedByStart(e) && Distinct(e) && Continuous(e)
  }

  /** A name at the end of such a list, no earlier than the others. */
  lemma OpensWith(e: seq<Parsed>, q: Parsed)
    requires Opens(e) && q !in e && forall i | 0 <= i < |e| :: e[i].lo <= q.lo
    requires e == [] || Adjacent(e[|e| - 1], q)
    ensures Opens(e + [q])
  {
    var f, n := e + [q], |e|;
    assert forall i | 0 <= i < n :: f[i] == e[i];
    assert Distinct(f) by { hide SortedByStart, Continuous; }
    assert SortedByStart(f) by { hide Distinct, Continuous; }
    hide Distinct, SortedByStart;
    forall i, j | 0 <= i < j < |f| && j == i + 1
      ensures Adjacent(f[i], f[j])
    {
      if j < n {
        assert Adjacent(e[i], e[j]);
      }
    }
  }

  lemma OpensWithout(e: seq<Parsed>, q: Parsed)
    requires Opens(e + [q])
    ensures Opens(e) && q !in e && (forall i | 0 <= i < |e| :: e[i].lo <= q.lo) && (e == [] || Adjacent(e[|e| - 1], q))
  {
    var f, n := e + [q], |e|;
    assert forall i | 0 <= i < n :: f[i] == e[i];
    assert f[n] == q;
    if n > 0 {
      assert Adjacent(f[n - 1], f[n]);
    }
    forall i, j | 0 <= i < j < |e| && j == i + 1
      ensures Adjacent(e[i], e[j])
    {
      assert Adjacent(f[i], f[j]);
    }
  }

  lemma ChainGrows(pre: seq<Parsed>, start: nat, next: nat)
    requires 1 < next && start <= next && Opens(pre + [Parsed(start, 0, true)])
    requires forall i | 0 <= i < |pre| :: !pre[i].active && pre[i].lo <= pre[i].hi + 1 <= start && pre[i].hi > 0
    ensures var s := Parsed(start, next - 1, false);
            var pre' := if s in pre then pre else pre + [s];
            && Opens(pre' + [Parsed(next, 0, true)])
            && forall i | 0 <= i < |pre'| :: !pre'[i].active && pre'[i].lo <= pre'[i].hi + 1 <= next && pre'[i].hi > 0
  {
    hide Opens;
    var a, s := Parsed(next, 0, true), Parsed(start, next - 1, false);
    OpensWithout(pre, Parsed(start, 0, true));
    if s in pre {
      OpensWith(pre, a);
    } else {
      OpensWith(pre, s);
      var pre' := pre + [s];
      assert forall i | 0 <= i < |pre'| :: pre'[i] == if i < |pre| then pre[i] else s;
      OpensWith(pre', a);
    }
  }

  lemma RotationKeepsChain(w: Wal, pre: seq<Parsed>)
    requires NamedUpwards(w) && Chained(w, pre) && w.next > 1
    ensures Chained(Rotated(w), PreAfter(w, pre))
  {
    RotatedFiles(w);
    var a, a', s := Parsed(w.Tail().start, 0, true), Parsed(w.next, 0, true), Parsed(w.Tail().start, w.next - 1, false);
    var pre' := PreAfter(w, pre);
    ChainGrows(pre, w.Tail().start, w.next);
    hide Rotated, Opens, ParsedNames;
    forall q
      ensures q in pre' + [a'] <==> q in ParsedNames(Rotated(w).files)
    {
      NamesAfterRotation(w, q);
      assert q in pre + [a] <==> q in ParsedNames(w.files);
    }
  }

  lemma WriteKeepsChain(w: Wal, r: Record, pre: seq<Parsed>)
    requires w.Writable() && Chained(w, pre)
    ensures Chained(Written(w, r), pre)
  {
    var d, d' := w.files, Written(w, r).files;
    hide Opens;
    assert d'.Keys == d.Keys;
    assert forall n :: n in d' <==> n in d;
    assert ParsedNames(d') == ParsedNames(d);
  }

  lemma AppendKeepsChain(w: Wal, r: Record, segmentSize: nat, pre: seq<Parsed>) returns (pre': seq<Parsed>)
    requires Covered(w) && Chained(w, pre) && segmentSize > 0 && Positive(w.Log())
    ensures Appended(w, r, segmentSize).Writable() && Chained(Appended(w, r, segmentSize), pre')
  {
    AppendedIsWritable(w, r, segmentSize);
    pre' := pre;
    if Size(w.Tail().recs) >= segmentSize {
      FullIsPast(w, segmentSize);
      hide Covered, Rotated, Written, Chained;
      pre' := PreAfter(w, pre);
      RotationKeepsChain(w, pre);
      RotatedIsWritable(w);
      WriteKeepsChain(Rotated(w), r, pre');
    } else {
      hide Covered, Written, Chained;
      WriteKeepsChain(w, r, pre);
    }
  }

  /** Every record is covered, and the names can be put in an order that opens. */
  ghost predicate Orderly(w: Wal) {
    Covered(w) && Positive(w.Log()) && exists pre :: Chained(w, pre)
  }

  lemma FreshIsOrderly()
    ensures Orderly(Fresh(1))
  {
    hide Covered, Chained;
    FreshIsCovered();
    FreshIsChained();
    assert Fresh(1).Log() == [];
  }

  lemma AppendStaysOrderly(w: Wal, r: Record, segmentSize: nat)
    requires Orderly(w) && segmentSize > 0 && r.index > 0 && (r in w.Log() || r.index >= w.next)
    ensures Orderly(Appended(w, r, segmentSize)) && Appended(w, r, segmentSize).Writable()
  {
    hide Covered, Chained, Appended, Wal.Writable, Records;
    CoveredIsWritable(w);
    AppendedIsWritable(w, r, segmentSize);
    AppendKeepsCover(w, r, segmentSize);
    var pre :| Chained(w, pre);
    var pre' := AppendKeepsChain(w, r, segmentSize, pre);
  }

  /** Writing a stretch of a history whose beginning was written, for the first time or again. */
  lemma {:induction false} StretchStaysOrderly(w: Wal, c: seq<Record>, i: nat, j: nat, segmentSize: nat)
    requires Orderly(w) && segmentSize > 0 && Increasing(c) && i <= j <= |c| && Reached(w, c, i)
    ensures w.Writable() && AppendAll(w, c[i..j], segmentSize).Writable() && Orderly(AppendAll(w, c[i..j], segmentSize))
    ensures Reached(AppendAll(w, c[i..j], segmentSize), c, j)
    decreases j - i
  {
    OrderlyIsWritable(w);
    if i < j {
      assert c[i].index > 0;
      hide Orderly, Reached, Appended, Wal.Writable, Increasing;
      var r, rest := c[i], c[i + 1..j];
      assert c[i..j][0] == r && c[i..j][1..] == rest;
      ReachedNext(w, c, i, segmentSize);
      AppendStaysOrderly(w, r, segmentSize);
      StretchStaysOrderly(Appended(w, r, segmentSize), c, i + 1, j, segmentSize);
    } else {
      assert c[i..j] == [];
    }
  }

  lemma OrderlyIsWritable(w: Wal)
    requires Orderly(w)
    ensures w.Writable()
  {
    hide Chained;
  }

  /** One order of the names opens; every order does exactly when no sealed name has an empty range. */
  lemma ChainOpensIff(w: Wal, pre: seq<Parsed>)
    requires Chained(w, pre)
    ensures exists segs :: IsSortedNames(w.files, segs) && Continuous(segs)
    ensures (forall segs | IsSortedNames(w.files, segs) :: Continuous(segs)) <==>
            forall n | n in w.files && n.Sealed? :: n.lo <= n.hi
  {
    var a := Parsed(w.Tail().start, 0, true);
    var e := pre + [a];
    assert IsSortedNames(w.files, e) && Continuous(e);
    RangesInChain(w, pre);
    hide Continuous, ParsedNames;
    if forall i | 0 <= i < |pre| :: pre[i].lo <= pre[i].hi {
      StrictChain(pre, a);
      forall segs | IsSortedNames(w.files, segs)
        ensures Continuous(segs)
      {
        SortedArrangementIsUnique(segs, e);
      }
    } else {
      var i :| 0 <= i < |pre| && pre[i].lo > pre[i].hi;
      var f := SwappedOrder(pre, a, i);
      assert IsSortedNames(w.files, f) && !Continuous(f);
    }
  }

  lemma RangesInChain(w: Wal, pre: seq<Parsed>)
    requires Chained(w, pre)
    ensures (forall n | n in w.files && n.Sealed? :: n.lo <= n.hi) <==> forall i | 0 <= i < |pre| :: pre[i].lo <= pre[i].hi
  {
    hide Opens;
    var a := Parsed(w.Tail().start, 0, true);
    forall n | n in w.files && n.Sealed?
      ensures ParseName(n) in pre
    {
      assert ParseName(n) in ParsedNames(w.files) && ParseName(n) in pre + [a];
    }
    forall i | 0 <= i < |pre|
      ensures Sealed(pre[i].lo, pre[i].hi) in w.files
    {
      assert (pre + [a])[i] == pre[i] && pre[i] in ParsedNames(w.files);
      var n :| n in w.files && !n.Temp? && ParseName(n) == pre[i];
    }
  }

  lemma StrictChain(pre: seq<Parsed>, a: Parsed)
    requires Opens(pre + [a]) && forall i | 0 <= i < |pre| :: pre[i].lo <= pre[i].hi
    ensures StrictlySorted(pre + [a])
  {
    var e := pre + [a];
    forall i, j | 0 <= i < j < |e|
      ensures e[i].lo < e[j].lo
    {
      assert Adjacent(e[i], e[i + 1]) && e[i] == pre[i];
      assert e[i + 1].lo <= e[j].lo;
    }
  }

  /** A name with an empty range and the one behind it start alike, so sorting may swap them. */
  lemma SwappedOrder(pre: seq<Parsed>, a: Parsed, i: nat) returns (f: seq<Parsed>)
    requires Opens(pre + [a]) && a == Parsed(a.lo, 0, true) && i < |pre| && pre[i].lo > pre[i].hi
    requires forall k | 0 <= k < |pre| :: !pre[k].active && pre[k].lo <= pre[k].hi + 1 <= a.lo && pre[k].hi > 0
    ensures SortedByStart(f) && Distinct(f) && !Continuous(f) && forall q :: q in f <==> q in pre + [a]
  {
    var e := pre + [a];
    assert e[i] == pre[i] && Adjacent(e[i], e[i + 1]) && e[i] != e[i + 1];
    f := e[i := e[i + 1]][i + 1 := e[i]];
    assert !Adjacent(f[i], f[i + 1]);
    forall q
      ensures q in f <==> q in e
    {
      if q in e {
        var k :| 0 <= k < |e| && e[k] == q;
        assert q == f[if k == i then i + 1 else if k == i + 1 then i else k];
      }
      if q in f {
        var k :| 0 <= k < |f| && f[k] == q;
        assert q == e[if k == i then i + 1 else if k == i + 1 then i else k];
      }
    }
  }

  lemma FullIsPast(w: Wal, segmentSize: nat)
    requires Covered(w) && segmentSize > 0 && Positive(w.Log()) && Size(w.Tail().recs) >= segmentSize
    ensures w.next > 1
  {
    assert Size([]) == 0;
    var recs := w.Tail().recs;
    TailIsLogged(w);
    assert recs[0] in w.Log();
  }
}
