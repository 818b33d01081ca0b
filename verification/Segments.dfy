/** The segmented log as a value: a directory of files, and the layout its file names describe.

    A sealed file is named by the first index expected in it and the last one; the active file only by the
    first. A temporary file exists while a rotation is under way. */
module Segments {
  import opened History

  datatype Name = Sealed(lo: nat, hi: nat) | Active(start: nat) | Temp(at: nat)

  type Dir = map<Name, seq<Record>>

  datatype Segment = Segment(lo: nat, hi: nat, recs: seq<Record>)

  datatype Tail = Tail(start: nat, recs: seq<Record>)

  /** Sealed segments, oldest first, and the active one if there is one. */
  datatype Layout = Layout(sealed: seq<Segment>, active: Option<Tail>)

  function FileOf(s: Segment): Name {
    Sealed(s.lo, s.hi)
  }

  predicate Within(recs: seq<Record>, hi: nat) {
    forall i | 0 <= i < |recs| :: 0 < recs[i].index <= hi
  }

  ghost predicate Linked(sealed: seq<Segment>) {
    forall i, j | 0 <= i < j < |sealed| && j == i + 1 :: sealed[i].hi + 1 == sealed[j].lo
  }

  /** File names that leave no gap, each with a range that is not empty. */
  ghost predicate NamesOk(l: Layout) {
    && (forall i | 0 <= i < |l.sealed| :: l.sealed[i].lo <= l.sealed[i].hi)
    && Linked(l.sealed)
    && (l.active.Some? ==> 0 < l.active.value.start)
    && (l.active.Some? && l.sealed != [] ==> l.sealed[|l.sealed| - 1].hi + 1 == l.active.value.start)
  }

  /** No sealed file holds an index above the one its name ends with. */
  ghost predicate ContentsOk(l: Layout) {
    (forall i | 0 <= i < |l.sealed| :: Within(l.sealed[i].recs, l.sealed[i].hi)) && Positive(TailRecords(l))
  }

  /** What every operation relies on. Nothing is said about the order of records: a batch that is written again
      after a failure repeats some, and a file may hold records below the index its name starts with. */
  ghost predicate WellFormed(l: Layout) {
    NamesOk(l) && ContentsOk(l)
  }

  /** Records in order, and every sealed file ends with the record its name ends with. */
  ghost predicate Truthful(l: Layout) {
    && Increasing(Records(l))
    && forall i | 0 <= i < |l.sealed| :: l.sealed[i].recs != [] && LastIndex(l.sealed[i].recs) == l.sealed[i].hi
  }

  predicate HasFiles(d: Dir, l: Layout) {
    && (forall i | 0 <= i < |l.sealed| :: FileOf(l.sealed[i]) in d && d[FileOf(l.sealed[i])] == l.sealed[i].recs)
    && (l.active.Some? ==> Active(l.active.value.start) in d && d[Active(l.active.value.start)] == l.active.value.recs)
  }

  predicate HasNoOthers(d: Dir, l: Layout) {
    forall n | n in d :: IsFileOf(n, l)
  }

  /** The files of `d`, temporaries aside, are exactly those of `l`. */
  predicate Holds(d: Dir, l: Layout) {
    HasFiles(d, l) && HasNoOthers(d, l)
  }

  predicate IsFileOf(n: Name, l: Layout) {
    match n
    case Temp(_) => true
    case Active(start) => l.active.Some? && l.active.value.start == start
    case Sealed(lo, hi) => exists i :: 0 <= i < |l.sealed| && l.sealed[i].lo == lo && l.sealed[i].hi == hi
  }

  function Flatten(sealed: seq<Segment>): seq<Record> {
    if sealed == [] then [] else Flatten(sealed[..|sealed| - 1]) + sealed[|sealed| - 1].recs
  }

  function TailRecords(l: Layout): seq<Record> {
    if l.active.Some? then l.active.value.recs else []
  }

  /** All records of a layout, oldest segment first. */
  function Records(l: Layout): seq<Record> {
    Flatten(l.sealed) + TailRecords(l)
  }

  /** The names of the directory describe a layout with the records `c`: then a restart gets exactly these. */
  ghost predicate RecoversTo(d: Dir, c: seq<Record>) {
    exists l :: Holds(d, l) && NamesOk(l) && Records(l) == c
  }

  // ---------------------------------------------------------------- layout facts

  lemma {:induction false} FlattenConcat(a: seq<Segment>, b: seq<Segment>)
    ensures Flatten(a + b) == Flatten(a) + Flatten(b)
  {
    if b == [] {
      assert a + b == a;
    } else {
      assert (a + b)[..|a + b| - 1] == a + b[..|b| - 1];
      FlattenConcat(a, b[..|b| - 1]);
    }
  }

  lemma {:induction false} FlattenMember(sealed: seq<Segment>, r: Record)
    ensures r in Flatten(sealed) <==> exists i :: 0 <= i < |sealed| && r in sealed[i].recs
  {
    if sealed != [] {
      FlattenMember(sealed[..|sealed| - 1], r);
    }
  }

  /** Later segments lie strictly above earlier ones. */
  lemma {:induction false} SegmentsAscend(sealed: seq<Segment>, i: nat, j: nat)
    requires Linked(sealed) && forall k | 0 <= k < |sealed| :: sealed[k].lo <= sealed[k].hi
    requires i < j < |sealed|
    ensures sealed[i].hi < sealed[j].lo
    decreases j - i
  {
    if i + 1 < j {
      SegmentsAscend(sealed, i, j - 1);
    }
  }

  lemma IncreasingSuffix(c: seq<Record>, k: nat)
    requires Increasing(c) && k <= |c|
    ensures Increasing(c[k..]) && Increasing(c[..k])
  {
  }

  lemma UpToLast(c: seq<Record>)
    requires Increasing(c)
    ensures forall i | 0 <= i < |c| :: c[i].index <= LastIndex(c)
  {
  }

  lemma {:induction false} FlattenWithin(sealed: seq<Segment>, u: nat)
    requires forall i | 0 <= i < |sealed| :: Within(sealed[i].recs, sealed[i].hi) && sealed[i].hi <= u
    ensures Within(Flatten(sealed), u)
  {
    hide Within;
    if sealed != [] {
      var f, s := sealed[..|sealed| - 1], sealed[|sealed| - 1];
      FlattenWithin(f, u);
      WithinConcat(Flatten(f), s.recs, s.hi, u);
    } else {
      WithinConcat([], [], u, u);
    }
  }

  lemma WithinConcat(a: seq<Record>, b: seq<Record>, hi: nat, u: nat)
    ensures Within(a, u) && Within(b, hi) && hi <= u ==> Within(a + b, u)
    ensures Within([], u)
  {
  }

  // ---------------------------------------------------------------- file names determine the layout

  /** A directory entry as parsed from its name: an active segment carries 0 as its end. */
  datatype Parsed = Parsed(lo: nat, hi: nat, active: bool)

  function ParseName(n: Name): Parsed
    requires !n.Temp?
  {
    match n
    case Sealed(lo, hi) => Parsed(lo, hi, false)
    case Active(start) => Parsed(start, 0, true)
  }

  /** Insertion into a list sorted by start index. */
  function Insert(s: seq<Parsed>, p: Parsed): seq<Parsed> {
    if s == [] || s[|s| - 1].lo <= p.lo then s + [p]
    else Insert(s[..|s| - 1], p) + [s[|s| - 1]]
  }

  predicate SortedByStart(s: seq<Parsed>) {
    forall i, j | 0 <= i < j < |s| :: s[i].lo <= s[j].lo
  }

  predicate Distinct(s: seq<Parsed>) {
    forall i, j | 0 <= i < j < |s| :: s[i] != s[j]
  }

  lemma {:induction false} InsertSorts(s: seq<Parsed>, p: Parsed)
    requires SortedByStart(s) && Distinct(s) && p !in s
    ensures SortedByStart(Insert(s, p)) && Distinct(Insert(s, p))
    ensures forall q :: q in Insert(s, p) <==> q in s || q == p
  {
    if s != [] && s[|s| - 1].lo > p.lo {
      var f := s[..|s| - 1];
      assert s == f + [s[|s| - 1]];
      InsertSorts(f, p);
      assert s[|s| - 1] !in f;
      var g := Insert(f, p);
      forall i | 0 <= i < |g|
        ensures g[i].lo <= s[|s| - 1].lo
      {
        assert g[i] in g;
      }
    }
  }

  /** The layout in the order in which the parsed names have to appear. */
  function Expected(l: Layout): seq<Parsed> {
    seq(|l.sealed|, i requires 0 <= i < |l.sealed| => Parsed(l.sealed[i].lo, l.sealed[i].hi, false)) +
    if l.active.Some? then [Parsed(l.active.value.start, 0, true)] else []
  }

  predicate StrictlySorted(s: seq<Parsed>) {
    forall i, j | 0 <= i < j < |s| :: s[i].lo < s[j].lo
  }

  lemma ExpectedStrictlySorted(l: Layout)
    requires NamesOk(l)
    ensures StrictlySorted(Expected(l))
  {
    var e, n := Expected(l), |l.sealed|;
    forall i, j | 0 <= i < j < |e|
      ensures e[i].lo < e[j].lo
    {
      if j < n {
        SegmentsAscend(l.sealed, i, j);
      } else if i < n - 1 {
        SegmentsAscend(l.sealed, i, n - 1);
      }
    }
  }

  lemma EmptyOrInhabited(s: seq<Parsed>)
    ensures s == [] || exists q :: q in s
  {
    if s != [] {
      assert s[0] in s;
    }
  }

  lemma FrontMembers(s: seq<Parsed>, q: Parsed)
    requires s != [] && Distinct(s)
    ensures q in s[..|s| - 1] <==> q in s && q != s[|s| - 1]
  {
    assert s == s[..|s| - 1] + [s[|s| - 1]];
  }

  /** A strictly sorted list is the only sorted arrangement of its elements. */
  lemma {:induction false} SortedArrangementIsUnique(s: seq<Parsed>, e: seq<Parsed>)
    requires SortedByStart(s) && Distinct(s) && StrictlySorted(e)
    requires forall q :: q in s <==> q in e
    ensures s == e
  {
    if e == [] {
      EmptyOrInhabited(s);
    } else {
      assert e[0] in e;
      var m, n := |s| - 1, |e| - 1;
      assert s[m] == e[n] by {
        assert s[m] in s && e[n] in e;
        assert s[m] in e && e[n] in s;
        var i :| 0 <= i < |e| && e[i] == s[m];
        var j :| 0 <= j < |s| && s[j] == e[n];
      }
      forall q
        ensures q in s[..m] <==> q in e[..n]
      {
        FrontMembers(s, q);
        FrontMembers(e, q);
      }
      SortedArrangementIsUnique(s[..m], e[..n]);
    }
  }
}
