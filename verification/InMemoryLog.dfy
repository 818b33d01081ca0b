/** The in-memory Raft log: appending with conflict truncation. */
module InMemoryLog {
  import opened History

  datatype RaftLog = RaftLog(entries: map<nat, Record>, first: nat, last: nat)

  /** One appended entry: the tail from its index on goes, then the entry is stored. `last` never shrinks. */
  function Overwrite(l: RaftLog, e: Record): RaftLog {
    RaftLog((map i | i in l.entries && !(e.index <= i <= l.last) :: l.entries[i])[e.index := e],
            if l.first == 0 || e.index < l.first then e.index else l.first,
            if e.index > l.last then e.index else l.last)
  }

  function OverwriteAll(l: RaftLog, batch: seq<Record>): RaftLog {
    if batch == [] then l else Overwrite(OverwriteAll(l, batch[..|batch| - 1]), batch[|batch| - 1])
  }

  predicate Contiguous(batch: seq<Record>) {
    forall k | 0 <= k < |batch| :: batch[k].index == batch[0].index + k
  }

  predicate Bounded(l: RaftLog) {
    forall i | i in l.entries :: i <= l.last
  }

  predicate At(entries: map<nat, Record>, i: nat, r: Record) {
    i in entries && entries[i] == r
  }

  /** `now` is the part of `was` below the batch, followed by the batch. */
  predicate IsSpliced(was: map<nat, Record>, batch: seq<Record>, now: map<nat, Record>)
    requires batch != []
  {
    var b := batch[0].index;
    && (forall i | i in now :: i < b + |batch|)
    && (forall i | i in now && i < b :: i in was && now[i] == was[i])
    && (forall i | i in was && i < b :: i in now)
    && (forall k | 0 <= k < |batch| :: At(now, b + k, batch[k]))
  }

  /** Appending a contiguous batch leaves exactly the old prefix followed by the batch, wherever it starts. */
  lemma {:induction false} ConflictTruncation(l: RaftLog, batch: seq<Record>)
    requires Bounded(l) && batch != [] && Contiguous(batch)
    ensures IsSpliced(l.entries, batch, OverwriteAll(l, batch).entries)
    ensures OverwriteAll(l, batch).last == var e := batch[0].index + |batch| - 1; if e > l.last then e else l.last
    ensures Bounded(OverwriteAll(l, batch))
  {
    var f, e := batch[..|batch| - 1], batch[|batch| - 1];
    assert batch == f + [e];
    hide IsSpliced, Overwrite, Bounded;
    if f == [] {
      assert OverwriteAll(l, f) == l;
      SpliceFirst(l, e);
    } else {
      ConflictTruncation(l, f);
      SpliceNext(l.entries, f, OverwriteAll(l, f), e);
    }
    LastAfter(OverwriteAll(l, f), e);
  }

  lemma LastAfter(l: RaftLog, e: Record)
    ensures Bounded(l) ==> Bounded(Overwrite(l, e))
    ensures Overwrite(l, e).last == if e.index > l.last then e.index else l.last
  {
  }

  lemma SpliceFirst(l: RaftLog, e: Record)
    requires Bounded(l)
    ensures IsSpliced(l.entries, [e], Overwrite(l, e).entries)
  {
  }

  /** Once the tail is gone, later entries of the batch find nothing to remove. */
  lemma SpliceNext(was: map<nat, Record>, f: seq<Record>, l: RaftLog, e: Record)
    requires f != [] && IsSpliced(was, f, l.entries) && e.index == f[0].index + |f|
    ensures IsSpliced(was, f + [e], Overwrite(l, e).entries)
  {
    assert Overwrite(l, e).entries == l.entries[e.index := e];
  }

  /** Every index from `first` to `last` is present, and no other. */
  predicate Dense(l: RaftLog) {
    (forall i: nat :: i in l.entries ==> l.first <= i <= l.last) && forall i: nat | l.first <= i <= l.last :: i in l.entries
  }

  /** The first index becomes the smallest one ever appended; 0 stands for none. */
  lemma {:induction false} FirstAfter(l: RaftLog, batch: seq<Record>)
    requires batch != [] && Contiguous(batch) && batch[0].index > 0
    ensures OverwriteAll(l, batch).first == if l.first == 0 || batch[0].index < l.first then batch[0].index else l.first
  {
    var f := batch[..|batch| - 1];
    if f != [] {
      FirstAfter(l, f);
    }
  }

  /** A dense log that takes a batch starting inside it or right after it stays dense exactly when the
      batch reaches the old end: `last` is not lowered, so a shorter conflicting batch leaves it too high. */
  lemma DenseAfterIff(l: RaftLog, batch: seq<Record>)
    requires Dense(l) && 0 < l.first && batch != [] && Contiguous(batch)
    requires l.first <= batch[0].index <= l.last + 1
    ensures Dense(OverwriteAll(l, batch)) <==> batch[0].index + |batch| - 1 >= l.last
  {
    ConflictTruncation(l, batch);
    FirstAfter(l, batch);
    var now := OverwriteAll(l, batch);
    hide OverwriteAll, Contiguous, Bounded, Dense, IsSpliced;
    DenseSplice(l, batch, now);
  }

  const OLD_LOG := RaftLog(map[1 := Record(1, Other, 0), 2 := Record(2, Other, 0), 3 := Record(3, Other, 0)], 1, 3)

  /** One entry that conflicts at index 2 of a log of three: the third is gone and the last index still 3. */
  lemma ShortBatchLeavesLastTooHigh()
    ensures Dense(OLD_LOG)
    ensures var now := OverwriteAll(OLD_LOG, [Record(2, Drop([]), 0)]); now.last == 3 && 3 !in now.entries && !Dense(now)
  {
    var batch := [Record(2, Drop([]), 0)];
    assert batch[..0] == [];
    DenseAfterIff(OLD_LOG, batch);
  }

  lemma DenseSplice(l: RaftLog, batch: seq<Record>, now: RaftLog)
    requires Dense(l) && batch != [] && IsSpliced(l.entries, batch, now.entries)
    requires l.first <= batch[0].index <= l.last + 1 && now.first == l.first
    requires now.last == var e := batch[0].index + |batch| - 1; if e > l.last then e else l.last
    ensures Dense(now) <==> batch[0].index + |batch| - 1 >= l.last
  {
    var b := batch[0].index;
    forall i: nat | l.first <= i < b + |batch|
      ensures i in now.entries
    {
      if i >= b {
        assert At(now.entries, b + (i - b), batch[i - b]);
      }
    }
    assert l.last in now.entries ==> l.last < b + |batch|;
  }

  // ---------------------------------------------------------------- reading a range

  datatype Fetch = ErrCompacted | ErrUnavailable | Found(entries: seq<Record>)

  /** `es` is the part of the range that starts at `lo` and stops where the size budget does. */
  ghost predicate IsBudgetPrefix(entries: map<nat, Record>, lo: nat, hi: nat, maxSize: nat, es: seq<Record>) {
    && lo + |es| <= (if lo <= hi then hi else lo)
    && (forall k | 0 <= k < |es| :: At(entries, lo + k, es[k]))
    && (maxSize > 0 ==> Size(es) <= maxSize)
    && (lo + |es| < hi ==> lo + |es| in entries && maxSize > 0 && Size(es + [entries[lo + |es|]]) > maxSize)
  }

  lemma {:induction false} SizeGrows(es: seq<Record>, k: nat)
    requires k <= |es|
    ensures Size(es[..k]) <= Size(es)
  {
    if k < |es| {
      assert es[..|es| - 1][..k] == es[..k];
      SizeGrows(es[..|es| - 1], k);
    } else {
      assert es[..k] == es;
    }
  }

  /** No longer part of the range fits the budget. */
  lemma BudgetPrefixIsLongest(entries: map<nat, Record>, lo: nat, hi: nat, maxSize: nat, es: seq<Record>, longer: seq<Record>)
    requires IsBudgetPrefix(entries, lo, hi, maxSize, es)
    requires lo + |longer| <= hi && |longer| > |es|
    requires forall k | 0 <= k < |longer| :: At(entries, lo + k, longer[k])
    ensures maxSize > 0 && Size(longer) > maxSize
  {
    assert longer[..|es| + 1] == es + [entries[lo + |es|]];
    SizeGrows(longer, |es| + 1);
  }

  /** Reading on from `lo` meets a missing entry before the size budget is used up. */
  ghost predicate MeetsGap(entries: map<nat, Record>, lo: nat, hi: nat, maxSize: nat) {
    exists es: seq<Record> :: IsGapAfter(entries, lo, hi, maxSize, es)
  }

  predicate IsGapAfter(entries: map<nat, Record>, lo: nat, hi: nat, maxSize: nat, es: seq<Record>) {
    && lo + |es| < hi && lo + |es| !in entries
    && (forall k | 0 <= k < |es| :: At(entries, lo + k, es[k]))
    && (maxSize > 0 ==> Size(es) <= maxSize)
  }

  /** A range that has a budget prefix meets no gap within the budget. */
  lemma BudgetPrefixMeetsNoGap(entries: map<nat, Record>, lo: nat, hi: nat, maxSize: nat, es: seq<Record>)
    requires IsBudgetPrefix(entries, lo, hi, maxSize, es)
    ensures !MeetsGap(entries, lo, hi, maxSize)
  {
    forall other: seq<Record>
      ensures !IsGapAfter(entries, lo, hi, maxSize, other)
    {
      if |other| > |es| {
        if lo + |other| <= hi && forall k | 0 <= k < |other| :: At(entries, lo + k, other[k]) {
          BudgetPrefixIsLongest(entries, lo, hi, maxSize, es, other);
        }
      } else if |other| < |es| {
        assert At(entries, lo + |other|, es[|other|]);
      }
    }
  }

  /** The `Entries` query: the longest part of the range that fits the budget; compacted below the first
      index; unavailable past the last index or at a gap that the budget reaches. */
  method Entries(l: RaftLog, lo: nat, hi: nat, maxSize: nat) returns (r: Fetch)
    ensures r.ErrCompacted? <==> lo < l.first
    ensures r.ErrUnavailable? <==> lo >= l.first && (hi > l.last + 1 || MeetsGap(l.entries, lo, hi, maxSize))
    ensures r.Found? ==> IsBudgetPrefix(l.entries, lo, hi, maxSize, r.entries)
  {
    if lo < l.first {
      return ErrCompacted;
    }
    if hi > l.last + 1 {
      return ErrUnavailable;
    }
    var es: seq<Record> := [];
    var size, idx := 0, lo;
    while idx < hi
      invariant idx == lo + |es| && (idx <= hi || es == [])
      invariant forall k | 0 <= k < |es| :: At(l.entries, lo + k, es[k])
      invariant size == Size(es) && (maxSize > 0 ==> size <= maxSize)
    {
      if idx !in l.entries {
        assert IsGapAfter(l.entries, lo, hi, maxSize, es);
        return ErrUnavailable;
      }
      var entry := l.entries[idx];
      assert (es + [entry])[..|es|] == es;
      if maxSize > 0 && size + entry.size > maxSize {
        BudgetPrefixMeetsNoGap(l.entries, lo, hi, maxSize, es);
        return Found(es);
      }
      es := es + [entry];
      size := size + entry.size;
      idx := idx + 1;
    }
    BudgetPrefixMeetsNoGap(l.entries, lo, hi, maxSize, es);
    return Found(es);
  }
}
