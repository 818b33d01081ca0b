/** The processing queue: a fixed array whose live part is kept compact by swap-removal. */
module ReadyQueue {

  /** A reference to a stored job; `cell` is its position in the queue. */
  datatype JobRef = JobRef(index: int, retryCount: int, cell: int, dueTimeSec: int)

  const TOMBSTONE := JobRef(-1, -1, -1, -1)

  predicate Numbered(live: seq<JobRef>) {
    forall i | 0 <= i < |live| :: live[i].cell == i
  }

  // ---------------------------------------------------------------- swap-removal on plain sequences

  /** Removes position `c`: the last element moves there. Positions outside the sequence are ignored. */
  function SwapRemove<T>(s: seq<T>, c: int): seq<T> {
    if c < 0 || c >= |s| then s
    else s[c := s[|s| - 1]][..|s| - 1]
  }

  /** Removes the listed positions, the last listed first. */
  function RemoveAll<T>(s: seq<T>, cells: seq<int>): seq<T> {
    if cells == [] then s else SwapRemove(RemoveAll(s, cells[1..]), cells[0])
  }

  /** How many elements are left of `n` after the listed removals. */
  function LeftOf(n: nat, cells: seq<int>): nat {
    if cells == [] then n
    else
      var m := LeftOf(n, cells[1..]);
      if 0 <= cells[0] < m then m - 1 else m
  }

  /** Whether the `i`-th listed cell is really removed: it must still lie inside the queue when its turn
      comes, after all later listed cells. */
  predicate Hits(n: nat, cells: seq<int>, i: nat)
    requires i < |cells|
  {
    0 <= cells[i] < LeftOf(n, cells[i + 1..])
  }

  predicate DistinctCells(cells: seq<int>) {
    forall i, j | 0 <= i < j < |cells| :: cells[i] != cells[j]
  }

  function Identity(n: nat): seq<nat> {
    seq(n, i => i)
  }

  /** The positions that are left, written as original positions in their new order. */
  function Left(n: nat, cells: seq<int>): seq<nat> {
    RemoveAll(Identity(n), cells)
  }

  /** `p` is listed and its removal takes effect. */
  ghost predicate Removed(n: nat, cells: seq<int>, p: int) {
    exists i :: 0 <= i < |cells| && cells[i] == p && Hits(n, cells, i)
  }

  lemma HitsOfRest(n: nat, cells: seq<int>, i: nat)
    requires cells != [] && i < |cells| - 1
    ensures Hits(n, cells[1..], i) == Hits(n, cells, i + 1)
  {
    assert cells[1..][i + 1..] == cells[i + 2..];
  }

  lemma RemovedOfRest(n: nat, cells: seq<int>, p: int)
    requires cells != []
    ensures Removed(n, cells, p) <==> Removed(n, cells[1..], p) || (cells[0] == p && Hits(n, cells, 0))
  {
    if Removed(n, cells, p) {
      var i :| 0 <= i < |cells| && cells[i] == p && Hits(n, cells, i);
      if i > 0 {
        HitsOfRest(n, cells, i - 1);
        assert cells[1..][i - 1] == p;
      }
    }
    if Removed(n, cells[1..], p) {
      var i :| 0 <= i < |cells[1..]| && cells[1..][i] == p && Hits(n, cells[1..], i);
      HitsOfRest(n, cells, i);
      assert cells[i + 1] == p;
    }
  }

  lemma SwapRemoveMembers(s: seq<nat>, c: nat)
    requires c < |s| && forall i, j | 0 <= i < j < |s| :: s[i] != s[j]
    ensures forall p :: p in SwapRemove(s, c) <==> p in s && p != s[c]
    ensures forall i, j | 0 <= i < j < |s| - 1 :: SwapRemove(s, c)[i] != SwapRemove(s, c)[j]
  {
    var t, last := SwapRemove(s, c), |s| - 1;
    forall p | p in s && p != s[c]
      ensures p in t
    {
      var i :| 0 <= i < |s| && s[i] == p;
      assert t[if i == last then c else i] == p;
    }
  }

  /** For distinct cells in any order: a listed cell is removed exactly if it still lies inside the queue
      when its turn comes; no unlisted position is ever removed; unlisted positions that were not moved
      stay where they are. */
  lemma {:induction false} SwapRemovalIsExact(n: nat, cells: seq<int>)
    requires DistinctCells(cells)
    ensures |Left(n, cells)| == LeftOf(n, cells)
    ensures forall i, j | 0 <= i < j < |Left(n, cells)| :: Left(n, cells)[i] != Left(n, cells)[j]
    ensures forall p: nat :: p in Left(n, cells) <==> p < n && !Removed(n, cells, p)
    ensures forall k | 0 <= k < |Left(n, cells)| && k !in cells :: Left(n, cells)[k] == k
  {
    if cells == [] {
      forall p: nat | p < n
        ensures p in Identity(n)
      {
        assert Identity(n)[p] == p;
      }
    } else {
      var rest, c := cells[1..], cells[0];
      SwapRemovalIsExact(n, rest);
      var s := Left(n, rest);
      assert c !in rest;
      forall p: nat
        ensures Removed(n, cells, p) <==> Removed(n, rest, p) || (c == p && Hits(n, cells, 0))
      {
        RemovedOfRest(n, cells, p);
      }
      assert Hits(n, cells, 0) <==> 0 <= c < |s|;
      hide Removed, Hits;
      if 0 <= c < |s| {
        SwapRemoveMembers(s, c);
      }
    }
  }

  // ---------------------------------------------------------------- when all listed cells are removed

  /** Each listed cell leaves room for the cells listed after it. */
  predicate Fits(n: nat, cells: seq<int>) {
    forall i | 0 <= i < |cells| :: 0 <= cells[i] <= n - |cells| + i
  }

  lemma {:induction false} LeftWhenAllHit(n: nat, cells: seq<int>)
    requires Fits(n, cells)
    ensures |cells| <= n && LeftOf(n, cells) == n - |cells|
  {
    if cells != [] {
      var rest := cells[1..];
      assert 0 <= cells[0] <= n - |cells|;
      forall i | 0 <= i < |rest|
        ensures 0 <= rest[i] <= n - |rest| + i
      {
        assert rest[i] == cells[i + 1];
      }
      LeftWhenAllHit(n, rest);
    }
  }

  lemma {:induction false} LeftAtLeast(n: nat, cells: seq<int>)
    ensures LeftOf(n, cells) + |cells| >= n
    ensures LeftOf(n, cells) + |cells| == n ==> Fits(n, cells)
  {
    if cells != [] {
      var rest := cells[1..];
      LeftAtLeast(n, rest);
      if LeftOf(n, cells) + |cells| == n {
        forall i | 0 <= i < |cells|
          ensures 0 <= cells[i] <= n - |cells| + i
        {
          if i > 0 {
            assert cells[i] == rest[i - 1];
          }
        }
      }
    }
  }

  lemma {:induction false} LeftWhenHits(n: nat, cells: seq<int>)
    requires forall i | 0 <= i < |cells| :: Hits(n, cells, i)
    ensures LeftOf(n, cells) + |cells| == n
  {
    if cells != [] {
      assert Hits(n, cells, 0);
      forall i | 0 <= i < |cells[1..]|
        ensures Hits(n, cells[1..], i)
      {
        HitsOfRest(n, cells, i);
      }
      LeftWhenHits(n, cells[1..]);
    }
  }

  /** All listed cells are removed exactly when the `i`-th of `m` listed cells is at most `n - m + i`. */
  lemma AllHitIff(n: nat, cells: seq<int>)
    ensures (forall i | 0 <= i < |cells| :: Hits(n, cells, i)) <==> Fits(n, cells)
  {
    if forall i | 0 <= i < |cells| :: Hits(n, cells, i) {
      LeftWhenHits(n, cells);
      LeftAtLeast(n, cells);
    }
    if Fits(n, cells) {
      forall i | 0 <= i < |cells|
        ensures Hits(n, cells, i)
      {
        var rest := cells[i + 1..];
        assert forall j | 0 <= j < |rest| :: rest[j] == cells[i + 1 + j];
        LeftWhenAllHit(n, rest);
      }
    }
  }

  /** Strictly ascending cells of the queue always fit. */
  lemma {:induction false} AscendingFits(n: nat, cells: seq<int>, i: nat)
    requires forall j, k | 0 <= j < k < |cells| :: cells[j] < cells[k]
    requires forall j | 0 <= j < |cells| :: 0 <= cells[j] < n
    requires i < |cells|
    ensures cells[i] <= n - |cells| + i
    decreases |cells| - i
  {
    if i + 1 < |cells| {
      AscendingFits(n, cells, i + 1);
      assert cells[i] < cells[i + 1];
    }
  }

  // ---------------------------------------------------------------- references

  /** Removes one cell of the queue; the reference that moves learns its new cell. */
  function RemoveRef(live: seq<JobRef>, c: int): seq<JobRef> {
    if c < 0 || c >= |live| then live
    else
      var last := |live| - 1;
      (if c != last then live[c := live[last].(cell := c)] else live)[..last]
  }

  function RemoveRefs(live: seq<JobRef>, cells: seq<int>): seq<JobRef> {
    if cells == [] then live else RemoveRef(RemoveRefs(live, cells[1..]), cells[0])
  }

  function Renumber(s: seq<JobRef>): seq<JobRef> {
    seq(|s|, i requires 0 <= i < |s| => s[i].(cell := i))
  }

  /** Swap-removal with cell updates is plain swap-removal followed by numbering. */
  lemma {:induction false} RemoveRefsRenumbers(live: seq<JobRef>, cells: seq<int>)
    requires Numbered(live)
    ensures RemoveRefs(live, cells) == Renumber(RemoveAll(live, cells))
    ensures Numbered(RemoveRefs(live, cells))
  {
    if cells == [] {
      assert Renumber(live) == live;
    } else {
      RemoveRefsRenumbers(live, cells[1..]);
      var s := RemoveAll(live, cells[1..]);
      assert RemoveRef(Renumber(s), cells[0]) == Renumber(SwapRemove(s, cells[0]));
    }
  }

  /** The element at position `k` after the removals is the one whose position is listed there. */
  lemma {:induction false} RemoveAllPlaces<T>(s: seq<T>, cells: seq<int>)
    ensures |RemoveAll(s, cells)| == |Left(|s|, cells)| <= |s|
    ensures forall k | 0 <= k < |Left(|s|, cells)| ::
              Left(|s|, cells)[k] < |s| && RemoveAll(s, cells)[k] == s[Left(|s|, cells)[k]]
  {
    if cells != [] {
      RemoveAllPlaces(s, cells[1..]);
    }
  }

  /** After removing distinct cells, the reference at each cell `k` is one of the old references with its
      cell set to `k`, every old reference whose cell was not hit is still there, and none that was hit is. */
  lemma RemovedRefs(live: seq<JobRef>, cells: seq<int>)
    requires Numbered(live) && DistinctCells(cells)
    ensures Numbered(RemoveRefs(live, cells))
    ensures |RemoveRefs(live, cells)| == |Left(|live|, cells)|
    ensures forall k | 0 <= k < |Left(|live|, cells)| ::
              Left(|live|, cells)[k] < |live| && RemoveRefs(live, cells)[k] == live[Left(|live|, cells)[k]].(cell := k)
    ensures forall p: nat :: p in Left(|live|, cells) <==> p < |live| && !Removed(|live|, cells, p)
  {
    hide Removed;
    RemoveRefsRenumbers(live, cells);
    RemoveAllPlaces(live, cells);
    SwapRemovalIsExact(|live|, cells);
  }

  function CellsOf(refs: seq<JobRef>): seq<int> {
    seq(|refs|, i requires 0 <= i < |refs| => refs[i].cell)
  }
}
