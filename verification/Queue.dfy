/** The processing queue as the program keeps it: an array overwritten in place. */
module Queue {
  import opened ReadyQueue
  import opened BatchSelection

  /** The live part with one reference replaced by its next attempt. */
  function Retried(live: seq<JobRef>, cell: int, retryCount: int, due: int): seq<JobRef> {
    if 0 <= cell < |live| then live[cell := live[cell].(retryCount := retryCount, dueTimeSec := due)] else live
  }

  class ProcessQueue {
    var records: array<JobRef>
    var liveCount: nat

    ghost predicate Valid()
      reads this, records
    {
      && liveCount <= records.Length
      && Numbered(records[..liveCount])
      && forall i | liveCount <= i < records.Length :: records[i] == TOMBSTONE
    }

    ghost function Live(): seq<JobRef>
      requires liveCount <= records.Length
      reads this, records
    {
      records[..liveCount]
    }

    constructor (capacity: nat)
      ensures Valid() && fresh(records) && records.Length == capacity && Live() == []
    {
      records := new JobRef[capacity](i => TOMBSTONE);
      liveCount := 0;
    }

    /** Fails exactly when the queue is full. */
    method AddNewJob(job: JobRef) returns (ok: bool)
      requires Valid()
      modifies this`liveCount, records
      ensures Valid() && ok == (|old(Live())| < records.Length)
      ensures Live() == if ok then old(Live()) + [job.(cell := |old(Live())|)] else old(Live())
    {
      if liveCount >= records.Length {
        return false;
      }
      records[liveCount] := job.(cell := liveCount);
      liveCount := liveCount + 1;
      return true;
    }

    method RemoveByCellIndex(cell: int)
      requires Valid()
      modifies this`liveCount, records
      ensures Valid() && Live() == RemoveRef(old(Live()), cell)
    {
      if cell < 0 || cell >= liveCount {
        return;
      }
      var last := liveCount - 1;
      if cell != last {
        records[cell] := records[last];
        records[cell] := records[cell].(cell := cell);
      }
      records[last] := TOMBSTONE;
      liveCount := liveCount - 1;
      assert records[..liveCount] == RemoveRef(old(Live()), cell);
    }

    /** Removes the listed cells, the last listed first. */
    method RemoveCells(refs: seq<JobRef>)
      requires Valid()
      modifies this`liveCount, records
      ensures Valid() && Live() == RemoveRefs(old(Live()), CellsOf(refs))
    {
      ghost var cells := CellsOf(refs);
      var i := |refs|;
      while i > 0
        invariant 0 <= i <= |refs| && Valid() && Live() == RemoveRefs(old(Live()), cells[i..])
      {
        i := i - 1;
        assert cells[i..][1..] == cells[i + 1..];
        RemoveByCellIndex(refs[i].cell);
      }
      assert cells[0..] == cells;
    }

    method UpdateRetry(cell: int, retryCount: int, due: int) returns (ok: bool)
      requires Valid()
      modifies records
      ensures Valid() && ok == (0 <= cell < |old(Live())|)
      ensures Live() == Retried(old(Live()), cell, retryCount, due)
    {
      if cell < 0 || cell >= liveCount {
        return false;
      }
      records[cell] := records[cell].(retryCount := retryCount, dueTimeSec := due);
      return true;
    }

    /** First pass: the two oldest distinct due times among the ready references. */
    method TwoOldest(now: int) returns (t1: int, n1: nat, t2: int, n2: nat)
      requires Valid() && now <= MAX_INT64
      ensures n1 == 0 <==> Dues(Live(), now) == {}
      ensures n1 > 0 ==> t1 == Least(Dues(Live(), now))
      ensures n1 > 0 ==> (n2 == 0 <==> Dues(Live(), now) - {t1} == {})
      ensures n1 > 0 && n2 > 0 ==> t2 == Least(Dues(Live(), now) - {t1})
    {
      hide Dues;
      t1, n1, t2, n2 := MAX_INT64, 0, MAX_INT64, 0;
      NoDues(now);
      assert records[..0] == [];
      for i := 0 to liveCount
        invariant Oldest(Dues(records[..i], now), t1, n1, t2, n2)
      {
        hide Oldest;
        var due := records[i].dueTimeSec;
        DuesOfNext(records[..i + 1], now);
        assert records[..i + 1][..i] == records[..i];
        if due <= now {
          OldestStep(Dues(records[..i], now), due, t1, n1, t2, n2);
          if due < t1 {
            t2, n2, t1, n1 := t1, n1, due, 1;
          } else if due == t1 {
            n1 := n1 + 1;
          } else if due < t2 {
            t2, n2 := due, 1;
          } else if due == t2 {
            n2 := n2 + 1;
          }
        }
      }
    }

    /** Appends the references due at `t` in cell order while there is room. */
    method Collect(had: seq<JobRef>, t: int, count: int) returns (items: seq<JobRef>)
      requires Valid() && (|had| <= count || had == [])
      ensures items == Take(had + DueAt(Live(), t), count)
    {
      items := had;
      var i := 0;
      assert had + DueAt(records[..0], t) == had;
      while i < liveCount && |items| < count
        invariant 0 <= i <= liveCount && (|items| <= count || items == [])
        invariant items == had + DueAt(records[..i], t)
      {
        assert records[..i + 1][..i] == records[..i];
        if records[i].dueTimeSec == t {
          items := items + [records[i]];
        }
        i := i + 1;
      }
      DueAtPrefix(records[..liveCount], i, t);
      assert records[..liveCount][..i] == records[..i];
    }

    /** Up to `count` ready references, oldest first. Nothing changes. */
    method ReadBatch(count: int, now: int) returns (items: seq<JobRef>)
      requires Valid() && now <= MAX_INT64
      ensures items == Batch(Live(), count, now)
    {
      hide Dues, DueAt;
      if liveCount == 0 {
        assert Dues(Live(), now) == {} by { NoDues(now); }
        return [];
      }
      var t1, n1, t2, n2 := TwoOldest(now);
      if n1 == 0 {
        return [];
      }
      items := Collect([], t1, count);
      assert [] + DueAt(Live(), t1) == DueAt(Live(), t1);
      if |items| < count && n2 > 0 {
        items := Collect(items, t2, count);
      }
    }
  }

  lemma NoDues(now: int)
    ensures Dues([], now) == {}
  {
  }

  lemma {:induction false} DueAtPrefix(live: seq<JobRef>, i: nat, t: int)
    requires i <= |live|
    ensures DueAt(live[..i], t) <= DueAt(live, t)
  {
    if i < |live| {
      DueAtPrefix(live[..|live| - 1], i, t);
      assert live[..|live| - 1][..i] == live[..i];
    } else {
      assert live[..i] == live;
    }
  }

  /** The two smallest elements of `d`, with counters that say whether they exist. */
  ghost predicate Oldest(d: set<int>, t1: int, n1: nat, t2: int, n2: nat) {
    && (n1 == 0 <==> d == {})
    && t1 == (if d == {} then MAX_INT64 else Least(d))
    && (n2 == 0 <==> d - {t1} == {})
    && t2 == (if d - {t1} == {} then MAX_INT64 else Least(d - {t1}))
    && forall x | x in d :: x <= MAX_INT64
  }

  lemma DuesOfNext(live: seq<JobRef>, now: int)
    requires live != []
    ensures Dues(live, now) == if live[|live| - 1].dueTimeSec <= now
                               then Dues(live[..|live| - 1], now) + {live[|live| - 1].dueTimeSec}
                               else Dues(live[..|live| - 1], now)
  {
    var f, n := live[..|live| - 1], |live| - 1;
    assert forall i | 0 <= i < n :: f[i] == live[i];
    forall t | t in Dues(f, now)
      ensures t in Dues(live, now)
    {
      var i :| 0 <= i < |f| && f[i].dueTimeSec <= now && f[i].dueTimeSec == t;
      assert live[i].dueTimeSec == t;
    }
  }

  /** How the two smallest elements change when `due` joins. */
  lemma OldestOfNext(d: set<int>, due: int)
    ensures d != {} ==> Least(d + {due}) == if due < Least(d) then due else Least(d)
    ensures d == {} ==> Least(d + {due}) == due
    ensures d != {} && due < Least(d) ==> (d + {due}) - {due} == d
    ensures d != {} && due == Least(d) ==> d + {due} == d
    ensures d != {} && due > Least(d) ==> (d + {due}) - {Least(d)} == (d - {Least(d)}) + {due}
    ensures d != {} && due > Least(d) && d - {Least(d)} != {} ==>
              Least((d - {Least(d)}) + {due}) == if due < Least(d - {Least(d)}) then due else Least(d - {Least(d)})
  {
  }

  lemma OldestStep(d: set<int>, due: int, t1: int, n1: nat, t2: int, n2: nat)
    requires Oldest(d, t1, n1, t2, n2) && due <= MAX_INT64
    ensures due < t1 ==> Oldest(d + {due}, due, 1, t1, n1)
    ensures due == t1 ==> Oldest(d + {due}, t1, n1 + 1, t2, n2)
    ensures due > t1 && due < t2 ==> Oldest(d + {due}, t1, n1, due, 1)
    ensures due > t1 && due == t2 ==> Oldest(d + {due}, t1, n1, t2, n2 + 1)
    ensures due > t1 && due > t2 ==> Oldest(d + {due}, t1, n1, t2, n2)
  {
    OldestOfNext(d, due);
    if d == {} {
      assert d + {due} == {due} && {due} - {due} == {};
    } else if due > t1 {
      var rest := d - {t1};
      if rest == {} {
        assert rest + {due} == {due};
      } else if due == t2 {
        assert rest + {due} == rest;
      }
    }
  }
}
