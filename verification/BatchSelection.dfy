/** Which references a batch read returns: those at the oldest due time, then those at the next one. */
module BatchSelection {
  import opened ReadyQueue

  const MAX_INT64: int := 0x7fff_ffff_ffff_ffff

  /** The due times of the ready references. */
  function Dues(live: seq<JobRef>, now: int): set<int> {
    set i | 0 <= i < |live| && live[i].dueTimeSec <= now :: live[i].dueTimeSec
  }

  lemma Inhabited(s: set<int>)
    ensures s == {} || exists x :: x in s
  {
    if forall x :: x !in s {
      assert s == {};
    }
  }

  ghost function Least(s: set<int>): (m: int)
    requires s != {}
    ensures m in s && forall x | x in s :: m <= x
  {
    assert exists x :: x in s by { Inhabited(s); }
    var x :| x in s;
    if s == {x} then x else
      var m := Least(s - {x});
      assert s == (s - {x}) + {x};
      if x < m then x else m
  }

  /** The references due at exactly `t`, in cell order. */
  function DueAt(live: seq<JobRef>, t: int): seq<JobRef> {
    if live == [] then []
    else if live[|live| - 1].dueTimeSec == t then DueAt(live[..|live| - 1], t) + [live[|live| - 1]]
    else DueAt(live[..|live| - 1], t)
  }

  function Take<T>(s: seq<T>, count: int): seq<T> {
    if count <= 0 then [] else if |s| <= count then s else s[..count]
  }

  /** The first `count` of the references at the oldest due time followed by those at the second oldest. */
  ghost function Batch(live: seq<JobRef>, count: int, now: int): seq<JobRef> {
    var d := Dues(live, now);
    if d == {} then []
    else
      var t1 := Least(d);
      var rest := d - {t1};
      Take(DueAt(live, t1) + if rest == {} then [] else DueAt(live, Least(rest)), count)
  }

  predicate CellsAscend(s: seq<JobRef>) {
    forall i, j | 0 <= i < j < |s| :: s[i].cell < s[j].cell
  }

  lemma {:induction false} DueAtMembers(live: seq<JobRef>, t: int)
    requires Numbered(live)
    ensures forall r :: r in DueAt(live, t) <==> r in live && r.dueTimeSec == t
    ensures CellsAscend(DueAt(live, t))
    ensures forall i | 0 <= i < |DueAt(live, t)| :: DueAt(live, t)[i].cell < |live|
  {
    if live != [] {
      var f := live[..|live| - 1];
      assert live == f + [live[|live| - 1]];
      DueAtMembers(f, t);
    }
  }

  predicate SortedByDue(s: seq<JobRef>) {
    forall i, j | 0 <= i < j < |s| :: s[i].dueTimeSec <= s[j].dueTimeSec
  }

  lemma TakeIsPrefix<T>(s: seq<T>, count: int)
    ensures Take(s, count) <= s
    ensures |Take(s, count)| == if count <= 0 then 0 else if |s| <= count then |s| else count
  {
  }

  /** A batch holds distinct ready references of the queue, oldest first; a ready reference that was left
      out is not older than any that was returned. */
  lemma BatchIsOldestFirst(live: seq<JobRef>, count: int, now: int)
    requires Numbered(live)
    ensures var b := Batch(live, count, now);
            && SortedByDue(b) && |b| <= (if count <= 0 then 0 else count)
            && (forall i | 0 <= i < |b| :: b[i] in live && b[i].dueTimeSec <= now)
            && DistinctCells(CellsOf(b))
            && (forall q, i | q in live && q.dueTimeSec <= now && q !in b && 0 <= i < |b| :: b[i].dueTimeSec <= q.dueTimeSec)
  {
    var d := Dues(live, now);
    if d != {} {
      var t1 := Least(d);
      var rest := d - {t1};
      var first := DueAt(live, t1);
      var second := if rest == {} then [] else DueAt(live, Least(rest));
      DueAtMembers(live, t1);
      if rest != {} {
        DueAtMembers(live, Least(rest));
      }
      BatchOrder(live, now, first, second, count);
    }
  }

  /** Older, or due at the same time and further to the front. */
  predicate Before(a: JobRef, b: JobRef) {
    a.dueTimeSec < b.dueTimeSec || (a.dueTimeSec == b.dueTimeSec && a.cell < b.cell)
  }

  /** Ready, with at most one due time among the ready references before its own. */
  predicate IsEligible(live: seq<JobRef>, now: int, q: JobRef) {
    && q in live && q.dueTimeSec <= now
    && forall a, b | a in live && b in live && a.dueTimeSec < q.dueTimeSec && b.dueTimeSec < q.dueTimeSec :: a.dueTimeSec == b.dueTimeSec
  }

  predicate InOrder(s: seq<JobRef>) {
    forall i, j | 0 <= i < j < |s| :: Before(s[i], s[j])
  }

  /** A batch is exactly the first `count` of the eligible references, by due time and then by cell; all of them if there
      are no more. */
  lemma BatchIsFirstEligible(live: seq<JobRef>, count: int, now: int)
    requires Numbered(live)
    ensures var b := Batch(live, count, now);
            var limit := if count <= 0 then 0 else count;
            && InOrder(b) && |b| <= limit && (forall r | r in b :: IsEligible(live, now, r))
            && (forall q | IsEligible(live, now, q) && q !in b :: |b| == limit && forall r | r in b :: Before(r, q))
  {
    var d := Dues(live, now);
    if d == {} {
      forall q | q in live
        ensures q.dueTimeSec > now
      {
        if q.dueTimeSec <= now {
          DueIn(live, now, q);
        }
      }
    } else {
      var t1 := Least(d);
      var rest := d - {t1};
      var first, second := DueAt(live, t1), if rest == {} then [] else DueAt(live, Least(rest));
      DueAtMembers(live, t1);
      if rest != {} {
        DueAtMembers(live, Least(rest));
      }
      EligibleAreListed(live, now, first, second);
      hide DueAt, Dues, IsEligible, Take;
      assert InOrder(first + second);
      TakeIsPrefix(first + second, count);
      PrefixComesFirst(first + second, Take(first + second, count));
    }
  }

  lemma PrefixComesFirst(all: seq<JobRef>, b: seq<JobRef>)
    requires InOrder(all) && b <= all
    ensures InOrder(b) && (forall r | r in b :: r in all)
    ensures forall q | q in all && q !in b :: |b| < |all| && forall r | r in b :: Before(r, q)
  {
    assert forall i | 0 <= i < |b| :: b[i] == all[i];
    forall q | q in all && q !in b
      ensures |b| < |all| && forall r | r in b :: Before(r, q)
    {
      var k :| 0 <= k < |all| && all[k] == q;
      assert k >= |b|;
    }
  }

  /** The references at the two oldest due times are the eligible ones. */
  lemma EligibleAreListed(live: seq<JobRef>, now: int, first: seq<JobRef>, second: seq<JobRef>)
    requires Dues(live, now) != {}
    requires var t1 := Least(Dues(live, now));
             && (forall r :: r in first <==> r in live && r.dueTimeSec == t1)
             && (Dues(live, now) - {t1} == {} ==> second == [])
             && (Dues(live, now) - {t1} != {} ==>
                   forall r :: r in second <==> r in live && r.dueTimeSec == Least(Dues(live, now) - {t1}))
    ensures forall q :: q in first + second <==> IsEligible(live, now, q)
    ensures Dues(live, now) - {Least(Dues(live, now))} != {} ==>
              Least(Dues(live, now)) < Least(Dues(live, now) - {Least(Dues(live, now))})
  {
    var d, t1 := Dues(live, now), Least(Dues(live, now));
    var rest := d - {t1};
    NoDueIsLate(live, now);
    forall q
      ensures q in first + second <==> IsEligible(live, now, q)
    {
      if q in live && q.dueTimeSec <= now {
        EligibleIff(live, now, q);
      } else {
        assert t1 in d && t1 <= now;
        assert rest != {} ==> Least(rest) in d;
      }
    }
  }

  lemma EligibleIff(live: seq<JobRef>, now: int, q: JobRef)
    requires q in live && q.dueTimeSec <= now && Dues(live, now) != {}
    ensures var d := Dues(live, now);
            var rest := d - {Least(d)};
            IsEligible(live, now, q) <==> q.dueTimeSec == Least(d) || (rest != {} && q.dueTimeSec == Least(rest))
  {
    var d, t1 := Dues(live, now), Least(Dues(live, now));
    var rest := d - {t1};
    DueIn(live, now, q);
    if q.dueTimeSec != t1 {
      assert q.dueTimeSec in rest;
      var t2 := Least(rest);
      var a := DueRef(live, now, t1);
      var b := DueRef(live, now, t2);
      forall x | x in live && x.dueTimeSec < t2
        ensures x.dueTimeSec == t1
      {
        assert t2 in d && t2 <= now by { NoDueIsLate(live, now); }
        DueIn(live, now, x);
        assert x.dueTimeSec != t1 ==> x.dueTimeSec in rest;
      }
    } else {
      forall x | x in live && x.dueTimeSec < t1
        ensures false
      {
        DueIn(live, now, x);
      }
    }
  }

  lemma DueRef(live: seq<JobRef>, now: int, t: int) returns (r: JobRef)
    requires t in Dues(live, now)
    ensures r in live && r.dueTimeSec == t
  {
    var i :| 0 <= i < |live| && live[i].dueTimeSec <= now && live[i].dueTimeSec == t;
    r := live[i];
  }

  lemma DueIn(live: seq<JobRef>, now: int, q: JobRef)
    requires q in live && q.dueTimeSec <= now
    ensures q.dueTimeSec in Dues(live, now)
  {
    var i :| 0 <= i < |live| && live[i] == q;
  }

  lemma NoDueIsLate(live: seq<JobRef>, now: int)
    ensures forall t | t in Dues(live, now) :: t <= now
  {
  }

  lemma BatchOrder(live: seq<JobRef>, now: int, first: seq<JobRef>, second: seq<JobRef>, count: int)
    requires Dues(live, now) != {}
    requires var t1 := Least(Dues(live, now));
             && (forall r :: r in first <==> r in live && r.dueTimeSec == t1) && CellsAscend(first)
             && (Dues(live, now) - {t1} == {} ==> second == [])
             && (Dues(live, now) - {t1} != {} ==>
                   && (forall r :: r in second <==> r in live && r.dueTimeSec == Least(Dues(live, now) - {t1}))
                   && CellsAscend(second))
    requires Numbered(live)
    ensures var b := Take(first + second, count);
            && SortedByDue(b) && |b| <= (if count <= 0 then 0 else count)
            && (forall i | 0 <= i < |b| :: b[i] in live && b[i].dueTimeSec <= now)
            && DistinctCells(CellsOf(b))
            && (forall q, i | q in live && q.dueTimeSec <= now && q !in b && 0 <= i < |b| :: b[i].dueTimeSec <= q.dueTimeSec)
  {
    hide Dues, Take;
    var d, t1, all, b := Dues(live, now), Least(Dues(live, now)), first + second, Take(first + second, count);
    TakeIsPrefix(all, count);
    NoDueIsLate(live, now);
    forall i | 0 <= i < |all|
      ensures all[i] in live && t1 <= all[i].dueTimeSec <= now
      ensures all[i].dueTimeSec == if i < |first| then t1 else if d - {t1} == {} then t1 else Least(d - {t1})
    {
      if i < |first| {
        assert all[i] in first;
      } else {
        assert second[i - |first|] in second;
      }
    }
    forall i, j | 0 <= i < j < |all|
      ensures all[i].dueTimeSec <= all[j].dueTimeSec && all[i].cell != all[j].cell
    {
      if i < |first| <= j {
        CellsDetermine(live, all[i], all[j]);
      }
    }
    forall q, i | q in live && q.dueTimeSec <= now && q !in b && 0 <= i < |b|
      ensures b[i].dueTimeSec <= q.dueTimeSec
    {
      LeftOutIsNotOlder(live, now, first, second, b, q, i);
    }
  }

  lemma CellsDetermine(live: seq<JobRef>, a: JobRef, b: JobRef)
    requires Numbered(live) && a in live && b in live && a != b
    ensures a.cell != b.cell
  {
    var i :| 0 <= i < |live| && live[i] == a;
    var j :| 0 <= j < |live| && live[j] == b;
  }

  lemma LeftOutIsNotOlder(live: seq<JobRef>, now: int, first: seq<JobRef>, second: seq<JobRef>, b: seq<JobRef>, q: JobRef, i: nat)
    requires Dues(live, now) != {} && b <= first + second
    requires var t1 := Least(Dues(live, now));
             && (forall r :: r in first <==> r in live && r.dueTimeSec == t1)
             && (Dues(live, now) - {t1} == {} ==> second == [])
             && (Dues(live, now) - {t1} != {} ==>
                   forall r :: r in second <==> r in live && r.dueTimeSec == Least(Dues(live, now) - {t1}))
    requires q in live && q.dueTimeSec <= now && q !in b && i < |b|
    ensures b[i].dueTimeSec <= q.dueTimeSec
  {
    var d, t1 := Dues(live, now), Least(Dues(live, now));
    DueIn(live, now, q);
    assert q.dueTimeSec != t1 ==> q.dueTimeSec in d - {t1};
    if i < |first| {
      assert first[i] in first;
    } else {
      assert second[i - |first|] in second;
      assert b[..|first|] == first;
      assert forall r | r in first :: r in b;
    }
  }
}
