/** Recovery from the records of a history in any order and any number of copies, as replaced and repeated files can
    hand them over. */
module AnyOrder {
  import opened History
  import opened JobIndex
  import opened Compaction

  /** The same records, whatever their order and number. */
  ghost predicate SameRecords(a: seq<Record>, h: seq<Record>) {
    forall r :: r in a <==> r in h
  }

  // ---------------------------------------------------------------- entries

  lemma {:induction false} StoredIsHeld(a: seq<Record>, i: nat)
    ensures i in StoreAll(map[], a) ==> StoreAll(map[], a)[i] in a && StoreAll(map[], a)[i].index == i
    ensures (exists r :: r in a && r.index == i) ==> i in StoreAll(map[], a)
  {
    if a != [] {
      var f, r := a[..|a| - 1], a[|a| - 1];
      assert a == f + [r];
      StoredIsHeld(f, i);
    }
  }

  /** Whatever the order and number of copies, recovery stores the same entries. */
  lemma SameRecordsStoreTheSame(a: seq<Record>, h: seq<Record>)
    requires Increasing(h) && SameRecords(a, h)
    ensures StoreAll(map[], a) == StoreAll(map[], h)
  {
    var m, n := StoreAll(map[], a), StoreAll(map[], h);
    hide StoreAll;
    forall i: nat
      ensures i in m <==> i in n
      ensures i in m ==> m[i] == n[i]
    {
      StoredIsHeld(a, i);
      StoredIsHeld(h, i);
      if i in m && i in n {
        OneRecordPerIndex(h, m[i], n[i]);
      }
    }
  }

  // ---------------------------------------------------------------- completed jobs

  predicate NeverAddedAfter(h: seq<Record>, id: JobId) {
    forall i, j | 0 <= i < j < |h| && Completes(h[i], id) :: !Adds(h[j], id)
  }

  predicate NeverCompletedAfter(h: seq<Record>, id: JobId) {
    forall i, j | 0 <= i < j < |h| && Adds(h[i], id) :: !Completes(h[j], id)
  }

  /** Every job has all its adds before all its completions, or all its completions before all its adds. */
  ghost predicate OrderFree(h: seq<Record>) {
    forall id :: NeverAddedAfter(h, id) || NeverCompletedAfter(h, id)
  }

  /** So it is if no completed job is ever added again. */
  lemma NeverReAddedIsOrderFree(h: seq<Record>)
    requires NeverReAdded(h)
    ensures OrderFree(h)
  {
    forall id
      ensures NeverAddedAfter(h, id)
    {
    }
  }

  /** The recorded indices are those of some add and some completion among the records, if there is any. */
  lemma {:induction false} LastIsHeld(a: seq<Record>, id: JobId)
    requires Positive(a)
    ensures LastAdd(a, id) > 0 ==> exists r :: r in a && Adds(r, id) && r.index == LastAdd(a, id)
    ensures LastAdd(a, id) == 0 ==> forall r | r in a :: !Adds(r, id)
    ensures LastCompletion(a, id) > 0 ==> exists r :: r in a && Completes(r, id) && r.index == LastCompletion(a, id)
    ensures LastCompletion(a, id) == 0 ==> forall r | r in a :: !Completes(r, id)
  {
    if a != [] {
      var f, r := a[..|a| - 1], a[|a| - 1];
      assert a == f + [r];
      LastIsHeld(f, id);
    }
  }

  lemma PositionOf(h: seq<Record>, a: Record, b: Record)
    requires Increasing(h) && a in h && b in h && a.index < b.index
    ensures exists i, j :: 0 <= i < j < |h| && h[i] == a && h[j] == b
  {
    var i :| 0 <= i < |h| && h[i] == a;
    var j :| 0 <= j < |h| && h[j] == b;
    ByIndex(h, i, j);
  }

  lemma ByIndex(h: seq<Record>, i: nat, j: nat)
    requires Increasing(h) && i < |h| && j < |h| && h[i].index < h[j].index
    ensures i < j
  {
  }

  /** Whether a job whose adds and completions do not alternate is completed does not depend on the order. */
  lemma OrderFreeJob(a: seq<Record>, h: seq<Record>, id: JobId)
    requires Increasing(h) && Positive(a) && SameRecords(a, h) && (NeverAddedAfter(h, id) || NeverCompletedAfter(h, id))
    ensures 0 < LastAdd(a, id) <= LastCompletion(a, id) <==> 0 < LastAdd(h, id) <= LastCompletion(h, id)
  {
    hide LastAdd, LastCompletion;
    LastIsHeld(a, id);
    LastIsHeld(h, id);
    if LastAdd(h, id) > 0 && LastCompletion(h, id) > 0 {
      OrderOfOne(h, id, LastAdd(a, id), LastCompletion(a, id));
      OrderOfOne(h, id, LastAdd(h, id), LastCompletion(h, id));
    }
  }

  /** In such a job any add lies on the same side of any completion. */
  lemma OrderOfOne(h: seq<Record>, id: JobId, x: nat, y: nat)
    requires Increasing(h) && (exists r :: r in h && Adds(r, id) && r.index == x)
    requires exists r :: r in h && Completes(r, id) && r.index == y
    ensures NeverAddedAfter(h, id) ==> x < y
    ensures NeverCompletedAfter(h, id) ==> y < x
  {
    var a :| a in h && Adds(a, id) && a.index == x;
    var c :| c in h && Completes(c, id) && c.index == y;
    if x == y {
      OneRecordPerIndex(h, a, c);
    } else if x < y {
      PositionOf(h, a, c);
    } else {
      PositionOf(h, c, a);
    }
  }

  lemma CompletedByIndex(a: seq<Record>, id: JobId)
    requires Positive(a)
    ensures id in CompletedIn(NoteAll(map[], a, Recovery)) <==> 0 < LastAdd(a, id) <= LastCompletion(a, id)
  {
    hide NoteAll, LastAdd, LastCompletion, LastCompleteType;
    RecoveredState(map[], a, id);
    TypeOfCompletion(a, id);
    LastIsHeld(a, id);
    if LastAdd(a, id) > 0 {
      MentionedIfHeld(a, id);
    }
  }

  lemma {:induction false} TypeOfCompletion(a: seq<Record>, id: JobId)
    requires Positive(a)
    ensures LastCompletion(a, id) > 0 <==> LastCompleteType(a, id) != Open
  {
    if a != [] {
      TypeOfCompletion(a[..|a| - 1], id);
    }
  }

  lemma {:induction false} MentionedIfHeld(a: seq<Record>, id: JobId)
    requires exists r :: r in a && Adds(r, id)
    ensures id in Mentioned(a)
  {
    var f, r := a[..|a| - 1], a[|a| - 1];
    assert a == f + [r];
    if !Adds(r, id) {
      MentionedIfHeld(f, id);
    }
  }

  lemma CompletedInHistory(h: seq<Record>, id: JobId)
    requires Increasing(h)
    ensures id in CompletedJobs(h) <==> 0 < LastAdd(h, id) <= LastCompletion(h, id)
  {
    hide LastEvent, LastAdd, LastCompletion;
    LastEventByIndex(h, id);
    EventOnlyIfMentioned(h, id);
    LastIsHeld(h, id);
    if LastAdd(h, id) == LastCompletion(h, id) > 0 {
      var a :| a in h && Adds(a, id) && a.index == LastAdd(h, id);
      var c :| c in h && Completes(c, id) && c.index == LastAdd(h, id);
      OneRecordPerIndex(h, a, c);
    }
  }

  lemma SameRecordsPositive(a: seq<Record>, h: seq<Record>)
    requires Increasing(h) && SameRecords(a, h)
    ensures Positive(a)
  {
    forall i | 0 <= i < |a|
      ensures 0 < a[i].index
    {
      assert a[i] in h;
    }
  }

  lemma OrderFreeRecovers(a: seq<Record>, h: seq<Record>)
    requires Increasing(h) && SameRecords(a, h) && OrderFree(h)
    ensures CompletedIn(NoteAll(map[], a, Recovery)) == CompletedJobs(h)
  {
    hide NoteAll, CompletedIn, CompletedJobs, LastAdd, LastCompletion, NeverAddedAfter, NeverCompletedAfter;
    SameRecordsPositive(a, h);
    hide SameRecords, Increasing;
    forall id
      ensures id in CompletedIn(NoteAll(map[], a, Recovery)) <==> id in CompletedJobs(h)
    {
      assert NeverAddedAfter(h, id) || NeverCompletedAfter(h, id);
      CompletedByIndex(a, id);
      CompletedInHistory(h, id);
      OrderFreeJob(a, h, id);
    }
  }

  /** A job that was added and completed in both orders: two more copies decide what recovery makes of it. */
  lemma TwoCopiesDecide(h: seq<Record>, a: Record, c: Record, id: JobId)
    requires Increasing(h) && a in h && c in h && Adds(a, id) && Completes(c, id)
    ensures SameRecords(h + [a, c], h)
    ensures id in CompletedIn(NoteAll(map[], h + [a, c], Recovery)) <==> a.index < c.index
  {
    var b := h + [a, c];
    assert b == (h + [a]) + [c] && (h + [a])[..|h|] == h && b[..|h| + 1] == h + [a];
    forall r
      ensures r in b <==> r in h
    {
    }
    assert a.cmd != c.cmd;
    assert LastCompletion(b, id) == c.index && LastAdd(b, id) == LastAdd(h + [a], id) == a.index;
    SameRecordsPositive(b, h);
    CompletedByIndex(b, id);
    if a.index == c.index {
      OneRecordPerIndex(h, a, c);
    }
  }

  /** Recovery reports exactly the completed jobs, in whatever order and number of copies it meets the records of a
      history, exactly when no job is both completed after an add and added after a completion. */
  lemma AnyOrderRecoversIff(h: seq<Record>)
    requires Increasing(h)
    ensures OrderFree(h) <==>
            forall a | SameRecords(a, h) :: CompletedIn(NoteAll(map[], a, Recovery)) == CompletedJobs(h)
  {
    hide NoteAll, CompletedIn, CompletedJobs, SameRecords, Increasing;
    if OrderFree(h) {
      forall a | SameRecords(a, h)
        ensures CompletedIn(NoteAll(map[], a, Recovery)) == CompletedJobs(h)
      {
        OrderFreeRecovers(a, h);
      }
    } else {
      var id :| !NeverAddedAfter(h, id) && !NeverCompletedAfter(h, id);
      hide NeverAddedAfter, NeverCompletedAfter;
      var a := AlternatingMisleads(h, id);
    }
  }

  /** The records of such a job can be met in an order that misleads recovery. */
  lemma AlternatingMisleads(h: seq<Record>, id: JobId) returns (a: seq<Record>)
    requires Increasing(h) && !NeverAddedAfter(h, id) && !NeverCompletedAfter(h, id)
    ensures SameRecords(a, h) && (id in CompletedIn(NoteAll(map[], a, Recovery)) <==> id !in CompletedJobs(h))
  {
    hide NoteAll, CompletedIn, CompletedJobs, SameRecords, Increasing;
    if id in CompletedJobs(h) {
      var i, j :| 0 <= i < j < |h| && Completes(h[i], id) && Adds(h[j], id);
      Ascend(h, i, j);
      TwoCopiesDecide(h, h[j], h[i], id);
      a := h + [h[j], h[i]];
    } else {
      var k, l :| 0 <= k < l < |h| && Adds(h[k], id) && Completes(h[l], id);
      Ascend(h, k, l);
      TwoCopiesDecide(h, h[k], h[l], id);
      a := h + [h[k], h[l]];
    }
  }

  lemma Ascend(h: seq<Record>, i: nat, j: nat)
    requires Increasing(h) && i < j < |h|
    ensures h[i].index < h[j].index
  {
  }
}
