/** The committed history of a node, decoded from the Raft log, and what it means for one job.

    A job is *pending* in a history when the last record that names it adds it. Every later claim about
    indexes, compaction and recovery is measured against this definition. A partition that replays the
    history keeps a finished job until it is dropped and ignores its later adds; `Replay` says for which
    jobs the two differ. */
module History {

  datatype Option<T> = None | Some(value: T)

  type JobId = string

  /** A decoded log entry. A command that does not decode, or decodes to a type that names no job, is `Other`. */
  datatype Command =
    | AddJobs(ids: seq<JobId>)
    | Done(ids: seq<JobId>)
    | Drop(ids: seq<JobId>)
    | Other

  /** One log entry; `size` is the number of bytes it takes, in a segment file with its frame. */
  datatype Record = Record(index: nat, cmd: Command, size: nat)

  function LastIndex(h: seq<Record>): nat {
    if h == [] then 0 else h[|h| - 1].index
  }

  function Size(h: seq<Record>): nat {
    if h == [] then 0 else Size(h[..|h| - 1]) + h[|h| - 1].size
  }

  datatype Event = NoEvent | Added(index: nat) | Completed(index: nat)

  predicate Adds(r: Record, id: JobId) {
    r.cmd.AddJobs? && id in r.cmd.ids
  }

  predicate Completes(r: Record, id: JobId) {
    (r.cmd.Done? || r.cmd.Drop?) && id in r.cmd.ids
  }

  function EventOf(r: Record, id: JobId): Event {
    if Adds(r, id) then Added(r.index)
    else if Completes(r, id) then Completed(r.index)
    else NoEvent
  }

  /** The last record of `h` that names `id`, seen as an event. */
  function LastEvent(h: seq<Record>, id: JobId): Event {
    if h == [] then NoEvent
    else
      var e := EventOf(h[|h| - 1], id);
      if e != NoEvent then e else LastEvent(h[..|h| - 1], id)
  }

  function LastAdd(h: seq<Record>, id: JobId): nat {
    if h == [] then 0
    else if Adds(h[|h| - 1], id) then h[|h| - 1].index
    else LastAdd(h[..|h| - 1], id)
  }

  function LastCompletion(h: seq<Record>, id: JobId): nat {
    if h == [] then 0
    else if Completes(h[|h| - 1], id) then h[|h| - 1].index
    else LastCompletion(h[..|h| - 1], id)
  }

  function IdSet(ids: seq<JobId>): set<JobId> {
    set id | id in ids
  }

  function Named(r: Record): set<JobId> {
    if r.cmd.Other? then {} else IdSet(r.cmd.ids)
  }

  function Mentioned(h: seq<Record>): set<JobId> {
    if h == [] then {} else Mentioned(h[..|h| - 1]) + Named(h[|h| - 1])
  }

  /** The jobs that still have to be worked off. */
  function PendingJobs(h: seq<Record>): set<JobId> {
    set id | id in Mentioned(h) && LastEvent(h, id).Added?
  }

  /** The jobs that were added at some point and whose last event is a completion. */
  function CompletedJobs(h: seq<Record>): set<JobId> {
    set id | id in Mentioned(h) && LastEvent(h, id).Completed? && LastAdd(h, id) != 0
  }

  /** Committed entries arrive once, in order, with positive indices; gaps are allowed. */
  predicate Increasing(h: seq<Record>) {
    && (forall i | 0 <= i < |h| :: 0 < h[i].index)
    && (forall i, j | 0 <= i < j < |h| :: h[i].index < h[j].index)
  }

  predicate Positive(h: seq<Record>) {
    forall i | 0 <= i < |h| :: 0 < h[i].index
  }

  /** The records at or above `cut`, in order. */
  function From(h: seq<Record>, cut: nat): seq<Record> {
    if h == [] then []
    else if h[|h| - 1].index >= cut then From(h[..|h| - 1], cut) + [h[|h| - 1]]
    else From(h[..|h| - 1], cut)
  }

  lemma OneRecordPerIndex(h: seq<Record>, q: Record, r: Record)
    requires Increasing(h) && q in h && r in h && q.index == r.index
    ensures q == r
  {
    var i :| 0 <= i < |h| && h[i] == q;
    var j :| 0 <= j < |h| && h[j] == r;
    assert h[i].index == h[j].index;
  }

  lemma {:induction false} EventOnlyIfMentioned(h: seq<Record>, id: JobId)
    ensures LastEvent(h, id) != NoEvent <==> id in Mentioned(h)
  {
    if h != [] {
      EventOnlyIfMentioned(h[..|h| - 1], id);
    }
  }

  /** A later record overrides an earlier one. */
  lemma {:induction false} LastEventOfConcat(a: seq<Record>, b: seq<Record>, id: JobId)
    ensures LastEvent(a + b, id) == if LastEvent(b, id) != NoEvent then LastEvent(b, id) else LastEvent(a, id)
  {
    if b == [] {
      assert a + b == a;
    } else {
      assert (a + b)[..|a + b| - 1] == a + b[..|b| - 1];
      LastEventOfConcat(a, b[..|b| - 1], id);
    }
  }

  /** In an increasing history the last event is the later of the last add and the last completion. */
  lemma {:induction false} LastEventByIndex(h: seq<Record>, id: JobId)
    requires Increasing(h)
    ensures LastEvent(h, id) ==
            if LastAdd(h, id) > LastCompletion(h, id) then Added(LastAdd(h, id))
            else if LastCompletion(h, id) > 0 then Completed(LastCompletion(h, id))
            else NoEvent
    ensures h == [] ==> LastAdd(h, id) == LastCompletion(h, id) == 0
    ensures h != [] ==> LastAdd(h, id) <= h[|h| - 1].index && LastCompletion(h, id) <= h[|h| - 1].index
  {
    if h != [] {
      var f := h[..|h| - 1];
      LastEventByIndex(f, id);
      if f != [] {
        assert h[|h| - 2].index < h[|h| - 1].index;
      }
    }
  }

  /** Dropping the records below a cut forgets exactly the events below the cut. */
  lemma {:induction false} LastEventFrom(h: seq<Record>, cut: nat, id: JobId)
    requires Increasing(h)
    ensures LastEvent(From(h, cut), id) ==
            var e := LastEvent(h, id);
            if e != NoEvent && e.index >= cut then e else NoEvent
  {
    if h != [] {
      var f := h[..|h| - 1];
      LastEventFrom(f, cut, id);
      LastEventByIndex(f, id);
      if h[|h| - 1].index >= cut {
        assert From(h, cut)[..|From(h, cut)| - 1] == From(f, cut);
      } else if f != [] {
        assert h[|h| - 2].index < h[|h| - 1].index;
      }
    }
  }

  lemma {:induction false} FromConcat(a: seq<Record>, b: seq<Record>, cut: nat)
    ensures From(a + b, cut) == From(a, cut) + From(b, cut)
  {
    if b == [] {
      assert a + b == a;
    } else {
      assert (a + b)[..|a + b| - 1] == a + b[..|b| - 1];
      FromConcat(a, b[..|b| - 1], cut);
    }
  }

  lemma {:induction false} FromSkipsPrefix(c: seq<Record>, k: nat, cut: nat)
    requires k <= |c| && forall i | 0 <= i < k :: c[i].index < cut
    ensures From(c, cut) == From(c[k..], cut)
  {
    if |c| == k {
      if k > 0 {
        FromSkipsPrefix(c[..k - 1], k - 1, cut);
        assert c[..k - 1][k - 1..] == [];
      }
      assert c[k..] == [];
    } else {
      FromSkipsPrefix(c[..|c| - 1], k, cut);
      assert c[..|c| - 1][k..] == c[k..][..|c| - k - 1];
    }
  }

  lemma {:induction false} FromKeepsAll(c: seq<Record>, cut: nat)
    requires forall i | 0 <= i < |c| :: cut <= c[i].index
    ensures From(c, cut) == c
  {
    if c != [] {
      FromKeepsAll(c[..|c| - 1], cut);
    }
  }

  lemma {:induction false} FromFrom(c: seq<Record>, a: nat, b: nat)
    requires a <= b
    ensures From(From(c, a), b) == From(c, b)
  {
    if c != [] {
      var f := c[..|c| - 1];
      FromFrom(f, a, b);
      if c[|c| - 1].index >= a {
        assert From(c, a)[..|From(c, a)| - 1] == From(f, a);
      }
    }
  }

  lemma {:induction false} FromWithout(c: seq<Record>, u: nat)
    requires forall i | 0 <= i < |c| :: c[i].index != u
    ensures From(c, u) == From(c, u + 1)
  {
    if c != [] {
      FromWithout(c[..|c| - 1], u);
    }
  }

  lemma {:induction false} FromMember(c: seq<Record>, cut: nat, r: Record)
    ensures r in From(c, cut) <==> r in c && r.index >= cut
  {
    if c != [] {
      FromMember(c[..|c| - 1], cut, r);
      assert c == c[..|c| - 1] + [c[|c| - 1]];
    }
  }

  lemma {:induction false} FromIncreases(h: seq<Record>, cut: nat)
    requires Increasing(h)
    ensures Increasing(From(h, cut))
    ensures h == [] ==> From(h, cut) == []
    ensures forall i | 0 <= i < |From(h, cut)| :: cut <= From(h, cut)[i].index <= h[|h| - 1].index
  {
    if h != [] {
      var f := h[..|h| - 1];
      FromIncreases(f, cut);
      if f != [] {
        assert h[|h| - 2].index < h[|h| - 1].index;
      }
    }
  }

  lemma {:induction false} LastIndicesFrom(h: seq<Record>, cut: nat, id: JobId)
    requires Increasing(h) && cut > 0
    ensures LastAdd(From(h, cut), id) == if LastAdd(h, id) >= cut then LastAdd(h, id) else 0
    ensures LastCompletion(From(h, cut), id) == if LastCompletion(h, id) >= cut then LastCompletion(h, id) else 0
  {
    if h != [] {
      var f := h[..|h| - 1];
      LastIndicesFrom(f, cut, id);
      LastEventByIndex(f, id);
      if h[|h| - 1].index >= cut {
        assert From(h, cut)[..|From(h, cut)| - 1] == From(f, cut);
      } else if f != [] {
        assert h[|h| - 2].index < h[|h| - 1].index;
      }
    }
  }

  /** Replaying only the records at or above `cut` gives the pending set of the whole history
      exactly when the cut is at or below the last add of every pending job. */
  lemma CutKeepsPendingIff(h: seq<Record>, cut: nat)
    requires Increasing(h)
    ensures PendingJobs(From(h, cut)) == PendingJobs(h) <==>
            forall id | id in PendingJobs(h) :: cut <= LastEvent(h, id).index
  {
    forall id
      ensures id in PendingJobs(h) <==> LastEvent(h, id).Added?
      ensures id in PendingJobs(From(h, cut)) <==> LastEvent(h, id).Added? && LastEvent(h, id).index >= cut
    {
      EventOnlyIfMentioned(h, id);
      EventOnlyIfMentioned(From(h, cut), id);
      LastEventFrom(h, cut, id);
    }
  }
}
