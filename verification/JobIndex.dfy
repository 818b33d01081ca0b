/** The secondary index (jobID -> JobState) that storage keeps beside the log.

    Two routines build it: the live path updates it as entries commit, and recovery rebuilds it from
    the records in the log files. They differ in one assignment: only the live path resets the
    completion type when a job is added again. */
module JobIndex {
  import opened History

  datatype CompleteType = Open | ByDone | ByDrop

  datatype JobState = JobState(addIndex: nat, completeIndex: nat, completeType: CompleteType)

  type Index = map<JobId, JobState>

  datatype Builder = Live | Recovery

  const BLANK := JobState(0, 0, Open)

  function StateOf(m: Index, id: JobId): JobState {
    if id in m then m[id] else BLANK
  }

  /** What one record does to the state of one job it names. */
  function Touch(s: JobState, r: Record, kind: Builder): JobState
    requires !r.cmd.Other?
  {
    match r.cmd
    case AddJobs(_) => s.(addIndex := r.index, completeType := if kind.Live? then Open else s.completeType)
    case Done(_) => s.(completeIndex := r.index, completeType := ByDone)
    case Drop(_) => s.(completeIndex := r.index, completeType := ByDrop)
  }

  function Note(m: Index, r: Record, kind: Builder): Index {
    if r.cmd.Other? then m
    else map id | id in m.Keys + IdSet(r.cmd.ids) ::
           if id in r.cmd.ids then Touch(StateOf(m, id), r, kind) else m[id]
  }

  /** The index after the records `h`, starting from an empty index. */
  function Build(h: seq<Record>, kind: Builder): Index {
    if h == [] then map[] else Note(Build(h[..|h| - 1], kind), h[|h| - 1], kind)
  }

  predicate IsCompleted(s: JobState) {
    s.addIndex > 0 && s.completeType != Open && s.completeIndex >= s.addIndex
  }

  predicate IsOpen(s: JobState) {
    s.addIndex > 0 && s.completeType == Open
  }

  /** The set that `GetCompletedJobIDs` returns. */
  function CompletedIn(m: Index): set<JobId> {
    set id | id in m && IsCompleted(m[id])
  }

  /** The recorded indices are those of the last add and the last completion, for either builder. */
  lemma {:induction false} IndexRecordsLastEvents(h: seq<Record>, kind: Builder, id: JobId)
    requires Increasing(h)
    ensures id in Build(h, kind) <==> id in Mentioned(h)
    ensures StateOf(Build(h, kind), id).addIndex == LastAdd(h, id)
    ensures StateOf(Build(h, kind), id).completeIndex == LastCompletion(h, id)
    ensures kind.Live? ==> (StateOf(Build(h, kind), id).completeType == Open <==> !LastEvent(h, id).Completed?)
    ensures kind.Recovery? ==> (StateOf(Build(h, kind), id).completeType == Open <==> LastCompletion(h, id) == 0)
  {
    if h != [] {
      IndexRecordsLastEvents(h[..|h| - 1], kind, id);
    }
  }

  /** Both builders report exactly the jobs that were added and whose last event is a completion,
      whatever re-adds, repeated completions and completions before adds the history holds. */
  lemma BuildersAgree(h: seq<Record>, kind: Builder)
    requires Increasing(h)
    ensures CompletedIn(Build(h, kind)) == CompletedJobs(h)
  {
    forall id
      ensures id in CompletedIn(Build(h, kind)) <==> id in CompletedJobs(h)
    {
      IndexRecordsLastEvents(h, kind, id);
      LastEventByIndex(h, id);
      EventOnlyIfMentioned(h, id);
    }
  }

  /** Starting from any index: the records `h` applied in order. */
  function NoteAll(m: Index, h: seq<Record>, kind: Builder): Index {
    if h == [] then m else Note(NoteAll(m, h[..|h| - 1], kind), h[|h| - 1], kind)
  }

  /** The in-memory log that recovery rebuilds beside the index. */
  function StoreAll(m: map<nat, Record>, h: seq<Record>): map<nat, Record> {
    if h == [] then m else
      var r := h[|h| - 1];
      StoreAll(m, h[..|h| - 1])[r.index := r]
  }

  lemma {:induction false} NoteAllConcat(m: Index, a: seq<Record>, b: seq<Record>, kind: Builder)
    ensures NoteAll(m, a + b, kind) == NoteAll(NoteAll(m, a, kind), b, kind)
  {
    if b == [] {
      assert a + b == a;
    } else {
      assert (a + b)[..|a + b| - 1] == a + b[..|b| - 1];
      NoteAllConcat(m, a, b[..|b| - 1], kind);
    }
  }

  lemma {:induction false} StoreAllConcat(m: map<nat, Record>, a: seq<Record>, b: seq<Record>)
    ensures StoreAll(m, a + b) == StoreAll(StoreAll(m, a), b)
  {
    if b == [] {
      assert a + b == a;
    } else {
      assert (a + b)[..|a + b| - 1] == a + b[..|b| - 1];
      StoreAllConcat(m, a, b[..|b| - 1]);
    }
  }

  function LastCompleteType(h: seq<Record>, id: JobId): CompleteType {
    if h == [] then Open
    else if Completes(h[|h| - 1], id) then (if h[|h| - 1].cmd.Done? then ByDone else ByDrop)
    else LastCompleteType(h[..|h| - 1], id)
  }

  /** Recovery keeps, of the state before `h`, exactly the parts that `h` says nothing about. */
  lemma {:induction false} RecoveredState(m: Index, h: seq<Record>, id: JobId)
    requires Positive(h)
    ensures id in NoteAll(m, h, Recovery) <==> id in m || id in Mentioned(h)
    ensures StateOf(NoteAll(m, h, Recovery), id) == JobState(
              if LastAdd(h, id) > 0 then LastAdd(h, id) else StateOf(m, id).addIndex,
              if LastCompletion(h, id) > 0 then LastCompletion(h, id) else StateOf(m, id).completeIndex,
              if LastCompletion(h, id) > 0 then LastCompleteType(h, id) else StateOf(m, id).completeType)
  {
    if h != [] {
      RecoveredState(m, h[..|h| - 1], id);
    }
  }

  /** The live path keeps, of the state before `h`, exactly the parts that `h` says nothing about; an add also resets the
      completion type. */
  lemma {:induction false} LiveState(m: Index, h: seq<Record>, id: JobId)
    requires Positive(h)
    ensures id in NoteAll(m, h, Live) <==> id in m || id in Mentioned(h)
    ensures StateOf(NoteAll(m, h, Live), id) == JobState(
              if LastAdd(h, id) > 0 then LastAdd(h, id) else StateOf(m, id).addIndex,
              if LastCompletion(h, id) > 0 then LastCompletion(h, id) else StateOf(m, id).completeIndex,
              match LastEvent(h, id)
              case Added(_) => Open
              case Completed(_) => LastCompleteType(h, id)
              case NoEvent => StateOf(m, id).completeType)
  {
    if h != [] {
      LiveState(m, h[..|h| - 1], id);
    }
  }

  lemma {:induction false} BuildIsNoteAll(h: seq<Record>, kind: Builder)
    ensures Build(h, kind) == NoteAll(map[], h, kind)
  {
    if h != [] {
      BuildIsNoteAll(h[..|h| - 1], kind);
    }
  }

  /** What a prefix says about a job, the whole says too. */
  lemma {:induction false} PrefixSaysLess(b: seq<Record>, k: nat, id: JobId)
    requires k <= |b| && Positive(b)
    ensures LastAdd(b[..k], id) > 0 ==> LastAdd(b, id) > 0
    ensures LastCompletion(b[..k], id) > 0 ==> LastCompletion(b, id) > 0
    ensures Mentioned(b[..k]) <= Mentioned(b)
  {
    if k < |b| {
      assert b[..|b| - 1][..k] == b[..k];
      PrefixSaysLess(b[..|b| - 1], k, id);
    } else {
      assert b[..k] == b;
    }
  }

  /** A batch that is written again after a prefix of it already reached the log file is recovered
      as if it had been written once. */
  lemma RetryIsIdempotent(m: Index, b: seq<Record>, k: nat)
    requires k <= |b| && Positive(b)
    ensures NoteAll(m, b[..k] + b, Recovery) == NoteAll(m, b, Recovery)
  {
    var m' := NoteAll(m, b[..k], Recovery);
    NoteAllConcat(m, b[..k], b, Recovery);
    forall id
      ensures id in NoteAll(m', b, Recovery) <==> id in NoteAll(m, b, Recovery)
      ensures StateOf(NoteAll(m', b, Recovery), id) == StateOf(NoteAll(m, b, Recovery), id)
    {
      RecoveredState(m, b[..k], id);
      RecoveredState(m', b, id);
      RecoveredState(m, b, id);
      PrefixSaysLess(b, k, id);
    }
    assert forall id | id in NoteAll(m, b, Recovery) :: NoteAll(m', b, Recovery)[id] == StateOf(NoteAll(m', b, Recovery), id);
  }

  lemma {:induction false} StoredRecord(m: map<nat, Record>, b: seq<Record>, i: nat)
    requires Increasing(b)
    ensures i in StoreAll(m, b) <==> i in m || exists k :: 0 <= k < |b| && b[k].index == i
    ensures forall k | 0 <= k < |b| && b[k].index == i :: StoreAll(m, b)[i] == b[k]
    ensures (forall k | 0 <= k < |b| :: b[k].index != i) && i in m ==> StoreAll(m, b)[i] == m[i]
  {
    if b != [] {
      StoredRecord(m, b[..|b| - 1], i);
    }
  }

  /** The in-memory log is likewise unchanged by the repeated prefix. */
  lemma RetryStoresTheSame(m: map<nat, Record>, b: seq<Record>, k: nat)
    requires k <= |b| && Increasing(b)
    ensures StoreAll(m, b[..k] + b) == StoreAll(m, b)
  {
    var m' := StoreAll(m, b[..k]);
    StoreAllConcat(m, b[..k], b);
    forall i: nat
      ensures i in StoreAll(m', b) <==> i in StoreAll(m, b)
      ensures i in StoreAll(m, b) ==> StoreAll(m', b)[i] == StoreAll(m, b)[i]
    {
      StoredRecord(m, b[..k], i);
      StoredRecord(m', b, i);
      StoredRecord(m, b, i);
    }
  }
}
