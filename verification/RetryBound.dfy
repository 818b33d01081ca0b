/** Retries: how often and how close together a reference is sent, over whole runs. */
module RetryBound {
  import opened Slab
  import opened ReadyQueue
  import opened BatchSelection
  import opened Scheduler
  import opened PartitionRuns

  /** A partition run with, for each queue cell, the times at which the reference there was sent. */
  datatype Tracked = Tracked(state: State, sends: seq<seq<int>>)

  predicate IsSent(sent: seq<JobRef>, k: int) {
    exists i | 0 <= i < |sent| :: sent[i].cell == k
  }

  /** Notes a send at time `now` for the sent cells. */
  function Stamp(sends: seq<seq<int>>, sent: seq<JobRef>, now: int): seq<seq<int>> {
    seq(|sends|, k requires 0 <= k < |sends| => if IsSent(sent, k) then sends[k] + [now] else sends[k])
  }

  ghost function SendsAfter(t: Tracked, cfg: Config, e: Action): seq<seq<int>>
    requires PartOk(t.state.part) && Enabled(t.state, e)
  {
    var p := t.state.part;
    match e
    case Add(job, now) => if |AddOne(p, job, now).live| > |p.live| then t.sends + [[]] else t.sends
    case Dispatch(count, now, _, accepted) =>
      var items := Batch(p.live, count, now);
      var sent := Sendable(p.store, items, cfg.maxRetries);
      RemoveAll(if accepted && sent != [] then Stamp(t.sends, sent, now) else t.sends,
                CellsOf(Leaving(p.store, items, cfg.maxRetries)))
    case _ => t.sends
  }

  ghost function TrackedNext(t: Tracked, cfg: Config, e: Action): Tracked
    requires PartOk(t.state.part) && Enabled(t.state, e)
  {
    Tracked(Next(t.state, cfg, e), SendsAfter(t, cfg, e))
  }

  /** The clock does not run backwards within one dispatch. */
  ghost predicate ClockOk(e: Action) {
    e.Dispatch? ==> forall i :: e.clock(i) >= e.now
  }

  ghost predicate IsTrackedRun(ts: seq<Tracked>, cfg: Config, events: seq<Action>) {
    && |ts| == |events| + 1 && (exists capacity :: ts[0] == Tracked(Start(capacity), []))
    && forall i | 0 <= i < |events| && PartOk(ts[i].state.part) ::
         Enabled(ts[i].state, events[i]) && ClockOk(events[i]) && ts[i + 1] == TrackedNext(ts[i], cfg, events[i])
  }

  /** Consecutive sends are at least the retry delay apart. */
  predicate Spaced(times: seq<int>, maxBackoff: int) {
    forall j | 1 <= j < |times| :: Gap(times, j) >= RetryDelay(j, maxBackoff)
  }

  function Gap(times: seq<int>, j: int): int
    requires 1 <= j < |times|
  {
    times[j] - times[j - 1]
  }

  /** The reference was sent as often as its retry count says, never more than allowed, properly spaced,
      and is not due before the delay after its last send is over. */
  predicate SendsMatch(ref: JobRef, times: seq<int>, cfg: Config) {
    && ref.retryCount == |times| <= (if cfg.maxRetries > 0 then cfg.maxRetries else 0)
    && Spaced(times, cfg.maxBackoff)
    && (times != [] ==> ref.dueTimeSec >= times[|times| - 1] + RetryDelay(|times|, cfg.maxBackoff))
  }

  ghost predicate AllMatch(live: seq<JobRef>, sends: seq<seq<int>>, cfg: Config) {
    |sends| == |live| && forall k | 0 <= k < |live| :: SendsMatch(live[k], sends[k], cfg)
  }

  /** One more send of a due reference with attempts left. */
  lemma SendOnceMore(ref: JobRef, times: seq<int>, cfg: Config, now: int, at: int)
    requires SendsMatch(ref, times, cfg) && ref.dueTimeSec <= now <= at && ref.retryCount < cfg.maxRetries
    ensures SendsMatch(ref.(retryCount := ref.retryCount + 1,
                            dueTimeSec := at + RetryDelay(ref.retryCount + 1, cfg.maxBackoff)), times + [now], cfg)
  {
    hide RetryDelay;
    var more := times + [now];
    forall j | 1 <= j < |more|
      ensures Gap(more, j) >= RetryDelay(j, cfg.maxBackoff)
    {
      if j < |times| {
        assert Gap(more, j) == Gap(times, j);
      }
    }
  }

  lemma MatchAt(live: seq<JobRef>, sends: seq<seq<int>>, cfg: Config, now: int, clock: nat -> int, sent: seq<JobRef>, k: nat)
    requires |sends| == |live| && k < |live| && SendsMatch(live[k], sends[k], cfg) && (forall i :: clock(i) >= now)
    requires IsBatch(live, sent)
    requires forall i | 0 <= i < |sent| :: sent[i].dueTimeSec <= now && sent[i].retryCount < cfg.maxRetries
    ensures |PutOff(live, sent, clock, cfg.maxBackoff)| == |live|
    ensures SendsMatch(PutOff(live, sent, clock, cfg.maxBackoff)[k], Stamp(sends, sent, now)[k], cfg)
  {
    hide PutOff, SendsMatch, RetryDelay;
    PutOffKeeps(live, sent, clock, cfg.maxBackoff);
    if IsSent(sent, k) {
      var i :| 0 <= i < |sent| && sent[i].cell == k;
      assert live[k] == sent[i];
      PutOffSent(live, sent, clock, cfg.maxBackoff, i);
      SendOnceMore(live[k], sends[k], cfg, now, clock(i));
    }
  }

  lemma MatchAfterSend(p: Part, sends: seq<seq<int>>, cfg: Config, now: int, clock: nat -> int, sent: seq<JobRef>)
    requires Numbered(p.live) && AllMatch(p.live, sends, cfg) && (forall i :: clock(i) >= now)
    requires IsBatch(p.live, sent)
    requires forall i | 0 <= i < |sent| :: sent[i].dueTimeSec <= now && sent[i].retryCount < cfg.maxRetries
    ensures AllMatch(PutOff(p.live, sent, clock, cfg.maxBackoff), Stamp(sends, sent, now), cfg)
  {
    hide PutOff, SendsMatch, IsSent;
    PutOffKeeps(p.live, sent, clock, cfg.maxBackoff);
    forall k | 0 <= k < |p.live|
      ensures SendsMatch(PutOff(p.live, sent, clock, cfg.maxBackoff)[k], Stamp(sends, sent, now)[k], cfg)
    {
      MatchAt(p.live, sends, cfg, now, clock, sent, k);
    }
  }

  lemma MatchAfterRemoval(live: seq<JobRef>, sends: seq<seq<int>>, cfg: Config, cells: seq<int>)
    requires Numbered(live) && DistinctCells(cells) && AllMatch(live, sends, cfg)
    ensures AllMatch(RemoveRefs(live, cells), RemoveAll(sends, cells), cfg)
  {
    hide Removed, RemoveRefs, RemoveAll, Left;
    RemovedRefs(live, cells);
    RemoveAllPlaces(sends, cells);
    var left := Left(|live|, cells);
    forall k | 0 <= k < |left|
      ensures SendsMatch(RemoveRefs(live, cells)[k], RemoveAll(sends, cells)[k], cfg)
    {
      assert SendsMatch(live[left[k]], sends[left[k]], cfg);
    }
  }

  lemma SendableHaveAttempts(p: Part, cfg: Config, count: int, now: int)
    requires Numbered(p.live)
    ensures var sent := Sendable(p.store, Batch(p.live, count, now), cfg.maxRetries);
            IsBatch(p.live, sent) && forall i | 0 <= i < |sent| :: sent[i].dueTimeSec <= now && sent[i].retryCount < cfg.maxRetries
  {
    hide Batch, Sendable;
    var items := Batch(p.live, count, now);
    BatchIsBatch(p.live, count, now);
    BatchIsOldestFirst(p.live, count, now);
    SendableMembers(p.store, items, cfg.maxRetries, p.live);
    var sent := Sendable(p.store, items, cfg.maxRetries);
    forall i | 0 <= i < |sent|
      ensures sent[i].dueTimeSec <= now && sent[i].retryCount < cfg.maxRetries
    {
      assert sent[i] in sent;
      var k :| 0 <= k < |items| && items[k] == sent[i];
    }
  }

  lemma DispatchMatches(t: Tracked, cfg: Config, count: int, now: int, clock: nat -> int, accepted: bool)
    requires PartOk(t.state.part) && AllMatch(t.state.part.live, t.sends, cfg) && forall i :: clock(i) >= now
    ensures AllMatch(Dispatched(t.state.part, cfg, count, now, clock, accepted).live,
                     SendsAfter(t, cfg, Dispatch(count, now, clock, accepted)), cfg)
  {
    hide Batch, Sendable, Leaving, PutOff, Stamp, SendsMatch, RemoveRefs, RemoveAll, StoreOk, AllMatch;
    var p := t.state.part;
    var items := Batch(p.live, count, now);
    var sent, leaving := Sendable(p.store, items, cfg.maxRetries), Leaving(p.store, items, cfg.maxRetries);
    BatchIsBatch(p.live, count, now);
    SendableHaveAttempts(p, cfg, count, now);
    LeavingMembers(p.store, items, cfg.maxRetries, p.live);
    CellsAreDistinct(p.live, leaving);
    var live := if accepted && sent != [] then PutOff(p.live, sent, clock, cfg.maxBackoff) else p.live;
    var sends := if accepted && sent != [] then Stamp(t.sends, sent, now) else t.sends;
    if accepted && sent != [] {
      MatchAfterSend(p, t.sends, cfg, now, clock, sent);
      PutOffKeeps(p.live, sent, clock, cfg.maxBackoff);
    }
    MatchAfterRemoval(live, sends, cfg, CellsOf(leaving));
  }

  lemma StepMatches(t: Tracked, cfg: Config, e: Action)
    requires PartOk(t.state.part) && Enabled(t.state, e) && ClockOk(e) && AllMatch(t.state.part.live, t.sends, cfg)
    ensures AllMatch(TrackedNext(t, cfg, e).state.part.live, TrackedNext(t, cfg, e).sends, cfg)
  {
    match e
    case Dispatch(count, now, clock, accepted) => DispatchMatches(t, cfg, count, now, clock, accepted);
    case _ =>
  }

  /** Over every run each reference was sent exactly `retryCount` times, at most `maxRetries` times, and
      consecutive sends of one reference are at least the retry delay apart. */
  lemma {:induction false} RetriesAreBoundedAndSpaced(ts: seq<Tracked>, cfg: Config, events: seq<Action>, i: nat)
    requires IsTrackedRun(ts, cfg, events) && i <= |events|
    ensures PartOk(ts[i].state.part) && AllMatch(ts[i].state.part.live, ts[i].sends, cfg)
  {
    hide TrackedNext, AllMatch;
    if i == 0 {
      StartMatches(ts, cfg, events);
    } else {
      RetriesAreBoundedAndSpaced(ts, cfg, events, i - 1);
      StepMatches(ts[i - 1], cfg, events[i - 1]);
      NextIsNext(ts[i - 1], cfg, events[i - 1]);
      StepKeepsPart(ts[i - 1].state, cfg, events[i - 1]);
    }
  }

  lemma NextIsNext(t: Tracked, cfg: Config, e: Action)
    requires PartOk(t.state.part) && Enabled(t.state, e)
    ensures TrackedNext(t, cfg, e).state == Next(t.state, cfg, e)
  {
  }

  lemma StartMatches(ts: seq<Tracked>, cfg: Config, events: seq<Action>)
    requires IsTrackedRun(ts, cfg, events)
    ensures PartOk(ts[0].state.part) && AllMatch(ts[0].state.part.live, ts[0].sends, cfg)
  {
    var capacity :| ts[0] == Tracked(Start(capacity), []);
  }

  // ---------------------------------------------------------------- attempts run out

  /** The attempts that the queued references have left. */
  function AttemptsLeft(live: seq<JobRef>, maxRetries: int): int {
    if live == [] then 0 else AttemptsLeft(live[..|live| - 1], maxRetries) + maxRetries - live[|live| - 1].retryCount
  }

  lemma {:induction false} AttemptsOfUpdate(live: seq<JobRef>, c: nat, r: JobRef, maxRetries: int)
    requires c < |live|
    ensures AttemptsLeft(live[c := r], maxRetries) == AttemptsLeft(live, maxRetries) + live[c].retryCount - r.retryCount
  {
    var n := |live| - 1;
    if c < n {
      AttemptsOfUpdate(live[..n], c, r, maxRetries);
      assert live[c := r][..n] == live[..n][c := r];
    } else {
      assert live[c := r][..n] == live[..n];
    }
  }

  lemma AttemptsOfRemoval(live: seq<JobRef>, c: int, maxRetries: int)
    requires forall k | 0 <= k < |live| :: live[k].retryCount <= maxRetries
    ensures AttemptsLeft(RemoveRef(live, c), maxRetries) <= AttemptsLeft(live, maxRetries)
    ensures forall k | 0 <= k < |RemoveRef(live, c)| :: RemoveRef(live, c)[k].retryCount <= maxRetries
  {
    if 0 <= c < |live| {
      var n := |live| - 1;
      if c != n {
        var moved := live[n].(cell := c);
        AttemptsOfUpdate(live, c, moved, maxRetries);
        assert AttemptsLeft(live[c := moved], maxRetries) ==
               AttemptsLeft(live[c := moved][..n], maxRetries) + maxRetries - live[n].retryCount;
      }
    }
  }

  lemma {:induction false} AttemptsOfRemovals(live: seq<JobRef>, cells: seq<int>, maxRetries: int)
    requires forall k | 0 <= k < |live| :: live[k].retryCount <= maxRetries
    ensures AttemptsLeft(RemoveRefs(live, cells), maxRetries) <= AttemptsLeft(live, maxRetries)
    ensures forall k | 0 <= k < |RemoveRefs(live, cells)| :: RemoveRefs(live, cells)[k].retryCount <= maxRetries
  {
    if cells != [] {
      AttemptsOfRemovals(live, cells[1..], maxRetries);
      AttemptsOfRemoval(RemoveRefs(live, cells[1..]), cells[0], maxRetries);
    }
  }

  lemma {:induction false} AttemptsOfSend(live: seq<JobRef>, sent: seq<JobRef>, clock: nat -> int, maxBackoff: int, maxRetries: int)
    requires IsBatch(live, sent)
    ensures AttemptsLeft(PutOff(live, sent, clock, maxBackoff), maxRetries) == AttemptsLeft(live, maxRetries) - |sent|
  {
    hide RetryDelay, AttemptsLeft;
    if sent != [] {
      var f, r := sent[..|sent| - 1], sent[|sent| - 1];
      AttemptsOfSend(live, f, clock, maxBackoff, maxRetries);
      PutOffKeeps(live, f, clock, maxBackoff);
      forall i | 0 <= i < |f|
        ensures f[i].cell != r.cell
      {
        assert sent[i].cell != sent[|f|].cell;
      }
      var was := PutOff(live, f, clock, maxBackoff);
      assert was[r.cell] == r;
      AttemptsOfUpdate(was, r.cell, r.(retryCount := r.retryCount + 1,
        dueTimeSec := clock(|f|) + RetryDelay(r.retryCount + 1, maxBackoff)), maxRetries);
    }
  }

  /** The references that an action sends. */
  ghost function SentBy(p: Part, cfg: Config, e: Action): nat {
    if e.Dispatch? && e.accepted then |Sendable(p.store, Batch(p.live, e.count, e.now), cfg.maxRetries)| else 0
  }

  /** Every reference sent uses up an attempt, whatever else the dispatch removes. */
  lemma DispatchUsesAttempts(t: Tracked, cfg: Config, count: int, now: int, clock: nat -> int, accepted: bool)
    requires PartOk(t.state.part) && AllMatch(t.state.part.live, t.sends, cfg) && (forall i :: clock(i) >= now)
    requires cfg.maxRetries >= 0
    ensures AttemptsLeft(Dispatched(t.state.part, cfg, count, now, clock, accepted).live, cfg.maxRetries)
              + SentBy(t.state.part, cfg, Dispatch(count, now, clock, accepted)) <= AttemptsLeft(t.state.part.live, cfg.maxRetries)
  {
    hide Batch, Sendable, Leaving, PutOff, Stamp, RemoveRefs, StoreOk, AttemptsLeft, RetryDelay;
    var p := t.state.part;
    var items := Batch(p.live, count, now);
    var sent, leaving := Sendable(p.store, items, cfg.maxRetries), Leaving(p.store, items, cfg.maxRetries);
    SendableHaveAttempts(p, cfg, count, now);
    if accepted && sent != [] {
      var live := PutOff(p.live, sent, clock, cfg.maxBackoff);
      AttemptsOfSend(p.live, sent, clock, cfg.maxBackoff, cfg.maxRetries);
      MatchAfterSend(p, t.sends, cfg, now, clock, sent);
      AttemptsOfRemovals(live, CellsOf(leaving), cfg.maxRetries);
    } else {
      AttemptsOfRemovals(p.live, CellsOf(leaving), cfg.maxRetries);
    }
  }

  /** The attempts that an action can add: those of one new job. */
  function AddedBy(cfg: Config, e: Action): int {
    if e.Add? then cfg.maxRetries else 0
  }

  lemma StepUsesAttempts(t: Tracked, cfg: Config, e: Action)
    requires PartOk(t.state.part) && Enabled(t.state, e) && ClockOk(e) && AllMatch(t.state.part.live, t.sends, cfg)
    requires cfg.maxRetries >= 0
    ensures AttemptsLeft(Next(t.state, cfg, e).part.live, cfg.maxRetries) + SentBy(t.state.part, cfg, e)
              <= AttemptsLeft(t.state.part.live, cfg.maxRetries) + AddedBy(cfg, e)
  {
    match e
    case Dispatch(count, now, clock, accepted) => DispatchUsesAttempts(t, cfg, count, now, clock, accepted);
    case Add(job, now) => AddedAttempts(t.state.part, job, now, cfg.maxRetries);
    case _ =>
  }

  lemma AddedAttempts(p: Part, job: Job, now: int, maxRetries: int)
    requires PartOk(p) && maxRetries >= 0
    ensures AttemptsLeft(AddOne(p, job, now).live, maxRetries) <= AttemptsLeft(p.live, maxRetries) + maxRetries
  {
    StoreHasFreeList(p.store);
    hide StoreOk, Created, Released, SlotFor, AttemptsLeft;
    var q := AddOne(p, job, now);
    if q.live != p.live {
      AttemptsOfNext(p.live, q.live[|p.live|], maxRetries);
    }
  }

  lemma AttemptsOfNext(live: seq<JobRef>, r: JobRef, maxRetries: int)
    ensures AttemptsLeft(live + [r], maxRetries) == AttemptsLeft(live, maxRetries) + maxRetries - r.retryCount
  {
    assert (live + [r])[..|live|] == live;
  }

  /** The references sent by the actions from `i` up to `j`. */
  ghost function SentBetween(ts: seq<Tracked>, cfg: Config, events: seq<Action>, i: nat, j: nat): nat
    requires i <= j <= |events| < |ts|
  {
    if i == j then 0 else SentBetween(ts, cfg, events, i, j - 1) + SentBy(ts[j - 1].state.part, cfg, events[j - 1])
  }

  function AddedBetween(cfg: Config, events: seq<Action>, i: nat, j: nat): int
    requires i <= j <= |events|
  {
    if i == j then 0 else AddedBetween(cfg, events, i, j - 1) + AddedBy(cfg, events[j - 1])
  }

  lemma {:induction false} SendsUseAttempts(ts: seq<Tracked>, cfg: Config, events: seq<Action>, i: nat, j: nat)
    requires IsTrackedRun(ts, cfg, events) && i <= j <= |events| && cfg.maxRetries >= 0
    ensures AttemptsLeft(ts[j].state.part.live, cfg.maxRetries) + SentBetween(ts, cfg, events, i, j)
              <= AttemptsLeft(ts[i].state.part.live, cfg.maxRetries) + AddedBetween(cfg, events, i, j)
    decreases j
  {
    hide TrackedNext, AllMatch, PartOk, AttemptsLeft, SentBy, AddedBy, Next;
    if i < j {
      SendsUseAttempts(ts, cfg, events, i, j - 1);
      RetriesAreBoundedAndSpaced(ts, cfg, events, j - 1);
      StepUsesAttempts(ts[j - 1], cfg, events[j - 1]);
      NextIsNext(ts[j - 1], cfg, events[j - 1]);
    }
  }

  /** Over any stretch of a run, no more references are sent than there were attempts left at its start and
      attempts of jobs added in it; without new jobs sending comes to an end. */
  lemma SendsAreBounded(ts: seq<Tracked>, cfg: Config, events: seq<Action>, i: nat, j: nat)
    requires IsTrackedRun(ts, cfg, events) && i <= j <= |events| && cfg.maxRetries >= 0
    ensures SentBetween(ts, cfg, events, i, j) <=
              AttemptsLeft(ts[i].state.part.live, cfg.maxRetries) + AddedBetween(cfg, events, i, j)
    ensures (forall k | i <= k < j :: !events[k].Add?) ==>
              SentBetween(ts, cfg, events, i, j) <= AttemptsLeft(ts[i].state.part.live, cfg.maxRetries)
  {
    hide AttemptsLeft, SentBetween;
    SendsUseAttempts(ts, cfg, events, i, j);
    RetriesAreBoundedAndSpaced(ts, cfg, events, j);
    AttemptsNeverNegative(ts[j].state.part.live, cfg.maxRetries);
    if forall k | i <= k < j :: !events[k].Add? {
      NothingAdded(cfg, events, i, j);
    }
  }

  lemma {:induction false} NothingAdded(cfg: Config, events: seq<Action>, i: nat, j: nat)
    requires i <= j <= |events| && forall k | i <= k < j :: !events[k].Add?
    ensures AddedBetween(cfg, events, i, j) == 0
    decreases j
  {
    if i < j {
      NothingAdded(cfg, events, i, j - 1);
    }
  }

  lemma {:induction false} AttemptsNeverNegative(live: seq<JobRef>, maxRetries: int)
    requires forall k | 0 <= k < |live| :: live[k].retryCount <= maxRetries
    ensures AttemptsLeft(live, maxRetries) >= 0
  {
    if live != [] {
      AttemptsNeverNegative(live[..|live| - 1], maxRetries);
    }
  }
}
