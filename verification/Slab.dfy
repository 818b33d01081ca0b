/** The slab of jobs with its free list and its index by job id. A slot is free when its id is empty. */
module Slab {
  import opened History

  datatype Job = Job(id: JobId, done: bool, size: nat)

  const NO_JOB := Job("", false, 0)

  datatype Store = Store(jobs: seq<Job>, free: seq<nat>, byId: map<JobId, nat>)

  predicate Live(s: Store, slot: int) {
    0 <= slot < |s.jobs| && s.jobs[slot].id != ""
  }

  /** The id index is a bijection onto the used slots; the free list names each free slot exactly once. */
  ghost predicate StoreOk(s: Store) {
    && (forall id | id in s.byId :: s.byId[id] < |s.jobs| && s.jobs[s.byId[id]].id == id != "")
    && (forall i | 0 <= i < |s.jobs| && s.jobs[i].id != "" :: s.jobs[i].id in s.byId && s.byId[s.jobs[i].id] == i)
    && (forall k | 0 <= k < |s.free| :: s.free[k] < |s.jobs| && s.jobs[s.free[k]].id == "")
    && (forall j, k | 0 <= j < k < |s.free| :: s.free[j] != s.free[k])
    && (forall i | 0 <= i < |s.jobs| && s.jobs[i].id == "" :: i in s.free)
  }

  /** What is left of that if a job with an empty id was stored: the free list names distinct free slots and
      the index stays inside the slab. */
  ghost predicate FreeListOk(s: Store) {
    && (forall k | 0 <= k < |s.free| :: s.free[k] < |s.jobs| && s.jobs[s.free[k]].id == "")
    && (forall j, k | 0 <= j < k < |s.free| :: s.free[j] != s.free[k])
    && (forall id | id in s.byId :: s.byId[id] < |s.jobs|)
  }

  lemma StoreHasFreeList(s: Store)
    requires StoreOk(s)
    ensures FreeListOk(s) && "" !in s.byId
  {
  }

  function SlotFor(s: Store): nat {
    if s.free == [] then |s.jobs| else s.free[|s.free| - 1]
  }

  /** Stores a job: the last freed slot is reused first, otherwise the slab grows. */
  function Created(s: Store, job: Job): Store
    requires s.free != [] ==> s.free[|s.free| - 1] < |s.jobs|
  {
    var slot := SlotFor(s);
    if s.free == [] then Store(s.jobs + [job], [], s.byId[job.id := slot])
    else Store(s.jobs[slot := job], s.free[..|s.free| - 1], s.byId[job.id := slot])
  }

  function Released(s: Store, slot: nat): Store {
    if slot >= |s.jobs| then s
    else Store(s.jobs[slot := NO_JOB], s.free + [slot], s.byId - {s.jobs[slot].id})
  }

  function MarkedDone(s: Store, id: JobId): Store {
    if id in s.byId && s.byId[id] < |s.jobs| then s.(jobs := s.jobs[s.byId[id] := s.jobs[s.byId[id]].(done := true)]) else s
  }

  function ForceReleased(s: Store, id: JobId): Store {
    if id in s.byId then Released(s, s.byId[id]) else s
  }

  lemma CreateFrame(s: Store, job: Job)
    requires StoreOk(s)
    ensures !Live(s, SlotFor(s)) && Created(s, job).jobs[SlotFor(s)] == job
    ensures forall i | 0 <= i < |s.jobs| && i != SlotFor(s) :: Created(s, job).jobs[i] == s.jobs[i]
    ensures |Created(s, job).jobs| == if s.free == [] then |s.jobs| + 1 else |s.jobs|
  {
  }

  lemma CreatedIndex(s: Store, job: Job)
    requires StoreOk(s)
    ensures Created(s, job).byId == s.byId[job.id := SlotFor(s)] && SlotFor(s) < |Created(s, job).jobs|
  {
  }

  /** The free list loses its last entry and keeps naming each free slot exactly once. */
  lemma FreeAfterCreate(s: Store, job: Job)
    requires StoreOk(s) && job.id != ""
    ensures var s' := Created(s, job);
            && (forall k | 0 <= k < |s'.free| :: s'.free[k] < |s'.jobs| && s'.jobs[s'.free[k]].id == "")
            && (forall j, k | 0 <= j < k < |s'.free| :: s'.free[j] != s'.free[k])
            && (forall i | 0 <= i < |s'.jobs| && s'.jobs[i].id == "" :: i in s'.free)
  {
    var s' := Created(s, job);
    forall i | 0 <= i < |s'.jobs| && s'.jobs[i].id == ""
      ensures i in s'.free
    {
      var k :| 0 <= k < |s.free| && s.free[k] == i;
      assert s'.free[k] == i;
    }
  }

  lemma CreateKeepsStore(s: Store, job: Job)
    requires StoreOk(s) && job.id !in s.byId && job.id != ""
    ensures StoreOk(Created(s, job))
  {
    CreateFrame(s, job);
    FreeAfterCreate(s, job);
    var s', slot := Created(s, job), SlotFor(s);
    hide Created, SlotFor;
    CreatedIndex(s, job);
  }

  /** Storing a job with a new id keeps the store sound exactly when the id is not empty. */
  lemma CreateKeepsStoreIff(s: Store, job: Job)
    requires StoreOk(s) && job.id !in s.byId
    ensures StoreOk(Created(s, job)) <==> job.id != ""
    ensures !Live(s, SlotFor(s)) && Created(s, job).jobs[SlotFor(s)] == job
    ensures forall i | 0 <= i < |s.jobs| && i != SlotFor(s) :: Created(s, job).jobs[i] == s.jobs[i]
  {
    CreateFrame(s, job);
    if job.id == "" {
      assert Created(s, job).byId[""] == SlotFor(s);
    } else {
      CreateKeepsStore(s, job);
    }
  }

  lemma CreateKeepsFreeList(s: Store, job: Job)
    requires FreeListOk(s)
    ensures FreeListOk(Created(s, job))
  {
  }

  /** The slot released last is the next one to be used again; with nothing released the slab grows at its end. */
  lemma LastReleasedIsReused(s: Store, slot: nat, job: Job)
    requires FreeListOk(s) && slot < |s.jobs|
    ensures SlotFor(Released(s, slot)) == slot
    ensures Created(Released(s, slot), job).free == s.free && Created(Released(s, slot), job).jobs == s.jobs[slot := job]
    ensures s.free == [] ==> SlotFor(s) == |s.jobs|
  {
  }

  lemma MarkKeepsFreeList(s: Store, id: JobId)
    requires FreeListOk(s)
    ensures FreeListOk(MarkedDone(s, id))
  {
  }

  /** Releasing the slot of `id` finds it marked as free. */
  predicate ReleasePanics(s: Store, id: JobId) {
    id in s.byId && s.byId[id] < |s.jobs| && !Live(s, s.byId[id])
  }

  lemma NeverPanicsIfOk(s: Store, id: JobId)
    ensures StoreOk(s) ==> !ReleasePanics(s, id)
  {
  }

  lemma ReleaseKeepsStore(s: Store, slot: nat)
    requires StoreOk(s) && (slot < |s.jobs| ==> Live(s, slot))
    ensures StoreOk(Released(s, slot)) && !Live(Released(s, slot), slot)
    ensures forall i | 0 <= i < |s.jobs| && i != slot :: Released(s, slot).jobs[i] == s.jobs[i]
  {
    if slot < |s.jobs| {
      var s' := Released(s, slot);
      forall i | 0 <= i < |s'.jobs| && s'.jobs[i].id == ""
        ensures i in s'.free
      {
        if i == slot {
          assert s'.free[|s.free|] == slot;
        } else {
          var k :| 0 <= k < |s.free| && s.free[k] == i;
          assert s'.free[k] == i;
        }
      }
    }
  }

  lemma MarkKeepsStore(s: Store, id: JobId)
    requires StoreOk(s)
    ensures StoreOk(MarkedDone(s, id))
    ensures forall i | 0 <= i < |s.jobs| :: MarkedDone(s, id).jobs[i].id == s.jobs[i].id
  {
  }

  lemma ForceReleaseKeepsStore(s: Store, id: JobId)
    requires StoreOk(s)
    ensures StoreOk(ForceReleased(s, id)) && id !in ForceReleased(s, id).byId
  {
    if id in s.byId {
      ReleaseKeepsStore(s, s.byId[id]);
    }
  }

  class JobStore {
    var jobs: seq<Job>
    var freeList: seq<nat>
    var byId: map<JobId, nat>

    ghost function Model(): Store
      reads this
    {
      Store(jobs, freeList, byId)
    }

    ghost predicate Valid()
      reads this
    {
      StoreOk(Model())
    }

    constructor ()
      ensures Valid() && Model() == Store([], [], map[])
    {
      jobs, freeList, byId := [], [], map[];
    }

    /** `None` stands for the duplicate-id error. The check for a corrupt free list never fires, whatever ids
        were stored; a sound store stays sound exactly unless an empty id is stored. */
    method Create(job: Job) returns (slot: Option<nat>)
      requires FreeListOk(Model())
      modifies this
      ensures FreeListOk(Model()) && (old(Valid()) ==> (Valid() <==> slot.None? || job.id != ""))
      ensures slot.None? <==> job.id in old(byId)
      ensures slot.None? ==> Model() == old(Model())
      ensures slot.Some? ==> Model() == Created(old(Model()), job) && slot.value == SlotFor(old(Model()))
    {
      if job.id in byId {
        return None;
      }
      if Valid() {
        CreateKeepsStoreIff(Model(), job);
      }
      hide StoreOk;
      CreateKeepsFreeList(Model(), job);
      var idx;
      if |freeList| > 0 {
        idx := freeList[|freeList| - 1];
        assert jobs[idx].id == "";
        freeList := freeList[..|freeList| - 1];
        jobs := jobs[idx := job];
      } else {
        idx := |jobs|;
        jobs := jobs + [job];
      }
      byId := byId[job.id := idx];
      return Some(idx);
    }

    /** Panics exactly on a free slot of the slab; slots outside it are ignored. */
    method Release(slot: nat) returns (panicked: bool)
      requires FreeListOk(Model())
      modifies this
      ensures FreeListOk(Model()) && (old(Valid()) ==> Valid())
      ensures panicked <==> slot < |old(jobs)| && old(jobs)[slot].id == ""
      ensures Model() == if panicked then old(Model()) else Released(old(Model()), slot)
    {
      if slot >= |jobs| {
        return false;
      }
      if jobs[slot].id == "" {
        return true;
      }
      if Valid() {
        ReleaseKeepsStore(Model(), slot);
      }
      hide StoreOk;
      byId := byId - {jobs[slot].id};
      jobs := jobs[slot := NO_JOB];
      freeList := freeList + [slot];
      return false;
    }

    method MarkDone(id: JobId) returns (found: bool)
      requires FreeListOk(Model())
      modifies this
      ensures FreeListOk(Model()) && (old(Valid()) ==> Valid())
      ensures Model() == MarkedDone(old(Model()), id) && found == (id in old(byId))
    {
      if id !in byId {
        return false;
      }
      MarkKeepsFreeList(Model(), id);
      if Valid() {
        MarkKeepsStore(Model(), id);
      }
      hide StoreOk;
      jobs := jobs[byId[id] := jobs[byId[id]].(done := true)];
      return true;
    }

    /** Panics exactly if the id leads to a slot that looks free, which only a stored empty id can do. */
    method ForceRelease(id: JobId) returns (found: bool, panicked: bool)
      requires FreeListOk(Model())
      modifies this
      ensures FreeListOk(Model()) && (old(Valid()) ==> Valid() && !panicked)
      ensures found == (id in old(byId)) && panicked == ReleasePanics(old(Model()), id)
      ensures Model() == if panicked then old(Model()) else ForceReleased(old(Model()), id)
    {
      if id !in byId {
        return false, false;
      }
      NeverPanicsIfOk(Model(), id);
      panicked := Release(byId[id]);
      return true, panicked;
    }

    method ReleaseIfDone(id: JobId) returns (released: bool, panicked: bool)
      requires FreeListOk(Model())
      modifies this
      ensures FreeListOk(Model()) && (old(Valid()) ==> Valid() && !panicked)
      ensures released || panicked <==> id in old(byId) && old(jobs)[old(byId)[id]].done
      ensures panicked <==> id in old(byId) && old(jobs)[old(byId)[id]].done && ReleasePanics(old(Model()), id)
      ensures Model() == if released && !panicked then ForceReleased(old(Model()), id) else old(Model())
    {
      if id !in byId {
        return false, false;
      }
      if jobs[byId[id]].done {
        NeverPanicsIfOk(Model(), id);
        panicked := Release(byId[id]);
        return !panicked, panicked;
      }
      return false, false;
    }

    method Get(slot: nat) returns (job: Option<Job>)
      ensures job == if Live(Model(), slot) then Some(jobs[slot]) else None
    {
      if slot >= |jobs| || jobs[slot].id == "" {
        return None;
      }
      return Some(jobs[slot]);
    }
  }
}
