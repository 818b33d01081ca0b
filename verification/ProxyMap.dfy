/** The table of proxies and the round-robin choice among those with consumers. */
module Proxies {
  type ProxyId = string

  datatype ProxyState = ProxyState(consumers: int, lastHeartbeat: int)

  datatype Choice = NoProxy | Proxy(id: ProxyId, consumers: int)

  /** The list and its index are inverse to each other, so the list has no duplicates. */
  ghost predicate Inverse(available: seq<ProxyId>, index: map<ProxyId, nat>) {
    && (forall i | 0 <= i < |available| :: available[i] in index && index[available[i]] == i)
    && (forall id | id in index :: index[id] < |available| && available[index[id]] == id)
  }

  predicate HasConsumers(proxies: map<ProxyId, ProxyState>, id: ProxyId) {
    id in proxies && proxies[id].consumers > 0
  }

  predicate IsStale(s: ProxyState, now: int, timeoutMs: int) {
    now - s.lastHeartbeat > timeoutMs
  }

  class ProxyMap {
    var proxies: map<ProxyId, ProxyState>
    var available: seq<ProxyId>
    var availableIndex: map<ProxyId, nat>
    var roundRobin: nat

    /** The list holds exactly the proxies with consumers. */
    ghost predicate Valid()
      reads this
    {
      && Inverse(available, availableIndex)
      && forall id :: id in availableIndex <==> HasConsumers(proxies, id)
    }

    constructor ()
      ensures Valid() && proxies == map[] && available == [] && roundRobin == 0
    {
      proxies, available, availableIndex, roundRobin := map[], [], map[], 0;
    }

    method Update(id: ProxyId, score: int, timestamp: int)
      requires Valid()
      modifies this
      ensures Valid() && proxies == old(proxies)[id := ProxyState(score, timestamp)]
      ensures roundRobin == old(roundRobin)
      ensures HasConsumers(proxies, id) == HasConsumers(old(proxies), id) ==> available == old(available)
    {
      var wasAvailable := id in proxies && proxies[id].consumers > 0;
      proxies := proxies[id := ProxyState(score, timestamp)];
      var isAvailable := score > 0;
      if !wasAvailable && isAvailable {
        AddToAvailable(id);
      } else if wasAvailable && !isAvailable {
        RemoveFromAvailable(id);
      }
    }

    method AddToAvailable(id: ProxyId)
      requires Inverse(available, availableIndex)
      modifies this`available, this`availableIndex
      ensures Inverse(available, availableIndex) && availableIndex.Keys == old(availableIndex).Keys + {id}
      ensures available == if id in old(availableIndex) then old(available) else old(available) + [id]
    {
      if id in availableIndex {
        return;
      }
      availableIndex := availableIndex[id := |available|];
      available := available + [id];
    }

    /** Swaps the last entry into the gap. */
    method RemoveFromAvailable(id: ProxyId)
      requires Inverse(available, availableIndex)
      modifies this`available, this`availableIndex
      ensures Inverse(available, availableIndex) && availableIndex.Keys == old(availableIndex).Keys - {id}
      ensures id !in old(availableIndex) ==> available == old(available)
      ensures id in old(availableIndex) ==>
                && |available| == |old(available)| - 1
                && forall i | 0 <= i < |available| ::
                     available[i] == old(available)[if i == old(availableIndex)[id] then |available| else i]
    {
      if id !in availableIndex {
        return;
      }
      var idx, last := availableIndex[id], |available| - 1;
      var lastId := available[last];
      available := available[idx := lastId];
      availableIndex := availableIndex[lastId := idx];
      available := available[..last];
      availableIndex := availableIndex - {id};
    }

    /** Takes the proxy at the round-robin position and moves on; every listed proxy has consumers, so
        the search never has to skip one. */
    method GetNextAvailable() returns (c: Choice)
      requires Valid()
      modifies this`roundRobin
      ensures available == [] <==> c.NoProxy?
      ensures available == [] ==> roundRobin == old(roundRobin)
      ensures available != [] ==>
                && c.id == available[old(roundRobin) % |available|] && c.consumers == proxies[c.id].consumers > 0
                && roundRobin == (old(roundRobin) % |available| + 1) % |available|
    {
      if |available| == 0 {
        return NoProxy;
      }
      var start := roundRobin;
      for i := 0 to |available|
        invariant i == 0 && roundRobin == start
      {
        var idx := (start + i) % |available|;
        var id := available[idx];
        assert HasConsumers(proxies, id);
        var consumers := proxies[id].consumers;
        if consumers > 0 {
          roundRobin := (idx + 1) % |available|;
          return Proxy(id, consumers);
        }
      }
      return NoProxy;
    }

    /** Forgets the proxies whose last heartbeat is too old and rebuilds the list if there were any. */
    method CleanupStale(now: int, timeoutSeconds: int)
      requires Valid()
      modifies this
      ensures Valid()
      ensures forall id :: id in proxies <==> id in old(proxies) && now - old(proxies)[id].lastHeartbeat <= timeoutSeconds * 1000
      ensures forall id | id in proxies :: proxies[id] == old(proxies)[id]
      ensures proxies != old(proxies) ==> roundRobin == 0
      ensures proxies == old(proxies) ==> available == old(available) && roundRobin == old(roundRobin)
    {
      var cleaned := DropStale(now, timeoutSeconds * 1000);
      if cleaned {
        RebuildAvailableCache();
      }
    }

    method DropStale(now: int, timeout: int) returns (cleaned: bool)
      requires Valid()
      modifies this`proxies, this`available, this`availableIndex
      ensures proxies == map id | id in old(proxies) && !IsStale(old(proxies)[id], now, timeout) :: old(proxies)[id]
      ensures cleaned <==> proxies != old(proxies)
      ensures !cleaned ==> available == old(available) && availableIndex == old(availableIndex)
    {
      hide Inverse;
      ghost var was := proxies;
      var todo := proxies.Keys;
      cleaned := false;
      while todo != {}
        invariant todo <= was.Keys && Inverse(available, availableIndex)
        invariant forall id | id in proxies :: id in was && proxies[id] == was[id] && (id in todo || !IsStale(was[id], now, timeout))
        invariant forall id | id in was && (id in todo || !IsStale(was[id], now, timeout)) :: id in proxies
        invariant !cleaned ==> proxies == was && available == old(available) && availableIndex == old(availableIndex)
        invariant cleaned ==> proxies.Keys != was.Keys
        decreases |todo|
      {
        var id :| id in todo;
        if IsStale(proxies[id], now, timeout) {
          proxies := proxies - {id};
          RemoveFromAvailable(id);
          cleaned := true;
          assert id in was.Keys && id !in proxies.Keys;
        }
        todo := todo - {id};
      }
    }

    method RebuildAvailableCache()
      modifies this`available, this`availableIndex, this`roundRobin
      ensures Valid() && roundRobin == 0
    {
      available, availableIndex := [], map[];
      var todo := proxies.Keys;
      while todo != {}
        invariant todo <= proxies.Keys && Inverse(available, availableIndex)
        invariant forall id :: id in availableIndex <==> HasConsumers(proxies, id) && id !in todo
        decreases |todo|
      {
        var id :| id in todo;
        if proxies[id].consumers > 0 {
          availableIndex := availableIndex[id := |available|];
          available := available + [id];
        }
        todo := todo - {id};
      }
      roundRobin := 0;
    }
  }

  // ---------------------------------------------------------------- fairness

  function Successor(i: nat, n: nat): nat
    requires n > 0
  {
    (i % n + 1) % n
  }

  /** The proxies that `k` consecutive choices return when nothing else happens. */
  function Served(available: seq<ProxyId>, roundRobin: nat, k: nat): seq<ProxyId>
    requires available != []
    decreases k
  {
    if k == 0 then []
    else [available[roundRobin % |available|]] + Served(available, Successor(roundRobin, |available|), k - 1)
  }

  function Wrap(i: nat, n: nat): nat
    requires i < 2 * n
  {
    if i < n then i else i - n
  }

  lemma WrappedSuccessor(i: nat, n: nat)
    requires i < n
    ensures Successor(i, n) == Wrap(i + 1, n) && i % n == i
  {
    BelowModulus(i, n);
    if i + 1 < n {
      BelowModulus(i + 1, n);
    }
  }

  lemma BelowModulus(i: nat, n: nat)
    requires i < n
    ensures i % n == i
  {
  }

  lemma {:induction false} ServedInOrder(available: seq<ProxyId>, start: nat, k: nat)
    requires start < |available| && k <= |available|
    ensures |Served(available, start, k)| == k
    ensures forall j | 0 <= j < k :: Served(available, start, k)[j] == available[Wrap(start + j, |available|)]
    decreases k
  {
    if k > 0 {
      var n := |available|;
      WrappedSuccessor(start, n);
      ServedInOrder(available, Wrap(start + 1, n), k - 1);
    }
  }

  lemma ServedFromWrapped(available: seq<ProxyId>, roundRobin: nat, k: nat)
    requires available != []
    ensures roundRobin % |available| < |available|
    ensures Served(available, roundRobin, k) == Served(available, roundRobin % |available|, k)
  {
    WrappedSuccessor(roundRobin % |available|, |available|);
  }

  /** With `n` proxies available, any `n` consecutive choices return each of them exactly once, wherever
      the round-robin position stands, even past the end of the list. */
  lemma RoundRobinIsFair(available: seq<ProxyId>, index: map<ProxyId, nat>, roundRobin: nat)
    requires available != [] && Inverse(available, index)
    ensures var s := Served(available, roundRobin, |available|);
            && |s| == |available|
            && (forall i, j | 0 <= i < j < |s| :: s[i] != s[j])
            && (forall id :: id in s <==> id in available)
  {
    var n := |available|;
    var start, s := roundRobin % n, Served(available, roundRobin, n);
    ServedFromWrapped(available, roundRobin, n);
    ServedInOrder(available, start, n);
    forall i, j | 0 <= i < j < n
      ensures s[i] != s[j]
    {
      assert Wrap(start + i, n) != Wrap(start + j, n);
    }
    forall id | id in available
      ensures id in s
    {
      var i :| 0 <= i < n && available[i] == id;
      assert s[if i >= start then i - start else i + n - start] == id;
    }
  }
}
