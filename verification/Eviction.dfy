// The eviction loop of memory/eviction.py. How much memory the databases use and how an entry ranks are parameters.

module Eviction {
  import opened Bytes
  import opened Resp
  import opened Keyspaces
  import opened Databases

  datatype Rank = ByLastAccess | ByAccessCount | AsSampled

  /** What the name of the policy says. */
  datatype Policy = NoEviction | Evict(volatile: bool, rank: Rank)

  predicate Evictable(policy: Policy, e: Entry) {
    policy.Evict? && (policy.volatile ==> e.expireAt.Some?)
  }

  /** Keys were deleted, all of them evictable, and nothing else changed. */
  ghost predicate OnlyEvicted(policy: Policy, a: map<int, KS>, b: map<int, KS>) {
    && a.Keys == b.Keys
    && (forall d, k :: d in a && k in b[d].entries ==> k in a[d].entries && b[d].entries[k] == a[d].entries[k])
    && (forall d, k :: d in a && k in a[d].entries && k !in b[d].entries ==> Evictable(policy, a[d].entries[k]))
  }

  lemma OnlyEvictedTrans(policy: Policy, a: map<int, KS>, b: map<int, KS>, c: map<int, KS>)
    requires OnlyEvicted(policy, a, b) && OnlyEvicted(policy, b, c)
    ensures OnlyEvicted(policy, a, c)
  {
  }

  lemma OneEvicted(policy: Policy, a: map<int, KS>, d: int, key: bytes)
    requires d in a && key in a[d].entries && Evictable(policy, a[d].entries[key])
    ensures OnlyEvicted(policy, a, a[d := Delete(a[d], key)])
  {
  }

  lemma NoneEvicted(policy: Policy, a: map<int, KS>)
    ensures OnlyEvicted(policy, a, a)
  {
  }

  datatype Candidate = Candidate(dbId: int, key: bytes)

  /** The candidate that rank puts first; of equal ones, the first sampled. */
  ghost predicate FirstBy(rank: Candidate -> int, candidates: seq<Candidate>, best: Candidate) {
    exists i :: 0 <= i < |candidates| && candidates[i] == best
                && (forall j :: i < j < |candidates| ==> rank(best) <= rank(candidates[j]))
                && (forall j :: 0 <= j < i ==> rank(best) < rank(candidates[j]))
  }

  ghost predicate CandidateOk(policy: Policy, dbs: map<int, KS>, c: Candidate) {
    c.dbId in dbs && c.key in dbs[c.dbId].entries && Evictable(policy, dbs[c.dbId].entries[c.key])
  }

  /** The key has an expiry. */
  ghost predicate VolatileIn(dbs: map<int, KS>, c: Candidate) {
    c.dbId in dbs && c.key in dbs[c.dbId].entries && dbs[c.dbId].entries[c.key].expireAt.Some?
  }

  ghost predicate Same(a: map<int, KS>, b: map<int, KS>) { a == b }

  lemma SameIsEqual(a: map<int, KS>, b: map<int, KS>)
    requires Same(a, b)
    ensures a == b
  {
  }

  /** Just the one key was deleted. */
  ghost predicate Lost(a: map<int, KS>, b: map<int, KS>, c: Candidate) {
    c.dbId in a && c.key in a[c.dbId].entries && b == a[c.dbId := Delete(a[c.dbId], c.key)]
  }

  /** The last key to go went because the limit was exceeded. */
  ghost predicate LastNeeded(used: map<int, KS> -> int, max: int, evicted: nat, last: map<int, KS>, target: Candidate,
                             now: map<int, KS>)
  {
    evicted > 0 ==> used(last) > max && Lost(last, now, target)
  }

  lemma NoneNeeded(used: map<int, KS> -> int, max: int, last: map<int, KS>, target: Candidate, now: map<int, KS>)
    ensures LastNeeded(used, max, 0, last, target, now)
  {
  }

  lemma OneNeeded(used: map<int, KS> -> int, max: int, evicted: nat, last: map<int, KS>, target: Candidate,
                  now: map<int, KS>)
    requires used(last) > max && Lost(last, now, target)
    ensures LastNeeded(used, max, evicted, last, target, now)
  {
  }

  lemma NeededMeans(used: map<int, KS> -> int, max: int, evicted: nat, last: map<int, KS>, target: Candidate,
                    now: map<int, KS>)
    requires LastNeeded(used, max, evicted, last, target, now)
    ensures evicted > 0 ==> used(last) > max && Lost(last, now, target)
  {
  }

  /** Nothing is left that the policy may take. */
  ghost predicate NothingToEvict(policy: Policy, dbs: map<int, KS>, n: nat) {
    forall d, k :: d in dbs && 0 <= d < n && k in dbs[d].entries ==> !Evictable(policy, dbs[d].entries[k])
  }

  /** The sample of each database takes in all of its keys. */
  ghost predicate SamplesCover(dbs: map<int, KS>, n: nat, samples: nat) {
    forall d :: d in dbs && 0 <= d < n ==> |dbs[d].entries| <= samples
  }

  /**
    * When no candidate is found. Under an allkeys policy one sample per database is enough to find what there is;
    * under a volatile one the samples may miss it, unless they cover the databases.
    */
  ghost predicate Exhausted(policy: Policy, samples: nat, dbs: map<int, KS>, n: nat) {
    policy.Evict? && ((!policy.volatile && samples > 0) || SamplesCover(dbs, n, samples)) ==>
          NothingToEvict(policy, dbs, n)
  }

  ghost predicate AllEmpty(dbs: map<int, KS>, n: nat) {
    forall d :: d in dbs && 0 <= d < n ==> dbs[d].entries == map[]
  }

  /** Giving up, key by key: nothing stored, or nothing with an expiry, where the samples had to find it. */
  lemma ExhaustedMeans(policy: Policy, samples: nat, dbs: map<int, KS>, n: nat)
    requires Exhausted(policy, samples, dbs, n) && policy.Evict?
    ensures !policy.volatile && samples > 0 ==> AllEmpty(dbs, n)
    ensures policy.volatile && (forall d :: d in dbs && 0 <= d < n ==> |dbs[d].entries| <= samples) ==>
              forall d, k :: d in dbs && 0 <= d < n && k in dbs[d].entries ==> dbs[d].entries[k].expireAt == None
  {
    if !policy.volatile && samples > 0 {
      NothingLeft(policy, dbs, n);
    }
  }

  lemma NoDatabases(policy: Policy, samples: nat, dbs: map<int, KS>)
    ensures Exhausted(policy, samples, dbs, 0)
  {
  }

  lemma OneMoreDatabase(policy: Policy, samples: nat, dbs: map<int, KS>, n: nat)
    requires Exhausted(policy, samples, dbs, n) && n in dbs && policy.Evict?
    requires !policy.volatile && samples > 0 ==> dbs[n].entries == map[]
    requires |dbs[n].entries| <= samples ==> forall k :: k in dbs[n].entries ==> !Evictable(policy, dbs[n].entries[k])
    ensures Exhausted(policy, samples, dbs, n + 1)
  {
  }

  /** Python's random.sample: any n of the keys, in any order. */
  method RandomSample(keys: seq<bytes>, n: nat) returns (sample: seq<bytes>)
    requires n <= |keys|
    ensures |sample| == n && multiset(sample) <= multiset(keys)
    ensures n == |keys| ==> multiset(sample) == multiset(keys)
  {
    sample := [];
    var left := keys;
    for i := 0 to n
      invariant |sample| == i && |left| == |keys| - i
      invariant multiset(sample) + multiset(left) == multiset(keys)
    {
      var pick: int := *;
      if !(0 <= pick < |left|) {
        pick := 0;
      }
      assert left == left[..pick] + [left[pick]] + left[pick + 1..];
      sample := sample + [left[pick]];
      left := left[..pick] + left[pick + 1..];
    }
  }

  lemma SameContents(a: map<int, KS>, b: map<int, KS>)
    requires (forall d :: d in a ==> d in b) && (forall d :: d in b ==> d in a)
    requires forall d {:trigger a[d]} :: d in a ==> d in b && a[d] == b[d]
    ensures a == b
  {
    forall d | d in a.Keys
      ensures d in b.Keys && a[d] == b[d]
    {
      assert d in a;
    }
    forall d | d in b.Keys
      ensures d in a.Keys
    {
      assert d in b;
    }
    assert a.Keys == b.Keys;
  }

  lemma SampleMembers(sample: seq<bytes>, keys: seq<bytes>)
    requires multiset(sample) <= multiset(keys)
    ensures forall k :: k in sample ==> k in keys
    ensures multiset(sample) == multiset(keys) ==> forall k :: k in keys ==> k in sample
  {
    forall k | k in sample
      ensures k in keys
    {
      assert k in multiset(sample);
    }
    if multiset(sample) == multiset(keys) {
      forall k | k in keys
        ensures k in sample
      {
        assert k in multiset(keys);
      }
    }
  }

  class EvictionManager {
    const manager: DatabaseManager
    const usedMemory: map<int, KS> -> int
    const lastAccess: Candidate -> int
    const accessCount: Candidate -> int
    const maxMemory: int
    const policy: Policy
    const samples: nat
    var evictedKeysCount: nat

    constructor (manager: DatabaseManager, usedMemory: map<int, KS> -> int, lastAccess: Candidate -> int,
                 accessCount: Candidate -> int,
                 maxMemory: int, policy: Policy, samples: nat)
      ensures this.manager == manager && this.usedMemory == usedMemory && this.lastAccess == lastAccess &&
              this.accessCount == accessCount
      ensures this.maxMemory == maxMemory && this.policy == policy && this.samples == samples && evictedKeysCount == 0
    {
      this.manager, this.usedMemory, this.lastAccess, this.accessCount := manager, usedMemory, lastAccess, accessCount;
      this.maxMemory, this.policy, this.samples, evictedKeysCount := maxMemory, policy, samples, 0;
    }

    /** The tracker goes through every database. */
    method UsedMemory() returns (n: int)
      requires manager.Valid()
      ensures n == usedMemory(manager.View())
    {
      var contents: map<int, KS> := map[];
      for d := 0 to manager.Bound()
        invariant forall e :: e in contents <==> e in manager.databases && e < d
        invariant forall e :: e in contents ==> contents[e] == manager.View()[e]
      {
        if d in manager.databases {
          contents := contents[d := manager.databases[d].View()];
        }
      }
      assert forall e :: e in manager.databases ==> e < manager.Bound();
      SameContents(contents, manager.View());
      n := usedMemory(contents);
    }

    /** What the candidates are sorted by. */
    function RankOf(c: Candidate): int {
      if policy.Evict? && policy.rank.ByLastAccess? then lastAccess(c)
      else if policy.Evict? && policy.rank.ByAccessCount? then accessCount(c)
      else 0
    }

    /** The candidates of one database. */
    method SampleDatabase(dbId: int) returns (candidates: seq<Candidate>)
      requires manager.Valid() && dbId in manager.databases && policy.Evict?
      ensures forall c :: c in candidates ==> c.dbId == dbId && CandidateOk(policy, manager.View(), c)
      ensures !policy.volatile && samples > 0 && manager.View()[dbId].entries != map[] ==> candidates != []
      ensures |manager.View()[dbId].entries| <= samples ==>
                forall k :: k in manager.View()[dbId].entries && Evictable(policy, manager.View()[dbId].entries[k]) ==>
                              Candidate(dbId, k) in candidates
    {
      var keyspace := manager.databases[dbId];
      candidates := [];
      if keyspace.entries == map[] {
        return;
      }
      OrderSize(keyspace.View());
      var allKeys := keyspace.order;
      var sampleKeys := RandomSample(allKeys, if samples < |allKeys| then samples else |allKeys|);
      SampleMembers(sampleKeys, allKeys);
      candidates := Filter(dbId, sampleKeys);
    }

    /** Keys without expiry do not count under a volatile policy. */
    method Filter(dbId: int, sampleKeys: seq<bytes>) returns (candidates: seq<Candidate>)
      requires manager.Valid() && dbId in manager.databases && policy.Evict?
      requires forall k :: k in sampleKeys ==> k in manager.databases[dbId].entries
      ensures forall c :: c in candidates ==> c.dbId == dbId && CandidateOk(policy, manager.View(), c)
      ensures !policy.volatile && sampleKeys != [] ==> candidates != []
      ensures forall k :: k in sampleKeys && Evictable(policy, manager.databases[dbId].entries[k]) ==>
                Candidate(dbId, k) in candidates
    {
      candidates := [];
      var entries := manager.databases[dbId].entries;
      assert manager.View()[dbId].entries == entries;
      hide DatabaseManager.Valid;
      for i := 0 to |sampleKeys|
        invariant forall c :: c in candidates ==>
                    c.dbId == dbId && c.key in entries && Evictable(policy, entries[c.key])
        invariant !policy.volatile && i > 0 ==> candidates != []
        invariant forall j :: 0 <= j < i && Evictable(policy, entries[sampleKeys[j]]) ==>
                    Candidate(dbId, sampleKeys[j]) in candidates
      {
        var k := sampleKeys[i];
        if !policy.volatile || entries[k].expireAt.Some? {
          candidates := candidates + [Candidate(dbId, k)];
        }
      }
    }

    method GatherCandidates() returns (candidates: seq<Candidate>)
      requires manager.Valid() && policy.Evict?
      ensures forall c :: c in candidates ==> CandidateOk(policy, manager.View(), c)
      ensures candidates == [] ==> Exhausted(policy, samples, manager.View(), manager.numDatabases)
    {
      hide CandidateOk, Exhausted, Evictable;
      candidates := [];
      NoDatabases(policy, samples, manager.View());
      for dbId := 0 to manager.numDatabases
        invariant forall c :: c in candidates ==> CandidateOk(policy, manager.View(), c)
        invariant candidates == [] ==> Exhausted(policy, samples, manager.View(), dbId)
      {
        var more := SampleDatabase(dbId);
        if candidates + more == [] {
          OneMoreDatabase(policy, samples, manager.View(), dbId);
        }
        candidates := candidates + more;
      }
    }

    /** The first of the sorted candidates: the least recently used, the least often used, or just the first sampled. */
    method Best(candidates: seq<Candidate>) returns (best: Candidate)
      requires candidates != [] && policy.Evict?
      ensures best in candidates
      ensures policy.rank.ByLastAccess? ==> FirstBy(lastAccess, candidates, best)
      ensures policy.rank.ByAccessCount? ==> FirstBy(accessCount, candidates, best)
      ensures policy.rank.AsSampled? ==> best == candidates[0]
    {
      best := candidates[0];
      ghost var at := 0;
      for i := 1 to |candidates|
        invariant 0 <= at < i && candidates[at] == best
        invariant forall j :: at < j < i ==> RankOf(best) <= RankOf(candidates[j])
        invariant forall j :: 0 <= j < at ==> RankOf(best) < RankOf(candidates[j])
        invariant policy.rank.AsSampled? ==> at == 0
      {
        if RankOf(candidates[i]) < RankOf(best) {
          best, at := candidates[i], i;
        }
      }
    }

    /** Evicts the candidate that the policy puts first, if there is any candidate. */
    method FindAndEvictCandidate() returns (evicted: bool, ghost candidates: seq<Candidate>, ghost target: Candidate)
      requires manager.Valid() && policy.Evict?
      modifies manager.keyspaces
      ensures manager.Valid() && OnlyEvicted(policy, old(manager.View()), manager.View())
      ensures evicted <==> candidates != []
      ensures forall c :: c in candidates ==> CandidateOk(policy, old(manager.View()), c)
      ensures evicted && policy.rank.ByLastAccess? ==> FirstBy(lastAccess, candidates, target)
      ensures evicted && policy.rank.ByAccessCount? ==> FirstBy(accessCount, candidates, target)
      ensures evicted && policy.rank.AsSampled? ==> target == candidates[0]
      ensures evicted && policy.volatile ==> VolatileIn(old(manager.View()), target)
      ensures if evicted then Lost(old(manager.View()), manager.View(), target)
              else Same(old(manager.View()), manager.View())
      ensures !evicted ==> Exhausted(policy, samples, manager.View(), manager.numDatabases)
      ensures manager.Total() == old(manager.Total()) - if evicted then 1 else 0
    {
      hide Exhausted, OnlyEvicted, WellFormed, TotalSize, DatabaseManager.Total, DatabaseManager.Valid, Delete;
      var found := GatherCandidates();
      candidates := found;
      if found == [] {
        NoneEvicted(policy, manager.View());
        target := Candidate(0, []);
        return false, candidates, target;
      }
      var best := Best(found);
      target := best;
      OneEvicted(policy, manager.View(), best.dbId, best.key);
      var _ := manager.DeleteFrom(best.dbId, best.key);
      evicted := true;
    }

    /** One round of the loop, and how much memory is used then. */
    method EvictOnce(ghost start: map<int, KS>) returns (found: bool, used: int, ghost victim: Candidate)
      requires manager.Valid() && policy.Evict? && OnlyEvicted(policy, start, manager.View())
      modifies manager.keyspaces
      ensures manager.Valid() && OnlyEvicted(policy, start, manager.View())
      ensures if found then Lost(old(manager.View()), manager.View(), victim)
              else manager.View() == old(manager.View())
      ensures !found ==> Exhausted(policy, samples, manager.View(), manager.numDatabases)
      ensures manager.Total() == old(manager.Total()) - if found then 1 else 0
      ensures used == usedMemory(manager.View())
    {
      hide Exhausted, OnlyEvicted, Same, Lost, CandidateOk, WellFormed, TotalSize, DatabaseManager.Total,
        DatabaseManager.Valid, VolatileIn, FirstBy;
      ghost var before := manager.View();
      var evicted, _, target := FindAndEvictCandidate();
      found, victim := evicted, target;
      OnlyEvictedTrans(policy, start, before, manager.View());
      if !found {
        SameIsEqual(before, manager.View());
      }
      ghost var after, total := manager.View(), manager.Total();
      used := UsedMemory();
      assert manager.Valid() && manager.View() == after && manager.Total() == total;
    }

    /**
      * The loop: it goes on while the limit is exceeded, and no longer: the last state but one exceeded it. It stops
      * early when there is no candidate.
      */
    method EvictUntilFits() returns (ok: bool, evicted: nat, ghost last: map<int, KS>, ghost target: Candidate)
      requires manager.Valid() && policy.Evict?
      modifies manager.keyspaces
      ensures manager.Valid() && OnlyEvicted(policy, old(manager.View()), manager.View())
      ensures ok <==> usedMemory(manager.View()) <= maxMemory
      ensures evicted == old(manager.Total()) - manager.Total()
      ensures evicted > 0 ==> usedMemory(last) > maxMemory && Lost(last, manager.View(), target)
      ensures !ok ==> Exhausted(policy, samples, manager.View(), manager.numDatabases)
    {
      hide Exhausted, OnlyEvicted, Same, Lost, CandidateOk, WellFormed, TotalSize, DatabaseManager.Total,
        DatabaseManager.Valid, VolatileIn, FirstBy, LastNeeded;
      ghost var start, total := manager.View(), manager.Total();
      NoneEvicted(policy, start);
      var used := UsedMemory();
      evicted, last, target := 0, start, Candidate(0, []);
      NoneNeeded(usedMemory, maxMemory, last, target, start);
      while used > maxMemory
        invariant manager.Valid() && OnlyEvicted(policy, start, manager.View())
        invariant used == usedMemory(manager.View())
        invariant evicted + manager.Total() == total
        invariant LastNeeded(usedMemory, maxMemory, evicted, last, target, manager.View())
        decreases manager.Total()
      {
        ghost var before := manager.View();
        var found, more, victim := EvictOnce(start);
        if !found {
          NeededMeans(usedMemory, maxMemory, evicted, last, target, manager.View());
          return false, evicted, last, target;
        }
        used, evicted, last, target := more, evicted + 1, before, victim;
        OneNeeded(usedMemory, maxMemory, evicted, last, target, manager.View());
      }
      NeededMeans(usedMemory, maxMemory, evicted, last, target, manager.View());
      ok := true;
    }

    method EnforceLimit() returns (ok: bool, evicted: nat)
      requires manager.Valid()
      modifies manager.keyspaces
      ensures manager.Valid() && OnlyEvicted(policy, old(manager.View()), manager.View())
      ensures ok <==> maxMemory <= 0 || usedMemory(manager.View()) <= maxMemory
      ensures evicted == old(manager.Total()) - manager.Total()
      ensures policy.NoEviction? || maxMemory <= 0 || usedMemory(old(manager.View())) <= maxMemory ==>
                manager.View() == old(manager.View())
      ensures !ok ==> Exhausted(policy, samples, manager.View(), manager.numDatabases)
    {
      NeverExhausted(policy, samples, manager.View(), manager.numDatabases);
      hide Exhausted, OnlyEvicted, Lost, WellFormed, TotalSize, DatabaseManager.Total, DatabaseManager.Valid;
      ghost var start, total := manager.View(), manager.Total();
      NoneEvicted(policy, manager.View());
      if maxMemory <= 0 {
        return true, 0;
      }
      var used := UsedMemory();
      assert manager.Valid() && manager.View() == start && manager.Total() == total;
      if used <= maxMemory {
        return true, 0;
      }
      if policy.NoEviction? {
        return false, 0;
      }
      var fits, gone, _, _ := EvictUntilFits();
      ok, evicted := fits, gone;
    }

    /**
      * False is the source's OutOfMemoryError. However entries are sized and sampled: success means the limit holds,
      * the count says how many keys were lost, only evictable keys were lost, and the loop gives up only as described.
      */
    method CheckAndEvict() returns (ok: bool)
      requires manager.Valid()
      modifies this`evictedKeysCount, manager.keyspaces
      ensures manager.Valid() && OnlyEvicted(policy, old(manager.View()), manager.View())
      ensures ok <==> maxMemory <= 0 || usedMemory(manager.View()) <= maxMemory
      ensures evictedKeysCount - old(evictedKeysCount) == old(manager.Total()) - manager.Total()
      ensures policy.NoEviction? || maxMemory <= 0 || usedMemory(old(manager.View())) <= maxMemory ==>
                manager.View() == old(manager.View())
      ensures !ok && policy.Evict? && !policy.volatile && samples > 0 ==>
                AllEmpty(manager.View(), manager.numDatabases)
      ensures !ok ==> Exhausted(policy, samples, manager.View(), manager.numDatabases)
    {
      hide Exhausted, OnlyEvicted, WellFormed, TotalSize, DatabaseManager.Total, DatabaseManager.Valid, AllEmpty;
      var evicted;
      ok, evicted := EnforceLimit();
      ghost var end, left := manager.View(), manager.Total();
      evictedKeysCount := evictedKeysCount + evicted;
      if !ok && policy.Evict? {
        ExhaustedMeans(policy, samples, end, manager.numDatabases);
      }
      assert manager.Valid() && manager.View() == end && manager.Total() == left;
    }
  }

  lemma NeverExhausted(policy: Policy, samples: nat, dbs: map<int, KS>, n: nat)
    ensures policy.NoEviction? ==> Exhausted(policy, samples, dbs, n)
  {
  }

  /** Under an allkeys policy nothing to evict means nothing at all. */
  lemma NothingLeft(policy: Policy, dbs: map<int, KS>, n: nat)
    requires policy.Evict? && !policy.volatile
    ensures NothingToEvict(policy, dbs, n) <==> forall d :: d in dbs && 0 <= d < n ==> dbs[d].entries == map[]
  {
    if NothingToEvict(policy, dbs, n) {
      forall d | d in dbs && 0 <= d < n
        ensures dbs[d].entries == map[]
      {
        assert forall k :: k in dbs[d].entries ==> Evictable(policy, dbs[d].entries[k]);
        assert dbs[d].entries.Keys == {};
      }
    }
  }
}
