// Active expiry: the heap of expiration/heap.py and the sweep of expiration/manager.py.

module Expiration {
  import opened Bytes
  import opened Resp
  import opened Keyspaces
  import opened Databases

  datatype Item = Item(expireAt: int, dbId: int, key: bytes)

  predicate Least(heap: seq<Item>, i: int) {
    0 <= i < |heap| && forall j :: 0 <= j < |heap| ==> heap[i].expireAt <= heap[j].expireAt
  }

  function Addresses(items: seq<Item>): (r: seq<(int, bytes)>)
    ensures |r| == |items| && forall i :: 0 <= i < |items| ==> r[i] == (items[i].dbId, items[i].key)
  {
    seq(|items|, i requires 0 <= i < |items| => (items[i].dbId, items[i].key))
  }

  predicate InTimeOrder(items: seq<Item>) {
    forall i, j :: 0 <= i < j < |items| ==> items[i].expireAt <= items[j].expireAt
  }

  /** A binary heap as heapq keeps it, of which only this is used: what comes off is one of the earliest items. */
  class ExpirationHeap {
    var items: seq<Item>

    constructor ()
      ensures items == []
    {
      items := [];
    }

    method Push(dbId: int, key: bytes, expireAt: int)
      modifies this
      ensures multiset(items) == multiset(old(items)) + multiset{Item(expireAt, dbId, key)}
    {
      items := items + [Item(expireAt, dbId, key)];
    }

    /** Any one of the earliest items. */
    method FindLeast() returns (i: nat)
      requires items != []
      ensures Least(items, i)
    {
      i := 0;
      for k := 0 to |items|
        invariant 0 <= i < |items| && forall j :: 0 <= j < k ==> items[i].expireAt <= items[j].expireAt
      {
        var tie := *;
        if items[k].expireAt < items[i].expireAt || (items[k].expireAt == items[i].expireAt && tie) {
          i := k;
        }
      }
    }

    method Pop() returns (item: Item)
      requires items != []
      modifies this
      ensures multiset(items) + multiset{item} == multiset(old(items))
      ensures forall x :: x in old(items) ==> item.expireAt <= x.expireAt
      ensures |items| == |old(items)| - 1
    {
      var i := FindLeast();
      item := items[i];
      assert items == items[..i] + [item] + items[i + 1..];
      items := items[..i] + items[i + 1..];
    }

    method PeekNextExpire() returns (at: Option<int>)
      ensures at.None? <==> items == []
      ensures at.Some? ==> exists x :: x in items && x.expireAt == at.value
      ensures at.Some? ==> forall x :: x in items ==> at.value <= x.expireAt
    {
      if items == [] {
        return None;
      }
      var i := FindLeast();
      assert items[i] in items;
      at := Some(items[i].expireAt);
    }

    /** Due items only, the earliest first, none lost; what is due stays behind only when the limit is hit. */
    method PopExpired(now: int, maxCount: int) returns (expired: seq<(int, bytes)>, ghost popped: seq<Item>)
      modifies this
      ensures expired == Addresses(popped) && multiset(items) + multiset(popped) == multiset(old(items))
      ensures InTimeOrder(popped) && forall x :: x in popped ==> x.expireAt <= now
      ensures forall x, y :: x in popped && y in items ==> x.expireAt <= y.expireAt
      ensures |popped| <= (if maxCount < 0 then 0 else maxCount)
      ensures |popped| < maxCount ==> forall x :: x in items ==> x.expireAt > now
    {
      hide Drained;
      expired, popped := [], [];
      ghost var all := multiset(items);
      var next := PeekNextExpire();
      NothingDrained(items, now);
      while next.Some? && next.value <= now && |expired| < maxCount
        invariant expired == Addresses(popped) && Drained(items, popped, all, now)
        invariant |popped| <= (if maxCount < 0 then 0 else maxCount)
        invariant next.None? <==> items == []
        invariant next.Some? ==> forall x :: x in items ==> next.value <= x.expireAt
        invariant next.Some? ==> exists x :: x in items && x.expireAt == next.value
        decreases |items|
      {
        ghost var before := items;
        var item := Pop();
        OneDrained(before, items, item, popped, all, now);
        expired := expired + [(item.dbId, item.key)];
        popped := popped + [item];
        next := PeekNextExpire();
      }
      DrainedMeans(items, popped, all, now);
    }
  }

  /** The items popped so far are due and were taken in time order; the rest come no earlier. */
  ghost predicate Drained(items: seq<Item>, popped: seq<Item>, all: multiset<Item>, now: int) {
    && multiset(items) + multiset(popped) == all
    && InTimeOrder(popped) && (forall x :: x in popped ==> x.expireAt <= now)
    && (forall x, y :: x in popped && y in items ==> x.expireAt <= y.expireAt)
  }

  lemma NothingDrained(items: seq<Item>, now: int)
    ensures Drained(items, [], multiset(items), now)
  {
  }

  lemma DrainedMeans(items: seq<Item>, popped: seq<Item>, all: multiset<Item>, now: int)
    requires Drained(items, popped, all, now)
    ensures multiset(items) + multiset(popped) == all
    ensures InTimeOrder(popped) && (forall x :: x in popped ==> x.expireAt <= now)
    ensures forall x, y :: x in popped && y in items ==> x.expireAt <= y.expireAt
  {
  }

  lemma OneDrained(before: seq<Item>, after: seq<Item>, item: Item, popped: seq<Item>, all: multiset<Item>, now: int)
    requires Drained(before, popped, all, now) && multiset(after) + multiset{item} == multiset(before)
    requires item.expireAt <= now && forall x :: x in before ==> item.expireAt <= x.expireAt
    ensures Drained(after, popped + [item], all, now)
  {
    StillThere(before, after, item);
  }

  lemma StillThere(before: seq<Item>, after: seq<Item>, item: Item)
    requires multiset(after) + multiset{item} == multiset(before)
    ensures item in before && forall x :: x in after ==> x in before
  {
    assert item in multiset(before);
    forall x | x in after
      ensures x in before
    {
      assert x in multiset(after);
      assert x in multiset(before);
    }
  }

  /** No expired entry is stored under the key. */
  predicate Clean(ks: KS, key: bytes, now: int) {
    key in ks.entries ==> !Expired(ks.entries[key], now)
  }

  class ExpirationManager {
    const manager: DatabaseManager
    const heap: ExpirationHeap
    const batchSize: int
    var expiredKeysCount: nat

    constructor (manager: DatabaseManager, batchSize: int)
      ensures this.manager == manager && this.batchSize == batchSize && expiredKeysCount == 0 && fresh(heap) &&
              heap.items == []
    {
      this.manager, this.batchSize, expiredKeysCount := manager, batchSize, 0;
      heap := new ExpirationHeap();
    }

    method RegisterExpiration(dbId: int, key: bytes, expireAt: int)
      modifies heap
      ensures multiset(heap.items) == multiset(old(heap.items)) + multiset{Item(expireAt, dbId, key)}
    {
      heap.Push(dbId, key, expireAt);
    }

    /** One candidate; its database may have to be opened first. */
    method PurgeCandidate(dbId: int, key: bytes, now: int) returns (ok: bool, deleted: nat)
      requires manager.Valid()
      modifies manager`databases, manager`keyspaces, manager`numbers, manager.keyspaces
      ensures manager.Valid() && OnlyExpiredAll(old(manager.View()), manager.View(), now)
      ensures fresh(manager.keyspaces - old(manager.keyspaces))
      ensures manager.Total() == old(manager.Total()) - deleted
      ensures ok <==> 0 <= dbId < manager.Bound()
      ensures ok ==> dbId in manager.View() && Clean(manager.View()[dbId], key, now)
    {
      hide TotalSize, DatabaseManager.Total, OnlyExpired, OnlyExpiredAll, Swept, Clean, WellFormed,
        DatabaseManager.Valid;
      ghost var before := manager.View();
      deleted := 0;
      var keyspace := manager.GetDatabase(dbId);
      if keyspace.None? {
        AllRefl(before, now);
        return false, 0;
      }
      Opened(before, manager.View(), dbId, now);
      ghost var middle := manager.View();
      deleted := manager.PurgeKey(dbId, key, now);
      SweptAt(middle, dbId, key, now);
      AllTrans(before, middle, manager.View(), now);
      ok := true;
    }

    /** The candidates off the heap: those still stored and still due are deleted. False is the source's ValueError. */
    method PurgeCandidates(candidates: seq<(int, bytes)>, now: int) returns (ok: bool, deleted: nat)
      requires manager.Valid()
      modifies manager`databases, manager`keyspaces, manager`numbers, manager.keyspaces
      ensures manager.Valid() && OnlyExpiredAll(old(manager.View()), manager.View(), now)
      ensures fresh(manager.keyspaces - old(manager.keyspaces))
      ensures manager.Total() == old(manager.Total()) - deleted
      ensures ok <==> AllKnown(manager.Bound(), candidates, |candidates|)
      ensures ok ==> CleanAt(manager.View(), candidates, |candidates|, now)
    {
      hide TotalSize, DatabaseManager.Total, OnlyExpired, OnlyExpiredAll, Clean, WellFormed, DatabaseManager.Valid,
        AllKnown, CleanAt;
      deleted := 0;
      NoneYet(manager.Bound(), manager.View(), candidates, now);
      ghost var start, total := manager.View(), manager.Total();
      AllRefl(start, now);
      for i := 0 to |candidates|
        invariant manager.Valid() && OnlyExpiredAll(start, manager.View(), now)
        invariant fresh(manager.keyspaces - old(manager.keyspaces))
        invariant manager.Total() + deleted == total
        invariant AllKnown(manager.Bound(), candidates, i)
        invariant CleanAt(manager.View(), candidates, i, now)
      {
        ghost var before := manager.View();
        var found, one := PurgeCandidate(candidates[i].0, candidates[i].1, now);
        deleted := deleted + one;
        AllTrans(start, before, manager.View(), now);
        OneMore(manager.Bound(), manager.View(), candidates, i, now);
        if !found {
          return false, deleted;
        }
        StayClean(before, manager.View(), candidates, i, now);
        OneMore(manager.Bound(), manager.View(), candidates, i, now);
      }
      ok := true;
    }

    /** The sweep over the first keys of one database. */
    method SampleDatabase(dbId: int, now: int) returns (deleted: nat)
      requires manager.Valid() && dbId in manager.databases
      modifies manager.keyspaces
      ensures manager.Valid()
      ensures manager.View() == SampledAt(old(manager.View()), dbId, batchSize, now)
      ensures manager.Total() == old(manager.Total()) - deleted
    {
      hide TotalSize, DatabaseManager.Total, Swept, WellFormed, DatabaseManager.Valid;
      deleted := 0;
      ghost var start, total := manager.View(), manager.Total();
      var sampleKeys := Slice(manager.databases[dbId].order, 0, batchSize);
      for i := 0 to |sampleKeys|
        invariant manager.Valid()
        invariant manager.View() == start[dbId := manager.View()[dbId]]
        invariant SweptAll(start[dbId], sampleKeys, now) == SweptAll(manager.View()[dbId], sampleKeys[i..], now)
        invariant manager.Total() + deleted == total
      {
        assert sampleKeys[i..][0] == sampleKeys[i] && sampleKeys[i..][1..] == sampleKeys[i + 1..];
        var one := manager.PurgeKey(dbId, sampleKeys[i], now);
        deleted := deleted + one;
      }
    }

    method SampleAll(now: int) returns (deleted: nat)
      requires manager.Valid()
      modifies manager.keyspaces
      ensures manager.Valid()
      ensures Sampled(old(manager.View()), manager.View(), manager.numDatabases, batchSize, now)
      ensures manager.Total() == old(manager.Total()) - deleted
    {
      hide TotalSize, DatabaseManager.Total, SampledAt, Sampled, WellFormed, DatabaseManager.Valid;
      deleted := 0;
      ghost var start, total := manager.View(), manager.Total();
      NoneSampled(start, batchSize, now);
      for dbId := 0 to manager.numDatabases
        invariant manager.Valid()
        invariant Sampled(start, manager.View(), dbId, batchSize, now)
        invariant manager.Total() + deleted == total
      {
        InNumber(dbId);
        OneMoreSampled(start, manager.View(), dbId, batchSize, now);
        var one := SampleOne(dbId, now);
        deleted := deleted + one;
      }
    }

    /** An empty database is passed over. */
    method SampleOne(dbId: int, now: int) returns (deleted: nat)
      requires manager.Valid() && dbId in manager.databases
      modifies manager.keyspaces
      ensures manager.Valid()
      ensures manager.View() == SampledAt(old(manager.View()), dbId, batchSize, now)
      ensures manager.Total() == old(manager.Total()) - deleted
    {
      hide TotalSize, DatabaseManager.Total, SampledAt, WellFormed, DatabaseManager.Valid;
      if manager.databases[dbId].entries == map[] {
        NothingToSample(manager.View(), dbId, batchSize, now);
        return 0;
      }
      deleted := SampleDatabase(dbId, now);
    }

    lemma InNumber(dbId: int)
      requires manager.Valid() && 0 <= dbId < manager.numDatabases
      ensures dbId in manager.databases
    {
    }

    /** What a round does to the databases, given the candidates off the heap. */
    method Sweep(candidates: seq<(int, bytes)>, now: int) returns (ok: bool, deleted: nat)
      requires manager.Valid()
      modifies manager`databases, manager`keyspaces, manager`numbers, manager.keyspaces
      ensures manager.Valid()
      ensures OnlyExpiredAll(old(manager.View()), manager.View(), now)
      ensures manager.Total() == old(manager.Total()) - deleted
      ensures ok <==> AllKnown(manager.Bound(), candidates, |candidates|)
      ensures ok ==> CleanAt(manager.View(), candidates, |candidates|, now)
      ensures ok ==> SmallClean(old(manager.View()), manager.View(), manager.numDatabases, batchSize, now)
    {
      hide TotalSize, DatabaseManager.Total, OnlyExpired, OnlyExpiredAll, Clean, CleanAt, AllKnown, SmallClean,
        WellFormed, DatabaseManager.Valid, Sampled;
      ghost var start := manager.View();
      ok, deleted := PurgeCandidates(candidates, now);
      if ok {
        ghost var middle := manager.View();
        manager.ViewsAreWellFormed();
        var more := SampleAll(now);
        deleted := deleted + more;
        SampledIsOnlyExpired(middle, manager.View(), manager.numDatabases, batchSize, now);
        AllTrans(start, middle, manager.View(), now);
        StayClean(middle, manager.View(), candidates, |candidates|, now);
        SmallAreClean(start, middle, manager.View(), manager.numDatabases, batchSize, now);
      }
    }

    /**
      * One round of active expiry. No entry alive now or later is lost; the count is the number of keys gone; what came
      * off the heap is clean, and so is every database that is no larger than a batch.
      */
    method PurgeExpiredBatch(now: int) returns (ok: bool, deleted: nat, ghost popped: seq<Item>)
      requires manager.Valid()
      modifies this, heap, manager`databases, manager`keyspaces, manager`numbers, manager.keyspaces
      ensures manager.Valid()
      ensures OnlyExpiredAll(old(manager.View()), manager.View(), now)
      ensures deleted == old(manager.Total()) - manager.Total()
      ensures expiredKeysCount == old(expiredKeysCount) + deleted
      ensures multiset(heap.items) + multiset(popped) == multiset(old(heap.items))
      ensures |popped| < batchSize ==> forall x :: x in heap.items ==> x.expireAt > now
      ensures ok <==> forall i :: 0 <= i < |popped| ==> 0 <= popped[i].dbId < manager.Bound()
      ensures ok ==> CleanAt(manager.View(), Addresses(popped), |popped|, now)
      ensures ok ==> SmallClean(old(manager.View()), manager.View(), manager.numDatabases, batchSize, now)
    {
      hide TotalSize, DatabaseManager.Total, OnlyExpiredAll, CleanAt, AllKnown, SmallClean, WellFormed,
        DatabaseManager.Valid;
      var candidates;
      ghost var start, total := manager.View(), manager.Total();
      candidates, popped := heap.PopExpired(now, batchSize);
      assert manager.Valid() && manager.View() == start && manager.Total() == total;
      KnownMeans(manager.Bound(), popped);
      ok, deleted := Sweep(candidates, now);
      ghost var end := manager.View();
      assert OnlyExpiredAll(start, end, now) && manager.Total() == total - deleted;
      assert ok ==>
        CleanAt(end, candidates, |candidates|, now) && SmallClean(start, end, manager.numDatabases, batchSize, now);
      expiredKeysCount := expiredKeysCount + deleted;
      assert manager.Valid() && manager.View() == end && manager.Total() == total - deleted;
    }
  }

  /** Nothing expired is left in a database that was no larger than the batch. */
  ghost predicate SmallClean(before: map<int, KS>, after: map<int, KS>, n: nat, batch: int, now: int) {
    forall d :: d in before && 0 <= d < n && |before[d].entries| <= batch ==>
      d in after && forall k :: Clean(after[d], k, now)
  }

  predicate AllKnown(bound: nat, addresses: seq<(int, bytes)>, n: nat)
    requires n <= |addresses|
  {
    forall i :: 0 <= i < n ==> 0 <= addresses[i].0 < bound
  }

  lemma KnownMeans(bound: nat, popped: seq<Item>)
    ensures AllKnown(bound, Addresses(popped), |popped|) <==>
            forall i :: 0 <= i < |popped| ==> 0 <= popped[i].dbId < bound
  {
    assert forall i :: 0 <= i < |popped| ==> Addresses(popped)[i].0 == popped[i].dbId;
  }

  lemma NoneYet(bound: nat, dbs: map<int, KS>, addresses: seq<(int, bytes)>, now: int)
    ensures AllKnown(bound, addresses, 0) && CleanAt(dbs, addresses, 0, now)
  {
  }

  lemma OneMore(bound: nat, dbs: map<int, KS>, addresses: seq<(int, bytes)>, n: nat, now: int)
    requires n < |addresses|
    ensures AllKnown(bound, addresses, n) && 0 <= addresses[n].0 < bound ==> AllKnown(bound, addresses, n + 1)
    ensures !(0 <= addresses[n].0 < bound) ==> !AllKnown(bound, addresses, |addresses|)
    ensures CleanAt(dbs, addresses, n, now) && addresses[n].0 in dbs &&
            Clean(dbs[addresses[n].0], addresses[n].1, now) ==>
              CleanAt(dbs, addresses, n + 1, now)
  {
  }

  ghost predicate CleanAt(dbs: map<int, KS>, addresses: seq<(int, bytes)>, n: nat, now: int)
    requires n <= |addresses|
  {
    forall i :: 0 <= i < n ==> addresses[i].0 in dbs && Clean(dbs[addresses[i].0], addresses[i].1, now)
  }

  lemma AllRefl(a: map<int, KS>, now: int)
    ensures OnlyExpiredAll(a, a, now)
  {
  }

  lemma AllTrans(a: map<int, KS>, b: map<int, KS>, c: map<int, KS>, now: int)
    requires OnlyExpiredAll(a, b, now) && OnlyExpiredAll(b, c, now)
    ensures OnlyExpiredAll(a, c, now)
  {
    forall d | d in a
      ensures OnlyExpired(a[d], c[d], now)
    {
      OnlyExpiredTrans(a[d], b[d], c[d], now);
    }
    forall d | d in c && d !in a
      ensures c[d].entries == map[]
    {
      if d in b {
        assert OnlyExpired(b[d], c[d], now);
        assert c[d].entries.Keys <= {};
      }
    }
  }

  lemma Opened(a: map<int, KS>, b: map<int, KS>, d: int, now: int)
    requires b == if d in a then a else a[d := EMPTY]
    ensures OnlyExpiredAll(a, b, now)
  {
  }

  lemma SweptAt(a: map<int, KS>, d: int, key: bytes, now: int)
    requires d in a
    ensures OnlyExpiredAll(a, a[d := Swept(a[d], key, now)], now) && Clean(Swept(a[d], key, now), key, now)
  {
  }

  lemma StayClean(a: map<int, KS>, b: map<int, KS>, addresses: seq<(int, bytes)>, n: nat, now: int)
    requires n <= |addresses| && OnlyExpiredAll(a, b, now) && CleanAt(a, addresses, n, now)
    ensures CleanAt(b, addresses, n, now)
  {
    forall i | 0 <= i < n
      ensures addresses[i].0 in b && Clean(b[addresses[i].0], addresses[i].1, now)
    {
      var d := addresses[i].0;
      assert d in a && OnlyExpired(a[d], b[d], now);
    }
  }

  function SampledAt(dbs: map<int, KS>, d: int, batch: int, now: int): map<int, KS>
    requires d in dbs
  {
    dbs[d := SweptAll(dbs[d], Slice(dbs[d].order, 0, batch), now)]
  }

  function SampledBelow(dbs: map<int, KS>, n: nat, batch: int, now: int): (r: map<int, KS>)
    ensures r.Keys == dbs.Keys
  {
    if n == 0 then dbs
    else
      var before := SampledBelow(dbs, n - 1, batch, now);
      if n - 1 in before then SampledAt(before, n - 1, batch, now) else before
  }

  /** The first n databases were sampled. */
  ghost predicate Sampled(before: map<int, KS>, after: map<int, KS>, n: nat, batch: int, now: int) {
    after == SampledBelow(before, n, batch, now)
  }

  lemma NoneSampled(dbs: map<int, KS>, batch: int, now: int)
    ensures Sampled(dbs, dbs, 0, batch, now)
  {
  }

  lemma OneMoreSampled(before: map<int, KS>, after: map<int, KS>, n: nat, batch: int, now: int)
    requires Sampled(before, after, n, batch, now) && n in after
    ensures Sampled(before, SampledAt(after, n, batch, now), n + 1, batch, now)
  {
  }

  lemma {:induction false} SweepsNothing(ks: KS, keys: seq<bytes>, now: int)
    requires ks.entries == map[]
    ensures SweptAll(ks, keys, now) == ks
    decreases |keys|
  {
    if keys != [] {
      SweepsNothing(ks, keys[1..], now);
    }
  }

  lemma NothingToSample(dbs: map<int, KS>, d: int, batch: int, now: int)
    requires d in dbs && dbs[d].entries == map[]
    ensures SampledAt(dbs, d, batch, now) == dbs
  {
    SweepsNothing(dbs[d], Slice(dbs[d].order, 0, batch), now);
  }

  lemma {:induction false} SampledDatabase(dbs: map<int, KS>, n: nat, batch: int, now: int, d: int)
    requires d in dbs
    ensures SampledBelow(dbs, n, batch, now)[d] ==
            if 0 <= d < n then SweptAll(dbs[d], Slice(dbs[d].order, 0, batch), now) else dbs[d]
  {
    hide SweptAll, Slice;
    if n > 0 {
      SampledDatabase(dbs, n - 1, batch, now, d);
    }
  }

  lemma SampledIsOnlyExpired(dbs: map<int, KS>, after: map<int, KS>, n: nat, batch: int, now: int)
    requires Sampled(dbs, after, n, batch, now)
    ensures OnlyExpiredAll(dbs, after, now)
  {
    hide SampledBelow, SweptAll, Slice;
    forall d | d in dbs
      ensures OnlyExpired(dbs[d], SampledBelow(dbs, n, batch, now)[d], now)
    {
      SampledDatabase(dbs, n, batch, now, d);
      SweptAllIsOnlyExpired(dbs[d], Slice(dbs[d].order, 0, batch), now);
      OnlyExpiredRefl(dbs[d], now);
    }
  }

  lemma {:induction false} SweptAllClean(ks: KS, keys: seq<bytes>, now: int, key: bytes)
    requires key in keys || key !in ks.entries
    ensures Clean(SweptAll(ks, keys, now), key, now)
    decreases |keys|
  {
    if keys != [] {
      var next := Swept(ks, keys[0], now);
      SweptAllIsOnlyExpired(next, keys[1..], now);
      if key != keys[0] {
        SweptAllClean(next, keys[1..], now, key);
      }
    }
  }

  /** A batch covers a database that is no larger. */
  lemma SmallAreClean(start: map<int, KS>, middle: map<int, KS>, after: map<int, KS>, n: nat, batch: int, now: int)
    requires Sampled(middle, after, n, batch, now)
    requires OnlyExpiredAll(start, middle, now) && forall d :: d in middle ==> WellFormed(middle[d])
    ensures SmallClean(start, after, n, batch, now)
  {
    hide SampledBelow, SweptAll;
    forall d, k | d in start && 0 <= d < n && |start[d].entries| <= batch
      ensures Clean(SampledBelow(middle, n, batch, now)[d], k, now)
    {
      assert OnlyExpired(start[d], middle[d], now);
      ShrinksInSize(start[d], middle[d], now);
      OrderSize(middle[d]);
      SampledDatabase(middle, n, batch, now, d);
      assert Slice(middle[d].order, 0, batch) == middle[d].order;
      SweptAllClean(middle[d], middle[d].order, now, k);
    }
  }

  /** What the sweep leaves is alive: under the keys off the heap, and in a database no larger than the batch. */
  lemma LeftIsAlive(before: map<int, KS>, after: map<int, KS>, popped: seq<Item>, n: nat, batch: int, now: int)
    requires SmallClean(before, after, n, batch, now) && CleanAt(after, Addresses(popped), |popped|, now)
    ensures forall i :: 0 <= i < |popped| ==>
              var ks, key := after[popped[i].dbId], popped[i].key;
              popped[i].dbId in after && (key in ks.entries ==> GetEntry(ks, key, now) == Some(ks.entries[key]))
    ensures forall d, k :: d in before && 0 <= d < n && |before[d].entries| <= batch ==>
              d in after && (k in after[d].entries ==> GetEntry(after[d], k, now) == Some(after[d].entries[k]))
  {
    assert forall i :: 0 <= i < |popped| ==> Addresses(popped)[i] == (popped[i].dbId, popped[i].key);
    forall d, k | d in before && 0 <= d < n && |before[d].entries| <= batch
      ensures d in after && (k in after[d].entries ==> GetEntry(after[d], k, now) == Some(after[d].entries[k]))
    {
      assert d in after && Clean(after[d], k, now);
    }
  }

  /** The first keys of every database, as many as a batch takes, are alive or gone after the samples. */
  lemma FirstKeysAreClean(dbs: map<int, KS>, after: map<int, KS>, n: nat, batch: int, now: int, d: int, i: nat)
    requires Sampled(dbs, after, n, batch, now) && d in dbs && 0 <= d < n && i < batch && i < |dbs[d].order|
    ensures d in after
    ensures var ks, key := after[d], dbs[d].order[i];
            key in ks.entries ==> GetEntry(ks, key, now) == Some(ks.entries[key])
  {
    hide SampledBelow, SweptAll;
    SampledDatabase(dbs, n, batch, now, d);
    assert Slice(dbs[d].order, 0, batch)[i] == dbs[d].order[i];
    SweptAllClean(dbs[d], Slice(dbs[d].order, 0, batch), now, dbs[d].order[i]);
  }
}
