// The database manager of storage/database.py: keyspaces by number.

module Databases {
  import opened Bytes
  import opened Resp
  import opened Keyspaces

  /** The keys stored in the databases below n. */
  function TotalSize(dbs: map<int, KS>, n: nat): nat {
    if n == 0 then 0
    else TotalSize(dbs, n - 1) + if n - 1 in dbs then |dbs[n - 1].entries| else 0
  }

  lemma {:induction false} TotalAfter(dbs: map<int, KS>, d: int, ks: KS, n: nat)
    ensures TotalSize(dbs[d := ks], n) ==
            TotalSize(dbs, n) + if 0 <= d < n then |ks.entries| - (if d in dbs then |dbs[d].entries| else 0) else 0
  {
    if n > 0 {
      TotalAfter(dbs, d, ks, n - 1);
    }
  }

  lemma {:induction false} TotalIsZero(dbs: map<int, KS>, n: nat)
    ensures TotalSize(dbs, n) == 0 <==> forall d :: d in dbs && 0 <= d < n ==> dbs[d].entries == map[]
  {
    if n > 0 {
      TotalIsZero(dbs, n - 1);
      if n - 1 in dbs && dbs[n - 1].entries != map[] {
        assert |dbs[n - 1].entries| > 0;
      }
    }
  }

  /** From a to b only entries were deleted whose time had come. */
  ghost predicate OnlyExpired(a: KS, b: KS, now: int) {
    && b.entries.Keys <= a.entries.Keys
    && (forall k :: k in b.entries ==> b.entries[k] == a.entries[k])
    && (forall k :: k in a.entries && k !in b.entries ==> Expired(a.entries[k], now))
  }

  /** Such a change can never be seen again, as long as the clock does not run backwards. */
  lemma ExpiredIsInvisible(a: KS, b: KS, now: int, later: int, key: bytes)
    requires OnlyExpired(a, b, now) && now <= later
    ensures GetEntry(a, key, later) == GetEntry(b, key, later)
  {
  }

  lemma SweptIsOnlyExpired(ks: KS, key: bytes, now: int)
    ensures OnlyExpired(ks, Swept(ks, key, now), now)
  {
  }

  lemma {:induction false} SweptAllIsOnlyExpired(ks: KS, keys: seq<bytes>, now: int)
    ensures OnlyExpired(ks, SweptAll(ks, keys, now), now)
    decreases |keys|
  {
    hide OnlyExpired, Swept;
    OnlyExpiredRefl(ks, now);
    if keys != [] {
      SweptIsOnlyExpired(ks, keys[0], now);
      SweptAllIsOnlyExpired(Swept(ks, keys[0], now), keys[1..], now);
      OnlyExpiredTrans(ks, Swept(ks, keys[0], now), SweptAll(ks, keys, now), now);
    }
  }

  lemma OnlyExpiredRefl(a: KS, now: int)
    ensures OnlyExpired(a, a, now)
  {
  }

  lemma OnlyExpiredTrans(a: KS, b: KS, c: KS, now: int)
    requires OnlyExpired(a, b, now) && OnlyExpired(b, c, now)
    ensures OnlyExpired(a, c, now)
  {
  }

  ghost predicate OnlyExpiredAll(a: map<int, KS>, b: map<int, KS>, now: int) {
    && a.Keys <= b.Keys
    && (forall d :: d in a ==> OnlyExpired(a[d], b[d], now))
    && (forall d :: d in b && d !in a ==> b[d].entries == map[])
  }

  const MAX_DATABASES: int := 256

  class DatabaseManager {
    const numDatabases: nat
    var databases: map<int, Keyspace>
    ghost var keyspaces: set<Keyspace>
    ghost var numbers: map<Keyspace, int>  // no keyspace has two numbers

    ghost predicate Valid()
      reads this, keyspaces
    {
      && (forall d :: d in databases ==>
          databases[d] in keyspaces && databases[d] in numbers && numbers[databases[d]] == d)
      && (forall d :: d in databases ==> databases[d].Valid())
      && (forall d :: 0 <= d < numDatabases ==> d in databases)
      && (forall d :: d in databases ==> 0 <= d < Bound())
    }

    /** No database has a number as high as this. */
    function Bound(): (n: nat)
      ensures n >= numDatabases && n >= MAX_DATABASES
    {
      if numDatabases < MAX_DATABASES then MAX_DATABASES else numDatabases
    }

    ghost function View(): (v: map<int, KS>)
      requires Valid()
      reads this, keyspaces
      ensures v.Keys == databases.Keys && forall d :: d in v ==> v[d] == databases[d].View()
    {
      map d | d in databases :: databases[d].View()
    }

    /** All the keys there are. */
    ghost function Total(): nat
      requires Valid()
      reads this, keyspaces
    {
      TotalSize(View(), Bound())
    }

    lemma ViewsAreWellFormed()
      requires Valid()
      ensures forall d :: d in View() ==> WellFormed(View()[d])
    {
      hide WellFormed;
      forall d | d in View()
        ensures WellFormed(View()[d])
      {
        assert databases[d].Valid();
      }
    }

    constructor (numDatabases: nat)
      ensures Valid() && fresh(keyspaces) && this.numDatabases == numDatabases
      ensures forall d :: (d in View() <==> 0 <= d < numDatabases) && (d in View() ==> View()[d] == EMPTY)
    {
      var m: map<int, Keyspace> := map[];
      ghost var ks: set<Keyspace> := {};
      ghost var ns: map<Keyspace, int> := map[];
      for i := 0 to numDatabases
        invariant forall d :: d in m <==> 0 <= d < i
        invariant forall d :: d in m ==> m[d].Valid() && m[d].View() == EMPTY
        invariant forall d :: d in m ==> m[d] in ks && m[d] in ns && ns[m[d]] == d
        invariant ns.Keys == ks
        invariant fresh(ks)
      {
        var keyspace := new Keyspace();
        m := m[i := keyspace];
        ks, ns := ks + {keyspace}, ns[keyspace := i];
      }
      databases, keyspaces, numbers := m, ks, ns;
      this.numDatabases := numDatabases;
    }

    /** None is the source's ValueError; a number below 256 that is new gets an empty keyspace. */
    method GetDatabase(dbId: int) returns (keyspace: Option<Keyspace>)
      requires Valid()
      modifies this`databases, this`keyspaces, this`numbers
      ensures Valid()
      ensures keyspace.Some? <==> 0 <= dbId < Bound()
      ensures keyspace.Some? <==> 0 <= dbId && (dbId < numDatabases || dbId < 256)
      ensures keyspace.Some? ==> dbId in databases && databases[dbId] == keyspace.value
      ensures View() == if dbId in old(databases) || keyspace.None? then old(View()) else old(View())[dbId := EMPTY]
      ensures Total() == old(Total())
      ensures fresh(keyspaces - old(keyspaces))
    {
      hide WellFormed, TotalSize;
      if dbId !in databases {
        if 0 <= dbId < MAX_DATABASES {
          OpenDatabase(dbId);
        } else {
          return None;
        }
      }
      keyspace := Some(databases[dbId]);
    }

    method OpenDatabase(dbId: int)
      requires Valid() && dbId !in databases && 0 <= dbId < MAX_DATABASES
      modifies this`databases, this`keyspaces, this`numbers
      ensures Valid() && dbId in databases && fresh(keyspaces - old(keyspaces))
      ensures View() == old(View())[dbId := EMPTY] && Total() == old(Total())
    {
      hide WellFormed, TotalSize, Keyspace.Valid, DatabaseManager.Valid;
      ghost var before := View();
      TotalAfter(before, dbId, EMPTY, Bound());
      AddDatabase(dbId);
      OneAdded(before, View(), dbId, EMPTY);
    }

    method AddDatabase(dbId: int)
      requires Valid() && dbId !in databases && 0 <= dbId < MAX_DATABASES
      modifies this`databases, this`keyspaces, this`numbers
      ensures Valid() && fresh(keyspaces - old(keyspaces))
      ensures databases.Keys == old(databases.Keys) + {dbId} && databases[dbId].View() == EMPTY
      ensures forall d :: d in old(databases) ==> databases[d].View() == old(databases[d].View())
    {
      hide WellFormed, Keyspace.Valid;
      var keyspace := new Keyspace();
      databases := databases[dbId := keyspace];
      keyspaces, numbers := keyspaces + {keyspace}, numbers[keyspace := dbId];
    }

    /** Deletes one key of one database. */
    method DeleteFrom(dbId: int, key: bytes) returns (deleted: nat)
      requires Valid() && dbId in databases
      modifies keyspaces
      ensures Valid() && View() == old(View())[dbId := Delete(old(View())[dbId], key)]
      ensures deleted == if key in old(View())[dbId].entries then 1 else 0
      ensures Total() == old(Total()) - deleted
    {
      hide WellFormed;
      var keyspace := databases[dbId];
      ghost var before := View();
      deleted := keyspace.DeleteKey(key);
      forall d | d in databases && d != dbId
        ensures databases[d].Valid() && databases[d].View() == before[d]
      {
        assert databases[d] != keyspace;
      }
      TotalAfter(before, dbId, keyspace.View(), Bound());
      DeleteShrinks(before[dbId], key);
    }

    /** keyspace.set in a database that may have to be opened first. */
    method SetIn(dbId: int, key: bytes, e: Entry) returns (ok: bool)
      requires Valid()
      modifies this`databases, this`keyspaces, this`numbers, keyspaces
      ensures Valid() && fresh(keyspaces - old(keyspaces))
      ensures ok <==> 0 <= dbId < Bound()
      ensures View() ==
              if ok then old(View())[dbId := Set(if dbId in old(View()) then old(View())[dbId] else EMPTY, key, e)]
              else old(View())
    {
      hide WellFormed, TotalSize, Set, DatabaseManager.Total, DatabaseManager.Valid;
      var keyspace := GetDatabase(dbId);
      if keyspace.None? {
        return false;
      }
      StoreIn(dbId, key, e);
      ok := true;
    }

    method StoreIn(dbId: int, key: bytes, e: Entry)
      requires Valid() && dbId in databases
      modifies keyspaces
      ensures Valid() && View() == old(View())[dbId := Set(old(View())[dbId], key, e)]
    {
      hide WellFormed, Set;
      var keyspace := databases[dbId];
      ghost var before := View();
      keyspace.SetEntry(key, e);
      forall d | d in databases && d != dbId
        ensures databases[d].Valid() && databases[d].View() == before[d]
      {
        assert databases[d] != keyspace;
      }
    }

    /** Looks at one key and deletes its entry if its time has passed. */
    method PurgeKey(dbId: int, key: bytes, now: int) returns (deleted: nat)
      requires Valid() && dbId in databases
      modifies keyspaces
      ensures Valid() && View() == old(View())[dbId := Swept(old(View())[dbId], key, now)]
      ensures Total() == old(Total()) - deleted
    {
      hide TotalSize, Delete, WellFormed;
      deleted := 0;
      var entries := databases[dbId].entries;
      if key in entries && Expired(entries[key], now) {
        deleted := DeleteFrom(dbId, key);
      } else {
        assert View()[dbId := View()[dbId]] == View();
      }
    }
  }

  lemma OneAdded(a: map<int, KS>, b: map<int, KS>, d: int, ks: KS)
    requires b.Keys == a.Keys + {d} && b[d] == ks && forall e :: e in a && e != d ==> b[e] == a[e]
    ensures b == a[d := ks]
  {
  }

  lemma DeleteShrinks(ks: KS, key: bytes)
    ensures |Delete(ks, key).entries| == |ks.entries| - if key in ks.entries then 1 else 0
  {
    if key in ks.entries {
      assert ks.entries == (ks.entries - {key})[key := ks.entries[key]];
    }
  }

  function Members(order: seq<bytes>): (r: set<bytes>)
    ensures forall k :: k in r <==> k in order
  {
    set k | k in order
  }

  lemma {:induction false} DistinctCount(order: seq<bytes>)
    requires NoRepeats(order)
    ensures |Members(order)| == |order|
  {
    if order != [] {
      var n := |order| - 1;
      DistinctCount(order[..n]);
      assert order == order[..n] + [order[n]];
      assert Members(order) == Members(order[..n]) + {order[n]};
    }
  }

  /** The insertion order is as long as the dictionary is large. */
  lemma OrderSize(ks: KS)
    requires WellFormed(ks)
    ensures |ks.order| == |ks.entries|
  {
    DistinctCount(ks.order);
    assert Members(ks.order) == ks.entries.Keys;
    assert |ks.entries.Keys| == |ks.entries|;
  }

  lemma {:induction false} SubsetSize(a: set<bytes>, b: set<bytes>)
    requires a <= b
    ensures |a| <= |b|
  {
    assert b == a + (b - a);
  }

  lemma ShrinksInSize(a: KS, b: KS, now: int)
    requires OnlyExpired(a, b, now)
    ensures |b.entries| <= |a.entries|
  {
    SubsetSize(b.entries.Keys, a.entries.Keys);
    assert |a.entries.Keys| == |a.entries| && |b.entries.Keys| == |b.entries|;
  }
}
