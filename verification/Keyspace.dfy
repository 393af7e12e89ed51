// The keyspace of storage/keyspace.py: entries in insertion order, with a version for every key that was ever touched.

module Keyspaces {
  import opened Bytes
  import opened Resp

  /** The five data types; a sorted set is its dictionary, which determines its order. */
  datatype Data =
    | StringData(text: bytes)
    | HashData(fields: map<bytes, bytes>)
    | ListData(items: seq<bytes>)
    | SetData(members: set<bytes>)
    | ZSetData(scores: map<bytes, int>)

  datatype Entry = Entry(data: Data, expireAt: Option<int>)

  predicate Expired(e: Entry, now: int) {
    e.expireAt.Some? && now >= e.expireAt.value
  }

  /** A keyspace as a value: what its dictionaries and counter hold. */
  datatype KS = KS(entries: map<bytes, Entry>, order: seq<bytes>, versions: map<bytes, nat>, global: nat)

  const EMPTY: KS := KS(map[], [], map[], 0)

  /** The dictionary's insertion order lists each key once, and no version is ahead of the counter. */
  ghost predicate WellFormed(ks: KS) {
    && (forall k :: k in ks.order <==> k in ks.entries)
    && (forall i, j :: 0 <= i < j < |ks.order| ==> ks.order[i] != ks.order[j])
    && (forall k :: k in ks.versions ==> ks.versions[k] <= ks.global)
  }

  function Version(ks: KS, key: bytes): nat {
    if key in ks.versions then ks.versions[key] else 0
  }

  /** What is stored under a key, expired or not. */
  function Stored(ks: KS, key: bytes): Option<Entry> {
    if key in ks.entries then Some(ks.entries[key]) else None
  }

  // ---------------------------------------------------------------------------------------------
  // The operations, as functions of the keyspace
  // ---------------------------------------------------------------------------------------------

  function Mark(ks: KS, key: bytes): KS {
    ks.(versions := ks.versions[key := ks.global + 1], global := ks.global + 1)
  }

  /** A dictionary keeps the place of a key that it already has. */
  function Stowed(ks: KS, key: bytes, e: Entry): KS {
    ks.(entries := ks.entries[key := e], order := if key in ks.entries then ks.order else ks.order + [key])
  }

  function Set(ks: KS, key: bytes, e: Entry): KS {
    Mark(Stowed(ks, key, e), key)
  }

  function Dropped(order: seq<bytes>, key: bytes): (r: seq<bytes>)
    ensures |r| <= |order|
  {
    if order == [] then []
    else if order[0] == key then Dropped(order[1..], key)
    else [order[0]] + Dropped(order[1..], key)
  }

  function Unstowed(ks: KS, key: bytes): KS {
    ks.(entries := ks.entries - {key}, order := Dropped(ks.order, key))
  }

  function Delete(ks: KS, key: bytes): KS {
    if key in ks.entries then Mark(Unstowed(ks, key), key) else ks
  }

  function DeleteAll(ks: KS, keys: seq<bytes>): KS
    decreases |keys|
  {
    if keys == [] then ks else DeleteAll(Delete(ks, keys[0]), keys[1..])
  }

  /** get_entry: an entry whose time has passed is deleted on the way. */
  function Swept(ks: KS, key: bytes, now: int): KS {
    if key in ks.entries && Expired(ks.entries[key], now) then Delete(ks, key) else ks
  }

  function GetEntry(ks: KS, key: bytes, now: int): Option<Entry> {
    if key in ks.entries && !Expired(ks.entries[key], now) then Some(ks.entries[key]) else None
  }

  /** An entry changed in place, and then marked. */
  function Altered(ks: KS, key: bytes, e: Entry): KS
    requires key in ks.entries
  {
    Mark(ks.(entries := ks.entries[key := e]), key)
  }

  /** A value changed by its own methods; the expiry stays. */
  function Mutated(ks: KS, key: bytes, data: Data): KS
    requires key in ks.entries
  {
    Altered(ks, key, ks.entries[key].(data := data))
  }

  function ExpireAt(ks: KS, key: bytes, at: int, now: int): KS {
    var ks1 := Swept(ks, key, now);
    if key !in ks1.entries then ks1
    else if at <= now then Delete(ks1, key)
    else Altered(ks1, key, ks1.entries[key].(expireAt := Some(at)))
  }

  function Persist(ks: KS, key: bytes, now: int): KS {
    var ks1 := Swept(ks, key, now);
    if key !in ks1.entries || ks1.entries[key].expireAt == None then ks1
    else Altered(ks1, key, ks1.entries[key].(expireAt := None))
  }

  /** rename stores under the new key, then deletes the old one: onto itself, that deletes the key. */
  function Rename(ks: KS, source: bytes, destination: bytes, now: int): KS {
    var ks1 := Swept(ks, source, now);
    if source !in ks1.entries then ks1
    else Mark(Mark(Unstowed(Stowed(ks1, destination, ks1.entries[source]), source), source), destination)
  }

  function MarkAll(ks: KS, keys: seq<bytes>): KS
    decreases |keys|
  {
    if keys == [] then ks else MarkAll(Mark(ks, keys[0]), keys[1..])
  }

  function Flush(ks: KS): KS {
    MarkAll(ks, ks.order).(entries := map[], order := [])
  }

  // ---------------------------------------------------------------------------------------------
  // Versions track changes
  // ---------------------------------------------------------------------------------------------

  /**
    * From a to b: the counter and every version only grow, a version that moved is newer than anything a knew,
    * and a key whose stored entry changed did move.
    */
  ghost predicate Tracked(a: KS, b: KS) {
    && a.global <= b.global
    && (forall k :: Version(b, k) == Version(a, k) || Version(b, k) > a.global)
    && (forall k :: Stored(b, k) != Stored(a, k) ==> Version(b, k) > a.global)
  }

  /** The two facts that every operation keeps. */
  ghost predicate Step(a: KS, b: KS) {
    WellFormed(a) ==> WellFormed(b) && Tracked(a, b)
  }

  lemma TrackedSees(a: KS, b: KS, key: bytes)
    requires WellFormed(a) && Tracked(a, b)
    ensures Version(b, key) >= Version(a, key)
    ensures Version(b, key) == Version(a, key) ==> Stored(b, key) == Stored(a, key)
  {
  }

  lemma StepRefl(a: KS)
    ensures Step(a, a)
  {
  }

  lemma StepTrans(a: KS, b: KS, c: KS)
    requires Step(a, b) && Step(b, c)
    ensures Step(a, c)
  {
    if WellFormed(a) {
      forall k
        ensures Version(c, k) == Version(a, k) || Version(c, k) > a.global
        ensures Stored(c, k) != Stored(a, k) ==> Version(c, k) > a.global
      {
        assert Version(b, k) == Version(a, k) || Version(b, k) > a.global;
        assert Version(c, k) == Version(b, k) || Version(c, k) > b.global;
      }
    }
  }

  lemma {:induction false} DroppedMembers(order: seq<bytes>, key: bytes)
    ensures forall k :: k in Dropped(order, key) <==> k in order && k != key
  {
    if order != [] {
      DroppedMembers(order[1..], key);
      assert order == [order[0]] + order[1..];
    }
  }

  ghost predicate NoRepeats(order: seq<bytes>) {
    forall i, j :: 0 <= i < j < |order| ==> order[i] != order[j]
  }

  lemma {:induction false} DroppedDistinct(order: seq<bytes>, key: bytes)
    requires NoRepeats(order)
    ensures NoRepeats(Dropped(order, key))
    ensures |Dropped(order, key)| == |order| - if key in order then 1 else 0
  {
    if order != [] {
      assert forall i, j :: 0 <= i < j < |order[1..]| ==>
               order[1..][i] == order[i + 1] && order[1..][j] == order[j + 1];
      DroppedDistinct(order[1..], key);
      DroppedMembers(order[1..], key);
      assert order == [order[0]] + order[1..];
      assert order[0] !in order[1..];
    }
  }

  lemma StepSet(ks: KS, key: bytes, e: Entry)
    ensures Step(ks, Set(ks, key, e))
  {
  }

  lemma StepAltered(ks: KS, key: bytes, e: Entry)
    requires key in ks.entries
    ensures Step(ks, Altered(ks, key, e))
  {
  }

  lemma StepDelete(ks: KS, key: bytes)
    ensures Step(ks, Delete(ks, key))
  {
    DroppedMembers(ks.order, key);
    if WellFormed(ks) {
      DroppedDistinct(ks.order, key);
    }
  }

  lemma {:induction false} StepDeleteAll(ks: KS, keys: seq<bytes>)
    ensures Step(ks, DeleteAll(ks, keys))
    decreases |keys|
  {
    if keys == [] {
      StepRefl(ks);
    } else {
      StepDelete(ks, keys[0]);
      StepDeleteAll(Delete(ks, keys[0]), keys[1..]);
      StepTrans(ks, Delete(ks, keys[0]), DeleteAll(ks, keys));
    }
  }

  lemma StepSwept(ks: KS, key: bytes, now: int)
    ensures Step(ks, Swept(ks, key, now))
  {
    StepDelete(ks, key);
    StepRefl(ks);
  }

  /** Sweeping one key takes nothing away that is alive. */
  lemma SweptKeepsLive(ks: KS, key: bytes, now: int)
    ensures forall k :: GetEntry(Swept(ks, key, now), k, now) == GetEntry(ks, k, now)
  {
  }

  /** The same entries are alive in both. */
  ghost predicate SameLive(a: KS, b: KS, now: int) {
    forall k :: GetEntry(a, k, now) == GetEntry(b, k, now)
  }

  lemma SameLiveRefl(a: KS, now: int)
    ensures SameLive(a, a, now)
  {
  }

  lemma SameLiveSwept(a: KS, b: KS, key: bytes, now: int)
    requires SameLive(a, b, now)
    ensures SameLive(a, Swept(b, key, now), now) && GetEntry(a, key, now) == GetEntry(b, key, now)
  {
    SweptKeepsLive(b, key, now);
  }

  lemma SweptShrinks(ks: KS, key: bytes, now: int)
    requires key in ks.entries && GetEntry(ks, key, now) == None
    ensures |Swept(ks, key, now).entries| == |ks.entries| - 1
  {
    assert ks.entries == (ks.entries - {key})[key := ks.entries[key]];
  }

  lemma StepExpireAt(ks: KS, key: bytes, at: int, now: int)
    ensures Step(ks, ExpireAt(ks, key, at, now))
  {
    hide Step, Swept, Delete, Altered;
    var ks1 := Swept(ks, key, now);
    StepSwept(ks, key, now);
    StepDelete(ks1, key);
    if key in ks1.entries {
      StepAltered(ks1, key, ks1.entries[key].(expireAt := Some(at)));
    }
    StepRefl(ks1);
    StepTrans(ks, ks1, ExpireAt(ks, key, at, now));
  }

  lemma StepPersist(ks: KS, key: bytes, now: int)
    ensures Step(ks, Persist(ks, key, now))
  {
    hide Step, Swept, Altered;
    var ks1 := Swept(ks, key, now);
    StepSwept(ks, key, now);
    if key in ks1.entries {
      StepAltered(ks1, key, ks1.entries[key].(expireAt := None));
    }
    StepRefl(ks1);
    StepTrans(ks, Swept(ks, key, now), Persist(ks, key, now));
  }

  lemma StepRename(ks: KS, source: bytes, destination: bytes, now: int)
    ensures Step(ks, Rename(ks, source, destination, now))
  {
    hide Dropped, Swept;
    var ks1 := Swept(ks, source, now);
    StepSwept(ks, source, now);
    if source in ks1.entries {
      var stowed := Stowed(ks1, destination, ks1.entries[source]);
      DroppedMembers(stowed.order, source);
      if WellFormed(ks1) {
        DroppedDistinct(stowed.order, source);
      }
    }
    StepTrans(ks, ks1, Rename(ks, source, destination, now));
  }

  /** A rename moves the entry exactly when the names differ: onto itself, it deletes the key. */
  lemma RenameMoves(ks: KS, source: bytes, destination: bytes, now: int)
    requires GetEntry(ks, source, now).Some?
    ensures var b := Rename(ks, source, destination, now);
            && Stored(b, source) == None
            && (Stored(b, destination) == Stored(ks, source) <==> source != destination)
            && forall k :: k != source && k != destination ==> Stored(b, k) == Stored(ks, k)
  {
    hide WellFormed;
  }

  /** The new name comes last in the insertion order, unless it was there: then it keeps its place, as all others do. */
  lemma RenamedOrder(ks: KS, source: bytes, destination: bytes, now: int)
    requires GetEntry(ks, source, now).Some? && source != destination
    ensures Rename(ks, source, destination, now).order ==
            Dropped(ks.order, source) + if destination in ks.entries then [] else [destination]
  {
    hide Dropped;
    DroppedBefore(ks.order, destination, source);
    assert Dropped(ks.order, source) + [] == Dropped(ks.order, source);
  }

  lemma {:induction false} DroppedBefore(order: seq<bytes>, last: bytes, key: bytes)
    requires last != key
    ensures Dropped(order + [last], key) == Dropped(order, key) + [last]
  {
    if order == [] {
      assert [last][1..] == [];
    } else {
      assert (order + [last])[1..] == order[1..] + [last];
      DroppedBefore(order[1..], last, key);
    }
  }

  lemma {:induction false} MarkedAll(ks: KS, keys: seq<bytes>)
    requires WellFormed(ks)
    ensures var b := MarkAll(ks, keys);
            && b.entries == ks.entries && b.order == ks.order
            && WellFormed(b) && Tracked(ks, b)
            && (forall k :: k in keys ==> Version(b, k) > ks.global)
    decreases |keys|
  {
    if keys != [] {
      var a := Mark(ks, keys[0]);
      MarkedAll(a, keys[1..]);
      StepTrans(ks, a, MarkAll(ks, keys));
      assert Version(a, keys[0]) > ks.global;
      assert keys == [keys[0]] + keys[1..];
    }
  }

  lemma StepFlush(ks: KS)
    ensures Step(ks, Flush(ks))
  {
    if WellFormed(ks) {
      MarkedAll(ks, ks.order);
    }
  }

  // ---------------------------------------------------------------------------------------------
  // What a file written at one time gives back at another
  // ---------------------------------------------------------------------------------------------

  /** The entries that are alive at both times. */
  function Alive(ks: KS, now: int, t: int): map<bytes, Entry> {
    map k | k in ks.entries && !Expired(ks.entries[k], now) && !Expired(ks.entries[k], t) :: ks.entries[k]
  }

  /** Alive at a time is what has no expiry, or one that is still to come. */
  lemma AliveMeans(ks: KS, now: int, t: int)
    ensures Alive(ks, now, t) ==
            map k | k in ks.entries &&
                    (ks.entries[k].expireAt == None ||
                     (now < ks.entries[k].expireAt.value && t < ks.entries[k].expireAt.value)) :: ks.entries[k]
  {
  }

  /** Those of them under the first n keys of the insertion order. */
  function AliveUpTo(ks: KS, n: nat, now: int, t: int): map<bytes, Entry>
    requires n <= |ks.order|
  {
    map k | k in Alive(ks, now, t) && k in ks.order[..n] :: ks.entries[k]
  }

  lemma KeyInOrder(ks: KS, i: nat)
    requires WellFormed(ks) && i < |ks.order|
    ensures ks.order[i] in ks.entries && ks.order[i] !in ks.order[..i]
    ensures forall k :: k in ks.order[..i + 1] <==> k in ks.order[..i] || k == ks.order[i]
  {
    assert ks.order[..i + 1] == ks.order[..i] + [ks.order[i]];
  }

  lemma NextKey(ks: KS, i: nat, now: int, t: int)
    requires WellFormed(ks) && i < |ks.order|
    ensures var k := ks.order[i];
            && k in ks.entries && k !in AliveUpTo(ks, i, now, t)
            && AliveUpTo(ks, i + 1, now, t) ==
               if Expired(ks.entries[k], now) || Expired(ks.entries[k], t) then AliveUpTo(ks, i, now, t)
               else AliveUpTo(ks, i, now, t)[k := ks.entries[k]]
  {
    hide WellFormed, Expired;
    KeyInOrder(ks, i);
  }

  lemma AllKeys(ks: KS, now: int, t: int)
    requires WellFormed(ks)
    ensures AliveUpTo(ks, |ks.order|, now, t) == Alive(ks, now, t)
  {
    assert ks.order[..|ks.order|] == ks.order;
  }

  lemma NoKeys(ks: KS, now: int, t: int)
    ensures AliveUpTo(ks, 0, now, t) == map[]
  {
  }

  /** With a clock that does not run backwards, being alive at the later time is all that counts. */
  lemma AliveLater(ks: KS, now: int, t: int)
    requires now <= t
    ensures Alive(ks, now, t) == map k | k in ks.entries && !Expired(ks.entries[k], t) :: ks.entries[k]
  {
  }

  // ---------------------------------------------------------------------------------------------
  // SCAN
  // ---------------------------------------------------------------------------------------------

  /** Python's s[lo:hi], negative indices included. */
  function Slice<T>(s: seq<T>, lo: int, hi: int): seq<T> {
    var a, b := Clamped(lo, |s|), Clamped(hi, |s|);
    if a < b then s[a..b] else []
  }

  function Clamped(i: int, n: nat): (r: nat)
    ensures r <= n
  {
    if i < 0 then (if n + i < 0 then 0 else n + i) else if i < n then i else n
  }

  /** A negative index counts from the end; what lies outside stands for the end that it is beyond. */
  lemma SliceReads<T>(s: seq<T>, lo: int, hi: int)
    ensures 0 <= lo <= hi <= |s| ==> Slice(s, lo, hi) == s[lo..hi]
    ensures 0 <= hi <= lo ==> Slice(s, lo, hi) == []
    ensures lo < 0 ==> Slice(s, lo, hi) == Slice(s, if |s| + lo < 0 then 0 else |s| + lo, hi)
    ensures hi < 0 ==> Slice(s, lo, hi) == Slice(s, lo, if |s| + hi < 0 then 0 else |s| + hi)
    ensures hi > |s| ==> Slice(s, lo, hi) == Slice(s, lo, |s|)
  {
  }

  /** The keys that one call looks at, and the cursor it hands back. */
  function ScanBatch(order: seq<bytes>, cursor: int, count: int): (int, seq<bytes>) {
    var total := |order|;
    if total == 0 || cursor >= total then (0, [])
    else
      var end := if cursor + count < total then cursor + count else total;
      (if end < total then end else 0, Slice(order, cursor, end))
  }

  /** Those of the keys that are alive and match, in order. */
  function Matching(ks: KS, keys: seq<bytes>, pattern: bytes -> bool, now: int): seq<bytes> {
    if keys == [] then []
    else
      (if GetEntry(ks, keys[0], now).Some? && pattern(keys[0]) then [keys[0]] else []) +
      Matching(ks, keys[1..], pattern, now)
  }

  /** A call looks at the next count keys from the cursor on, and hands back where it stopped, or 0 at the end. */
  lemma ScanBatchReads(order: seq<bytes>, cursor: nat, count: nat)
    ensures var (next, batch) := ScanBatch(order, cursor, count);
            if cursor >= |order| then next == 0 && batch == []
            else if cursor + count < |order| then next == cursor + count && batch == order[cursor..cursor + count]
            else next == 0 && batch == order[cursor..]
  {
  }

  /** It returns those of them that are alive and match. */
  lemma {:induction false} MatchingReads(ks: KS, keys: seq<bytes>, pattern: bytes -> bool, now: int, k: bytes)
    ensures k in Matching(ks, keys, pattern, now) <==> k in keys && GetEntry(ks, k, now).Some? && pattern(k)
  {
    if keys != [] {
      MatchingReads(ks, keys[1..], pattern, now, k);
      assert keys == [keys[0]] + keys[1..];
    }
  }

  function SweptAll(ks: KS, keys: seq<bytes>, now: int): KS
    decreases |keys|
  {
    if keys == [] then ks else SweptAll(Swept(ks, keys[0], now), keys[1..], now)
  }

  // ---------------------------------------------------------------------------------------------
  // The keyspace object
  // ---------------------------------------------------------------------------------------------

  class Keyspace {
    var entries: map<bytes, Entry>
    var order: seq<bytes>  // the insertion order that the dictionary of entries keeps
    var keyVersions: map<bytes, nat>
    var globalVersion: nat

    function View(): KS
      reads this
    {
      KS(entries, order, keyVersions, globalVersion)
    }

    ghost predicate Valid()
      reads this
    {
      WellFormed(View())
    }

    constructor ()
      ensures View() == EMPTY && Valid()
    {
      entries, order, keyVersions, globalVersion := map[], [], map[], 0;
    }

    /** The value object of an entry changes by its own methods: the keyspace does not notice before it is marked. */
    method EditValue(key: bytes, data: Data)
      requires Valid() && key in entries
      modifies this`entries
      ensures Valid() && View() == old(View()).(entries := old(entries)[key := old(entries)[key].(data := data)])
    {
      entries := entries[key := entries[key].(data := data)];
    }

    method MarkModified(key: bytes)
      modifies this
      ensures View() == Mark(old(View()), key)
    {
      globalVersion := globalVersion + 1;
      keyVersions := keyVersions[key := globalVersion];
    }

    method FetchEntry(key: bytes, now: int) returns (e: Option<Entry>)
      requires Valid()
      modifies this
      ensures Valid() && View() == Swept(old(View()), key, now)
      ensures e == GetEntry(old(View()), key, now) == Stored(View(), key)
    {
      if key !in entries {
        return None;
      }
      if Expired(entries[key], now) {
        var _ := DeleteKey(key);
        return None;
      }
      e := Some(entries[key]);
    }

    method SetEntry(key: bytes, e: Entry)
      requires Valid()
      modifies this
      ensures Valid() && View() == Set(old(View()), key, e)
    {
      StepSet(View(), key, e);
      if key !in entries {
        order := order + [key];
      }
      entries := entries[key := e];
      MarkModified(key);
    }

    /** One round of delete's loop. */
    method DeleteKey(k: bytes) returns (deleted: nat)
      requires Valid()
      modifies this
      ensures Valid() && View() == Delete(old(View()), k)
      ensures deleted == |old(entries)| - |entries|
    {
      hide WellFormed;
      StepDelete(View(), k);
      deleted := 0;
      if k in entries {
        assert entries == (entries - {k})[k := entries[k]];
        entries := entries - {k};
        order := Dropped(order, k);
        MarkModified(k);
        deleted := 1;
      }
    }

    method DeleteKeys(keys: seq<bytes>) returns (deleted: nat)
      requires Valid()
      modifies this
      ensures Valid() && View() == DeleteAll(old(View()), keys)
      ensures deleted == |old(entries)| - |entries|
    {
      hide WellFormed, Delete;
      deleted := 0;
      for i := 0 to |keys|
        invariant Valid() && DeleteAll(old(View()), keys) == DeleteAll(View(), keys[i..])
        invariant deleted == |old(entries)| - |entries|
      {
        assert keys[i..][0] == keys[i] && keys[i..][1..] == keys[i + 1..];
        var one := DeleteKey(keys[i]);
        deleted := deleted + one;
      }
    }

    method ExpireEntryAt(key: bytes, at: int, now: int) returns (done: bool)
      requires Valid()
      modifies this
      ensures Valid() && View() == ExpireAt(old(View()), key, at, now)
      ensures done <==> GetEntry(old(View()), key, now).Some?
    {
      StepExpireAt(View(), key, at, now);
      var e := FetchEntry(key, now);
      if e == None {
        return false;
      }
      if at <= now {
        var _ := DeleteKey(key);
      } else {
        entries := entries[key := e.value.(expireAt := Some(at))];
        MarkModified(key);
      }
      done := true;
    }

    method PersistEntry(key: bytes, now: int) returns (done: bool)
      requires Valid()
      modifies this
      ensures Valid() && View() == Persist(old(View()), key, now)
      ensures done <==> GetEntry(old(View()), key, now).Some? && GetEntry(old(View()), key, now).value.expireAt.Some?
    {
      StepPersist(View(), key, now);
      var e := FetchEntry(key, now);
      if e == None || e.value.expireAt == None {
        return false;
      }
      entries := entries[key := e.value.(expireAt := None)];
      MarkModified(key);
      done := true;
    }

    /** Returns false where the source raises NoSuchKeyError. */
    method RenameKey(source: bytes, destination: bytes, now: int) returns (found: bool)
      requires Valid()
      modifies this
      ensures Valid() && View() == Rename(old(View()), source, destination, now)
      ensures found <==> GetEntry(old(View()), source, now).Some?
    {
      StepRename(View(), source, destination, now);
      var e := FetchEntry(source, now);
      if e == None {
        return false;
      }
      if destination !in entries {
        order := order + [destination];
      }
      entries := entries[destination := e.value];
      entries := entries - {source};
      order := Dropped(order, source);
      MarkModified(source);
      MarkModified(destination);
      found := true;
    }

    method FlushKeys()
      requires Valid()
      modifies this
      ensures Valid() && View() == Flush(old(View()))
    {
      StepFlush(View());
      var keys := order;
      MarkedAll(View(), keys);
      for i := 0 to |keys|
        invariant entries == old(entries) && order == old(order)
        invariant MarkAll(old(View()), keys) == MarkAll(View(), keys[i..])
      {
        assert keys[i..][0] == keys[i] && keys[i..][1..] == keys[i + 1..];
        MarkModified(keys[i]);
      }
      entries := map[];
      order := [];
    }

    method Scan(cursor: int, pattern: bytes -> bool, count: int, now: int) returns (next: int, results: seq<bytes>)
      requires Valid()
      modifies this
      ensures Valid()
      ensures var b := ScanBatch(old(order), cursor, count);
              && next == b.0 && results == Matching(old(View()), b.1, pattern, now)
              && View() == SweptAll(old(View()), b.1, now)
    {
      var allKeys, total := order, |order|;
      if total == 0 || cursor >= total {
        return 0, [];
      }
      var end := if cursor + count < total then cursor + count else total;
      var batch := Slice(allKeys, cursor, end);
      next := if end < total then end else 0;
      results := Collect(batch, pattern, now);
    }

    /** The loop of scan over the keys of one batch. */
    method Collect(batch: seq<bytes>, pattern: bytes -> bool, now: int) returns (results: seq<bytes>)
      requires Valid()
      modifies this
      ensures Valid()
      ensures results == Matching(old(View()), batch, pattern, now) && View() == SweptAll(old(View()), batch, now)
    {
      hide WellFormed, Swept, GetEntry, SameLive;
      results := [];
      SameLiveRefl(View(), now);
      for i := 0 to |batch|
        invariant Valid() && SweptAll(old(View()), batch, now) == SweptAll(View(), batch[i..], now)
        invariant Matching(old(View()), batch, pattern, now) ==
                    results + Matching(old(View()), batch[i..], pattern, now)
        invariant SameLive(old(View()), View(), now)
      {
        assert batch[i..][0] == batch[i] && batch[i..][1..] == batch[i + 1..];
        SameLiveSwept(old(View()), View(), batch[i], now);
        var e := FetchEntry(batch[i], now);
        if e != None && pattern(batch[i]) {
          results := results + [batch[i]];
        }
      }
    }

    /** Picks keys at random until one is alive; every other pick deletes an expired entry. */
    method RandomKey(now: int) returns (key: Option<bytes>)
      requires Valid()
      modifies this
      ensures Valid()
      ensures key.Some? ==> GetEntry(old(View()), key.value, now).Some?
      ensures key.None? ==> forall k :: k in old(entries) ==> Expired(old(entries)[k], now)
      ensures forall k :: GetEntry(View(), k, now) == GetEntry(old(View()), k, now)
    {
      hide WellFormed, Swept;
      while entries != map[]
        invariant Valid()
        invariant forall k :: GetEntry(View(), k, now) == GetEntry(old(View()), k, now)
        decreases |entries|
      {
        assert entries.Keys != {};
        var k :| k in entries.Keys;
        ghost var was := View();
        SweptKeepsLive(was, k, now);
        var e := FetchEntry(k, now);
        if e != None {
          return Some(k);
        }
        SweptShrinks(was, k, now);
      }
      forall k | k in old(entries)
        ensures Expired(old(entries)[k], now)
      {
        assert GetEntry(View(), k, now) == None;
      }
      key := None;
    }
  }
}
