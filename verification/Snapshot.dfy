// Saving and loading snapshots, persistence/snapshot.py, and the proof that loading inverts saving.

module Snapshots {
  import opened Basics
  import opened Bytes
  import opened Resp
  import opened Keyspaces
  import opened Databases
  import opened SnapshotFormat
  import Json

  // ---------------------------------------------------------------------------------------------
  // What a snapshot is for
  // ---------------------------------------------------------------------------------------------

  function EntriesAt(dbs: map<int, KS>, d: int): map<bytes, Entry> {
    if d in dbs then dbs[d].entries else map[]
  }

  /** Databases below d done, and the first i keys of database d. */
  function Expected(dbs: map<int, KS>, d: int, i: nat, now: int, t: int, e: int): map<bytes, Entry> {
    if e !in dbs then map[]
    else if 0 <= e < d then Alive(dbs[e], now, t)
    else if e == d && i <= |dbs[e].order| then AliveUpTo(dbs[e], i, now, t)
    else map[]
  }

  ghost predicate Progress(s: Store, dbs: map<int, KS>, d: int, i: nat, now: int, t: int) {
    s.error.None? && forall e :: EntriesAt(s.dbs, e) == Expected(dbs, d, i, now, t, e)
  }

  /** A store that was not loaded into yet. */
  ghost predicate Blank(s: Store) {
    s.error.None? && forall d :: d in s.dbs ==> s.dbs[d].entries == map[]
  }

  /** Whenever the records are carried out on a blank store, the databases hold what they should so far. */
  ghost predicate Describes(recs: seq<Rec>, dbs: map<int, KS>, d: int, i: nat, now: int, num: nat) {
    && AllOk(recs)
    && forall s0: Store, bound: nat, t: int {:trigger Applied(s0, recs, bound, t)} ::
         Blank(s0) && bound >= num ==> Progress(Applied(s0, recs, bound, t), dbs, d, i, now, t)
  }

  ghost predicate Selected(recs: seq<Rec>, d: int, num: nat) {
    forall s0: Store, bound: nat, t: int {:trigger Applied(s0, recs, bound, t)} ::
      Blank(s0) && bound >= num ==> Applied(s0, recs, bound, t).current == d
  }

  lemma NothingWritten(dbs: map<int, KS>, now: int, num: nat)
    ensures Describes([], dbs, 0, 0, now, num)
  {
    forall s0: Store, bound: nat, t: int | Blank(s0) && bound >= num
      ensures Progress(Applied(s0, [], bound, t), dbs, 0, 0, now, t)
    {
      forall e
        ensures EntriesAt(s0.dbs, e) == Expected(dbs, 0, 0, now, t, e)
      {
      }
    }
  }

  lemma AppliedMore(s0: Store, recs: seq<Rec>, r: Rec, bound: nat, t: int)
    ensures Applied(s0, recs + [r], bound, t) == ApplyRecord(Applied(s0, recs, bound, t), r, bound, t)
    ensures AllOk(recs) && RecOk(r) ==> AllOk(recs + [r])
  {
    assert (recs + [r])[..|recs|] == recs;
  }

  lemma Selects(recs: seq<Rec>, dbs: map<int, KS>, d: nat, now: int, num: nat)
    requires Describes(recs, dbs, d, 0, now, num) && d < TWO_BYTES
    ensures Describes(recs + [SelectDb(d)], dbs, d, 0, now, num) && Selected(recs + [SelectDb(d)], d, num)
  {
    hide Applied, Expected, AllOk;
    var more := recs + [SelectDb(d)];
    AppliedMore(Store(map[], 0, None), recs, SelectDb(d), 0, 0);
    forall s0: Store, bound: nat, t: int | Blank(s0) && bound >= num
      ensures Progress(Applied(s0, more, bound, t), dbs, d, 0, now, t) && Applied(s0, more, bound, t).current == d
    {
      AppliedMore(s0, recs, SelectDb(d), bound, t);
    }
  }

  lemma PutProgress(s: Store, dbs: map<int, KS>, d: int, i: nat, val: bytes, now: int, t: int, bound: nat)
    requires d in dbs && WellFormed(dbs[d]) && i < |dbs[d].order| && 0 <= d < bound
    requires Progress(s, dbs, d, i, now, t) && s.current == d
    requires var k := dbs[d].order[i]; k in dbs[d].entries && !Expired(dbs[d].entries[k], now)
    ensures var k := dbs[d].order[i]; var s' := ApplyRecord(s, Put(k, dbs[d].entries[k], val), bound, t);
            Progress(s', dbs, d, i + 1, now, t) && s'.current == d
  {
    hide WellFormed, AliveUpTo, Alive;
    var k := dbs[d].order[i];
    var s' := ApplyRecord(s, Put(k, dbs[d].entries[k], val), bound, t);
    NextKey(dbs[d], i, now, t);
    forall e
      ensures EntriesAt(s'.dbs, e) == Expected(dbs, d, i + 1, now, t, e)
    {
      assert EntriesAt(s.dbs, e) == Expected(dbs, d, i, now, t, e);
    }
  }

  lemma Puts(recs: seq<Rec>, dbs: map<int, KS>, d: int, i: nat, val: bytes, now: int, num: nat)
    requires d in dbs && WellFormed(dbs[d]) && i < |dbs[d].order| && 0 <= d < num
    requires Describes(recs, dbs, d, i, now, num) && Selected(recs, d, num)
    requires var k := dbs[d].order[i];
             k in dbs[d].entries && !Expired(dbs[d].entries[k], now) && RecOk(Put(k, dbs[d].entries[k], val))
    ensures var more := recs + [Put(dbs[d].order[i], dbs[d].entries[dbs[d].order[i]], val)];
            Describes(more, dbs, d, i + 1, now, num) && Selected(more, d, num)
  {
    hide Applied, ApplyRecord, Progress, WellFormed, RecOk, AllOk;
    var k := dbs[d].order[i];
    var r := Put(k, dbs[d].entries[k], val);
    AppliedMore(Store(map[], 0, None), recs, r, 0, 0);
    forall s0: Store, bound: nat, t: int | Blank(s0) && bound >= num
      ensures Progress(Applied(s0, recs + [r], bound, t), dbs, d, i + 1, now, t) &&
              Applied(s0, recs + [r], bound, t).current == d
    {
      AppliedMore(s0, recs, r, bound, t);
      PutProgress(Applied(s0, recs, bound, t), dbs, d, i, val, now, t, bound);
    }
  }

  lemma Skips(recs: seq<Rec>, dbs: map<int, KS>, d: int, i: nat, now: int, num: nat)
    requires d in dbs && WellFormed(dbs[d]) && i < |dbs[d].order|
    requires Describes(recs, dbs, d, i, now, num)
    requires var k := dbs[d].order[i]; k in dbs[d].entries && Expired(dbs[d].entries[k], now)
    ensures Describes(recs, dbs, d, i + 1, now, num)
  {
    hide Applied, AllOk, WellFormed, AliveUpTo, Alive;
    forall s0: Store, bound: nat, t: int | Blank(s0) && bound >= num
      ensures Progress(Applied(s0, recs, bound, t), dbs, d, i + 1, now, t)
    {
      NextKey(dbs[d], i, now, t);
      assert Progress(Applied(s0, recs, bound, t), dbs, d, i, now, t);
      forall e
        ensures Expected(dbs, d, i, now, t, e) == Expected(dbs, d, i + 1, now, t, e)
      {
      }
    }
  }

  lemma NextDatabase(recs: seq<Rec>, dbs: map<int, KS>, d: nat, now: int, num: nat)
    requires d in dbs && WellFormed(dbs[d]) && Describes(recs, dbs, d, |dbs[d].order|, now, num)
    ensures Describes(recs, dbs, d + 1, 0, now, num)
  {
    hide Applied, AllOk, WellFormed, AliveUpTo, Alive;
    forall s0: Store, bound: nat, t: int | Blank(s0) && bound >= num
      ensures Progress(Applied(s0, recs, bound, t), dbs, d + 1, 0, now, t)
    {
      AllKeys(dbs[d], now, t);
      if d + 1 in dbs {
        NoKeys(dbs[d + 1], now, t);
      }
      assert Progress(Applied(s0, recs, bound, t), dbs, d, |dbs[d].order|, now, t);
      forall e
        ensures Expected(dbs, d, |dbs[d].order|, now, t, e) == Expected(dbs, d + 1, 0, now, t, e)
      {
      }
    }
  }

  /**
    * Loading what was saved: a blank store gets exactly the entries that are alive at both times, each in its
    * database.
    */
  lemma LoadInvertsSave(recs: seq<Rec>, dbs: map<int, KS>, num: nat, sha: bytes -> bytes, now: int, blank: map<int, KS>,
                        bound: nat, t: int)
    requires Describes(recs, dbs, num, 0, now, num) && (forall x :: |sha(x)| == CHECKSUM_SIZE)
    requires (forall d :: d in blank ==> blank[d].entries == map[]) && bound >= num
    ensures var s := LoadFile(blank, Framed(recs, sha), sha, bound, t);
            && s.error.None?
            && forall d :: EntriesAt(s.dbs, d) == if d in dbs && 0 <= d < num then Alive(dbs[d], now, t) else map[]
  {
    hide LoadFile, Framed, Applied, AllOk, Alive;
    LoadsFramed(blank, recs, sha, bound, t);
    var s0 := Store(blank, 0, None);
    assert Progress(Applied(s0, recs, bound, t), dbs, num, 0, now, t);
    forall d
      ensures Expected(dbs, num, 0, now, t, d) == if d in dbs && 0 <= d < num then Alive(dbs[d], now, t) else map[]
    {
      if d in dbs {
        NoKeys(dbs[d], now, t);
      }
    }
  }

  // ---------------------------------------------------------------------------------------------
  // Values
  // ---------------------------------------------------------------------------------------------

  method SerializeHash(fields: map<bytes, bytes>) returns (val: bytes)
    ensures Serialized(HashData(fields), val)
  {
    hide Json.Dumps, Lists;
    var items: seq<Json.Value> := [];
    var left, done := fields, map[];
    NothingListed();
    while left.Keys != {}
      invariant Lists(HashData(done), items)
      invariant done + left == fields && done.Keys !! left.Keys
      decreases |left|
    {
      var f :| f in left.Keys;
      OneFieldMore(items, done, f, left[f]);
      MoveOver(done, left, f);
      items := items + [FieldItem(f, left[f])];
      done, left := done[f := left[f]], left - {f};
    }
    assert done == fields;
    val := Json.Dumps(Json.Arr(items));
  }

  lemma NothingListed()
    ensures Lists(HashData(map[]), []) && Lists(ZSetData(map[]), []) && Lists(SetData({}), [])
  {
  }

  lemma OneFieldMore(items: seq<Json.Value>, m: map<bytes, bytes>, k: bytes, v: bytes)
    requires Lists(HashData(m), items) && k !in m
    ensures Lists(HashData(m[k := v]), items + [FieldItem(k, v)])
  {
    var items', m' := items + [FieldItem(k, v)], m[k := v];
    assert |m'| == |m| + 1;
    forall i | 0 <= i < |items'|
      ensures IsField(items'[i]) && StandsIn(items'[i], m')
    {
      assert i < |items| ==> IsField(items[i]) && StandsIn(items[i], m);
    }
    forall f | f in m'
      ensures FieldItem(f, m'[f]) in items'
    {
      assert f in m ==> FieldItem(f, m[f]) in items;
      assert FieldItem(k, v) in items';
    }
  }

  method SerializeZSet(scores: map<bytes, int>) returns (val: bytes)
    ensures Serialized(ZSetData(scores), val)
  {
    hide Json.Dumps, Lists;
    var items: seq<Json.Value> := [];
    var left, done := scores, map[];
    NothingListed();
    while left.Keys != {}
      invariant Lists(ZSetData(done), items)
      invariant done + left == scores && done.Keys !! left.Keys
      decreases |left|
    {
      var m :| m in left.Keys;
      OneScoreMore(items, done, m, left[m]);
      MoveOver(done, left, m);
      items := items + [ScoreItem(m, left[m])];
      done, left := done[m := left[m]], left - {m};
    }
    assert done == scores;
    val := Json.Dumps(Json.Arr(items));
  }

  lemma OneScoreMore(items: seq<Json.Value>, m: map<bytes, int>, k: bytes, v: int)
    requires Lists(ZSetData(m), items) && k !in m
    ensures Lists(ZSetData(m[k := v]), items + [ScoreItem(k, v)])
  {
    var items', m' := items + [ScoreItem(k, v)], m[k := v];
    assert |m'| == |m| + 1;
    forall i | 0 <= i < |items'|
      ensures IsScore(items'[i]) && StandsAt(items'[i], m')
    {
      assert i < |items| ==> IsScore(items[i]) && StandsAt(items[i], m);
    }
    forall f | f in m'
      ensures ScoreItem(f, m'[f]) in items'
    {
      assert f in m ==> ScoreItem(f, m[f]) in items;
      assert ScoreItem(k, v) in items';
    }
  }

  method SerializeSet(members: set<bytes>) returns (val: bytes)
    ensures Serialized(SetData(members), val)
  {
    hide Json.Dumps, Lists;
    var items: seq<Json.Value> := [];
    var left, done := members, {};
    NothingListed();
    while left != {}
      invariant Lists(SetData(done), items)
      invariant done + left == members && done !! left
      decreases left
    {
      var m :| m in left;
      OneMemberMore(items, done, m);
      items := items + [Json.Str(m)];
      assert (done + {m}) + (left - {m}) == done + left;
      done, left := done + {m}, left - {m};
    }
    assert done == members;
    val := Json.Dumps(Json.Arr(items));
  }

  lemma OneMemberMore(items: seq<Json.Value>, m: set<bytes>, k: bytes)
    requires Lists(SetData(m), items) && k !in m
    ensures Lists(SetData(m + {k}), items + [Json.Str(k)])
  {
    var items' := items + [Json.Str(k)];
    forall x
      ensures x in m + {k} <==> Json.Str(x) in items'
    {
      assert Json.Str(k) in items';
    }
  }

  /** One text that serializes the value. */
  method SerializeValue(d: Data) returns (val: bytes)
    ensures Serialized(d, val)
  {
    hide Json.Dumps, FromJson;
    match d
    case StringData(text) => val := text;
    case HashData(fields) => val := SerializeHash(fields);
    case ListData(items) => val := SerializeList(items);
    case SetData(members) => val := SerializeSet(members);
    case ZSetData(scores) => val := SerializeZSet(scores);
  }

  method SerializeList(items: seq<bytes>) returns (val: bytes)
    ensures Serialized(ListData(items), val)
  {
    hide Json.Dumps;
    assert Lists(ListData(items), Strings(items));
    val := Json.Dumps(Json.Arr(Strings(items)));
  }

  // ---------------------------------------------------------------------------------------------
  // The manager
  // ---------------------------------------------------------------------------------------------

  /** Everything that has to be packed fits its field. */
  ghost predicate Saveable(dbs: map<int, KS>, num: nat, now: int) {
    forall d :: 0 <= d < num && d in dbs && dbs[d].entries != map[] ==> d < TWO_BYTES && EntriesFit(dbs[d], now)
  }

  ghost predicate EntriesFit(ks: KS, now: int) {
    forall k :: k in ks.entries && !Expired(ks.entries[k], now) ==> EntryFits(k, ks.entries[k])
  }

  ghost predicate EntryFits(key: bytes, e: Entry) {
    ExpiryFits(e) && |key| < FOUR_BYTES && forall val :: Serialized(e.data, val) ==> |val| < FOUR_BYTES
  }

  /** What fits: database numbers of two bytes, keys and values shorter than 2^32, expiries of eight bytes. */
  lemma SaveableMeans(dbs: map<int, KS>, num: nat, now: int)
    ensures Saveable(dbs, num, now) <==>
            && (forall d :: 0 <= d < num && d in dbs && dbs[d].entries != map[] ==> d < 0x1_0000)
            && (forall d, k :: 0 <= d < num && d in dbs && k in dbs[d].entries ==>
                  var e := dbs[d].entries[k];
                  e.expireAt == None || now < e.expireAt.value ==>
                    && |k| < 0x1_0000_0000
                    && (e.expireAt.Some? ==> 0 <= e.expireAt.value < 0x1_0000_0000_0000_0000)
                    && forall val :: Serialized(e.data, val) ==> |val| < 0x1_0000_0000)
  {
    hide Serialized;
    forall d, k | 0 <= d < num && d in dbs && k in dbs[d].entries && Saveable(dbs, num, now)
      ensures !Expired(dbs[d].entries[k], now) ==> EntryFits(k, dbs[d].entries[k])
    {
      assert dbs[d].entries != map[];
      assert EntriesFit(dbs[d], now);
    }
  }

  lemma UnfitEntry(dbs: map<int, KS>, num: nat, now: int, d: int, k: bytes)
    requires 0 <= d < num && d in dbs && k in dbs[d].entries && !Expired(dbs[d].entries[k], now) &&
             !EntryFits(k, dbs[d].entries[k])
    ensures !Saveable(dbs, num, now)
  {
    hide EntryFits;
    assert dbs[d].entries != map[];
  }

  lemma UnfitNumber(dbs: map<int, KS>, num: nat, now: int, d: int)
    requires 0 <= d < num && d in dbs && dbs[d].entries != map[] && d >= TWO_BYTES
    ensures !Saveable(dbs, num, now)
  {
    hide EntriesFit;
  }

  const HEADER: bytes := MAGIC + BigEndian(VERSION, 2)

  ghost predicate Holds(buf: bytes, recs: seq<Rec>) {
    AllOk(recs) && buf == HEADER + RecsBytes(recs)
  }

  lemma HoldsMore(buf: bytes, recs: seq<Rec>, r: Rec)
    requires Holds(buf, recs) && RecOk(r)
    ensures Holds(buf + RecBytes(r), recs + [r])
  {
    hide RecOk, RecBytes, HEADER;
    assert (recs + [r])[..|recs|] == recs;
    assert HEADER + RecsBytes(recs) + RecBytes(r) == HEADER + (RecsBytes(recs) + RecBytes(r));
  }

  /** One entry; false is the source's struct.error. */
  method WriteEntry(buf: bytes, ghost recs: seq<Rec>, key: bytes, e: Entry)
    returns (ok: bool, buf': bytes, ghost r: Rec)
    requires Holds(buf, recs)
    ensures !ok ==> !EntryFits(key, e)
    ensures ok ==> RecOk(r) && r.Put? && r.key == key && r.e == e && Holds(buf', recs + [r])
  {
    hide Holds, Serialized, Deserialize;
    buf', r := buf, SelectDb(0);
    if !ExpiryFits(e) || |key| >= FOUR_BYTES {
      return false, buf, r;
    }
    var head := ExpiryBytes(e) + [TypeByte(e.data)] + BigEndian(|key|, 4) + key;
    var val := SerializeValue(e.data);
    if |val| >= FOUR_BYTES {
      return false, buf, r;
    }
    DeserializeInverts(e.data, val);
    r := Put(key, e, val);
    HoldsMore(buf, recs, r);
    PutBytes(key, e, val);
    buf' := buf + (head + BigEndian(|val|, 4) + val);
    ok := true;
  }

  lemma PutBytes(key: bytes, e: Entry, val: bytes)
    requires RecOk(Put(key, e, val))
    ensures ExpiryBytes(e) + [TypeByte(e.data)] + BigEndian(|key|, 4) + key + BigEndian(|val|, 4) + val ==
              RecBytes(Put(key, e, val))
  {
    hide Deserialize, BigEndian, ExpiryBytes, TypeByte;
  }

  /** The entries of one database, after its number. */
  method WriteDatabase(buf: bytes, ghost recs: seq<Rec>, ghost dbs: map<int, KS>, d: nat, ks: KS, now: int,
                       ghost num: nat)
    returns (ok: bool, buf': bytes, ghost recs': seq<Rec>)
    requires d in dbs && dbs[d] == ks && WellFormed(ks) && d < num && d < TWO_BYTES
    requires Holds(buf, recs) && Describes(recs, dbs, d, 0, now, num)
    ensures !ok ==> !Saveable(dbs, num, now)
    ensures ok ==> Holds(buf', recs') && Describes(recs', dbs, d + 1, 0, now, num)
  {
    hide Holds, Describes, Selected, Saveable, EntryFits, RecOk, RecBytes, WellFormed;
    SelectWritten(buf, recs, d);
    Selects(recs, dbs, d, now, num);
    buf', recs' := buf + ([OP_SELECTDB] + BigEndian(d, 2)), recs + [SelectDb(d)];
    for i := 0 to |ks.order|
      invariant Holds(buf', recs') && Describes(recs', dbs, d, i, now, num) && Selected(recs', d, num)
    {
      var key := ks.order[i];
      KeyInOrder(ks, i);
      var e := ks.entries[key];
      if Expired(e, now) {
        Skips(recs', dbs, d, i, now, num);
        continue;
      }
      var fits, more;
      ghost var r;
      fits, more, r := WriteEntry(buf', recs', key, e);
      if !fits {
        UnfitEntry(dbs, num, now, d, key);
        return false, buf', recs';
      }
      Puts(recs', dbs, d, i, r.val, now, num);
      buf', recs' := more, recs' + [r];
    }
    NextDatabase(recs', dbs, d, now, num);
    ok := true;
  }

  lemma SelectWritten(buf: bytes, recs: seq<Rec>, d: nat)
    requires Holds(buf, recs) && d < TWO_BYTES
    ensures Holds(buf + ([OP_SELECTDB] + BigEndian(d, 2)), recs + [SelectDb(d)])
  {
    hide Holds;
    HoldsMore(buf, recs, SelectDb(d));
  }

  class SnapshotManager {
    const enabled: bool
    const sha: bytes -> bytes
    var file: Option<bytes>  // the snapshot file, if there is one

    constructor (enabled: bool, sha: bytes -> bytes)
      ensures this.enabled == enabled && this.sha == sha && file == None
    {
      this.enabled, this.sha, file := enabled, sha, None;
    }

    /**
      * The file is replaced as a whole, by records that describe the databases; false is an error, and leaves it as
      * it was.
      */
    method Save(manager: DatabaseManager, now: int) returns (ok: bool, ghost recs: seq<Rec>)
      requires manager.Valid()
      modifies this
      ensures !enabled ==> ok && file == old(file)
      ensures !ok ==> file == old(file) && !Saveable(manager.View(), manager.numDatabases, now)
      ensures ok && enabled ==>
                && Describes(recs, manager.View(), manager.numDatabases, 0, now, manager.numDatabases)
                && file == Some(Framed(recs, sha))
    {
      recs := [];
      if !enabled {
        return true, recs;
      }
      ghost var dbs := manager.View();
      var data;
      ok, data, recs := Collect(manager, now);
      if !ok {
        return false, recs;
      }
      file := Some(data + sha(data));
      assert manager.View() == dbs;
    }

    method Collect(manager: DatabaseManager, now: int) returns (ok: bool, data: bytes, ghost recs: seq<Rec>)
      requires manager.Valid()
      ensures !ok ==> !Saveable(manager.View(), manager.numDatabases, now)
      ensures ok ==>
                && Describes(recs, manager.View(), manager.numDatabases, 0, now, manager.numDatabases)
                && data + sha(data) == Framed(recs, sha)
    {
      hide Holds, Describes, Saveable, WellFormed, AllOk;
      ghost var dbs, num := manager.View(), manager.numDatabases;
      recs := [];
      var buf := MAGIC + BigEndian(VERSION, 2);
      NothingWritten(dbs, now, num);
      HeaderOnly();
      for d := 0 to manager.numDatabases
        invariant Holds(buf, recs) && Describes(recs, dbs, d, 0, now, num)
      {
        var ks := manager.databases[d].View();
        assert dbs[d] == ks && WellFormed(ks);
        if ks.entries == map[] {
          EmptyDatabase(recs, dbs, d, now, num);
          continue;
        }
        if d >= TWO_BYTES {
          UnfitNumber(dbs, num, now, d);
          return false, [], recs;
        }
        var written, more;
        ghost var recs';
        written, more, recs' := WriteDatabase(buf, recs, dbs, d, ks, now, num);
        if !written {
          return false, [], recs;
        }
        buf, recs := more, recs';
      }
      data := buf + [OP_EOF];
      Finished(buf, recs, sha);
      ok := true;
    }

    /**
      * Not loaded where there is no file. Otherwise the databases hold, and the error is, what the file's content
      * means.
      */
    method Load(manager: DatabaseManager, now: int) returns (loaded: bool, error: Option<LoadError>)
      requires manager.Valid()
      modifies manager`databases, manager`keyspaces, manager`numbers, manager.keyspaces
      ensures manager.Valid() && file == old(file)
      ensures file.None? ==> !loaded && error == None && manager.View() == old(manager.View())
      ensures file.Some? ==> var s := LoadFile(old(manager.View()), file.value, sha, manager.Bound(), now);
                             manager.View() == s.dbs && error == s.error && loaded == s.error.None?
    {
      hide LoadRecords, FromBigEndian, DatabaseManager.Valid;
      if file.None? {
        return false, None;
      }
      var content := file.value;
      if |content| < |MAGIC| + 2 + CHECKSUM_SIZE {
        return false, Some(TooSmall);
      }
      var data, checksum := content[..|content| - CHECKSUM_SIZE], content[|content| - CHECKSUM_SIZE..];
      if checksum != sha(data) {
        return false, Some(ChecksumMismatch);
      }
      if data[..|MAGIC|] != MAGIC {
        return false, Some(BadMagic);
      }
      if FromBigEndian(data[|MAGIC|..|MAGIC| + 2]) > VERSION {
        return false, Some(BadVersion);
      }
      error := LoadAll(manager, data[|MAGIC| + 2..], now);
      loaded := error.None?;
    }

    /** The loop over the opcodes. */
    method LoadAll(manager: DatabaseManager, records: bytes, now: int) returns (error: Option<LoadError>)
      requires manager.Valid()
      modifies manager`databases, manager`keyspaces, manager`numbers, manager.keyspaces
      ensures manager.Valid() && fresh(manager.keyspaces - old(manager.keyspaces))
      ensures var s := LoadRecords(Store(old(manager.View()), 0, None), records, manager.Bound(), now);
              manager.View() == s.dbs && error == s.error
    {
      hide LoadBody, FromBigEndian, PutEntry, DatabaseManager.Valid;
      ghost var start := Store(manager.View(), 0, None);
      var rest, current := records, 0;
      error := None;
      while error.None? && rest != [] && rest[0] != OP_EOF
        invariant manager.Valid() && fresh(manager.keyspaces - old(manager.keyspaces))
        invariant SameLoad(start, records, Store(manager.View(), current, error), rest, manager.Bound(), now)
        decreases |rest|
      {
        ghost var before := Store(manager.View(), current, error);
        if rest[0] == OP_SELECTDB {
          if |rest| < 3 {
            error, rest := Some(BadRecord), [];
          } else {
            current, rest := FromBigEndian(rest[1..3]), rest[3..];
          }
        } else {
          error, rest := LoadOne(manager, current, rest[0], rest[1..], now);
        }
      }
    }

    /** One record after its opcode. */
    method LoadOne(manager: DatabaseManager, current: int, opcode: byte, after: bytes, now: int)
      returns (error: Option<LoadError>, rest: bytes)
      requires manager.Valid()
      modifies manager`databases, manager`keyspaces, manager`numbers, manager.keyspaces
      ensures manager.Valid() && fresh(manager.keyspaces - old(manager.keyspaces))
      ensures (Store(manager.View(), current, error), rest) ==
              LoadEntry(Store(old(manager.View()), current, None), opcode, after, manager.Bound(), now)
      ensures |rest| <= |after|
    {
      hide FromBigEndian, PutEntry, Deserialize, Take, Drop, DatabaseManager.Valid;
      var expireAt, typeByte, body := None, opcode, after;
      if opcode == OP_EXPIRETIME_MS {
        if |after| < 9 {
          return Some(BadRecord), [];
        }
        expireAt, typeByte, body := Some(FromBigEndian(after[..8])), after[8], after[9..];
      }
      if |body| < 4 {
        return Some(BadRecord), [];
      }
      var keyLen, rest1 := FromBigEndian(body[..4]), body[4..];
      var key, rest2 := Take(rest1, keyLen), Drop(rest1, keyLen);
      if |rest2| < 4 {
        return Some(BadRecord), [];
      }
      var valLen, rest3 := FromBigEndian(rest2[..4]), rest2[4..];
      var val;
      val, rest := Take(rest3, valLen), Drop(rest3, valLen);
      error := None;
      if expireAt.Some? && expireAt.value <= now {
        return;
      }
      var data := Deserialize(typeByte as int, val);
      if data.None? {
        return Some(BadRecord), rest;
      }
      PutMeans(Store(manager.View(), current, None), key, Entry(data.value, expireAt), manager.Bound());
      var ok := manager.SetIn(current, key, Entry(data.value, expireAt));
      error := if ok then None else Some(BadRecord);
    }
  }

  lemma PutMeans(s: Store, key: bytes, e: Entry, bound: nat)
    ensures PutEntry(s, key, e, bound) ==
            if 0 <= s.current < bound then
              s.(dbs := s.dbs[s.current := Set(if s.current in s.dbs then s.dbs[s.current] else EMPTY, key, e)])
            else Failed(s, BadRecord)
  {
  }

  /** What is left to load leads where the whole does. */
  ghost predicate SameLoad(start: Store, records: bytes, s: Store, rest: bytes, bound: nat, now: int) {
    LoadRecords(start, records, bound, now) == LoadRecords(s, rest, bound, now)
  }

  lemma HeaderOnly()
    ensures Holds(HEADER, [])
  {
    assert HEADER + [] == HEADER;
  }

  lemma Finished(buf: bytes, recs: seq<Rec>, sha: bytes -> bytes)
    requires Holds(buf, recs)
    ensures AllOk(recs) && (buf + [OP_EOF]) + sha(buf + [OP_EOF]) == Framed(recs, sha)
  {
  }

  lemma EmptyDatabase(recs: seq<Rec>, dbs: map<int, KS>, d: nat, now: int, num: nat)
    requires d in dbs && WellFormed(dbs[d]) && dbs[d].entries == map[] && Describes(recs, dbs, d, 0, now, num)
    ensures Describes(recs, dbs, d + 1, 0, now, num)
  {
    NoOrder(dbs[d]);
    NextDatabase(recs, dbs, d, now, num);
  }

  lemma NoOrder(ks: KS)
    requires WellFormed(ks) && ks.entries == map[]
    ensures ks.order == []
  {
    OrderSize(ks);
  }
}
