// A rewrite of the log in place, while the server goes on logging: what recovery makes of the continued file.

module InPlaceRewrites {
  import opened Bytes
  import opened Resp
  import opened Keyspaces
  import opened Commands
  import opened Transactions
  import opened AppendOnlyLog
  import opened Recovery
  import opened LogRewrite
  import opened CrashConsistency
  import SortedSetStores

  // ---------------------------------------------------------------------------------------------
  // What commands do to the live entries depends on the live entries alone: not on versions, on insertion order, or on
  // entries that are due
  // ---------------------------------------------------------------------------------------------

  lemma SameSwept(a: KS, b: KS, key: bytes, t: int)
    requires SameLive(a, b, t)
    ensures SameLive(Swept(a, key, t), Swept(b, key, t), t) && GetEntry(a, key, t) == GetEntry(b, key, t)
    ensures Stored(Swept(a, key, t), key) == GetEntry(a, key, t) && Stored(Swept(b, key, t), key) == GetEntry(b, key, t)
  {
    assert GetEntry(a, key, t) == GetEntry(b, key, t);
    SweptKeepsLive(a, key, t);
    SweptKeepsLive(b, key, t);
  }

  lemma SameDelete(a: KS, b: KS, key: bytes, t: int)
    requires SameLive(a, b, t)
    ensures SameLive(Delete(a, key), Delete(b, key), t)
  {
    forall k
      ensures GetEntry(Delete(a, key), k, t) == GetEntry(Delete(b, key), k, t)
    {
      assert GetEntry(a, k, t) == GetEntry(b, k, t);
    }
  }

  lemma {:induction false} SameDeleteAll(a: KS, b: KS, keys: seq<bytes>, t: int)
    requires SameLive(a, b, t)
    ensures SameLive(DeleteAll(a, keys), DeleteAll(b, keys), t)
    decreases |keys|
  {
    hide SameLive, Delete;
    if keys != [] {
      SameDelete(a, b, keys[0], t);
      SameDeleteAll(Delete(a, keys[0]), Delete(b, keys[0]), keys[1..], t);
    }
  }

  lemma SameSet(a: KS, b: KS, key: bytes, e: Entry, t: int)
    requires SameLive(a, b, t)
    ensures SameLive(Set(a, key, e), Set(b, key, e), t)
  {
    forall k
      ensures GetEntry(Set(a, key, e), k, t) == GetEntry(Set(b, key, e), k, t)
    {
      assert GetEntry(a, k, t) == GetEntry(b, k, t);
    }
  }

  lemma SameAltered(a: KS, b: KS, key: bytes, e: Entry, t: int)
    requires SameLive(a, b, t) && key in a.entries && key in b.entries
    ensures SameLive(Altered(a, key, e), Altered(b, key, e), t)
  {
    forall k
      ensures GetEntry(Altered(a, key, e), k, t) == GetEntry(Altered(b, key, e), k, t)
    {
      assert GetEntry(a, k, t) == GetEntry(b, k, t);
    }
  }

  lemma SameTyped(a: KS, b: KS, key: bytes, dt: DataType, t: int)
    requires SameLive(a, b, t)
    ensures Typed(a, key, dt, t) == Typed(b, key, dt, t) && SameLive(Swept(a, key, t), Swept(b, key, t), t)
  {
    hide SameLive, Swept, GetEntry;
    SameSwept(a, b, key, t);
  }

  lemma SameSetCommand(args: seq<bytes>, a: KS, b: KS, t: int)
    requires |args| >= 2 && SameLive(a, b, t)
    ensures SameLive(RunSet(a, args, t).0, RunSet(b, args, t).0, t)
  {
    hide SameLive, Swept, GetEntry, Set, ParseSetOptions;
    SameSwept(a, b, args[0], t);
    forall e
      ensures SameLive(Set(Swept(a, args[0], t), args[0], e), Set(Swept(b, args[0], t), args[0], e), t)
    {
      SameSet(Swept(a, args[0], t), Swept(b, args[0], t), args[0], e, t);
    }
  }

  lemma SameStrings(kind: Kind, args: seq<bytes>, a: KS, b: KS, t: int)
    requires kind in {GetKind, AppendKind, IncrByKind} && EnoughArgs(kind, |args|) && SameLive(a, b, t)
    ensures SameLive(Execute(kind, args, a, t).0, Execute(kind, args, b, t).0, t)
  {
    hide SameLive, Swept, GetEntry, Typed, Set, ParseInt, Decimal;
    SameTyped(a, b, args[0], StringType, t);
    forall e
      ensures SameLive(Set(Swept(a, args[0], t), args[0], e), Set(Swept(b, args[0], t), args[0], e), t)
    {
      SameSet(Swept(a, args[0], t), Swept(b, args[0], t), args[0], e, t);
    }
  }

  /** Both open the container or both do not; what is made of it is the same. */
  lemma SameUpsert(a: KS, b: KS, key: bytes, initial: Data, t: int)
    requires SameLive(a, b, t)
    ensures var ua, ub := Upsert(a, key, initial, TypeOf(initial), t), Upsert(b, key, initial, TypeOf(initial), t);
            && (ua.Some? <==> ub.Some?)
            && (ua.Some? ==> ua.value.entries[key] == ub.value.entries[key])
            && (ua.Some? ==> forall data :: SameLive(Mutated(ua.value, key, data), Mutated(ub.value, key, data), t))
    ensures SameLive(Swept(a, key, t), Swept(b, key, t), t)
  {
    hide SameLive, Swept, GetEntry, Altered;
    SameSwept(a, b, key, t);
    SameTyped(a, b, key, TypeOf(initial), t);
    SameSet(Swept(a, key, t), Swept(b, key, t), key, Entry(initial, None), t);
    var ua, ub := Upsert(a, key, initial, TypeOf(initial), t), Upsert(b, key, initial, TypeOf(initial), t);
    if ua.Some? {
      forall data
        ensures SameLive(Mutated(ua.value, key, data), Mutated(ub.value, key, data), t)
      {
        SameAltered(ua.value, ub.value, key, ua.value.entries[key].(data := data), t);
      }
    }
  }

  lemma SamePush(args: seq<bytes>, a: KS, b: KS, left: bool, t: int)
    requires |args| >= 1 && SameLive(a, b, t)
    ensures SameLive(RunPush(a, args, left, t).0, RunPush(b, args, left, t).0, t)
  {
    hide SameLive, Swept, Upsert, Mutated, Reverse;
    SameUpsert(a, b, args[0], ListData([]), t);
  }

  lemma SameSAdd(args: seq<bytes>, a: KS, b: KS, t: int)
    requires |args| >= 1 && SameLive(a, b, t)
    ensures SameLive(RunSAdd(a, args, t).0, RunSAdd(b, args, t).0, t)
  {
    hide SameLive, Swept, Upsert, Mutated;
    SameUpsert(a, b, args[0], SetData({}), t);
  }

  lemma SameHSet(args: seq<bytes>, a: KS, b: KS, t: int)
    requires |args| >= 1 && SameLive(a, b, t)
    ensures SameLive(RunHSet(a, args, t).0, RunHSet(b, args, t).0, t)
  {
    hide SameLive, Swept, Upsert, Mutated, WithFields;
    SameUpsert(a, b, args[0], HashData(map[]), t);
  }

  lemma SameZAdd(args: seq<bytes>, a: KS, b: KS, t: int)
    requires |args| >= 1 && SameLive(a, b, t)
    ensures SameLive(RunZAdd(a, args, t).0, RunZAdd(b, args, t).0, t)
  {
    hide SameLive, Swept, Upsert, Mutated, ParseZFlags, ParsePairs,
      SortedSetStores.AddedAll, SortedSetStores.ChangedCount;
    SameUpsert(a, b, args[0], ZSetData(map[]), t);
  }

  lemma SameShrunk(a: KS, b: KS, key: bytes, data: Data, empty: bool, t: int)
    requires SameLive(a, b, t) && key in a.entries && key in b.entries && a.entries[key] == b.entries[key]
    ensures SameLive(Shrunk(a, key, data, empty), Shrunk(b, key, data, empty), t)
  {
    hide SameLive, Delete, Altered;
    var e := a.entries[key].(data := data);
    SameAltered(a, b, key, e, t);
    SameEdited(a, b, key, e, t);
    SameDelete(a.(entries := a.entries[key := e]), b.(entries := b.entries[key := e]), key, t);
  }

  lemma SameEdited(a: KS, b: KS, key: bytes, e: Entry, t: int)
    requires SameLive(a, b, t)
    ensures SameLive(a.(entries := a.entries[key := e]), b.(entries := b.entries[key := e]), t)
  {
    var a1, b1 := a.(entries := a.entries[key := e]), b.(entries := b.entries[key := e]);
    forall k
      ensures GetEntry(a1, k, t) == GetEntry(b1, k, t)
    {
      assert GetEntry(a, k, t) == GetEntry(b, k, t);
    }
  }

  /** What the removing commands share: the value found, and what either outcome leaves. */
  lemma SameFound(a: KS, b: KS, key: bytes, dt: DataType, t: int, data: Data, empty: bool)
    requires SameLive(a, b, t)
    ensures Typed(a, key, dt, t) == Typed(b, key, dt, t) && SameLive(Swept(a, key, t), Swept(b, key, t), t)
    ensures Typed(a, key, dt, t).Found? ==>
              SameLive(Shrunk(Swept(a, key, t), key, data, empty), Shrunk(Swept(b, key, t), key, data, empty), t)
  {
    hide SameLive, Swept, Typed, Shrunk;
    SameTyped(a, b, key, dt, t);
    if Typed(a, key, dt, t).Found? {
      SameShrunk(Swept(a, key, t), Swept(b, key, t), key, data, empty, t);
    }
  }

  lemma SameLPop(args: seq<bytes>, a: KS, b: KS, t: int)
    requires |args| >= 1 && SameLive(a, b, t)
    ensures SameLive(RunLPop(a, args, t).0, RunLPop(b, args, t).0, t)
  {
    hide SameLive, Swept, Typed, Shrunk, ParseInt;
    SameTyped(a, b, args[0], ListType, t);
    var n := if |args| > 1 then ParseInt(args[1]) else Some(1);
    var f := Typed(a, args[0], ListType, t);
    if f.Found? && n.Some? && n.value >= 0 {
      var items := f.entry.data.items;
      var k := if n.value < |items| then n.value else |items|;
      SameFound(a, b, args[0], ListType, t, ListData(items[k..]), |items[k..]| == 0);
    }
  }

  lemma SameSRem(args: seq<bytes>, a: KS, b: KS, t: int)
    requires |args| >= 1 && SameLive(a, b, t)
    ensures SameLive(RunSRem(a, args, t).0, RunSRem(b, args, t).0, t)
  {
    hide SameLive, Swept, Typed, Shrunk;
    SameTyped(a, b, args[0], SetType, t);
    var f := Typed(a, args[0], SetType, t);
    if f.Found? {
      var rest := f.entry.data.members - set m | m in args[1..];
      SameFound(a, b, args[0], SetType, t, SetData(rest), rest == {});
    }
  }

  lemma SameHDel(args: seq<bytes>, a: KS, b: KS, t: int)
    requires |args| >= 1 && SameLive(a, b, t)
    ensures SameLive(RunHDel(a, args, t).0, RunHDel(b, args, t).0, t)
  {
    hide SameLive, Swept, Typed, Shrunk;
    SameTyped(a, b, args[0], HashType, t);
    var f := Typed(a, args[0], HashType, t);
    if f.Found? {
      var rest := f.entry.data.fields - set m | m in args[1..];
      SameFound(a, b, args[0], HashType, t, HashData(rest), rest == map[]);
    }
  }

  lemma SameZRem(args: seq<bytes>, a: KS, b: KS, t: int)
    requires |args| >= 1 && SameLive(a, b, t)
    ensures SameLive(RunZRem(a, args, t).0, RunZRem(b, args, t).0, t)
  {
    hide SameLive, Swept, Typed, Shrunk, SortedSetStores.RemovedAll;
    SameTyped(a, b, args[0], ZSetType, t);
    var f := Typed(a, args[0], ZSetType, t);
    if f.Found? {
      var rest := SortedSetStores.RemovedAll(f.entry.data.scores, args[1..]);
      SameFound(a, b, args[0], ZSetType, t, ZSetData(rest), rest == map[]);
    }
  }

  lemma SameTimes(a: KS, b: KS, key: bytes, at: int, t: int)
    requires SameLive(a, b, t)
    ensures SameLive(ExpireAt(a, key, at, t), ExpireAt(b, key, at, t), t) &&
            SameLive(Persist(a, key, t), Persist(b, key, t), t)
  {
    hide SameLive, Swept, GetEntry, Delete, Altered;
    var a1, b1 := Swept(a, key, t), Swept(b, key, t);
    SameSwept(a, b, key, t);
    SameDelete(a1, b1, key, t);
    if key in a1.entries {
      var e := a1.entries[key];
      SameAltered(a1, b1, key, e.(expireAt := Some(at)), t);
      SameAltered(a1, b1, key, e.(expireAt := None), t);
    }
  }

  lemma SameRename(a: KS, b: KS, source: bytes, destination: bytes, t: int)
    requires SameLive(a, b, t)
    ensures SameLive(Rename(a, source, destination, t), Rename(b, source, destination, t), t)
  {
    hide Swept, Dropped;
    var a1, b1 := Swept(a, source, t), Swept(b, source, t);
    SameSwept(a, b, source, t);
    forall k
      ensures GetEntry(Rename(a, source, destination, t), k, t) == GetEntry(Rename(b, source, destination, t), k, t)
    {
      assert GetEntry(a1, k, t) == GetEntry(b1, k, t);
    }
  }

  lemma SameKeys(kind: Kind, args: seq<bytes>, a: KS, b: KS, t: int)
    requires kind in {DelKind, PExpireAtKind, PersistKind, RenameKind, FlushDbKind} && EnoughArgs(kind, |args|)
    requires SameLive(a, b, t)
    ensures SameLive(Execute(kind, args, a, t).0, Execute(kind, args, b, t).0, t)
  {
    hide SameLive, GetEntry, ParseInt, DeleteAll, ExpireAt, Persist, Rename, Flush;
    match kind
    case DelKind => SameDeleteAll(a, b, args, t);
    case PExpireAtKind =>
      if ParseInt(args[1]).Some? {
        SameTimes(a, b, args[0], ParseInt(args[1]).value, t);
      }
    case PersistKind => SameTimes(a, b, args[0], 0, t);
    case RenameKind => SameRename(a, b, args[0], args[1], t);
    case FlushDbKind => SameFlush(a, b, t);
  }

  lemma SameFlush(a: KS, b: KS, t: int)
    ensures SameLive(Flush(a), Flush(b), t)
  {
    hide MarkAll;
  }

  lemma SameExecute(kind: Kind, args: seq<bytes>, a: KS, b: KS, t: int)
    requires IsData(kind) && SameLive(a, b, t)
    ensures SameLive(Execute(kind, args, a, t).0, Execute(kind, args, b, t).0, t)
  {
    hide SameLive, RunGet, RunSet, RunAppend, RunIncrBy, RunPush, RunLPop, RunSAdd, RunSRem, RunHSet, RunHDel, RunZAdd,
      RunZRem, RunDel, RunPExpireAt, RunPersist, RunRename, Flush;
    if EnoughArgs(kind, |args|) {
      match kind
      case SetKind => SameSetCommand(args, a, b, t);
      case GetKind | AppendKind | IncrByKind => SameStrings(kind, args, a, b, t);
      case LPushKind => SamePush(args, a, b, true, t);
      case RPushKind => SamePush(args, a, b, false, t);
      case LPopKind => SameLPop(args, a, b, t);
      case SAddKind => SameSAdd(args, a, b, t);
      case SRemKind => SameSRem(args, a, b, t);
      case HSetKind => SameHSet(args, a, b, t);
      case HDelKind => SameHDel(args, a, b, t);
      case ZAddKind => SameZAdd(args, a, b, t);
      case ZRemKind => SameZRem(args, a, b, t);
      case DelKind | PExpireAtKind | PersistKind | RenameKind | FlushDbKind => SameKeys(kind, args, a, b, t);
    }
  }

  // ---------------------------------------------------------------------------------------------
  // Replays that start from the same live entries
  // ---------------------------------------------------------------------------------------------

  /** The same databases hold the same live entries. */
  ghost predicate Alike(a: map<int, KS>, b: map<int, KS>, t: int) {
    a.Keys == b.Keys && forall d :: d in a && d in b ==> SameLive(a[d], b[d], t)
  }

  ghost predicate SameReplay(p: Replay, q: Replay, t: int) {
    Alike(p.dbs, q.dbs, t) && p.current == q.current && p.aborted == q.aborted
  }

  lemma SameCommand(p: Replay, q: Replay, kind: Kind, args: seq<bytes>, t: int)
    requires SameReplay(p, q, t)
    ensures SameReplay(ReplayCommand(p, kind, args, t), ReplayCommand(q, kind, args, t), t)
  {
    hide Execute, Flushed, WithDatabase, Alike, SameLive;
    SameWith(p.dbs, q.dbs, p.current, t);
    var a, b := WithDatabase(p.dbs, p.current), WithDatabase(q.dbs, q.current);
    if IsData(kind) {
      SameExecute(kind, args, a[p.current], b[p.current], t);
      AlikeUpdated(a, b, p.current, Execute(kind, args, a[p.current], t).0, Execute(kind, args, b[p.current], t).0, t);
    }
    AlikeFlushed(a, b, t);
  }

  lemma SameWith(a: map<int, KS>, b: map<int, KS>, d: int, t: int)
    requires Alike(a, b, t)
    ensures (d in a <==> d in b) && d in WithDatabase(a, d) && d in WithDatabase(b, d)
    ensures Alike(WithDatabase(a, d), WithDatabase(b, d), t) &&
            SameLive(WithDatabase(a, d)[d], WithDatabase(b, d)[d], t)
  {
    assert d in a.Keys <==> d in b.Keys;
    SameLiveRefl(EMPTY, t);
    hide SameLive;
  }

  lemma AlikeUpdated(a: map<int, KS>, b: map<int, KS>, d: int, x: KS, y: KS, t: int)
    requires Alike(a, b, t) && SameLive(x, y, t)
    ensures Alike(a[d := x], b[d := y], t)
  {
    hide SameLive;
  }

  lemma AlikeFlushed(a: map<int, KS>, b: map<int, KS>, t: int)
    requires Alike(a, b, t)
    ensures Alike(Flushed(a), Flushed(b), t)
  {
    hide MarkAll;
    assert Flushed(a).Keys == a.Keys && Flushed(b).Keys == b.Keys;
  }

  lemma SameOne(p: Replay, q: Replay, v: Value, t: int)
    requires SameReplay(p, q, t)
    ensures SameReplay(ReplayOne(p, v, t), ReplayOne(q, v, t), t)
  {
    hide Alike, ReplayCommand, KindOf, ParseInt;
    if v.Array? && v.items != [] {
      var kind := KindOf(Upper(ArgBytes(v.items[0])));
      if kind.Some? {
        SameCommand(p, q, kind.value, ArgsOf(v.items[1..]), t);
      }
    }
  }

  lemma {:induction false} SameAll(p: Replay, q: Replay, vs: seq<Value>, t: int)
    requires SameReplay(p, q, t)
    ensures SameReplay(ReplayAll(p, vs, t), ReplayAll(q, vs, t), t)
    decreases |vs|
  {
    hide Alike, ReplayOne;
    if vs != [] && !p.aborted {
      SameOne(p, q, vs[0], t);
      SameAll(ReplayOne(p, vs[0], t), ReplayOne(q, vs[0], t), vs[1..], t);
    }
  }

  // ---------------------------------------------------------------------------------------------
  // The continued log
  // ---------------------------------------------------------------------------------------------

  /** rewrite without a target path: the new file replaces the log; what is still in the buffer will follow it. */
  method RewriteInPlace(aof: AOFManager, dbs: map<int, KS>, databases: nat, now: int)
    returns (ghost cmds: seq<seq<bytes>>)
    requires aof.Valid() && databases > 0 && forall d :: 0 <= d < databases ==> d in dbs && WellFormed(dbs[d])
    modifies aof
    ensures aof.Valid() && aof.file == LogBytes(cmds) && aof.buffer == old(aof.buffer)
    ensures aof.records == cmds + old(aof.records[aof.flushed..])
    ensures RestoresAll(dbs, databases, now, cmds, databases)
  {
    hide WellFormed, RestoresAll, Recovers, ReadInChunks;
    var file;
    file, cmds := Rewrite(dbs, databases, now);
    aof.ReplaceFile(file, cmds);
  }

  function Recovered(databases: nat, log: seq<seq<bytes>>, t: int): Replay {
    ReplayAll(Replay(FreshDbs(databases), 0, false), Records(log), t)
  }

  /**
    * Whatever is logged later, recovery from the continued log makes of it what its replay on the databases goal
    * makes.
    */
  ghost predicate Continues(goal: map<int, KS>, databases: nat, log: seq<seq<bytes>>, t: int) {
    forall later: seq<seq<bytes>> :: ContinuesWith(goal, databases, log, later, t)
  }

  ghost predicate ContinuesWith(goal: map<int, KS>, databases: nat, log: seq<seq<bytes>>, later: seq<seq<bytes>>,
                                t: int) {
    Alike(Recovered(databases, log + later, t).dbs, ReplayAll(Replay(goal, 0, false), Records(later), t).dbs, t)
  }

  /**
    * What the rewritten commands rebuild at time t: neither hollow entries nor entries that were due then or are now.
    */
  function Rewritten(dbs: map<int, KS>, now: int, t: int): map<int, KS> {
    map d | d in dbs :: dbs[d].(entries := Live(dbs[d], now, t))
  }

  /** The commands that were in the buffer, run once more on that, in the database that the file selects last. */
  function PendingAgain(dbs: map<int, KS>, databases: nat, now: int, pending: seq<seq<bytes>>, t: int): Replay {
    ReplayAll(Replay(Rewritten(dbs, now, t), LastStored(dbs, databases), false), Records(pending), t)
  }

  ghost predicate Numbered(dbs: map<int, KS>, databases: nat) {
    databases > 0 && forall d :: d in dbs <==> 0 <= d < databases
  }

  lemma RecordsAppend(a: seq<seq<bytes>>, b: seq<seq<bytes>>, r: Replay, t: int)
    ensures ReplayAll(r, Records(a + b), t) == ReplayAll(ReplayAll(r, Records(a), t), Records(b), t)
  {
    hide ReplayAll;
    assert Records(a + b) == Records(a) + Records(b);
    ReplayAllAppend(r, Records(a), Records(b), t);
  }

  lemma RewrittenIs(dbs: map<int, KS>, databases: nat, now: int, cmds: seq<seq<bytes>>, t: int)
    requires Numbered(dbs, databases) && RestoresAll(dbs, databases, now, cmds, databases)
    ensures SameReplay(Recovered(databases, cmds, t),
                       Replay(Rewritten(dbs, now, t), LastStored(dbs, databases), false), t)
  {
    hide ReplayAll, Live, FreshDbs;
    var r := Recovered(databases, cmds, t);
    assert Rebuilt(dbs, databases, now, t, r, databases);
    assert forall d :: d in r.dbs.Keys <==> d in Rewritten(dbs, now, t).Keys;
  }

  lemma AfterPending(dbs: map<int, KS>, databases: nat, now: int, cmds: seq<seq<bytes>>, pending: seq<seq<bytes>>,
                     later: seq<seq<bytes>>, t: int)
    requires Numbered(dbs, databases) && RestoresAll(dbs, databases, now, cmds, databases)
    ensures SameReplay(Recovered(databases, cmds + pending + later, t),
                       ReplayAll(PendingAgain(dbs, databases, now, pending, t), Records(later), t), t)
  {
    hide ReplayAll, SameReplay, RestoresAll, Rewritten, Records, LastStored;
    RewrittenIs(dbs, databases, now, cmds, t);
    var empty := Replay(FreshDbs(databases), 0, false);
    var start := Replay(Rewritten(dbs, now, t), LastStored(dbs, databases), false);
    RecordsAppend(cmds + pending, later, empty, t);
    RecordsAppend(cmds, pending, empty, t);
    SameAll(Recovered(databases, cmds, t), start, Records(pending), t);
    SameAll(Recovered(databases, cmds + pending, t), PendingAgain(dbs, databases, now, pending, t), Records(later), t);
  }

  /**
    * The exact condition of a rewrite in place, for any databases, hollow and due entries included: recovery from the
    * continued log goes on from the state goal, whatever is logged later, exactly when what the rewritten commands
    * rebuild, with the commands of the buffer run once more, has the live entries of goal and database 0 selected.
    */
  lemma ContinuedLog(dbs: map<int, KS>, databases: nat, now: int, cmds: seq<seq<bytes>>, pending: seq<seq<bytes>>,
                     goal: map<int, KS>, t: int)
    requires Numbered(dbs, databases) && RestoresAll(dbs, databases, now, cmds, databases) && 0 in goal
    ensures Continues(goal, databases, cmds + pending, t) <==>
            SameReplay(PendingAgain(dbs, databases, now, pending, t), Replay(goal, 0, false), t)
  {
    hide RestoresAll, PendingAgain, ReplayAll, Recovered, Alike, Records;
    var r, zero, log := PendingAgain(dbs, databases, now, pending, t), Replay(goal, 0, false), cmds + pending;
    if SameReplay(r, zero, t) {
      forall later: seq<seq<bytes>>
        ensures ContinuesWith(goal, databases, log, later, t)
      {
        AfterPending(dbs, databases, now, cmds, pending, later, t);
        SameAll(r, zero, Records(later), t);
        AlikeTrans(Recovered(databases, log + later, t).dbs, ReplayAll(r, Records(later), t).dbs,
                   ReplayAll(zero, Records(later), t).dbs, t);
      }
    }
    if Continues(goal, databases, log, t) {
      AfterPending(dbs, databases, now, cmds, pending, [], t);
      assert ContinuesWith(goal, databases, log, [], t);
      NothingLater(r, t);
      NothingLater(zero, t);
      AlikeTrans(r.dbs, Recovered(databases, log + [], t).dbs, goal, t);
      if r.aborted || r.current != 0 {
        var probe := Probe(goal[0]);
        AfterPending(dbs, databases, now, cmds, pending, [probe], t);
        assert ContinuesWith(goal, databases, log, [probe], t);
        AlikeTrans(ReplayAll(r, Records([probe]), t).dbs, Recovered(databases, log + [probe], t).dbs,
                   ReplayAll(zero, Records([probe]), t).dbs, t);
        ProbeTells(r, goal, t);
      }
    }
  }

  lemma NothingLater(r: Replay, t: int)
    ensures ReplayAll(r, Records([]), t) == r
  {
  }

  lemma AlikeTrans(a: map<int, KS>, b: map<int, KS>, c: map<int, KS>, t: int)
    requires (Alike(a, b, t) || Alike(b, a, t)) && Alike(b, c, t)
    ensures Alike(a, c, t)
  {
    assert forall d :: d in a <==> d in b.Keys;
    assert forall d :: d in b <==> d in c.Keys;
    forall d | d in a && d in c
      ensures SameLive(a[d], c[d], t)
    {
      assert forall k :: GetEntry(a[d], k, t) == GetEntry(b[d], k, t) && GetEntry(b[d], k, t) == GetEntry(c[d], k, t);
    }
  }

  /** A SET that changes the live entries of this keyspace. */
  function Probe(ks: KS): seq<bytes> {
    [Ascii("SET"), [], if Stored(ks, []) == Some(Entry(StringData([0]), None)) then [1] else [0]]
  }

  /** It reaches database 0 only when that is selected. */
  lemma ProbeTells(r: Replay, dbs: map<int, KS>, t: int)
    requires 0 in dbs && Alike(r.dbs, dbs, t) && (r.aborted || r.current != 0)
    ensures var probe := Records([Probe(dbs[0])]);
            !Alike(ReplayAll(r, probe, t).dbs, ReplayAll(Replay(dbs, 0, false), probe, t).dbs, t)
  {
    hide Execute, KindOf, ReplayAll, ReplayOne, Probe, Alike, GetEntry;
    var probe := Probe(dbs[0]);
    AlikeAt(r.dbs, dbs, 0, t);
    ProbeIsSet(dbs[0]);
    var op := Op(SetKind, probe[1..]);
    ReplaySingle(r, probe, t);
    ReplaySingle(Replay(dbs, 0, false), probe, t);
    TokensReplay(Replay(dbs, 0, false), op, t);
    ProbeStores(dbs[0], t);
    if !r.aborted {
      ProbeElsewhere(r, dbs[0], t);
    }
    var x, y := ReplayAll(r, Records([probe]), t).dbs, ReplayAll(Replay(dbs, 0, false), Records([probe]), t).dbs;
    if Alike(x, y, t) {
      AlikeAt(x, y, 0, t);
    }
  }

  lemma ProbeIsSet(ks: KS)
    ensures Probe(ks) != [] && Probe(ks) == Tokens(Op(SetKind, Probe(ks)[1..]))
  {
  }

  lemma AlikeAt(a: map<int, KS>, b: map<int, KS>, d: int, t: int)
    requires Alike(a, b, t) && d in b
    ensures d in a && SameLive(a[d], b[d], t)
  {
    hide SameLive;
    assert d in b.Keys;
  }

  lemma ReplaySingle(r: Replay, cmd: seq<bytes>, t: int)
    ensures ReplayAll(r, Records([cmd]), t) == if r.aborted then r else ReplayOne(r, Array(Bulks(cmd)), t)
  {
    hide ReplayOne;
    var vs := Records([cmd]);
    assert vs[1..] == [];
  }

  lemma ProbeStores(ks: KS, t: int)
    ensures GetEntry(Execute(SetKind, Probe(ks)[1..], ks, t).0, [], t) != GetEntry(ks, [], t)
  {
    var args := Probe(ks)[1..];
    assert args[2..] == [];
    assert RunSet(ks, args, t).0.entries[[]] == Entry(StringData(args[1]), None);
  }

  lemma ProbeElsewhere(r: Replay, ks: KS, t: int)
    requires !r.aborted && r.current != 0 && 0 in r.dbs
    ensures var dbs := ReplayOne(r, Array(Bulks(Probe(ks))), t).dbs; 0 in dbs && dbs[0] == r.dbs[0]
  {
    hide Execute, KindOf;
    NamesAreFound(SetKind);
    NamesOfSix();
    var items := Bulks(Probe(ks));
    assert items[0] == Bulk(NameOf(SetKind));
  }

  // ---------------------------------------------------------------------------------------------
  // With an empty buffer
  // ---------------------------------------------------------------------------------------------

  /** Every live entry was written: it is not hollow, and it was not due at the rewrite. */
  ghost predicate AllWritten(ks: KS, now: int, t: int) {
    forall k :: k in ks.entries && !Expired(ks.entries[k], t) ==> Kept(ks.entries[k], now, t)
  }

  lemma WrittenIsSame(ks: KS, now: int, t: int)
    ensures SameLive(ks.(entries := Live(ks, now, t)), ks, t) <==> AllWritten(ks, now, t)
  {
    var live := ks.(entries := Live(ks, now, t));
    if SameLive(live, ks, t) {
      forall k | k in ks.entries && !Expired(ks.entries[k], t)
        ensures Kept(ks.entries[k], now, t)
      {
        assert GetEntry(live, k, t) == GetEntry(ks, k, t);
      }
    }
  }

  /**
    * Recovery goes on from the rewritten state itself exactly when no live entry was left out and only database 0
    * stores anything.
    */
  lemma EmptyBufferContinues(dbs: map<int, KS>, databases: nat, now: int, cmds: seq<seq<bytes>>, t: int)
    requires Numbered(dbs, databases) && RestoresAll(dbs, databases, now, cmds, databases)
    ensures Continues(dbs, databases, cmds, t) <==>
            && (forall d :: d in dbs ==> AllWritten(dbs[d], now, t))
            && (forall d :: 0 < d < databases ==> dbs[d].entries == map[])
  {
    hide RestoresAll, Continues, ReplayAll, AllWritten, Live, SameLive;
    ContinuedLog(dbs, databases, now, cmds, [], dbs, t);
    assert cmds + [] == cmds;
    var written := Rewritten(dbs, now, t);
    NothingLater(Replay(written, LastStored(dbs, databases), false), t);
    LastStoredIsFirst(dbs, databases);
    assert written.Keys == dbs.Keys;
    forall d | d in dbs
      ensures SameLive(written[d], dbs[d], t) <==> AllWritten(dbs[d], now, t)
    {
      WrittenIsSame(dbs[d], now, t);
    }
  }

  lemma {:induction false} LastStoredIsFirst(dbs: map<int, KS>, n: nat)
    requires forall d :: 0 <= d < n ==> d in dbs
    ensures LastStored(dbs, n) == 0 <==> forall d :: 0 < d < n ==> dbs[d].entries == map[]
  {
    if n > 0 {
      LastStoredIsFirst(dbs, n - 1);
    }
  }

  /**
    * An APPEND that was still in the buffer is the plainest failure: it is in the rewritten text, and appended again.
    */
  lemma PendingAppendDoubles(dbs: map<int, KS>, databases: nat, now: int, cmds: seq<seq<bytes>>, key: bytes,
                             text: bytes, more: bytes, t: int)
    requires Numbered(dbs, databases) && RestoresAll(dbs, databases, now, cmds, databases) &&
             LastStored(dbs, databases) == 0
    requires Stored(dbs[0], key) == Some(Entry(StringData(text), None)) && more != []
    ensures !Continues(dbs, databases, cmds + [[Ascii("APPEND"), key, more]], t)
  {
    hide RestoresAll, Continues, ReplayAll, Alike, FreshDbs, Live;
    var cmd := [Ascii("APPEND"), key, more];
    ContinuedLog(dbs, databases, now, cmds, [cmd], dbs, t);
    var written := Rewritten(dbs, now, t);
    ReplaySingle(Replay(written, 0, false), cmd, t);
    AppendReplays(Replay(written, 0, false), key, more, t);
    StringIsWritten(dbs[0], key, text, now, t);
    AppendLengthens(written[0], key, text, more, t);
    var r := PendingAgain(dbs, databases, now, [cmd], t);
    if Alike(r.dbs, dbs, t) {
      AlikeAt(r.dbs, dbs, 0, t);
    }
  }

  lemma StringIsWritten(ks: KS, key: bytes, text: bytes, now: int, t: int)
    requires Stored(ks, key) == Some(Entry(StringData(text), None))
    ensures Stored(ks.(entries := Live(ks, now, t)), key) == Some(Entry(StringData(text), None))
  {
  }

  lemma AppendReplays(r: Replay, key: bytes, more: bytes, t: int)
    requires !r.aborted && r.current in r.dbs
    ensures ReplayOne(r, Array(Bulks([Ascii("APPEND"), key, more])), t)
         == r.(dbs := r.dbs[r.current := Execute(AppendKind, [key, more], r.dbs[r.current], t).0])
  {
    hide Execute, KindOf;
    UpperName("APPEND");
    NamesOfSix();
    var items := Bulks([Ascii("APPEND"), key, more]);
    assert items[0] == Bulk(Ascii("APPEND")) && items[1..] == Bulks([key, more]);
    assert ArgsOf(items[1..]) == [key, more];
  }

  lemma AppendLengthens(ks: KS, key: bytes, text: bytes, more: bytes, t: int)
    requires Stored(ks, key) == Some(Entry(StringData(text), None)) && more != []
    ensures GetEntry(Execute(AppendKind, [key, more], ks, t).0, key, t) != Some(Entry(StringData(text), None))
  {
    hide KindOf;
    assert |text + more| > |text|;
    assert RunAppend(ks, [key, more], t).0.entries[key] == Entry(StringData(text + more), None);
  }

  // ---------------------------------------------------------------------------------------------
  // A server that goes on
  // ---------------------------------------------------------------------------------------------

  predicate AllPlain(events: seq<Event>) {
    forall i :: 0 <= i < |events| ==> PlainEvent(events[i])
  }

  /** After more events, recovery from the continued log gives the live entries of the server's keyspaces. */
  ghost predicate GoesOn(s: Server, cmds: seq<seq<bytes>>, more: seq<Event>, t: int)
    requires ServerOk(s)
  {
    var s' := AfterEvents(s, more);
    && s.sh.log <= s'.sh.log
    && Alike(Recovered(s.sh.databases, cmds + s'.sh.log[|s.sh.log|..], t).dbs, s'.sh.dbs, t)
  }

  ghost predicate NoneHollow(ks: KS) {
    forall k :: k in ks.entries ==> !Hollow(ks.entries[k].data)
  }

  /**
    * A server on database 0 and without expiries, rewritten in place at any moment with an empty buffer, goes on as it
    * should whatever follows exactly when it holds no empty container then.
    */
  lemma RewriteWhileRunning(databases: nat, events: seq<Event>, now: int, cmds: seq<seq<bytes>>, t: int)
    requires databases > 0 && AllPlain(events)
    requires RestoresAll(AfterEvents(Started(databases), events).sh.dbs, databases, now, cmds, databases)
    ensures var s := AfterEvents(Started(databases), events);
            0 in s.sh.dbs &&
            ((forall more: seq<Event> :: AllPlain(more) ==> GoesOn(s, cmds, more, t)) <==> NoneHollow(s.sh.dbs[0]))
  {
    hide AfterEvents, RestoresAll, ServerRecorded, AllPlain, GoesOn, NoneHollow, FreshDbs;
    StartedOk(databases);
    StartedRecorded(databases, t);
    var s := AfterEvents(Started(databases), events);
    PlainRecorded(Started(databases), events, t);
    StaysAt(databases, events);
    assert forall d :: d in s.sh.dbs <==> d in FreshDbs(databases).Keys;
    if NoneHollow(s.sh.dbs[0]) {
      forall more: seq<Event> | AllPlain(more)
        ensures GoesOn(s, cmds, more, t)
      {
        PlainGoesOn(s, now, cmds, more, t);
      }
    } else {
      HollowIsLost(s, now, cmds, t);
    }
  }

  lemma PlainRecorded(s: Server, events: seq<Event>, t: int)
    requires ServerRecorded(s, t) && AllPlain(events)
    ensures ServerRecorded(AfterEvents(s, events), t)
  {
    hide ServerRecorded, AfterEvents;
    AfterRecorded(s, events, t);
  }

  /** Such a server stores only into database 0, and nothing in it is ever due. */
  lemma PlainWritten(s: Server, now: int, t: int)
    requires ServerRecorded(s, t) && Numbered(s.sh.dbs, s.sh.databases)
    ensures LastStored(s.sh.dbs, s.sh.databases) == 0
    ensures (forall d :: d in s.sh.dbs ==> AllWritten(s.sh.dbs[d], now, t)) <==> NoneHollow(s.sh.dbs[0])
  {
    hide ReplayAll;
    LastStoredIsFirst(s.sh.dbs, s.sh.databases);
    assert PlainDbs(s.sh.dbs);
    if NoneHollow(s.sh.dbs[0]) {
      forall d | d in s.sh.dbs
        ensures AllWritten(s.sh.dbs[d], now, t)
      {
      }
    } else {
      assert !AllWritten(s.sh.dbs[0], now, t);
    }
  }

  lemma PlainGoesOn(s: Server, now: int, cmds: seq<seq<bytes>>, more: seq<Event>, t: int)
    requires ServerRecorded(s, t) && Numbered(s.sh.dbs, s.sh.databases) && AllPlain(more)
    requires RestoresAll(s.sh.dbs, s.sh.databases, now, cmds, s.sh.databases) && NoneHollow(s.sh.dbs[0])
    ensures GoesOn(s, cmds, more, t)
  {
    hide AfterEvents, RestoresAll, ReplayAll, ServerOk, Recorded, AllPlain, NoneHollow, Alike, AllWritten;
    PlainWritten(s, now, t);
    EmptyBufferContinues(s.sh.dbs, s.sh.databases, now, cmds, t);
    LastStoredIsFirst(s.sh.dbs, s.sh.databases);
    PlainRecorded(s, more, t);
    AfterAdvances(s, more);
    var s' := AfterEvents(s, more);
    LaterReplays(s.sh, s'.sh, t);
    assert ContinuesWith(s.sh.dbs, s.sh.databases, cmds, s'.sh.log[|s.sh.log|..], t);
  }

  /** An empty container is missing from the start. */
  lemma HollowIsLost(s: Server, now: int, cmds: seq<seq<bytes>>, t: int)
    requires ServerRecorded(s, t) && Numbered(s.sh.dbs, s.sh.databases)
    requires RestoresAll(s.sh.dbs, s.sh.databases, now, cmds, s.sh.databases) && !NoneHollow(s.sh.dbs[0])
    ensures AllPlain([]) && !GoesOn(s, cmds, [], t)
  {
    hide RestoresAll, ReplayAll, ServerOk, Recorded, NoneHollow, Alike, AllWritten, LastStored;
    PlainWritten(s, now, t);
    assert s.sh.log[|s.sh.log|..] == [] && cmds + [] == cmds;
    RewrittenIs(s.sh.dbs, s.sh.databases, now, cmds, t);
    if GoesOn(s, cmds, [], t) {
      var written := Rewritten(s.sh.dbs, now, t);
      AlikeTrans(written, Recovered(s.sh.databases, cmds, t).dbs, s.sh.dbs, t);
      forall d | d in s.sh.dbs
        ensures AllWritten(s.sh.dbs[d], now, t)
      {
        AlikeAt(written, s.sh.dbs, d, t);
        WrittenIsSame(s.sh.dbs[d], now, t);
      }
    }
  }

  lemma LaterReplays(sh: Shared, sh': Shared, t: int)
    requires Recorded(sh, t) && Recorded(sh', t) && sh.log <= sh'.log && sh.databases == sh'.databases
    ensures ReplayAll(Replay(sh.dbs, 0, false), Records(sh'.log[|sh.log|..]), t) == Replay(sh'.dbs, 0, false)
  {
    hide ReplayAll, Recorded;
    var later := sh'.log[|sh.log|..];
    assert sh'.log == sh.log + later;
    RecordedAt(sh, t);
    RecordedAt(sh', t);
    RecordsAppend(sh.log, later, Fresh(sh.databases), t);
  }

  lemma RecordedAt(sh: Shared, t: int)
    requires Recorded(sh, t)
    ensures ReplayAll(Fresh(sh.databases), Records(sh.log), t) == Replay(sh.dbs, 0, false)
  {
    hide ReplayAll;
  }
}
