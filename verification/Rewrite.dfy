// The rewritten log of persistence/aof.py: commands that rebuild the live entries of every database.

module LogRewrite {
  import opened Basics
  import opened Bytes
  import opened Resp
  import opened Encoders
  import opened Keyspaces
  import opened Commands
  import opened Transactions
  import opened AppendOnlyLog
  import opened Recovery
  import SortedSetStores
  import SkipLists

  // ---------------------------------------------------------------------------------------------
  // What is to be rebuilt
  // ---------------------------------------------------------------------------------------------

  /** A container without elements: no command rebuilds it. */
  predicate Hollow(d: Data) {
    match d
    case StringData(_) => false
    case HashData(fields) => fields == map[]
    case ListData(items) => items == []
    case SetData(members) => members == {}
    case ZSetData(scores) => scores == map[]
  }

  predicate Kept(e: Entry, now: int, t: int) {
    !Expired(e, now) && !Expired(e, t) && !Hollow(e.data)
  }

  /** The entries of a keyspace that are not hollow, and alive both when it is rewritten and when it is recovered. */
  function Live(ks: KS, now: int, t: int): map<bytes, Entry> {
    Solid(Alive(ks, now, t))
  }

  function Solid(entries: map<bytes, Entry>): map<bytes, Entry> {
    map k | k in entries && !Hollow(entries[k].data) :: entries[k]
  }

  /** Nothing but due entries and empty containers is left out. */
  lemma LiveMeans(ks: KS, now: int, t: int, k: bytes)
    ensures k in Live(ks, now, t) <==>
            && k in ks.entries
            && (ks.entries[k].expireAt == None ||
                (now < ks.entries[k].expireAt.value && t < ks.entries[k].expireAt.value))
            && ks.entries[k].data !in {HashData(map[]), ListData([]), SetData({}), ZSetData(map[])}
    ensures k in Live(ks, now, t) ==> Live(ks, now, t)[k] == ks.entries[k]
  {
  }

  // ---------------------------------------------------------------------------------------------
  // Commands as the rewrite emits them
  // ---------------------------------------------------------------------------------------------

  datatype Op = Op(kind: Kind, args: seq<bytes>)

  predicate IsRewriteKind(kind: Kind) {
    kind in {SetKind, HSetKind, RPushKind, SAddKind, ZAddKind, PExpireAtKind}
  }

  function NameOf(kind: Kind): bytes
    requires IsRewriteKind(kind)
  {
    match kind
    case SetKind => Ascii("SET")
    case HSetKind => Ascii("HSET")
    case RPushKind => Ascii("RPUSH")
    case SAddKind => Ascii("SADD")
    case ZAddKind => Ascii("ZADD")
    case PExpireAtKind => Ascii("PEXPIREAT")
  }

  function Tokens(op: Op): seq<bytes>
    requires IsRewriteKind(op.kind)
  {
    [NameOf(op.kind)] + op.args
  }

  predicate AllRewrite(ops: seq<Op>) {
    forall i :: 0 <= i < |ops| ==> IsRewriteKind(ops[i].kind)
  }

  function AllTokens(ops: seq<Op>): (ts: seq<seq<bytes>>)
    requires AllRewrite(ops)
    ensures |ts| == |ops| && forall i :: 0 <= i < |ops| ==> ts[i] == Tokens(ops[i])
  {
    seq(|ops|, i requires 0 <= i < |ops| => Tokens(ops[i]))
  }

  lemma NamesAreFound(kind: Kind)
    requires IsRewriteKind(kind)
    ensures KindOf(Upper(NameOf(kind))) == Some(kind)
  {
    hide KindOf;
    NamesOfThree();
    NamesOfFour();
    MoreNamesOfFour();
    NamesOfFive();
    LongNames();
    UpperName("SET");
    UpperName("HSET");
    UpperName("RPUSH");
    UpperName("SADD");
    UpperName("ZADD");
    UpperName("PEXPIREAT");
  }

  /** Executing the commands one after the other on one keyspace. */
  function Performed(ks: KS, ops: seq<Op>, t: int): KS
    requires AllRewrite(ops)
    decreases |ops|
  {
    if ops == [] then ks
    else
      assert IsRewriteKind(ops[0].kind);
      Performed(Execute(ops[0].kind, ops[0].args, ks, t).0, ops[1..], t)
  }

  lemma {:induction false} PerformedAppend(ks: KS, ops: seq<Op>, more: seq<Op>, t: int)
    requires AllRewrite(ops) && AllRewrite(more)
    ensures AllRewrite(ops + more) && Performed(ks, ops + more, t) == Performed(Performed(ks, ops, t), more, t)
    decreases |ops|
  {
    hide Execute;
    if ops == [] {
      assert ops + more == more;
    } else {
      assert (ops + more)[1..] == ops[1..] + more;
      PerformedAppend(Execute(ops[0].kind, ops[0].args, ks, t).0, ops[1..], more, t);
    }
  }

  /** Replaying the records of the commands performs them on the selected database. */
  lemma {:induction false} ReplayPerforms(r: Replay, ops: seq<Op>, t: int)
    requires AllRewrite(ops) && !r.aborted && r.current in r.dbs
    ensures ReplayAll(r, Records(AllTokens(ops)), t) ==
              r.(dbs := r.dbs[r.current := Performed(r.dbs[r.current], ops, t)])
    decreases |ops|
  {
    hide Execute, KindOf, ReplayOne;
    var vs := Records(AllTokens(ops));
    if ops == [] {
      assert r.dbs[r.current := r.dbs[r.current]] == r.dbs;
    } else {
      var op := ops[0];
      NamesAreFound(op.kind);
      TokensReplay(r, op, t);
      assert vs[1..] == Records(AllTokens(ops[1..]));
      ReplayPerforms(ReplayOne(r, vs[0], t), ops[1..], t);
    }
  }

  lemma TokensReplay(r: Replay, op: Op, t: int)
    requires IsRewriteKind(op.kind) && !r.aborted && r.current in r.dbs
    ensures ReplayOne(r, Array(Bulks(Tokens(op))), t)
         == r.(dbs := r.dbs[r.current := Execute(op.kind, op.args, r.dbs[r.current], t).0])
  {
    hide Execute, KindOf, NameOf;
    NamesAreFound(op.kind);
    NamesOfSix();
    var items := Bulks(Tokens(op));
    assert items[1..] == Bulks(op.args);
    assert ArgsOf(items[1..]) == op.args;
  }

  // ---------------------------------------------------------------------------------------------
  // One entry
  // ---------------------------------------------------------------------------------------------

  /** On a keyspace without the key, the commands put this data there, without expiry, and nothing else. */
  ghost predicate Builds(key: bytes, ops: seq<Op>, data: Option<Data>) {
    && AllRewrite(ops)
    && forall ks: KS, t: int :: key !in ks.entries ==>
         Performed(ks, ops, t).entries == if data.Some? then ks.entries[key := Entry(data.value, None)] else ks.entries
  }

  /** What one more command must do for Builds to go on. */
  ghost predicate Extends(key: bytes, op: Op, before: Option<Data>, after: Data) {
    && IsRewriteKind(op.kind)
    && forall ks: KS, t: int :: Stored(ks, key) == (if before.Some? then Some(Entry(before.value, None)) else None) ==>
         Execute(op.kind, op.args, ks, t).0.entries == ks.entries[key := Entry(after, None)]
  }

  lemma BuildsMore(key: bytes, ops: seq<Op>, before: Option<Data>, op: Op, after: Data)
    requires Builds(key, ops, before) && Extends(key, op, before, after)
    ensures Builds(key, ops + [op], Some(after))
  {
    hide Execute;
    forall ks: KS, t: int | key !in ks.entries
      ensures Performed(ks, ops + [op], t).entries == ks.entries[key := Entry(after, None)]
    {
      PerformedAppend(ks, ops, [op], t);
      var mid := Performed(ks, ops, t);
      assert [op][1..] == [];
      assert Performed(mid, [op], t) == Execute(op.kind, op.args, mid, t).0;
      assert ks.entries[key := Entry(after, None)] == mid.entries[key := Entry(after, None)];
    }
  }

  lemma BuildsNothing(key: bytes)
    ensures Builds(key, [], None)
  {
  }

  /** What a command that needs a container finds, or makes. */
  lemma UpsertFinds(ks: KS, key: bytes, initial: Data, before: Option<Data>, t: int)
    requires Stored(ks, key) == if before.Some? then Some(Entry(before.value, None)) else None
    requires before.Some? ==> TypeOf(before.value) == TypeOf(initial)
    ensures var up := Upsert(ks, key, initial, TypeOf(initial), t);
            var data := if before.Some? then before.value else initial;
            up.Some? && up.value.entries == ks.entries[key := Entry(data, None)]
  {
  }

  /** And what it leaves when it has changed it. */
  lemma MutatedTo(ks: KS, ks1: KS, key: bytes, data: Data, data': Data)
    requires ks1.entries == ks.entries[key := Entry(data, None)]
    ensures Mutated(ks1, key, data').entries == ks.entries[key := Entry(data', None)]
  {
  }

  lemma PushExtends(key: bytes, items: seq<bytes>, x: bytes)
    ensures Extends(key, Op(RPushKind, [key, x]),
                    if items == [] then None else Some(ListData(items)), ListData(items + [x]))
  {
    hide Upsert, Mutated;
    assert [key, x][1..] == [x];
    var before := if items == [] then None else Some(ListData(items));
    forall ks: KS, t: int | Stored(ks, key) == if before.Some? then Some(Entry(before.value, None)) else None
      ensures Execute(RPushKind, [key, x], ks, t).0.entries == ks.entries[key := Entry(ListData(items + [x]), None)]
    {
      UpsertFinds(ks, key, ListData([]), before, t);
      MutatedTo(ks, Upsert(ks, key, ListData([]), ListType, t).value, key, ListData(items), ListData(items + [x]));
    }
  }

  lemma SAddExtends(key: bytes, members: set<bytes>, m: bytes)
    ensures Extends(key, Op(SAddKind, [key, m]),
                    if members == {} then None else Some(SetData(members)), SetData(members + {m}))
  {
    hide Upsert, Mutated;
    assert [key, m][1..] == [m];
    assert (set x | x in [m]) == {m};
    var before := if members == {} then None else Some(SetData(members));
    forall ks: KS, t: int | Stored(ks, key) == if before.Some? then Some(Entry(before.value, None)) else None
      ensures Execute(SAddKind, [key, m], ks, t).0.entries == ks.entries[key := Entry(SetData(members + {m}), None)]
    {
      assert (set x | x in [key, m][1..]) == {m};
      UpsertFinds(ks, key, SetData({}), before, t);
      MutatedTo(ks, Upsert(ks, key, SetData({}), SetType, t).value, key, SetData(members), SetData(members + {m}));
    }
  }

  lemma HSetExtends(key: bytes, fields: map<bytes, bytes>, f: bytes, v: bytes)
    ensures Extends(key, Op(HSetKind, [key, f, v]),
                    if fields == map[] then None else Some(HashData(fields)), HashData(fields[f := v]))
  {
    hide Upsert, Mutated, WithFields;
    assert [key, f, v][1..] == [f, v];
    OneField(fields, f, v);
    var before := if fields == map[] then None else Some(HashData(fields));
    forall ks: KS, t: int | Stored(ks, key) == if before.Some? then Some(Entry(before.value, None)) else None
      ensures Execute(HSetKind, [key, f, v], ks, t).0.entries ==
                ks.entries[key := Entry(HashData(fields[f := v]), None)]
    {
      UpsertFinds(ks, key, HashData(map[]), before, t);
      MutatedTo(ks, Upsert(ks, key, HashData(map[]), HashType, t).value, key, HashData(fields),
                HashData(fields[f := v]));
    }
  }

  lemma OneField(fields: map<bytes, bytes>, f: bytes, v: bytes)
    ensures WithFields(fields, [f, v]) == fields[f := v]
  {
    assert [f, v][2..] == [];
  }

  /** A printed score starts with a digit or a minus: it is none of ZADD's flags. */
  lemma ScoreIsNoFlag(score: int, member: bytes)
    ensures ParseZFlags([ScoreText(score), member], false, false, false) ==
              ZFlags(false, false, false, [ScoreText(score), member])
  {
    var text := ScoreText(score);
    assert Decimal(score)[0] == MINUS || IsDigit(Decimal(score)[0]);
    assert text[0] == Decimal(score)[0] && Upper(text)[0] == text[0];
    assert Ascii("NX")[0] == 78 && Ascii("XX")[0] == 88 && Ascii("CH")[0] == 67;
  }

  lemma OnePair(score: int, member: bytes)
    ensures ParsePairs([ScoreText(score), member]) == Some([SkipLists.Pair(score, member)])
  {
    hide ScoreText, ParseScore;
    ParseScoreInvertsScoreText(score);
    var args := [ScoreText(score), member];
    assert args[2..] == [] && |args| % 2 == 0;
    assert ParsePairs(args[2..]) == Some([]);
    assert [SkipLists.Pair(score, args[1])] + [] == [SkipLists.Pair(score, member)];
  }

  lemma OneAdded(scores: map<bytes, int>, score: int, member: bytes)
    ensures SortedSetStores.AddedAll(scores, [SkipLists.Pair(score, member)], false, false) == scores[member := score]
  {
    var pairs := [SkipLists.Pair(score, member)];
    assert |pairs| == 1 && pairs[..|pairs| - 1] == [];
    assert SortedSetStores.AddedAll(scores, pairs[..|pairs| - 1], false, false) == scores;
    assert pairs[|pairs| - 1] == SkipLists.Pair(score, member);
  }

  lemma ZAddExtends(key: bytes, scores: map<bytes, int>, member: bytes, score: int)
    ensures Extends(key, Op(ZAddKind, [key, ScoreText(score), member]),
                    if scores == map[] then None else Some(ZSetData(scores)), ZSetData(scores[member := score]))
  {
    hide ParseZFlags, ParsePairs, ScoreText, Upsert, Mutated, SortedSetStores.AddedAll, SortedSetStores.ChangedCount;
    var args := [key, ScoreText(score), member];
    assert args[1..] == [ScoreText(score), member];
    ScoreIsNoFlag(score, member);
    OnePair(score, member);
    OneAdded(scores, score, member);
    var before := if scores == map[] then None else Some(ZSetData(scores));
    forall ks: KS, t: int | Stored(ks, key) == if before.Some? then Some(Entry(before.value, None)) else None
      ensures Execute(ZAddKind, args, ks, t).0.entries ==
                ks.entries[key := Entry(ZSetData(scores[member := score]), None)]
    {
      UpsertFinds(ks, key, ZSetData(map[]), before, t);
      MutatedTo(ks, Upsert(ks, key, ZSetData(map[]), ZSetType, t).value, key, ZSetData(scores),
                ZSetData(scores[member := score]));
    }
  }

  /** The commands rebuild the entry with its expiry; when that is due already at the replay, nothing is left of it. */
  ghost predicate Rebuilds(key: bytes, e: Entry, ops: seq<Op>) {
    && AllRewrite(ops)
    && forall ks: KS, t: int :: key !in ks.entries ==>
         Performed(ks, ops, t).entries == if Hollow(e.data) || Expired(e, t) then ks.entries else ks.entries[key := e]
  }

  lemma WithExpiry(key: bytes, e: Entry, ops: seq<Op>)
    requires Builds(key, ops, if Hollow(e.data) then None else Some(e.data))
    ensures e.expireAt.None? ==> Rebuilds(key, e, ops)
    ensures e.expireAt.Some? ==> Rebuilds(key, e, ops + [Op(PExpireAtKind, [key, Decimal(e.expireAt.value)])])
  {
    if e.expireAt.Some? {
      hide Execute, Decimal;
      var at := e.expireAt.value;
      var op := Op(PExpireAtKind, [key, Decimal(at)]);
      PerformedAppend(EMPTY, ops, [op], 0);
      forall ks: KS, t: int | key !in ks.entries
        ensures Performed(ks, ops + [op], t).entries ==
                if Hollow(e.data) || Expired(e, t) then ks.entries else ks.entries[key := e]
      {
        PerformedAppend(ks, ops, [op], t);
        var mid := Performed(ks, ops, t);
        assert [op][1..] == [];
        ExpiryRestored(mid, key, at, t);
        assert ks.entries[key := Entry(e.data, None)] - {key} == ks.entries;
      }
    }
  }

  lemma ExpiryRestored(ks: KS, key: bytes, at: int, t: int)
    requires key in ks.entries ==> ks.entries[key].expireAt == None
    ensures Execute(PExpireAtKind, [key, Decimal(at)], ks, t).0.entries ==
            if key !in ks.entries then ks.entries
            else if at <= t then ks.entries - {key}
            else ks.entries[key := ks.entries[key].(expireAt := Some(at))]
  {
    hide Decimal, ParseInt;
    ParseIntInvertsDecimal(at);
  }

  // ---------------------------------------------------------------------------------------------
  // The rewrite
  // ---------------------------------------------------------------------------------------------

  /** f.write of one encoded command. */
  method Write(file: bytes, ghost cmds: seq<seq<bytes>>, cmd: seq<bytes>) returns (file': bytes)
    requires file == LogBytes(cmds)
    ensures file' == LogBytes(cmds + [cmd])
  {
    LogBytesAppend(cmds, cmd);
    var data := EncodeCommand(cmd);
    file' := file + data;
  }

  /** The bytes written so far are those of what was written before and of the commands ops. */
  ghost predicate Wrote(file: bytes, before: seq<seq<bytes>>, ops: seq<Op>) {
    AllRewrite(ops) && file == LogBytes(before + AllTokens(ops))
  }

  method WriteOp(file: bytes, ghost before: seq<seq<bytes>>, ghost ops: seq<Op>, op: Op) returns (file': bytes)
    requires Wrote(file, before, ops) && IsRewriteKind(op.kind)
    ensures Wrote(file', before, ops + [op])
  {
    assert AllTokens(ops + [op]) == AllTokens(ops) + [Tokens(op)];
    assert before + AllTokens(ops + [op]) == (before + AllTokens(ops)) + [Tokens(op)];
    file' := Write(file, before + AllTokens(ops), Tokens(op));
  }

  method RewriteHash(start: bytes, ghost before: seq<seq<bytes>>, key: bytes, fields: map<bytes, bytes>)
    returns (file: bytes, ghost ops: seq<Op>)
    requires start == LogBytes(before)
    ensures Wrote(file, before, ops) && Builds(key, ops, if fields == map[] then None else Some(HashData(fields)))
  {
    hide Builds, Extends, Wrote;
    file, ops := start, [];
    StartsEmpty(start, before);
    BuildsNothing(key);
    var left, done := fields, map[];
    while left.Keys != {}
      invariant Wrote(file, before, ops) && Builds(key, ops, if done == map[] then None else Some(HashData(done)))
      invariant done + left == fields && done.Keys !! left.Keys
      decreases |left|
    {
      var f :| f in left.Keys;
      var op := Op(HSetKind, [key, f, left[f]]);
      file := WriteOp(file, before, ops, op);
      HSetExtends(key, done, f, left[f]);
      BuildsMore(key, ops, if done == map[] then None else Some(HashData(done)), op, HashData(done[f := left[f]]));
      ops := ops + [op];
      MoveOver(done, left, f);
      done, left := done[f := left[f]], left - {f};
    }
    assert done == fields;
  }

  lemma StartsEmpty(file: bytes, before: seq<seq<bytes>>)
    requires file == LogBytes(before)
    ensures Wrote(file, before, [])
  {
    assert before + AllTokens([]) == before;
  }

  method RewriteList(start: bytes, ghost before: seq<seq<bytes>>, key: bytes, items: seq<bytes>)
    returns (file: bytes, ghost ops: seq<Op>)
    requires start == LogBytes(before)
    ensures Wrote(file, before, ops) && Builds(key, ops, if items == [] then None else Some(ListData(items)))
  {
    hide Builds, Extends, Wrote;
    file, ops := start, [];
    StartsEmpty(start, before);
    BuildsNothing(key);
    for i := 0 to |items|
      invariant Wrote(file, before, ops)
      invariant Builds(key, ops, if items[..i] == [] then None else Some(ListData(items[..i])))
    {
      var op := Op(RPushKind, [key, items[i]]);
      file := WriteOp(file, before, ops, op);
      assert items[..i + 1] == items[..i] + [items[i]];
      PushExtends(key, items[..i], items[i]);
      BuildsMore(key, ops, if items[..i] == [] then None else Some(ListData(items[..i])), op, ListData(items[..i + 1]));
      ops := ops + [op];
    }
    assert items[..|items|] == items;
  }

  method RewriteSet(start: bytes, ghost before: seq<seq<bytes>>, key: bytes, members: set<bytes>)
    returns (file: bytes, ghost ops: seq<Op>)
    requires start == LogBytes(before)
    ensures Wrote(file, before, ops) && Builds(key, ops, if members == {} then None else Some(SetData(members)))
  {
    hide Builds, Extends, Wrote;
    file, ops := start, [];
    StartsEmpty(start, before);
    BuildsNothing(key);
    var left, done := members, {};
    while left != {}
      invariant Wrote(file, before, ops) && Builds(key, ops, if done == {} then None else Some(SetData(done)))
      invariant done + left == members
      decreases |left|
    {
      var m :| m in left;
      var op := Op(SAddKind, [key, m]);
      file := WriteOp(file, before, ops, op);
      SAddExtends(key, done, m);
      BuildsMore(key, ops, if done == {} then None else Some(SetData(done)), op, SetData(done + {m}));
      ops := ops + [op];
      assert m in done + {m} && (done + {m}) + (left - {m}) == done + left;
      done, left := done + {m}, left - {m};
    }
    assert done == members;
  }

  method RewriteZSet(start: bytes, ghost before: seq<seq<bytes>>, key: bytes, scores: map<bytes, int>)
    returns (file: bytes, ghost ops: seq<Op>)
    requires start == LogBytes(before)
    ensures Wrote(file, before, ops) && Builds(key, ops, if scores == map[] then None else Some(ZSetData(scores)))
  {
    hide Builds, Extends, Wrote, ScoreText;
    file, ops := start, [];
    StartsEmpty(start, before);
    BuildsNothing(key);
    var left, done := scores, map[];
    while left.Keys != {}
      invariant Wrote(file, before, ops) && Builds(key, ops, if done == map[] then None else Some(ZSetData(done)))
      invariant done + left == scores && done.Keys !! left.Keys
      decreases |left|
    {
      var m :| m in left.Keys;
      var op := Op(ZAddKind, [key, ScoreText(left[m]), m]);
      file := WriteOp(file, before, ops, op);
      ZAddExtends(key, done, m, left[m]);
      BuildsMore(key, ops, if done == map[] then None else Some(ZSetData(done)), op, ZSetData(done[m := left[m]]));
      ops := ops + [op];
      MoveOver(done, left, m);
      done, left := done[m := left[m]], left - {m};
    }
    assert done == scores;
  }

  method RewriteEntry(start: bytes, ghost before: seq<seq<bytes>>, key: bytes, e: Entry)
    returns (file: bytes, ghost ops: seq<Op>)
    requires start == LogBytes(before)
    ensures Wrote(file, before, ops) && Rebuilds(key, e, ops)
  {
    hide Builds, Rebuilds, Wrote;
    match e.data {
      case StringData(text) =>
        StartsEmpty(start, before);
        file := WriteOp(start, before, [], Op(SetKind, [key, text]));
        BuildsNothing(key);
        BuildsMore(key, [], None, Op(SetKind, [key, text]), e.data);
        ops := [] + [Op(SetKind, [key, text])];
      case HashData(fields) =>
        file, ops := RewriteHash(start, before, key, fields);
      case ListData(items) =>
        file, ops := RewriteList(start, before, key, items);
      case SetData(members) =>
        file, ops := RewriteSet(start, before, key, members);
      case ZSetData(scores) =>
        file, ops := RewriteZSet(start, before, key, scores);
    }
    WithExpiry(key, e, ops);
    if e.expireAt.Some? {
      var op := Op(PExpireAtKind, [key, Decimal(e.expireAt.value)]);
      file := WriteOp(file, before, ops, op);
      ops := ops + [op];
    }
  }

  // ---------------------------------------------------------------------------------------------
  // One keyspace, and all of them
  // ---------------------------------------------------------------------------------------------

  /** Performed on an empty keyspace, at any time t, the commands leave exactly these entries. */
  ghost predicate RestoresUpTo(ks: KS, n: nat, now: int, ops: seq<Op>) {
    && n <= |ks.order| && AllRewrite(ops)
    && forall t: int :: Performed(EMPTY, ops, t).entries == Solid(AliveUpTo(ks, n, now, t))
  }

  ghost predicate Restores(ks: KS, now: int, ops: seq<Op>) {
    && AllRewrite(ops)
    && forall t: int :: Performed(EMPTY, ops, t).entries == Live(ks, now, t)
  }

  lemma RestoresMore(ks: KS, now: int, ops: seq<Op>, n: nat, more: seq<Op>)
    requires WellFormed(ks) && n < |ks.order| && RestoresUpTo(ks, n, now, ops)
    requires var k := ks.order[n]; k in ks.entries && !Expired(ks.entries[k], now) && Rebuilds(k, ks.entries[k], more)
    ensures RestoresUpTo(ks, n + 1, now, ops + more)
  {
    hide Execute, Hollow, AliveUpTo, Solid;
    var k := ks.order[n];
    forall t: int
      ensures AllRewrite(ops + more)
      ensures Performed(EMPTY, ops + more, t).entries == Solid(AliveUpTo(ks, n + 1, now, t))
    {
      NextLive(ks, n, now, t);
      PerformedAppend(EMPTY, ops, more, t);
      var mid := Performed(EMPTY, ops, t);
      assert mid.entries == Solid(AliveUpTo(ks, n, now, t));
    }
    PerformedAppend(EMPTY, ops, more, 0);
  }

  lemma RestoresSame(ks: KS, now: int, ops: seq<Op>, n: nat)
    requires WellFormed(ks) && n < |ks.order| && RestoresUpTo(ks, n, now, ops)
    requires var k := ks.order[n]; k in ks.entries && Expired(ks.entries[k], now)
    ensures RestoresUpTo(ks, n + 1, now, ops)
  {
    hide AliveUpTo, Solid, Performed;
    forall t: int
      ensures Performed(EMPTY, ops, t).entries == Solid(AliveUpTo(ks, n + 1, now, t))
    {
      NextLive(ks, n, now, t);
    }
  }

  /** The next key in the insertion order, if it is to be rebuilt. */
  lemma NextLive(ks: KS, n: nat, now: int, t: int)
    requires WellFormed(ks) && n < |ks.order|
    ensures var k := ks.order[n];
            var live := Solid(AliveUpTo(ks, n, now, t));
            && k in ks.entries && k !in live
            && Solid(AliveUpTo(ks, n + 1, now, t)) ==
               if Kept(ks.entries[k], now, t) then live[k := ks.entries[k]] else live
  {
    hide WellFormed, AliveUpTo, Hollow;
    NextKey(ks, n, now, t);
  }

  lemma AllLive(ks: KS, now: int, ops: seq<Op>)
    requires WellFormed(ks) && RestoresUpTo(ks, |ks.order|, now, ops)
    ensures Restores(ks, now, ops)
  {
    hide Performed, Alive, AliveUpTo, Solid;
    forall t: int
      ensures Performed(EMPTY, ops, t).entries == Live(ks, now, t)
    {
      AllKeys(ks, now, t);
    }
  }

  method RewriteKeyspace(start: bytes, ghost before: seq<seq<bytes>>, ks: KS, now: int)
    returns (file: bytes, ghost ops: seq<Op>)
    requires start == LogBytes(before) && WellFormed(ks)
    ensures Wrote(file, before, ops) && Restores(ks, now, ops)
  {
    hide Rebuilds, RestoresUpTo, Restores, Wrote;
    file, ops := start, [];
    StartsEmpty(start, before);
    NothingYet(ks, now);
    for i := 0 to |ks.order|
      invariant Wrote(file, before, ops) && RestoresUpTo(ks, i, now, ops)
    {
      var key := ks.order[i];
      var e := ks.entries[key];
      if Expired(e, now) {
        RestoresSame(ks, now, ops, i);
        continue;
      }
      Unwrap(file, before, ops);
      ghost var more;
      file, more := RewriteEntry(file, before + AllTokens(ops), key, e);
      Combine(file, before, ops, more);
      RestoresMore(ks, now, ops, i, more);
      ops := ops + more;
    }
    AllLive(ks, now, ops);
  }

  lemma NothingYet(ks: KS, now: int)
    ensures RestoresUpTo(ks, 0, now, [])
  {
  }

  lemma Unwrap(file: bytes, before: seq<seq<bytes>>, ops: seq<Op>)
    requires Wrote(file, before, ops)
    ensures AllRewrite(ops) && file == LogBytes(before + AllTokens(ops))
  {
  }

  lemma Combine(file: bytes, before: seq<seq<bytes>>, ops: seq<Op>, more: seq<Op>)
    requires AllRewrite(ops) && Wrote(file, before + AllTokens(ops), more)
    ensures AllRewrite(ops + more) && Wrote(file, before, ops + more)
  {
    assert AllTokens(ops + more) == AllTokens(ops) + AllTokens(more);
    assert before + AllTokens(ops + more) == (before + AllTokens(ops)) + AllTokens(more);
  }

  /** A rewritten file, as the commands it holds, and what they rebuild whenever they are replayed. */
  ghost predicate RestoresAll(dbs: map<int, KS>, n: nat, now: int, cmds: seq<seq<bytes>>, databases: nat) {
    forall t: int ::
      var r := ReplayAll(Replay(FreshDbs(databases), 0, false), Records(cmds), t);
      Rebuilt(dbs, n, now, t, r, databases)
  }

  /** The last of the first n databases that stores anything: the one that the rewritten file selects last. */
  function LastStored(dbs: map<int, KS>, n: nat): (d: nat)
    ensures d <= n && (n > 0 ==> d < n)
  {
    if n == 0 then 0
    else if n - 1 in dbs && dbs[n - 1].entries != map[] then n - 1
    else LastStored(dbs, n - 1)
  }

  /** The first n databases hold their live entries again, and the others nothing. */
  ghost predicate Rebuilt(dbs: map<int, KS>, n: nat, now: int, t: int, r: Replay, databases: nat) {
    && !r.aborted && r.current == LastStored(dbs, n)
    && (forall d :: d in r.dbs <==> 0 <= d < databases)
    && (forall d :: n <= d < databases ==> r.dbs[d] == EMPTY)
    && (forall d :: 0 <= d < n && d < databases ==> d in dbs && r.dbs[d].entries == Live(dbs[d], now, t))
  }

  /** Replaying SELECT n and then the commands of one keyspace rebuilds database n. */
  lemma SelectAndRestore(r: Replay, n: int, ks: KS, now: int, ops: seq<Op>, t: int)
    requires !r.aborted && n in r.dbs && r.dbs[n] == EMPTY
    requires Restores(ks, now, ops)
    ensures var r' := ReplayAll(r, Records([[Ascii("SELECT"), Decimal(n)]] + AllTokens(ops)), t);
            && !r'.aborted && r'.current == n && r'.dbs.Keys == r.dbs.Keys
            && r'.dbs[n].entries == Live(ks, now, t)
            && (forall d :: d in r.dbs && d != n ==> r'.dbs[d] == r.dbs[d])
  {
    hide Execute, KindOf, Performed;
    var select := [Ascii("SELECT"), Decimal(n)];
    var cmds := [select] + AllTokens(ops);
    assert Records(cmds) == [Array(Bulks(select))] + Records(AllTokens(ops));
    assert Records(cmds)[1..] == Records(AllTokens(ops));
    SelectReplays(r, n, t);
    ReplayPerforms(r.(current := n), ops, t);
  }

  lemma SelectReplays(r: Replay, n: int, t: int)
    ensures ReplayOne(r, Array(Bulks([Ascii("SELECT"), Decimal(n)])), t) == r.(current := n)
  {
    hide KindOf, Decimal, ParseInt;
    UpperName("SELECT");
    ParseIntInvertsDecimal(n);
    var items := Bulks([Ascii("SELECT"), Decimal(n)]);
    assert items[0] == Bulk(Ascii("SELECT")) && items[1] == Bulk(Decimal(n));
  }

  lemma NextDatabase(dbs: map<int, KS>, n: nat, now: int, cmds: seq<seq<bytes>>, databases: nat, ops: seq<Op>)
    requires n < databases && n in dbs && RestoresAll(dbs, n, now, cmds, databases)
    requires dbs[n].entries != map[] && AllRewrite(ops) && Restores(dbs[n], now, ops)
    ensures RestoresAll(dbs, n + 1, now, cmds + ([[Ascii("SELECT"), Decimal(n)]] + AllTokens(ops)), databases)
  {
    hide ReplayOne, ReplayAll, Decimal, Ascii, Live, Restores, LogBytes, Tokens, FreshDbs;
    var more := [[Ascii("SELECT"), Decimal(n)]] + AllTokens(ops);
    forall t: int
      ensures Rebuilt(dbs, n + 1, now, t, ReplayAll(Replay(FreshDbs(databases), 0, false), Records(cmds + more), t),
                      databases)
    {
      var start := Replay(FreshDbs(databases), 0, false);
      var r := ReplayAll(start, Records(cmds), t);
      assert Rebuilt(dbs, n, now, t, r, databases);
      assert Records(cmds + more) == Records(cmds) + Records(more);
      ReplayAllAppend(start, Records(cmds), Records(more), t);
      SelectAndRestore(r, n, dbs[n], now, ops, t);
      var r' := ReplayAll(r, Records(more), t);
      forall d
        ensures d in r'.dbs <==> 0 <= d < databases
      {
        assert d in r'.dbs.Keys <==> d in r.dbs.Keys;
      }
    }
  }

  lemma SkippedDatabase(dbs: map<int, KS>, n: nat, now: int, cmds: seq<seq<bytes>>, databases: nat)
    requires n < databases && n in dbs && RestoresAll(dbs, n, now, cmds, databases)
    requires dbs[n].entries == map[]
    ensures RestoresAll(dbs, n + 1, now, cmds, databases)
  {
    hide ReplayOne, ReplayAll;
    forall t: int
      ensures Rebuilt(dbs, n + 1, now, t, ReplayAll(Replay(FreshDbs(databases), 0, false), Records(cmds), t), databases)
    {
      assert Rebuilt(dbs, n, now, t, ReplayAll(Replay(FreshDbs(databases), 0, false), Records(cmds), t), databases);
      assert Live(dbs[n], now, t) == map[];
    }
  }

  /**
    * rewrite: for every database that is not empty, SELECT and the commands of its live entries. Whenever the file is
    * replayed into fresh databases, it gives back every non-hollow entry that was alive at the rewrite and still is,
    * in its own database, with its value and its expiry; and recovery does so exactly when no record overfills the
    * parser.
    */
  method Rewrite(dbs: map<int, KS>, databases: nat, now: int) returns (file: bytes, ghost cmds: seq<seq<bytes>>)
    requires databases > 0 && forall d :: 0 <= d < databases ==> d in dbs && WellFormed(dbs[d])
    ensures file == LogBytes(cmds)
    ensures RestoresAll(dbs, databases, now, cmds, databases)
    ensures forall t: int :: Recovers(file, dbs, databases, now, t) <==> ReadInChunks(cmds, |file|)
  {
    hide WellFormed, RestoresAll, Restores, Live, Wrote, ReadInChunks, Recovers;
    file, cmds := [], [];
    NoDatabaseYet(dbs, now, databases);
    for d := 0 to databases
      invariant file == LogBytes(cmds) && RestoresAll(dbs, d, now, cmds, databases)
    {
      var ks := dbs[d];
      if ks.entries == map[] {
        SkippedDatabase(dbs, d, now, cmds, databases);
        continue;
      }
      var select := [Ascii("SELECT"), Decimal(d)];
      file := Write(file, cmds, select);
      ghost var ops;
      file, ops := RewriteKeyspace(file, cmds + [select], ks, now);
      Unwrap(file, cmds + [select], ops);
      NextDatabase(dbs, d, now, cmds, databases, ops);
      assert (cmds + [select]) + AllTokens(ops) == cmds + ([select] + AllTokens(ops));
      cmds := cmds + ([select] + AllTokens(ops));
    }
    forall t: int
      ensures Recovers(file, dbs, databases, now, t) <==> ReadInChunks(cmds, |file|)
    {
      RewriteThenRecover(dbs, databases, now, cmds, t);
    }
  }

  /** Recovery from the file at time t gives every database its entries that are not hollow and alive at both times. */
  ghost predicate Recovers(file: bytes, dbs: map<int, KS>, databases: nat, now: int, t: int) {
    var r := ReplayFile(Replay(FreshDbs(databases), 0, false), file, t);
    !r.aborted && forall d :: 0 <= d < databases ==> d in r.dbs && d in dbs && r.dbs[d].entries == Live(dbs[d], now, t)
  }

  lemma NoDatabaseYet(dbs: map<int, KS>, now: int, databases: nat)
    requires databases > 0
    ensures [] == LogBytes([]) && RestoresAll(dbs, 0, now, [], databases)
  {
    assert Records([]) == [];
  }

  /** From the file itself: recovery at any time finds every database as it was, but for dead and hollow entries. */
  lemma RewriteThenRecover(dbs: map<int, KS>, databases: nat, now: int, cmds: seq<seq<bytes>>, t: int)
    requires databases > 0 && RestoresAll(dbs, databases, now, cmds, databases)
    ensures Recovers(LogBytes(cmds), dbs, databases, now, t) <==> ReadInChunks(cmds, |LogBytes(cmds)|)
  {
    hide ReplayAll, ReplayFile, Live, LogBytes, ReadInChunks;
    assert LogBytes(cmds)[..|LogBytes(cmds)|] == LogBytes(cmds);
    var k := ReplayOfCutLog(Replay(FreshDbs(databases), 0, false), cmds, |LogBytes(cmds)|, t);
    assert cmds[..k] == cmds;
  }
}
