// Replaying a log: persistence/recovery.py and execute_replayed_command of server/dispatcher.py.

module Recovery {
  import opened Bytes
  import opened Resp
  import opened Parsers
  import opened Encoders
  import opened Keyspaces
  import opened Commands
  import opened Transactions
  import opened AppendOnlyLog
  import opened Databases
  import opened Handlers

  // ---------------------------------------------------------------------------------------------
  // One parsed object
  // ---------------------------------------------------------------------------------------------

  /** The databases being rebuilt, the one selected, and whether an exception ended the replay. */
  datatype Replay = Replay(dbs: map<int, KS>, current: int, aborted: bool)

  const NONE_TEXT: bytes := [78, 111, 110, 101]

  /** An argument that is not a byte string is taken by its str(). */
  function ArgBytes(v: Value): bytes {
    match v
    case Bulk(data) => data
    case Int(n) => Decimal(n)
    case Simple(text) => text
    case Error(prefix, message) => ErrorText(prefix, message)
    case Null => NONE_TEXT
    case Array(_) => []
  }

  function ArgsOf(vs: seq<Value>): (args: seq<bytes>)
    ensures |args| == |vs| && forall k :: 0 <= k < |vs| ==> args[k] == ArgBytes(vs[k])
  {
    seq(|vs|, k requires 0 <= k < |vs| => ArgBytes(vs[k]))
  }

  /** get_database makes databases up to 255 on demand. */
  function WithDatabase(dbs: map<int, KS>, db: int): map<int, KS> {
    if db in dbs then dbs else dbs[db := EMPTY]
  }

  function ReplaySelect(r: Replay, v: Value): Replay {
    match v
    case Int(n) => r.(current := n)
    case Bulk(data) => (match ParseInt(data) case None => r case Some(n) => r.(current := n))
    case _ => r.(aborted := true)
  }

  function ReplayCommand(r: Replay, kind: Kind, args: seq<bytes>, now: int): Replay {
    if r.current !in r.dbs && !(0 <= r.current < 256) then r.(aborted := true)
    else
      var dbs := WithDatabase(r.dbs, r.current);
      if IsData(kind) then r.(dbs := dbs[r.current := Execute(kind, args, dbs[r.current], now).0])
      else if kind == FlushAllKind then r.(dbs := Flushed(dbs))
      else r.(dbs := dbs)  // transaction control finds only a stand-in connection: nothing happens
  }

  function ReplayOne(r: Replay, v: Value, now: int): Replay {
    if !v.Array? || v.items == [] then r
    else
      var name := Upper(ArgBytes(v.items[0]));
      if name == Ascii("SELECT") && |v.items| > 1 then ReplaySelect(r, v.items[1])
      else
        match KindOf(name)
        case None => r
        case Some(kind) => ReplayCommand(r, kind, ArgsOf(v.items[1..]), now)
  }

  /**
    * One record: SELECT moves to the database that it names, if that is a number; a data command runs on the database
    * selected, opened empty if it is new; what is unknown, or transaction control, does nothing.
    */
  lemma ReplayReads(r: Replay, cmd: seq<bytes>, now: int)
    requires cmd != [] && (r.current in r.dbs || 0 <= r.current < 256)
    ensures var r', kind := ReplayOne(r, Array(Bulks(cmd)), now), KindOf(Upper(cmd[0]));
            && (kind == Some(SelectKind) && |cmd| > 1 ==>
                  r' == if ParseInt(cmd[1]).Some? then r.(current := ParseInt(cmd[1]).value) else r)
            && (kind.None? ==> r' == r)
            && (kind in {Some(MultiKind), Some(ExecKind), Some(DiscardKind), Some(WatchKind), Some(UnwatchKind)} ==>
                  r.current in r.dbs ==> r' == r)
            && (kind.Some? &&
                kind.value !in {SelectKind, FlushAllKind, MultiKind, ExecKind, DiscardKind, WatchKind, UnwatchKind} ==>
                  var ks := if r.current in r.dbs then r.dbs[r.current] else EMPTY;
                  r'.dbs == r.dbs[r.current := Execute(kind.value, cmd[1..], ks, now).0]
                  && r'.current == r.current && r'.aborted == r.aborted)
  {
    hide Upper, Execute, ParseInt, KindOf;
    var items := Bulks(cmd);
    assert items[0] == Bulk(cmd[0]);
    assert ArgsOf(items[1..]) == cmd[1..];
    NamesOfSix();
    SelectIsSelect(Upper(cmd[0]));
  }

  lemma SelectIsSelect(name: bytes)
    ensures KindOf(name) == Some(SelectKind) ==> name == Ascii("SELECT")
  {
    hide Ascii;
  }

  function ReplayAll(r: Replay, vs: seq<Value>, now: int): Replay
    decreases |vs|
  {
    if vs == [] || r.aborted then r else ReplayAll(ReplayOne(r, vs[0], now), vs[1..], now)
  }

  lemma {:induction false} ReplayAllAppend(r: Replay, vs: seq<Value>, ws: seq<Value>, now: int)
    ensures ReplayAll(r, vs + ws, now) == ReplayAll(ReplayAll(r, vs, now), ws, now)
    decreases |vs|
  {
    if vs == [] {
      assert vs + ws == ws;
    } else if !r.aborted {
      assert (vs + ws)[1..] == vs[1..] + ws;
      ReplayAllAppend(ReplayOne(r, vs[0], now), vs[1..], ws, now);
    }
  }

  // ---------------------------------------------------------------------------------------------
  // A file, read in chunks
  // ---------------------------------------------------------------------------------------------

  const CHUNK: nat := 65536
  const PARSER_LIMIT: nat := 64 * 1024 * 1024

  /** The chunks that successive reads return. */
  function Chunks(file: bytes): (cs: seq<bytes>)
    ensures Joined(cs) == file
    ensures forall k :: 0 <= k < |cs| ==> |cs[k]| <= CHUNK
    decreases |file|
  {
    if file == [] then []
    else
      var n := if |file| < CHUNK then |file| else CHUNK;
      [file[..n]] + Chunks(file[n..])
  }

  /** The loop of _replay_aof: a protocol error ends it, an exception aborts it. */
  function ReplayChunks(r: Replay, rest: bytes, chunks: seq<bytes>, now: int): Replay
    decreases |chunks|
  {
    if chunks == [] || r.aborted then r
    else if |rest| + |chunks[0]| > PARSER_LIMIT then r.(aborted := true)
    else
      var buf := rest + chunks[0];
      var p := ParseAll(buf, 0);
      if p.Broken? then r else ReplayChunks(ReplayAll(r, p.objs, now), buf[p.pos..], chunks[1..], now)
  }

  function ReplayFile(r: Replay, file: bytes, now: int): Replay {
    ReplayChunks(r, [], Chunks(file), now)
  }

  /** A protocol error ends the replay: what was replayed before the chunk it is in stays, nothing is an exception. */
  lemma BrokenEndsReplay(r: Replay, rest: bytes, chunk: bytes, more: seq<bytes>, now: int)
    requires !r.aborted && |rest| + |chunk| <= 64 * 1024 * 1024 && ParseAll(rest + chunk, 0).Broken?
    ensures ReplayChunks(r, rest, [chunk] + more, now) == r
  {
  }

  // ---------------------------------------------------------------------------------------------
  // A log cut at any byte
  // ---------------------------------------------------------------------------------------------

  /** Any beginning of a log consists of whole records and an incomplete one. */
  lemma {:induction false} PrefixOfLog(log: seq<seq<bytes>>, n: nat) returns (k: nat)
    requires n <= |LogBytes(log)|
    ensures k <= |log| && |LogBytes(log[..k])| <= n
    ensures ParseAll(LogBytes(log)[..n], 0) == All(Records(log[..k]), |LogBytes(log[..k])|)
    ensures k < |log| ==> n < |LogBytes(log[..k])| + |CommandBytes(log[k])|
    ensures n == |LogBytes(log)| ==> k == |log|
    decreases |log|
  {
    hide Encode, ParseAll;
    if log == [] {
      k := 0;
      NothingParsed(LogBytes(log)[..n]);
      assert Records(log[..0]) == [];
    } else {
      var v := Array(Bulks(log[0]));
      assert Records(log)[0] == v && Records(log)[1..] == Records(log[1..]);
      var head, tail := Encode(v), LogBytes(log[1..]);
      assert LogBytes(log) == head + tail;
      if n < |head| {
        k := 0;
        assert LogBytes(log)[..n] == head[..n];
        ProperPrefixIsIncomplete(v, n);
        assert Records(log[..0]) == [];
      } else {
        var j := PrefixOfLog(log[1..], n - |head|);
        k := j + 1;
        OneMore(log, j);
        assert LogBytes(log)[..n] == head + tail[..n - |head|];
        Pipelined(v, tail[..n - |head|]);
      }
    }
  }

  lemma NothingParsed(s: bytes)
    requires s == []
    ensures ParseAll(s, 0) == All([], 0)
  {
  }

  lemma OneMore(log: seq<seq<bytes>>, j: nat)
    requires log != [] && j <= |log| - 1
    ensures LogBytes(log[..j + 1]) == CommandBytes(log[0]) + LogBytes(log[1..][..j])
    ensures Records(log[..j + 1]) == [Array(Bulks(log[0]))] + Records(log[1..][..j])
    ensures j + 1 < |log| ==> log[1..][j] == log[j + 1]
    ensures |LogBytes(log)| == |CommandBytes(log[0])| + |LogBytes(log[1..])|
  {
    hide Encode;
    assert log[..j + 1][0] == log[0] && log[..j + 1][1..] == log[1..][..j];
    assert Records(log[..j + 1])[1..] == Records(log[1..][..j]);
    assert Records(log)[1..] == Records(log[1..]);
  }

  /** Behind one encoded value the parser goes on with what follows. */
  lemma Pipelined(v: Value, ext: bytes)
    requires Sendable(v)
    ensures ParseAll(Encode(v) + ext, 0) == Parsers.After([v], MovedBy(ParseAll(ext, 0), |Encode(v)|))
  {
    hide Encode;
    RoundTrip(v, ext);
    ParseAllShifted(Encode(v), ext, 0);
  }

  /** Where the first k records of a log end. */
  function End(log: seq<seq<bytes>>, k: nat): nat
    requires k <= |log|
  {
    |LogBytes(log[..k])|
  }

  /** The first k records are whole within the first n bytes, and the next one is not. */
  ghost predicate WholeWithin(log: seq<seq<bytes>>, k: nat, n: nat) {
    k <= |log| && End(log, k) <= n && (k < |log| ==> n < End(log, k + 1))
  }

  lemma EndsGrow(log: seq<seq<bytes>>, i: nat, j: nat)
    requires i <= j <= |log|
    ensures End(log, i) <= End(log, j) <= |LogBytes(log)|
    ensures End(log, |log|) == |LogBytes(log)|
  {
    hide LogBytes;
    assert log[..|log|] == log;
    SplitLog(log, j);
    SplitLog(log[..j], i);
    assert log[..j][..i] == log[..i];
  }

  /** The records that are whole in a stretch of a log that starts with a record. */
  lemma StretchOfLog(log: seq<seq<bytes>>, j: nat, o: nat) returns (k: nat)
    requires j <= |log| && End(log, j) <= o <= |LogBytes(log)|
    ensures j <= k && WholeWithin(log, k, o) && End(log, j) <= End(log, k)
    ensures ParseAll(LogBytes(log)[End(log, j)..o], 0) == All(Records(log[j..k]), End(log, k) - End(log, j))
  {
    hide LogBytes, ParseAll, Encode;
    var tail, n := log[j..], o - End(log, j);
    SplitLog(log, j);
    assert LogBytes(log)[End(log, j)..o] == LogBytes(tail)[..n];
    var m := PrefixOfLog(tail, n);
    k := j + m;
    EndOfStretch(log, j, m);
    if k < |log| {
      EndOfStretch(log, j, m + 1);
      assert tail[..m + 1] == tail[..m] + [tail[m]];
      LogBytesAppend(tail[..m], tail[m]);
    }
  }

  lemma EndOfStretch(log: seq<seq<bytes>>, j: nat, m: nat)
    requires j + m <= |log|
    ensures End(log, j + m) == End(log, j) + |LogBytes(log[j..][..m])| && log[j..][..m] == log[j..j + m]
  {
    hide LogBytes;
    var part := log[..j + m];
    SplitLog(part, j);
    assert part[..j] == log[..j] && part[j..] == log[j..][..m];
  }

  /** How far a file of n bytes has been read when byte e has: to the end of a chunk, or of the file. */
  function ReadUntil(e: nat, n: nat): (r: nat)
    ensures r <= n && (r == n || r % 65536 == 0) && (e <= n ==> e <= r) && r < e + 65536
  {
    var up := (e + CHUNK - 1) / CHUNK * CHUNK;
    if up < n then up else n
  }

  /** From its start to the end of the chunk that completes it, no record from the j-th on overfills the parser. */
  predicate FitsFrom(log: seq<seq<bytes>>, j: nat, n: nat) {
    forall k :: j <= k < |log| ==> ReadUntil(End(log, k + 1), n) <= End(log, k) + PARSER_LIMIT
  }

  /** The condition under which n bytes of a log are read without an error: lengths only. */
  predicate ReadInChunks(log: seq<seq<bytes>>, n: nat) {
    FitsFrom(log, 0, n)
  }

  lemma ReadUntilIs(e: nat, n: nat, o: nat)
    requires o % CHUNK == 0
    ensures e <= o ==> ReadUntil(e, n) <= o
    ensures o < e && o + CHUNK <= n ==> o + CHUNK <= ReadUntil(e, n)
    ensures o < e && n < o + CHUNK ==> ReadUntil(e, n) == n
    ensures ReadUntil(e, n) <= n
  {
    var up := (e + CHUNK - 1) / CHUNK;
    assert o == o / CHUNK * CHUNK;
    if e <= o {
      assert up <= o / CHUNK;
    } else {
      assert up >= o / CHUNK + 1;
    }
  }

  /** A record shorter than the limit by a chunk is always read. */
  lemma ShortRecordsFit(log: seq<seq<bytes>>, n: nat)
    requires forall k :: 0 <= k < |log| ==> |CommandBytes(log[k])| + 65536 <= 64 * 1024 * 1024
    ensures ReadInChunks(log, n)
  {
    hide LogBytes, CommandBytes;
    forall k | 0 <= k < |log|
      ensures ReadUntil(End(log, k + 1), n) <= End(log, k) + PARSER_LIMIT
    {
      assert log[..k + 1] == log[..k] + [log[k]];
      LogBytesAppend(log[..k], log[k]);
      assert |CommandBytes(log[k])| + 65536 <= 64 * 1024 * 1024;
    }
  }

  /** And a record longer than the limit never is. */
  lemma LongRecordRefused(log: seq<seq<bytes>>, k: nat)
    requires k < |log| && |CommandBytes(log[k])| > 64 * 1024 * 1024
    ensures !ReadInChunks(log, |LogBytes(log)|)
  {
    hide LogBytes, CommandBytes;
    assert log[..k + 1] == log[..k] + [log[k]];
    LogBytesAppend(log[..k], log[k]);
    EndsGrow(log, k + 1, |log|);
    assert End(log, k + 1) == End(log, k) + |CommandBytes(log[k])|;
    assert ReadUntil(End(log, k + 1), |LogBytes(log)|) > End(log, k) + PARSER_LIMIT;
  }

  /** After one more chunk the records that it completes have been read; the condition concerns the later ones. */
  lemma FitsLater(log: seq<seq<bytes>>, n: nat, o: nat, j: nat, k: nat)
    requires j <= k <= |log| && End(log, k) <= o <= End(log, j) + PARSER_LIMIT && (o % CHUNK == 0 || o == n)
    ensures FitsFrom(log, j, n) <==> FitsFrom(log, k, n)
  {
    hide End;
    forall i | j <= i < k
      ensures ReadUntil(End(log, i + 1), n) <= End(log, i) + PARSER_LIMIT
    {
      EndsGrow(log, j, i);
      EndsGrow(log, i + 1, k);
      if o % CHUNK == 0 {
        ReadUntilIs(End(log, i + 1), n, o);
      }
    }
  }

  /** At the end of the file nothing more is to be read. */
  lemma FitsAtEnd(log: seq<seq<bytes>>, n: nat, j: nat)
    requires WholeWithin(log, j, n) && n <= End(log, j) + PARSER_LIMIT
    ensures FitsFrom(log, j, n)
  {
    hide End;
    forall i | j <= i < |log|
      ensures ReadUntil(End(log, i + 1), n) <= End(log, i) + PARSER_LIMIT
    {
      EndsGrow(log, j, i);
    }
  }

  lemma ChunksFrom(file: bytes, o: nat) returns (next: nat)
    requires o < |file|
    ensures o < next <= |file| && next == if o + CHUNK <= |file| then o + CHUNK else |file|
    ensures Chunks(file[o..]) == [file[o..next]] + Chunks(file[next..])
  {
    next := if o + CHUNK <= |file| then o + CHUNK else |file|;
    var rest, n := file[o..], next - o;
    assert rest[..n] == file[o..next] && rest[n..] == file[next..];
  }

  /**
    * Replay from offset o on, with j records behind it and the beginning of the next in the parser: the whole records
    * that remain are replayed, unless one of them overfills the parser, which aborts.
    */
  lemma {:induction false} ReplayFrom(r: Replay, log: seq<seq<bytes>>, n: nat, o: nat, j: nat, now: int)
    returns (m: nat)
    requires o <= n <= |LogBytes(log)| && (o % CHUNK == 0 || o == n)
    requires WholeWithin(log, j, o) && o <= End(log, j) + PARSER_LIMIT
    ensures j <= m && WholeWithin(log, m, n)
    ensures var file := LogBytes(log)[..n];
            var r' := ReplayChunks(r, file[End(log, j)..o], Chunks(file[o..]), now);
            if FitsFrom(log, j, n) then r' == ReplayAll(r, Records(log[j..m]), now) else r'.aborted
    decreases n - o
  {
    hide LogBytes, ParseAll, FitsFrom, ReplayAll, Records, Chunks, End;
    var file := LogBytes(log)[..n];
    EndsGrow(log, j, |log|);
    if o == n {
      m := j;
      FitsAtEnd(log, n, j);
      NothingLeft(r, file, log, j, now);
    } else {
      var next := ChunksFrom(file, o);
      if next > End(log, j) + PARSER_LIMIT {
        m := StretchOfLog(log, j, n);
        Overfilled(log, n, o, next, j);
      } else {
        var k := StretchOfLog(log, j, next);
        OneChunk(r, log, n, o, next, j, k, now);
        m := ReplayFrom(ReplayAll(r, Records(log[j..k]), now), log, n, next, k, now);
        FitsLater(log, n, next, j, k);
        RecordsJoin(r, log, j, k, m, now);
        AbortedStays(r, Records(log[j..m]), now);
      }
    }
  }

  /** A chunk that fits is parsed, and the records that it completes are replayed. */
  lemma OneChunk(r: Replay, log: seq<seq<bytes>>, n: nat, o: nat, next: nat, j: nat, k: nat, now: int)
    requires o < next <= n <= |LogBytes(log)| && j <= k <= |log|
    requires End(log, j) <= o && End(log, j) <= End(log, k) <= next <= End(log, j) + PARSER_LIMIT
    requires var file := LogBytes(log)[..n]; Chunks(file[o..]) == [file[o..next]] + Chunks(file[next..])
    requires ParseAll(LogBytes(log)[End(log, j)..next], 0) == All(Records(log[j..k]), End(log, k) - End(log, j))
    ensures var file := LogBytes(log)[..n];
            ReplayChunks(r, file[End(log, j)..o], Chunks(file[o..]), now) ==
            if r.aborted then r
            else ReplayChunks(ReplayAll(r, Records(log[j..k]), now), file[End(log, k)..next], Chunks(file[next..]), now)
  {
    hide LogBytes, ParseAll, ReplayAll, Records, Chunks, End;
    var file := LogBytes(log)[..n];
    assert file[End(log, j)..o] + file[o..next] == LogBytes(log)[End(log, j)..next];
    assert LogBytes(log)[End(log, j)..next][End(log, k) - End(log, j)..] == file[End(log, k)..next];
    assert ([file[o..next]] + Chunks(file[next..]))[1..] == Chunks(file[next..]);
  }

  lemma NothingLeft(r: Replay, file: bytes, log: seq<seq<bytes>>, j: nat, now: int)
    requires j <= |log|
    ensures Chunks(file[|file|..]) == [] && ReplayAll(r, Records(log[j..j]), now) == r
  {
  }

  lemma Overfilled(log: seq<seq<bytes>>, n: nat, o: nat, next: nat, j: nat)
    requires o % CHUNK == 0 && o < next <= n && next == if o + CHUNK <= n then o + CHUNK else n
    requires j < |log| && o < End(log, j + 1) && next > End(log, j) + PARSER_LIMIT
    ensures !FitsFrom(log, j, n)
  {
    hide End;
    ReadUntilIs(End(log, j + 1), n, o);
  }

  lemma RecordsJoin(r: Replay, log: seq<seq<bytes>>, j: nat, k: nat, m: nat, now: int)
    requires j <= k <= m <= |log|
    ensures ReplayAll(r, Records(log[j..m]), now) ==
              ReplayAll(ReplayAll(r, Records(log[j..k]), now), Records(log[k..m]), now)
  {
    hide ReplayOne;
    assert Records(log[j..m]) == Records(log[j..k]) + Records(log[k..m]);
    ReplayAllAppend(r, Records(log[j..k]), Records(log[k..m]), now);
  }

  lemma AbortedStays(r: Replay, vs: seq<Value>, now: int)
    ensures r.aborted ==> ReplayAll(r, vs, now) == r
  {
    hide ReplayOne;
  }

  /**
    * Whatever byte a log is cut at, replaying the file is replaying the records that are whole, if no record overfills
    * the parser on the way; if one does, the replay is aborted.
    */
  lemma ReplayOfCutLog(r: Replay, log: seq<seq<bytes>>, n: nat, now: int) returns (k: nat)
    requires n <= |LogBytes(log)|
    ensures WholeWithin(log, k, n) && (n == |LogBytes(log)| ==> k == |log|)
    ensures var r' := ReplayFile(r, LogBytes(log)[..n], now);
            if ReadInChunks(log, n) then r' == ReplayAll(r, Records(log[..k]), now) else r'.aborted
  {
    hide ReplayChunks, ReplayAll, LogBytes, ParseAll, FitsFrom, Encode;
    var file := LogBytes(log)[..n];
    NoneWhole(log);
    k := ReplayFrom(r, log, n, 0, 0, now);
    if k < |log| {
      EndsGrow(log, k + 1, |log|);
    }
    assert file[0..0] == [] && file[0..] == file && log[0..k] == log[..k];
  }

  /** No record is empty. */
  lemma NoneWhole(log: seq<seq<bytes>>)
    ensures End(log, 0) == 0 && WholeWithin(log, 0, 0)
  {
    assert log[..0] == [];
    if log != [] {
      assert log[..1] == [] + [log[0]];
      LogBytesAppend([], log[0]);
    }
  }

  // ---------------------------------------------------------------------------------------------
  // The replay loop itself
  // ---------------------------------------------------------------------------------------------

  class RecoveryManager {
    const manager: DatabaseManager

    constructor (manager: DatabaseManager)
      ensures this.manager == manager
    {
      this.manager := manager;
    }

    /** _replay_aof on the bytes of the file; returns false where an exception leaves it. */
    method ReplayAof(file: bytes, now: int) returns (ok: bool)
      requires manager.Valid()
      modifies manager`databases, manager`keyspaces, manager`numbers, manager.keyspaces
      ensures manager.Valid() && fresh(manager.keyspaces - old(manager.keyspaces))
      ensures var r := ReplayFile(Replay(old(manager.View()), 0, false), file, now);
              manager.View() == r.dbs && ok == !r.aborted
    {
      hide ParseAll, ReplayAll, ReplayChunks, Chunks, DatabaseManager.Valid, DatabaseManager.View, RESPParser.Valid,
        RESPParser.Rest;
      var parser := new RESPParser(PARSER_LIMIT);
      var current, offset := 0, 0;
      assert file[0..] == file;
      ghost var whole := ReplayFile(Replay(manager.View(), 0, false), file, now);
      while offset < |file|
        invariant parser.Valid() && fresh(parser) && parser.maxBufferSize == PARSER_LIMIT && offset <= |file|
        invariant manager.Valid() && fresh(manager.keyspaces - old(manager.keyspaces))
        invariant whole == ReplayChunks(Replay(manager.View(), current, false), parser.Rest(),
                                        Chunks(file[offset..]), now)
        decreases |file| - offset
      {
        var n := if |file| - offset < CHUNK then |file| - offset else CHUNK;
        var chunk := file[offset..offset + n];
        FirstChunk(file, offset, n);
        offset := offset + n;
        var goes;
        goes, ok, current := ReplayChunk(parser, chunk, Chunks(file[offset..]), current, now);
        if !goes {
          return;
        }
      }
      NoChunks(Replay(manager.View(), current, false), parser.Rest(), file, now);
      ok := true;
    }

    /** One chunk is read, and what it completes is replayed; the loop goes on unless the reader or the replay fails. */
    method ReplayChunk(parser: RESPParser, chunk: bytes, ghost more: seq<bytes>, start: int, now: int)
      returns (goes: bool, ok: bool, current: int)
      requires manager.Valid() && parser.Valid() && parser.maxBufferSize == PARSER_LIMIT
      modifies parser, manager`databases, manager`keyspaces, manager`numbers, manager.keyspaces
      ensures manager.Valid() && fresh(manager.keyspaces - old(manager.keyspaces)) && parser.Valid()
      ensures ReplayChunks(Replay(old(manager.View()), start, false), old(parser.Rest()), [chunk] + more, now) ==
              if goes then ReplayChunks(Replay(manager.View(), current, false), parser.Rest(), more, now)
              else Replay(manager.View(), current, !ok)
    {
      hide ParseAll, ReplayAll, ReplayChunks, DatabaseManager.Valid, DatabaseManager.View, RESPParser.Valid,
        RESPParser.Rest;
      goes, ok, current := false, true, start;
      OneRead(Replay(manager.View(), current, false), parser.Rest(), chunk, more, now);
      var commands := ReadChunk(parser, chunk);
      if commands == None {
        return false, false, current;
      }
      if commands.value.Aborted? {
        return;
      }
      ok, current := ReplayObjects(commands.value.objs, current, now);
      if !ok {
        AbortedAtOnce(manager.View(), current, parser.Rest(), more, now);
        return;
      }
      goes := true;
    }

    /** What the reader makes of one chunk; None is the error of a full buffer. */
    method ReadChunk(parser: RESPParser, chunk: bytes) returns (commands: Option<Parsers.Commands>)
      requires parser.Valid() && parser.maxBufferSize == PARSER_LIMIT
      modifies parser
      ensures parser.Valid() && (commands == None <==> |old(parser.Rest()) + chunk| > PARSER_LIMIT)
      ensures commands.Some? ==>
                var buf := old(parser.Rest()) + chunk;
                var p := ParseAll(buf, 0);
                if p.All? then commands.value == Batch(p.objs) && parser.Rest() == buf[p.pos..]
                else commands.value == Parsers.Aborted(p.error)
    {
      hide ParseAll;
      var fed := parser.Feed(chunk);
      if !fed {
        return None;
      }
      FromPosition(parser.buffer, parser.pos);
      var parsed := parser.GetParsedCommands();
      commands := Some(parsed);
    }

    /** One round of the reading loop. */
    lemma OneRead(r: Replay, rest: bytes, chunk: bytes, more: seq<bytes>, now: int)
      requires !r.aborted
      ensures var buf := rest + chunk;
              var p := ParseAll(buf, 0);
              ReplayChunks(r, rest, [chunk] + more, now) ==
              if |buf| > PARSER_LIMIT then r.(aborted := true)
              else if p.Broken? then r
              else ReplayChunks(ReplayAll(r, p.objs, now), buf[p.pos..], more, now)
    {
      hide ParseAll, ReplayAll;
      assert ([chunk] + more)[1..] == more;
    }

    lemma AbortedAtOnce(dbs: map<int, KS>, current: int, rest: bytes, chunks: seq<bytes>, now: int)
      ensures ReplayChunks(Replay(dbs, current, true), rest, chunks, now) == Replay(dbs, current, true)
    {
      hide ParseAll, ReplayAll;
    }

    lemma NoChunks(r: Replay, rest: bytes, file: bytes, now: int)
      ensures ReplayChunks(r, rest, Chunks(file[|file|..]), now) == r
    {
      hide ParseAll, ReplayAll;
    }

    lemma FirstChunk(file: bytes, offset: nat, n: nat)
      requires offset < |file| && n == if |file| - offset < CHUNK then |file| - offset else CHUNK
      ensures Chunks(file[offset..]) == [file[offset..offset + n]] + Chunks(file[offset + n..])
    {
      assert file[offset..][..n] == file[offset..offset + n];
      assert file[offset..][n..] == file[offset + n..];
    }

    /** The loop over the parsed commands of one chunk. */
    method ReplayObjects(objs: seq<Value>, start: int, now: int) returns (ok: bool, current: int)
      requires manager.Valid()
      modifies manager`databases, manager`keyspaces, manager`numbers, manager.keyspaces
      ensures manager.Valid() && fresh(manager.keyspaces - old(manager.keyspaces))
      ensures var r := ReplayAll(Replay(old(manager.View()), start, false), objs, now);
              manager.View() == r.dbs && ok == !r.aborted && current == r.current
    {
      hide ReplayOne, DatabaseManager.Valid, DatabaseManager.View;
      current := start;
      ghost var was := manager.View();
      for i := 0 to |objs|
        invariant manager.Valid() && fresh(manager.keyspaces - old(manager.keyspaces))
        invariant ReplayAll(Replay(was, start, false), objs, now)
               == ReplayAll(Replay(manager.View(), current, false), objs[i..], now)
      {
        assert objs[i..][0] == objs[i] && objs[i..][1..] == objs[i + 1..];
        ok, current := ReplayObject(objs[i], current, now);
        if !ok {
          return false, current;
        }
      }
      ok := true;
    }

    /** One round of it: SELECT is tracked, everything else is handed to the dispatcher. */
    method ReplayObject(obj: Value, start: int, now: int) returns (ok: bool, current: int)
      requires manager.Valid()
      modifies manager`databases, manager`keyspaces, manager`numbers, manager.keyspaces
      ensures manager.Valid() && fresh(manager.keyspaces - old(manager.keyspaces))
      ensures var r := ReplayOne(Replay(old(manager.View()), start, false), obj, now);
              manager.View() == r.dbs && ok == !r.aborted && current == r.current
    {
      hide DatabaseManager.Valid, DatabaseManager.View, ReplayCommand, KindOf, ParseInt, Upper, Ascii, ArgsOf, ArgBytes;
      current := start;
      if !obj.Array? || obj.items == [] {
        return true, current;
      }
      var name := Upper(ArgBytes(obj.items[0]));
      if name == Ascii("SELECT") && |obj.items| > 1 {
        ok, current := ReplaySelected(obj.items[1], current);
        return;
      }
      var kind := KindOf(name);
      if kind == None {
        return true, current;
      }
      ok := ExecuteReplayed(current, kind.value, ArgsOf(obj.items[1..]), now);
    }

    /** SELECT is only remembered; a number that is none is passed over, and what is not even text is an error. */
    method ReplaySelected(v: Value, start: int) returns (ok: bool, current: int)
      ensures forall dbs :: ReplaySelect(Replay(dbs, start, false), v) == Replay(dbs, current, !ok)
    {
      hide ParseInt;
      ok, current := true, start;
      match v
      case Int(n) => current := n;
      case Bulk(data) =>
        var n := ParseInt(data);
        if n.Some? {
          current := n.value;
        }
      case _ => ok := false;
    }

    /** execute_replayed_command; false is the ValueError of get_database. */
    method ExecuteReplayed(current: int, kind: Kind, args: seq<bytes>, now: int) returns (ok: bool)
      requires manager.Valid()
      modifies manager`databases, manager`keyspaces, manager`numbers, manager.keyspaces
      ensures manager.Valid() && fresh(manager.keyspaces - old(manager.keyspaces))
      ensures var r := ReplayCommand(Replay(old(manager.View()), current, false), kind, args, now);
              manager.View() == r.dbs && ok == !r.aborted && current == r.current
    {
      hide DatabaseManager.View, Execute, Flushed, DatabaseManager.Total;
      Opens(current);
      ghost var was := manager.View();
      var keyspace := manager.GetDatabase(current);
      if keyspace == None {
        return false;
      }
      assert manager.View() == WithDatabase(was, current);
      if IsData(kind) {
        RunIn(current, kind, args, now);
      } else if kind == FlushAllKind {
        FlushEvery();
      }
      ok := true;
    }

    lemma Opens(current: int)
      requires manager.Valid()
      ensures 0 <= current < manager.Bound() <==> current in manager.databases || 0 <= current < MAX_DATABASES
      ensures current in manager.databases <==> current in manager.View()
    {
      hide WellFormed;
    }

    method RunIn(db: int, kind: Kind, args: seq<bytes>, now: int)
      requires manager.Valid() && db in manager.databases && IsData(kind)
      modifies manager.keyspaces
      ensures manager.Valid() && db in old(manager.View())
      ensures manager.View() == old(manager.View())[db := Execute(kind, args, old(manager.View())[db], now).0]
    {
      hide WellFormed, Execute;
      var keyspace := manager.databases[db];
      ghost var before := manager.View();
      var _ := RunCommand(keyspace, kind, args, now);
      forall d | d in manager.databases && d != db
        ensures manager.databases[d].Valid() && manager.databases[d].View() == before[d]
      {
        assert manager.databases[d] != keyspace;
      }
    }

    method FlushOne(db: int)
      requires manager.Valid() && db in manager.databases
      modifies manager.keyspaces
      ensures manager.Valid() && db in old(manager.View())
      ensures manager.View() == old(manager.View())[db := Flush(old(manager.View())[db])]
    {
      hide WellFormed, Flush;
      var keyspace := manager.databases[db];
      ghost var before := manager.View();
      keyspace.FlushKeys();
      forall d | d in manager.databases && d != db
        ensures manager.databases[d].Valid() && manager.databases[d].View() == before[d]
      {
        assert manager.databases[d] != keyspace;
      }
    }

    /** The loop of flush_all, over the databases in any order. */
    method FlushEvery()
      requires manager.Valid()
      modifies manager.keyspaces
      ensures manager.Valid() && manager.View() == Flushed(old(manager.View()))
    {
      hide DatabaseManager.Valid, DatabaseManager.View, Flush, Flushed, FlushedBut;
      var left: set<int> := manager.databases.Keys;
      ghost var was := manager.View();
      FlushedNone(was);
      while left != {}
        invariant manager.Valid() && left <= manager.databases.Keys
        invariant manager.View() == FlushedBut(was, left)
        decreases left
      {
        HasMember(left);
        var d :| d in left;
        FlushedOne(was, left, d);
        FlushOne(d);
        left := left - {d};
      }
      FlushedAll(was);
    }
  }

  lemma HasMember(left: set<int>)
    requires left != {}
    ensures exists d :: d in left
  {
    if forall d :: d !in left {
      assert false;
    }
  }

  /** All databases flushed except these. */
  function FlushedBut(dbs: map<int, KS>, left: set<int>): map<int, KS> {
    map d | d in dbs :: if d in left then dbs[d] else Flush(dbs[d])
  }

  lemma FlushedNone(dbs: map<int, KS>)
    ensures FlushedBut(dbs, dbs.Keys) == dbs
  {
  }

  lemma FlushedOne(dbs: map<int, KS>, left: set<int>, d: int)
    requires d in left && d in dbs
    ensures d in FlushedBut(dbs, left) && FlushedBut(dbs, left)[d := Flush(FlushedBut(dbs, left)[d])] ==
              FlushedBut(dbs, left - {d})
  {
    hide Flush;
  }

  lemma FlushedAll(dbs: map<int, KS>)
    ensures FlushedBut(dbs, {}) == Flushed(dbs)
  {
    hide Flush;
  }
}
