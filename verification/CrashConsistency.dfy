// The live log against its replay: whatever byte a crash cuts the log at, recovery rebuilds the keyspaces as they
// were after some beginning of the logged writes. On database 0, without expiries and evictions.

module CrashConsistency {
  import opened Bytes
  import opened Resp
  import opened Keyspaces
  import opened Commands
  import opened Transactions
  import opened AppendOnlyLog
  import opened Recovery

  /** A command that neither leaves database 0 nor sets an expiry. */
  predicate Plain(cmd: seq<bytes>) {
    var k := KindOfCommand(cmd);
    k.Some? ==> k.value != SelectKind && SetsNoTtl(k.value, cmd[1..])
  }

  /** All commands are plain but SELECT, PEXPIREAT, and a SET whose options are in order and give a time. */
  lemma PlainMeans(cmd: seq<bytes>)
    ensures Plain(cmd) <==>
            var kind := KindOfCommand(cmd);
            && kind != Some(SelectKind) && kind != Some(PExpireAtKind)
            && (kind == Some(SetKind) && |cmd| >= 3 && ParseSetOptions(cmd[3..], NO_OPTIONS).Chosen? ==>
                  var o := ParseSetOptions(cmd[3..], NO_OPTIONS).opts;
                  o.ex == None && o.px == None)
  {
    hide KindOf, ParseSetOptions, Upper;
    if |cmd| >= 3 {
      assert cmd[1..][2..] == cmd[3..];
    }
  }

  predicate PlainConn(c: Conn) {
    c.dbId == 0 && forall i :: 0 <= i < |c.tx.queued| ==> Plain(c.tx.queued[i])
  }

  predicate PlainEvent(ev: Event) {
    !ev.Evict? && (ev.Command? ==> Plain(ev.cmd))
  }

  /** Nothing expires, and only database 0 stores anything. */
  predicate PlainDbs(dbs: map<int, KS>) {
    forall d :: d in dbs ==> TtlFree(dbs[d]) && (d != 0 ==> dbs[d].entries == map[])
  }

  function Fresh(databases: nat): Replay {
    Replay(FreshDbs(databases), 0, false)
  }

  /**
    * Replaying the log at a later time gives the live keyspaces, and every beginning of it the keyspaces of its time.
    */
  ghost predicate Recorded(sh: Shared, later: int) {
    && 0 in sh.dbs && PlainDbs(sh.dbs)
    && |sh.history| == |sh.log|
    && ReplayAll(Fresh(sh.databases), Records(sh.log), later) == Replay(sh.dbs, 0, false)
    && (forall k :: 0 < k <= |sh.log| ==> Remembered(sh, k, later))
  }

  ghost predicate Remembered(sh: Shared, k: nat, later: int) {
    && 0 < k <= |sh.log| == |sh.history|
    && ReplayAll(Fresh(sh.databases), Records(sh.log[..k]), later) == Replay(sh.history[k - 1], 0, false)
  }

  /** The record of a command, replayed, is looked up under the same kind with the same arguments. */
  lemma RecordReplays(cmd: seq<bytes>, kind: Kind, r: Replay, later: int)
    requires cmd != [] && KindOfCommand(cmd) == Some(kind) && kind != SelectKind
    ensures ReplayOne(r, Array(Bulks([Upper(cmd[0])] + cmd[1..])), later) == ReplayCommand(r, kind, cmd[1..], later)
  {
    hide KindOf, ReplayCommand;
    var rec := [Upper(cmd[0])] + cmd[1..];
    var items := Bulks(rec);
    UpperTwice(cmd[0]);
    NamesOfSix();
    assert rec[1..] == cmd[1..];
    assert ArgsOf(items[1..]) == cmd[1..];
  }

  /** What a replayed command does, on a replay that stands where the live server stood. */
  lemma WriteReplays(sh: Shared, c: Conn, kind: Kind, cmd: seq<bytes>, now: int, later: int)
    requires ConnOk(sh, c) && PlainConn(c) && cmd != [] && KindOfCommand(cmd) == Some(kind) && Plain(cmd)
    requires 0 in sh.dbs && PlainDbs(sh.dbs) && kind != ExecKind
    ensures var o := Run(sh, c, kind, cmd, now);
            && PlainDbs(o.sh.dbs) && 0 in o.sh.dbs
            && o.sh.log == sh.log && o.sh.history == sh.history && o.sh.databases == sh.databases
            && PlainConn(o.c)
            && (IsWrite(kind) && !IsError(o.answer) ==>
                  ReplayCommand(Replay(sh.dbs, 0, false), kind, cmd[1..], later) == Replay(o.sh.dbs, 0, false))
            && (!IsWrite(kind) || IsError(o.answer) ==> o.sh == sh)
  {
    hide KindOf, Execute, TtlFree, SetsNoTtl, QueueOk, Flushed, WatchAll, ParseInt;
    if IsData(kind) {
      ClockDoesNotMatter(kind, cmd[1..], sh.dbs[0], now, later);
      if !IsWrite(kind) || Execute(kind, cmd[1..], sh.dbs[0], now).1.Oops? {
        OnlyWritesChange(kind, cmd[1..], sh.dbs[0], now);
        assert sh.dbs[0 := sh.dbs[0]] == sh.dbs;
      }
    } else if kind == FlushAllKind {
      FlushedIsPlain(sh.dbs);
    }
  }

  lemma FlushedIsPlain(dbs: map<int, KS>)
    ensures PlainDbs(Flushed(dbs)) && Flushed(dbs).Keys == dbs.Keys
  {
    hide MarkAll;
  }

  /** Appending a record whose replay makes the same step keeps the correspondence. */
  lemma AppendRecorded(sh: Shared, sh': Shared, rec: seq<bytes>, later: int)
    requires Recorded(sh, later)
    requires sh'.log == sh.log + [rec] && sh'.history == sh.history + [sh'.dbs] && sh'.databases == sh.databases
    requires 0 in sh'.dbs && PlainDbs(sh'.dbs)
    requires ReplayOne(Replay(sh.dbs, 0, false), Array(Bulks(rec)), later) == Replay(sh'.dbs, 0, false)
    ensures Recorded(sh', later)
  {
    hide ReplayOne, PlainDbs;
    var vs := Records(sh.log);
    assert Records(sh'.log) == vs + [Array(Bulks(rec))];
    ReplayAllAppend(Fresh(sh.databases), vs, [Array(Bulks(rec))], later);
    forall k | 0 < k <= |sh'.log|
      ensures Remembered(sh', k, later)
    {
      if k <= |sh.log| {
        assert Remembered(sh, k, later);
        assert sh'.log[..k] == sh.log[..k];
      } else {
        assert sh'.log[..k] == sh'.log;
      }
    }
  }

  lemma RunRecorded(sh: Shared, c: Conn, kind: Kind, cmd: seq<bytes>, now: int, later: int)
    requires ConnOk(sh, c) && PlainConn(c) && cmd != [] && KindOfCommand(cmd) == Some(kind) && Plain(cmd)
    requires Recorded(sh, later) && kind != ExecKind
    ensures var o := Logged(kind, cmd, Run(sh, c, kind, cmd, now)); Recorded(o.sh, later) && PlainConn(o.c)
  {
    hide KindOf, Run, ConnOk, Plain, PlainConn, ReplayOne, ReplayCommand;
    var o := Run(sh, c, kind, cmd, now);
    WriteReplays(sh, c, kind, cmd, now, later);
    if IsWrite(kind) && !IsError(o.answer) {
      NotSelect(cmd, kind);
      RecordReplays(cmd, kind, Replay(sh.dbs, 0, false), later);
      AppendRecorded(sh, Logged(kind, cmd, o).sh, [Upper(cmd[0])] + cmd[1..], later);
    }
  }

  lemma NotSelect(cmd: seq<bytes>, kind: Kind)
    requires KindOfCommand(cmd) == Some(kind) && Plain(cmd)
    ensures kind != SelectKind
  {
  }

  lemma {:induction false} DispatchRecorded(sh: Shared, c: Conn, cmd: seq<bytes>, now: int, later: int)
    requires ConnOk(sh, c) && PlainConn(c) && Plain(cmd) && Recorded(sh, later)
    ensures var o := Dispatch(sh, c, cmd, now); Recorded(o.sh, later) && PlainConn(o.c)
    decreases if IsExec(cmd) then 2 else 0, 1
  {
    hide KindOf, Run, ConnOk, Recorded, Plain, RunQueue;
    var kind := KindOfCommand(cmd);
    if kind.Some? && ArityFits(kind.value, |cmd|) && !(c.tx.inTransaction && !IsControl(kind.value)) {
      if kind.value == ExecKind {
        ExecRecorded(sh, c, cmd, now, later);
      } else {
        RunRecorded(sh, c, kind.value, cmd, now, later);
      }
    }
  }

  /** EXEC: its commands are logged one by one, and its own record, replayed, does nothing. */
  lemma {:induction false} ExecRecorded(sh: Shared, c: Conn, cmd: seq<bytes>, now: int, later: int)
    requires ConnOk(sh, c) && PlainConn(c) && IsExec(cmd) && ArityFits(ExecKind, |cmd|) && Recorded(sh, later)
    ensures var o := Dispatch(sh, c, cmd, now); Recorded(o.sh, later) && PlainConn(o.c)
    decreases 2, 0
  {
    hide KindOf, Dispatch, QueueOk, Plain, RunQueue, ReplayOne, WatchedUnchanged;
    ExecRuns(sh, c, cmd, now);
    if c.tx.inTransaction {
      IdleOk(sh, c);
      var q :=
        if WatchedUnchanged(sh, c.tx) then RunQueue(sh, c.(tx := IDLE), c.tx.queued, now)
        else Outcome(sh, c.(tx := IDLE), Aborted);
      if WatchedUnchanged(sh, c.tx) {
        QueueRecorded(sh, c.(tx := IDLE), c.tx.queued, now, later);
      }
      RecordReplays(cmd, ExecKind, Replay(q.sh.dbs, 0, false), later);
      AppendRecorded(q.sh, Logged(ExecKind, cmd, q).sh, [Upper(cmd[0])] + cmd[1..], later);
    }
  }

  lemma {:induction false} QueueRecorded(sh: Shared, c: Conn, queue: seq<seq<bytes>>, now: int, later: int)
    requires ConnOk(sh, c) && c.tx == IDLE && QueueOk(queue) && PlainConn(c) && Recorded(sh, later)
    requires forall i :: 0 <= i < |queue| ==> Plain(queue[i])
    ensures var o := RunQueue(sh, c, queue, now); Recorded(o.sh, later) && PlainConn(o.c)
    decreases 1, |queue|
  {
    hide KindOf, Dispatch, Plain, Recorded;
    if queue != [] {
      var o := Dispatch(sh, c, queue[0], now);
      DispatchRecorded(sh, c, queue[0], now, later);
      PlainKeepsIdle(sh, c, queue[0], now);
      QueueRecorded(o.sh, o.c, queue[1..], now, later);
    }
  }

  // ---------------------------------------------------------------------------------------------
  // Runs
  // ---------------------------------------------------------------------------------------------

  ghost predicate ServerRecorded(s: Server, later: int) {
    && ServerOk(s) && Recorded(s.sh, later)
    && forall id :: id in s.conns ==> PlainConn(s.conns[id])
  }

  lemma NextRecorded(s: Server, ev: Event, later: int)
    requires ServerRecorded(s, later) && PlainEvent(ev)
    ensures ServerRecorded(Next(s, ev), later)
  {
    hide Dispatch, Plain, ConnOk, WellFormed, TtlFree, Swept;
    NextAdvances(s, ev);
    if ev.Command? && ev.id in s.conns {
      DispatchRecorded(s.sh, s.conns[ev.id], ev.cmd, ev.now, later);
    }
    if ev.Expire? && ev.db in s.sh.dbs {
      TtlFreeSweep(s.sh.dbs[ev.db], ev.key, ev.now);
      assert s.sh.dbs[ev.db := s.sh.dbs[ev.db]] == s.sh.dbs;
    }
  }

  lemma {:induction false} AfterRecorded(s: Server, events: seq<Event>, later: int)
    requires ServerRecorded(s, later) && forall i :: 0 <= i < |events| ==> PlainEvent(events[i])
    ensures ServerRecorded(AfterEvents(s, events), later)
    decreases |events|
  {
    assert ServerOk(s);
    hide ServerRecorded, Next, PlainEvent;
    if events != [] {
      NextAdvances(s, events[0]);
      NextRecorded(s, events[0], later);
      AfterRecorded(Next(s, events[0]), events[1..], later);
    }
  }

  lemma StartedRecorded(databases: nat, later: int)
    requires databases > 0
    ensures ServerRecorded(Started(databases), later)
  {
    StartedOk(databases);
    assert Records([]) == [];
  }

  /**
    * Crash-prefix consistency, over every interleaving of connections and transactions: cut the log at byte n and
    * recover at any later time. The result is the keyspaces right after the first k logged writes, where k is the
    * number of writes that are whole in the file; from the uncut log it is the keyspaces at the end. The one exception
    * is a log with a record that overfills the parser while it is read: recovery from it is aborted.
    */
  lemma CrashPrefix(databases: nat, events: seq<Event>, n: nat, later: int) returns (k: nat)
    requires databases > 0 && forall i :: 0 <= i < |events| ==> PlainEvent(events[i])
    requires var sh := AfterEvents(Started(databases), events).sh; n <= |LogBytes(sh.log)|
    ensures var sh := AfterEvents(Started(databases), events).sh;
            var r := ReplayFile(Fresh(databases), LogBytes(sh.log)[..n], later);
            && k <= |sh.log| == |sh.history| && WholeWithin(sh.log, k, n)
            && (if ReadInChunks(sh.log, n)
                then r == Replay(if k == 0 then FreshDbs(databases) else sh.history[k - 1], 0, false)
                else r.aborted)
            && (n == |LogBytes(sh.log)| && !r.aborted ==> r.dbs == sh.dbs)
  {
    hide AfterEvents, ServerOk, ReadInChunks, WholeWithin, LogBytes, PlainEvent, ReplayFile;
    StartedOk(databases);
    var sh := AfterEvents(Started(databases), events).sh;
    StartedRecorded(databases, later);
    AfterRecorded(Started(databases), events, later);
    StaysAt(databases, events);
    k := CutReplays(sh, n, later);
  }

  lemma StaysAt(databases: nat, events: seq<Event>)
    requires databases > 0
    ensures var sh := AfterEvents(Started(databases), events).sh;
            sh.databases == databases && sh.dbs.Keys == FreshDbs(databases).Keys
  {
    hide AfterEvents;
    StartedOk(databases);
    AfterAdvances(Started(databases), events);
  }

  lemma CutReplays(sh: Shared, n: nat, later: int) returns (k: nat)
    requires Recorded(sh, later) && n <= |LogBytes(sh.log)|
    ensures k <= |sh.log| == |sh.history| && WholeWithin(sh.log, k, n)
    ensures var r := ReplayFile(Fresh(sh.databases), LogBytes(sh.log)[..n], later);
            && (if ReadInChunks(sh.log, n)
                then r == Replay(if k == 0 then FreshDbs(sh.databases) else sh.history[k - 1], 0, false)
                else r.aborted)
            && (n == |LogBytes(sh.log)| && !r.aborted ==> r.dbs == sh.dbs)
  {
    hide LogBytes, ReplayFile, ReplayOne, PlainDbs, ReadInChunks;
    k := ReplayOfCutLog(Fresh(sh.databases), sh.log, n, later);
    if k == 0 {
      assert Records(sh.log[..0]) == [];
    } else {
      assert Remembered(sh, k, later);
    }
    if n == |LogBytes(sh.log)| {
      assert sh.log[..k] == sh.log;
    }
  }
}
