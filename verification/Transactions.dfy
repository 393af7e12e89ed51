// Dispatching commands, and transactions over many interleaved connections:
// server/dispatcher.py, commands/transactions.py and transaction/manager.py as steps of a state machine.

module Transactions {
  import opened Bytes
  import opened Resp
  import opened Keyspaces
  import opened Commands

  type Watched = map<(int, bytes), nat>

  /** The transaction state of one connection. */
  datatype Tx = Tx(inTransaction: bool, queued: seq<seq<bytes>>, watched: Watched, dirty: bool)

  const IDLE: Tx := Tx(false, [], map[], false)

  datatype Conn = Conn(dbId: int, tx: Tx)

  /**
    * What all connections share: the keyspaces, how many of them clients may select, and the commands logged so far.
    * history[k] remembers what the keyspaces held right after log[k] was executed.
    */
  datatype Shared = Shared(dbs: map<int, KS>, databases: nat, log: seq<seq<bytes>>, history: seq<map<int, KS>>)

  datatype Answer =
    | Silent
    | UnknownCommand
    | WrongArity
    | Queued
    | Rejected
    | Aborted
    | Result(reply: Reply)
    | Results(answers: seq<Answer>)

  /** The answers that are error responses: such a command is not logged. */
  predicate IsError(a: Answer) {
    a.UnknownCommand? || a.WrongArity? || a.Rejected? || (a.Result? && a.reply.Oops?)
  }

  /** The outcome of one dispatched command. */
  datatype Outcome = Outcome(sh: Shared, c: Conn, answer: Answer)

  function KindOfCommand(cmd: seq<bytes>): Option<Kind> {
    if cmd == [] then None else KindOf(Upper(cmd[0]))
  }

  predicate IsExec(cmd: seq<bytes>) {
    KindOfCommand(cmd) == Some(ExecKind)
  }

  /** Only known commands that are not transaction control are ever queued. */
  predicate Queueable(cmd: seq<bytes>) {
    var k := KindOfCommand(cmd);
    k.Some? && !IsControl(k.value)
  }

  predicate QueueOk(queue: seq<seq<bytes>>) {
    forall i :: 0 <= i < |queue| ==> Queueable(queue[i])
  }

  predicate ConnOk(sh: Shared, c: Conn) {
    && (forall d :: 0 <= d < sh.databases ==> d in sh.dbs)
    && c.dbId in sh.dbs
    && QueueOk(c.tx.queued)
    && !c.tx.dirty
    && (!c.tx.inTransaction ==> c.tx.queued == [])
    && forall w :: w in c.tx.watched ==> w.0 in sh.dbs
  }

  function VersionOf(sh: Shared, w: (int, bytes)): nat {
    if w.0 in sh.dbs then Version(sh.dbs[w.0], w.1) else 0
  }

  function StoredOf(sh: Shared, w: (int, bytes)): Option<Entry> {
    if w.0 in sh.dbs then Stored(sh.dbs[w.0], w.1) else None
  }

  /** check_watched_keys. */
  predicate WatchedUnchanged(sh: Shared, tx: Tx) {
    !tx.dirty && forall w :: w in tx.watched ==> VersionOf(sh, w) == tx.watched[w]
  }

  function WatchAll(ks: KS, db: int, keys: seq<bytes>, watched: Watched): Watched
    decreases |keys|
  {
    if keys == [] then watched else WatchAll(ks, db, keys[1..], watched[(db, keys[0]) := Version(ks, keys[0])])
  }

  function Flushed(dbs: map<int, KS>): map<int, KS> {
    map d | d in dbs :: Flush(dbs[d])
  }

  /** A write that was not refused is logged under its normalised name. */
  function Logged(kind: Kind, cmd: seq<bytes>, o: Outcome): Outcome
    requires cmd != []
  {
    if IsWrite(kind) && !IsError(o.answer) then
      o.(sh := o.sh.(log := o.sh.log + [[Upper(cmd[0])] + cmd[1..]], history := o.sh.history + [o.sh.dbs]))
    else o
  }

  function Run(sh: Shared, c: Conn, kind: Kind, cmd: seq<bytes>, now: int): Outcome
    requires ConnOk(sh, c) && cmd != [] && KindOfCommand(cmd) == Some(kind)
    decreases if kind == ExecKind then 2 else 0, 0
  {
    var args, tx := cmd[1..], c.tx;
    match kind
    case MultiKind =>
      if tx.inTransaction then Outcome(sh, c, Rejected)
      else Outcome(sh, c.(tx := tx.(inTransaction := true, queued := [])), Result(Fine(OK)))
    case DiscardKind =>
      if !tx.inTransaction then Outcome(sh, c, Rejected)
      else Outcome(sh, c.(tx := IDLE), Result(Fine(OK)))
    case WatchKind =>
      if tx.inTransaction then Outcome(sh, c, Rejected)
      else Outcome(sh, c.(tx := tx.(watched := WatchAll(sh.dbs[c.dbId], c.dbId, args, tx.watched))), Result(Fine(OK)))
    case UnwatchKind =>
      Outcome(sh, c.(tx := tx.(watched := map[], dirty := false)), Result(Fine(OK)))
    case ExecKind =>
      if !tx.inTransaction then Outcome(sh, c, Rejected)
      else if !WatchedUnchanged(sh, tx) then Outcome(sh, c.(tx := IDLE), Aborted)
      else RunQueue(sh, c.(tx := IDLE), tx.queued, now)
    case SelectKind =>
      (match (if args == [] then None else ParseInt(args[0]))
       case None => Outcome(sh, c, Result(Oops(NotAnInteger)))
       case Some(n) =>
         if n < 0 || n >= sh.databases then Outcome(sh, c, Result(Oops(OutOfRange)))
         else Outcome(sh, c.(dbId := n), Result(Fine(OK))))
    case FlushAllKind =>
      Outcome(sh.(dbs := Flushed(sh.dbs)), c, Result(Fine(OK)))
    case _ =>
      var (ks, reply) := Execute(kind, args, sh.dbs[c.dbId], now);
      Outcome(sh.(dbs := sh.dbs[c.dbId := ks]), c, Result(reply))
  }

  /** dispatch_command, for an authenticated client that is not in pub/sub mode. */
  function Dispatch(sh: Shared, c: Conn, cmd: seq<bytes>, now: int): Outcome
    requires ConnOk(sh, c)
    decreases if IsExec(cmd) then 2 else 0, 1
  {
    if cmd == [] then Outcome(sh, c, Silent)
    else
      match KindOfCommand(cmd)
      case None => Outcome(sh, c, UnknownCommand)
      case Some(kind) =>
        if !ArityFits(kind, |cmd|) then Outcome(sh, c, WrongArity)
        else if c.tx.inTransaction && !IsControl(kind) then
          Outcome(sh, c.(tx := c.tx.(queued := c.tx.queued + [cmd])), Queued)
        else Logged(kind, cmd, Run(sh, c, kind, cmd, now))
  }

  /** The loop of EXEC: every queued command is dispatched, in order. */
  function RunQueue(sh: Shared, c: Conn, queue: seq<seq<bytes>>, now: int): (o: Outcome)
    requires ConnOk(sh, c) && c.tx == IDLE && QueueOk(queue)
    ensures o.answer.Results?
    decreases 1, |queue|
  {
    if queue == [] then Outcome(sh, c, Results([]))
    else
      var o := Dispatch(sh, c, queue[0], now);
      PlainKeepsIdle(sh, c, queue[0], now);
      var rest := RunQueue(o.sh, o.c, queue[1..], now);
      rest.(answer := Results([o.answer] + rest.answer.answers))
  }

  /** Outside a transaction a queueable command leaves the connection outside one. */
  lemma PlainKeepsIdle(sh: Shared, c: Conn, cmd: seq<bytes>, now: int)
    requires ConnOk(sh, c) && c.tx == IDLE && Queueable(cmd)
    ensures var o := Dispatch(sh, c, cmd, now); ConnOk(o.sh, o.c) && o.c.tx == IDLE
    decreases 0, 2
  {
  }

  // ---------------------------------------------------------------------------------------------
  // What one dispatch does to the shared state and to its own connection
  // ---------------------------------------------------------------------------------------------

  /** Every keyspace makes steps that its versions record; none appears or disappears; the log only grows. */
  ghost predicate Advances(a: Shared, b: Shared) {
    && b.dbs.Keys == a.dbs.Keys && b.databases == a.databases
    && (forall d :: d in a.dbs ==> Step(a.dbs[d], b.dbs[d]))
    && a.log <= b.log
  }

  lemma AdvancesRefl(a: Shared)
    ensures Advances(a, a)
  {
    forall d | d in a.dbs
      ensures Step(a.dbs[d], a.dbs[d])
    {
      StepRefl(a.dbs[d]);
    }
  }

  lemma AdvancesTrans(a: Shared, b: Shared, c: Shared)
    requires Advances(a, b) && Advances(b, c)
    ensures Advances(a, c)
  {
    hide Step;
    forall d | d in a.dbs
      ensures Step(a.dbs[d], c.dbs[d])
    {
      StepTrans(a.dbs[d], b.dbs[d], c.dbs[d]);
    }
  }

  /** Another connection stays in order whatever this one does. */
  lemma ConnOkAdvances(a: Shared, b: Shared, c: Conn)
    requires ConnOk(a, c) && Advances(a, b)
    ensures ConnOk(b, c)
  {
    hide Step;
    assert forall d :: d in a.dbs <==> d in b.dbs.Keys;
  }

  /** EXEC and DISCARD leave the connection in order, and the queue they take is one that can run. */
  lemma IdleOk(sh: Shared, c: Conn)
    requires ConnOk(sh, c)
    ensures ConnOk(sh, c.(tx := IDLE)) && QueueOk(c.tx.queued)
  {
  }

  /** WATCH records exactly the keys it names, in the connection's database, and forgets none watched before. */
  lemma {:induction false} WatchAllMembers(ks: KS, db: int, keys: seq<bytes>, watched: Watched, w: (int, bytes))
    ensures w in WatchAll(ks, db, keys, watched) <==> w in watched || (w.0 == db && w.1 in keys)
    ensures w in WatchAll(ks, db, keys, watched) ==>
              WatchAll(ks, db, keys, watched)[w] == if w.0 == db && w.1 in keys then Version(ks, w.1) else watched[w]
    decreases |keys|
  {
    if keys != [] {
      WatchAllMembers(ks, db, keys[1..], watched[(db, keys[0]) := Version(ks, keys[0])], w);
    }
  }

  lemma WatchAllOk(sh: Shared, c: Conn, keys: seq<bytes>)
    requires ConnOk(sh, c)
    ensures ConnOk(sh, c.(tx := c.tx.(watched := WatchAll(sh.dbs[c.dbId], c.dbId, keys, c.tx.watched))))
  {
    hide QueueOk;
    var watched := WatchAll(sh.dbs[c.dbId], c.dbId, keys, c.tx.watched);
    forall w | w in watched
      ensures w.0 in sh.dbs
    {
      WatchAllMembers(sh.dbs[c.dbId], c.dbId, keys, c.tx.watched, w);
    }
  }

  lemma DataAdvances(sh: Shared, db: int, kind: Kind, args: seq<bytes>, now: int)
    requires IsData(kind) && db in sh.dbs
    ensures Advances(sh, sh.(dbs := sh.dbs[db := Execute(kind, args, sh.dbs[db], now).0]))
  {
    hide Step, Execute;
    AdvancesRefl(sh);
    StepExecute(kind, args, sh.dbs[db], now);
  }

  lemma FlushAllAdvances(sh: Shared)
    ensures Advances(sh, sh.(dbs := Flushed(sh.dbs)))
  {
    hide Step, Flush;
    forall d | d in sh.dbs
      ensures Step(sh.dbs[d], Flush(sh.dbs[d]))
    {
      StepFlush(sh.dbs[d]);
    }
  }

  lemma DataRunAdvances(sh: Shared, c: Conn, kind: Kind, cmd: seq<bytes>, now: int)
    requires ConnOk(sh, c) && cmd != [] && KindOfCommand(cmd) == Some(kind) && IsData(kind)
    ensures var o := Run(sh, c, kind, cmd, now); Advances(sh, o.sh) && ConnOk(o.sh, o.c)
  {
    hide Step, Advances, Execute, KindOf;
    DataAdvances(sh, c.dbId, kind, cmd[1..], now);
  }

  lemma {:induction false} RunAdvances(sh: Shared, c: Conn, kind: Kind, cmd: seq<bytes>, now: int)
    requires ConnOk(sh, c) && cmd != [] && KindOfCommand(cmd) == Some(kind)
    ensures var o := Run(sh, c, kind, cmd, now); Advances(sh, o.sh) && ConnOk(o.sh, o.c)
    decreases if kind == ExecKind then 2 else 0, 0
  {
    hide Step, Advances, Execute, KindOf, WatchAll, QueueOk, Flushed, ParseInt, RunQueue;
    AdvancesRefl(sh);
    IdleOk(sh, c);
    if IsData(kind) {
      DataRunAdvances(sh, c, kind, cmd, now);
    } else if kind == FlushAllKind {
      FlushAllAdvances(sh);
      ConnOkAdvances(sh, sh.(dbs := Flushed(sh.dbs)), c);
    } else if kind == WatchKind {
      WatchAllOk(sh, c, cmd[1..]);
    } else if kind == ExecKind {
      if c.tx.inTransaction && WatchedUnchanged(sh, c.tx) {
        RunQueueAdvances(sh, c.(tx := IDLE), c.tx.queued, now);
      }
    } else {
      ControlAdvances(sh, c, kind, cmd, now);
    }
  }

  /** MULTI, DISCARD, UNWATCH and SELECT touch only the connection. */
  lemma ControlAdvances(sh: Shared, c: Conn, kind: Kind, cmd: seq<bytes>, now: int)
    requires ConnOk(sh, c) && cmd != [] && KindOfCommand(cmd) == Some(kind)
    requires kind == MultiKind || kind == DiscardKind || kind == UnwatchKind || kind == SelectKind
    ensures var o := Run(sh, c, kind, cmd, now); o.sh == sh && ConnOk(o.sh, o.c)
  {
    hide KindOf, ParseInt, WatchAll, Flushed;
  }

  lemma {:induction false} DispatchAdvances(sh: Shared, c: Conn, cmd: seq<bytes>, now: int)
    requires ConnOk(sh, c)
    ensures var o := Dispatch(sh, c, cmd, now); Advances(sh, o.sh) && ConnOk(o.sh, o.c)
    decreases if IsExec(cmd) then 2 else 0, 1
  {
    hide Step, Run, KindOf;
    AdvancesRefl(sh);
    var k := KindOfCommand(cmd);
    if k.Some? {
      RunAdvances(sh, c, k.value, cmd, now);
    }
  }

  lemma {:induction false} RunQueueAdvances(sh: Shared, c: Conn, queue: seq<seq<bytes>>, now: int)
    requires ConnOk(sh, c) && c.tx == IDLE && QueueOk(queue)
    ensures var o := RunQueue(sh, c, queue, now); Advances(sh, o.sh) && ConnOk(o.sh, o.c) && o.c.tx == IDLE
    ensures |RunQueue(sh, c, queue, now).answer.answers| == |queue|
    decreases 1, |queue|
  {
    hide Advances, Dispatch, KindOf;
    if queue == [] {
      AdvancesRefl(sh);
    } else {
      var o := Dispatch(sh, c, queue[0], now);
      DispatchAdvances(sh, c, queue[0], now);
      PlainKeepsIdle(sh, c, queue[0], now);
      RunQueueAdvances(o.sh, o.c, queue[1..], now);
      AdvancesTrans(sh, o.sh, RunQueue(sh, c, queue, now).sh);
    }
  }

  // ---------------------------------------------------------------------------------------------
  // All connections together
  // ---------------------------------------------------------------------------------------------

  datatype Server = Server(sh: Shared, conns: map<int, Conn>)

  datatype Event =
    | Connect(id: int)
    | Disconnect(id: int)
    | Command(id: int, cmd: seq<bytes>, now: int)
    | Expire(db: int, key: bytes, now: int)  // lazy or active expiry of a due entry
    | Evict(db: int, key: bytes)             // eviction under memory pressure

  ghost predicate ServerOk(s: Server) {
    && 0 < s.sh.databases
    && (forall d :: d in s.sh.dbs ==> WellFormed(s.sh.dbs[d]))
    && (forall d :: 0 <= d < s.sh.databases ==> d in s.sh.dbs)
    && (forall id :: id in s.conns ==> ConnOk(s.sh, s.conns[id]))
  }

  function FreshDbs(n: nat): (dbs: map<int, KS>)
    ensures forall d :: d in dbs <==> 0 <= d < n
    ensures forall d :: d in dbs ==> dbs[d] == EMPTY
  {
    if n == 0 then map[] else FreshDbs(n - 1)[n - 1 := EMPTY]
  }

  function Started(databases: nat): Server {
    Server(Shared(FreshDbs(databases), databases, [], []), map[])
  }

  function Next(s: Server, ev: Event): Server
    requires ServerOk(s)
  {
    match ev
    case Connect(id) => s.(conns := s.conns[id := Conn(0, IDLE)])
    case Disconnect(id) => s.(conns := s.conns - {id})
    case Command(id, cmd, now) =>
      if id !in s.conns then s
      else var o := Dispatch(s.sh, s.conns[id], cmd, now); Server(o.sh, s.conns[id := o.c])
    case Expire(db, key, now) =>
      if db !in s.sh.dbs then s else s.(sh := s.sh.(dbs := s.sh.dbs[db := Swept(s.sh.dbs[db], key, now)]))
    case Evict(db, key) =>
      if db !in s.sh.dbs then s else s.(sh := s.sh.(dbs := s.sh.dbs[db := Delete(s.sh.dbs[db], key)]))
  }

  lemma NextAdvances(s: Server, ev: Event)
    requires ServerOk(s)
    ensures Advances(s.sh, Next(s, ev).sh) && ServerOk(Next(s, ev))
  {
    hide Step, Dispatch, Swept, Delete;
    AdvancesRefl(s.sh);
    if ev.Command? && ev.id in s.conns {
      DispatchAdvances(s.sh, s.conns[ev.id], ev.cmd, ev.now);
    }
    if ev.Expire? && ev.db in s.sh.dbs {
      StepSwept(s.sh.dbs[ev.db], ev.key, ev.now);
    }
    if ev.Evict? && ev.db in s.sh.dbs {
      StepDelete(s.sh.dbs[ev.db], ev.key);
    }
    AdvancedOk(s, Next(s, ev));
  }

  lemma AdvancedOk(s: Server, s': Server)
    requires ServerOk(s) && Advances(s.sh, s'.sh)
    requires forall id :: id in s'.conns ==>
               || (id in s.conns && s'.conns[id] == s.conns[id])
               || ConnOk(s'.sh, s'.conns[id]) || s'.conns[id] == Conn(0, IDLE)
    ensures ServerOk(s')
  {
    forall d | d in s'.sh.dbs
      ensures WellFormed(s'.sh.dbs[d])
    {
      assert d in s.sh.dbs.Keys;
      assert Step(s.sh.dbs[d], s'.sh.dbs[d]);
    }
    forall d | 0 <= d < s'.sh.databases
      ensures d in s'.sh.dbs
    {
      assert d in s.sh.dbs.Keys;
    }
    forall id | id in s'.conns
      ensures ConnOk(s'.sh, s'.conns[id])
    {
      if id in s.conns && s'.conns[id] == s.conns[id] {
        ConnOkAdvances(s.sh, s'.sh, s.conns[id]);
      }
    }
  }

  /** A run of events. */
  function AfterEvents(s: Server, events: seq<Event>): (r: Server)
    requires ServerOk(s)
    ensures ServerOk(r)
    decreases |events|
  {
    if events == [] then s else NextAdvances(s, events[0]); AfterEvents(Next(s, events[0]), events[1..])
  }

  lemma StartedOk(databases: nat)
    requires databases > 0
    ensures ServerOk(Started(databases))
  {
  }

  /** Versions and counters over any run: nothing that was ever known is reissued. */
  lemma {:induction false} AfterAdvances(s: Server, events: seq<Event>)
    requires ServerOk(s)
    ensures Advances(s.sh, AfterEvents(s, events).sh)
    decreases |events|
  {
    hide ServerOk, Advances, Next;
    if events == [] {
      AdvancesRefl(s.sh);
    } else {
      NextAdvances(s, events[0]);
      AfterAdvances(Next(s, events[0]), events[1..]);
      AdvancesTrans(s.sh, Next(s, events[0]).sh, AfterEvents(s, events).sh);
    }
  }

  lemma ExecCarriedOut(sh: Shared, c: Conn, exec: seq<bytes>, now: int)
    requires ConnOk(sh, c) && IsExec(exec) && ArityFits(ExecKind, |exec|)
    requires Dispatch(sh, c, exec, now).answer.Results?
    ensures WatchedUnchanged(sh, c.tx)
    ensures var o := Dispatch(sh, c, exec, now);
            var q := RunQueue(sh, c.(tx := IDLE), c.tx.queued, now);
            && o.answer == q.answer && |q.answer.answers| == |c.tx.queued|
            && o.sh.dbs == q.sh.dbs && o.c == q.c && o.c.tx == IDLE
            && o.sh.log == q.sh.log + [[Upper(exec[0])]]
  {
    hide KindOf, Dispatch, RunQueue, Advances, WatchedUnchanged;
    ExecRuns(sh, c, exec, now);
    RunQueueAdvances(sh, c.(tx := IDLE), c.tx.queued, now);
    assert [Upper(exec[0])] + exec[1..] == [Upper(exec[0])];
  }

  lemma ExecRuns(sh: Shared, c: Conn, exec: seq<bytes>, now: int)
    requires ConnOk(sh, c) && IsExec(exec) && ArityFits(ExecKind, |exec|)
    ensures Dispatch(sh, c, exec, now) ==
            Logged(ExecKind, exec,
                   if !c.tx.inTransaction then Outcome(sh, c, Rejected)
                   else if !WatchedUnchanged(sh, c.tx) then Outcome(sh, c.(tx := IDLE), Aborted)
                   else RunQueue(sh, c.(tx := IDLE), c.tx.queued, now))
  {
    hide KindOf, Execute, RunQueue, WatchedUnchanged, QueueOk;
  }

  /** And when any watched key was changed since, EXEC changes nothing but the connection's own transaction state. */
  lemma ChangedMeansAborted(sh: Shared, c: Conn, exec: seq<bytes>, now: int, w: (int, bytes))
    requires ConnOk(sh, c) && IsExec(exec) && ArityFits(ExecKind, |exec|) && c.tx.inTransaction
    requires w in c.tx.watched && VersionOf(sh, w) != c.tx.watched[w]
    ensures var o := Dispatch(sh, c, exec, now);
            o.answer == Aborted && o.sh.dbs == sh.dbs && o.c == c.(tx := IDLE)
  {
    hide KindOf, Execute, RunQueue;
    ExecRuns(sh, c, exec, now);
  }
}
