// The objects behind the transaction state machine: TransactionState, connections, and the dispatcher that
// changes keyspaces, connections and the log step by step.

module Dispatchers {
  import opened Bytes
  import opened Resp
  import opened Keyspaces
  import opened Commands
  import opened Handlers
  import opened Transactions
  import opened AppendOnlyLog

  class TransactionState {
    var inTransaction: bool
    var queuedCommands: seq<seq<bytes>>
    var watchedKeys: Watched
    var dirty: bool

    function View(): Tx
      reads this
    {
      Tx(inTransaction, queuedCommands, watchedKeys, dirty)
    }

    constructor ()
      ensures View() == IDLE
    {
      inTransaction, queuedCommands, watchedKeys, dirty := false, [], map[], false;
    }

    method Multi()
      modifies this
      ensures View() == old(View()).(inTransaction := true, queued := [])
    {
      inTransaction := true;
      queuedCommands := [];
    }

    method Discard()
      modifies this
      ensures View() == IDLE.(watched := old(watchedKeys))
    {
      inTransaction := false;
      queuedCommands := [];
      dirty := false;
    }

    method Watch(db: int, key: bytes, version: nat)
      modifies this
      ensures View() == old(View()).(watched := old(watchedKeys)[(db, key) := version])
    {
      watchedKeys := watchedKeys[(db, key) := version];
    }

    method Unwatch()
      modifies this
      ensures View() == old(View()).(watched := map[], dirty := false)
    {
      watchedKeys := map[];
      dirty := false;
    }

    /** What DISCARD and every EXEC do at last. */
    method Reset()
      modifies this
      ensures View() == IDLE
    {
      Discard();
      Unwatch();
    }

    method QueueCommand(cmd: seq<bytes>)
      modifies this
      ensures View() == old(View()).(queued := old(queuedCommands) + [cmd])
    {
      queuedCommands := queuedCommands + [cmd];
    }

    /** Goes through the watched keys in any order and stops at the first whose version moved. */
    method CheckWatchedKeys(dispatcher: CommandDispatcher) returns (safe: bool)
      requires dispatcher.Valid()
      requires forall w :: w in watchedKeys ==> w.0 in dispatcher.dbs
      ensures safe <==>
              !dirty && forall w :: w in watchedKeys ==> Version(dispatcher.dbs[w.0].View(), w.1) == watchedKeys[w]
      ensures safe <==> WatchedUnchanged(dispatcher.View(), View())
    {
      if dirty {
        return false;
      }
      var left := watchedKeys.Keys;
      ghost var sh := dispatcher.View();
      while left != {}
        invariant left <= watchedKeys.Keys
        invariant forall w :: w in watchedKeys && w !in left ==>
                                Version(dispatcher.dbs[w.0].View(), w.1) == VersionOf(sh, w) == watchedKeys[w]
        decreases left
      {
        var w :| w in left;
        var keyspace := dispatcher.dbs[w.0];
        dispatcher.ViewAt(w.0);
        var current := Version(keyspace.View(), w.1);
        if current != watchedKeys[w] {
          return false;
        }
        left := left - {w};
      }
      safe := true;
    }
  }

  class ClientConnection {
    var dbId: int
    const transaction: TransactionState

    function View(): Conn
      reads this, transaction
    {
      Conn(dbId, transaction.View())
    }

    constructor ()
      ensures View() == Conn(0, IDLE) && fresh(transaction)
    {
      dbId := 0;
      transaction := new TransactionState();
    }
  }

  /** The databases of a new server, each with a keyspace of its own. */
  method NewKeyspaces(databases: nat) returns (m: map<int, Keyspace>, ghost ks: set<Keyspace>)
    ensures fresh(ks)
    ensures forall d :: d in m <==> 0 <= d < databases
    ensures forall d :: d in m ==> m[d] in ks && m[d].Valid() && m[d].View() == EMPTY
    ensures forall i, j :: i in m && j in m && i != j ==> m[i] != m[j]
  {
    hide WellFormed;
    m, ks := map[], {};
    for i := 0 to databases
      invariant fresh(ks)
      invariant forall d :: d in m <==> 0 <= d < i
      invariant forall d :: d in m ==> m[d] in ks && m[d].Valid() && m[d].View() == EMPTY
      invariant forall i, j :: i in m && j in m && i != j ==> m[i] != m[j]
    {
      var keyspace := new Keyspace();
      m := m[i := keyspace];
      ks := ks + {keyspace};
    }
  }

  class CommandDispatcher {
    const dbs: map<int, Keyspace>
    const databases: nat
    const aof: AOFManager
    ghost const keyspaces: set<Keyspace>
    ghost var history: seq<map<int, KS>>

    ghost predicate Valid()
      reads this, keyspaces, aof
    {
      && (forall i, j :: i in dbs && j in dbs && i != j ==> dbs[i] != dbs[j])
      && (forall d :: d in dbs <==> 0 <= d < databases)
      && (forall d :: d in dbs ==> dbs[d] in keyspaces)
      && (forall d :: d in dbs ==> dbs[d].Valid())
      && aof.Valid() && aof.enabled
    }

    ghost function Repr(): set<object> {
      {this as object, aof} + keyspaces
    }

    ghost function View(): Shared
      reads this, keyspaces, aof
    {
      Shared(map d | d in dbs && dbs[d] in keyspaces :: dbs[d].View(), databases, aof.records, history)
    }

    lemma ViewAt(db: int)
      requires Valid() && db in dbs
      ensures db in View().dbs && View().dbs[db] == dbs[db].View()
    {
    }

    constructor (databases: nat, always: bool)
      ensures Valid() && fresh(Repr())
      ensures View() == Started(databases).sh
    {
      hide WellFormed, AOFManager.Valid;
      var m, ks := NewKeyspaces(databases);
      dbs, keyspaces, history := m, ks, [];
      this.databases := databases;
      aof := new AOFManager(true, always);
      new;
      assert View().dbs == FreshDbs(databases);
    }

    /** The keyspace commands: those of the keyspace object itself, and those that edit a stored value. */
    method ExecuteOn(db: int, kind: Kind, args: seq<bytes>, now: int) returns (reply: Reply)
      requires Valid() && db in dbs && IsData(kind)
      modifies keyspaces
      ensures Valid()
      ensures View() == old(View()).(dbs := old(View()).dbs[db := Execute(kind, args, old(dbs[db].View()), now).0])
      ensures reply == Execute(kind, args, old(dbs[db].View()), now).1
    {
      hide Execute, WellFormed, EnoughArgs;
      var keyspace := dbs[db];
      ghost var before := View();
      reply := RunCommand(keyspace, kind, args, now);
      forall d | d in dbs && d != db
        ensures dbs[d].Valid() && dbs[d].View() == before.dbs[d]
      {
        assert dbs[d] != keyspace;
      }
      assert View().dbs == before.dbs[db := keyspace.View()];
    }

    method FlushDatabase(db: int)
      requires Valid() && db in dbs
      modifies keyspaces
      ensures Valid()
      ensures View() == old(View()).(dbs := old(View()).dbs[db := Flush(old(dbs[db].View()))])
    {
      hide Flush, WellFormed;
      var keyspace := dbs[db];
      ghost var before := View();
      keyspace.FlushKeys();
      forall d | d in dbs && d != db
        ensures dbs[d].Valid() && dbs[d].View() == before.dbs[d]
      {
        assert dbs[d] != keyspace;
      }
      assert View().dbs == before.dbs[db := keyspace.View()];
    }

    method FlushEveryDatabase()
      requires Valid()
      modifies keyspaces
      ensures Valid()
      ensures View() == old(View()).(dbs := Flushed(old(View()).dbs))
    {
      hide Valid, View, FlushedTo, Flushed;
      ghost var was := View();
      DatabasesAre();
      FlushedNone(was.dbs);
      for d := 0 to databases
        invariant Valid() && View() == was.(dbs := FlushedTo(was.dbs, d))
      {
        DatabasesAre();
        ViewAt(d);
        FlushedOne(was.dbs, d);
        FlushDatabase(d);
      }
      DatabasesAre();
      FlushedAll(was.dbs, databases);
    }

    lemma DatabasesAre()
      requires Valid()
      ensures forall d :: d in View().dbs <==> 0 <= d < databases
      ensures forall d :: d in dbs <==> 0 <= d < databases
    {
      hide WellFormed;
    }

    /** WATCH records the current version of every key it names. */
    method WatchKeys(client: ClientConnection, keys: seq<bytes>)
      requires Valid() && client.dbId in dbs
      modifies client.transaction
      ensures client.transaction.View() ==
              old(client.transaction.View()).(watched := WatchAll(dbs[client.dbId].View(), client.dbId, keys,
                                                                  old(client.transaction.watchedKeys)))
    {
      var keyspace, tx := dbs[client.dbId], client.transaction;
      for i := 0 to |keys|
        invariant tx.View() == old(tx.View()).(watched := tx.watchedKeys)
        invariant WatchAll(keyspace.View(), client.dbId, keys, old(tx.watchedKeys))
               == WatchAll(keyspace.View(), client.dbId, keys[i..], tx.watchedKeys)
      {
        assert keys[i..][0] == keys[i] && keys[i..][1..] == keys[i + 1..];
        tx.Watch(client.dbId, keys[i], Version(keyspace.View(), keys[i]));
      }
    }

    method RunWatch(client: ClientConnection, keys: seq<bytes>) returns (a: Answer)
      requires Valid() && client.dbId in dbs
      modifies client.transaction
      ensures a == if old(client.transaction.inTransaction) then Rejected else Result(Fine(OK))
      ensures client.transaction.View() ==
              if a == Rejected then old(client.transaction.View())
              else
                old(client.transaction.View()).(watched := WatchAll(dbs[client.dbId].View(), client.dbId, keys,
                                                                    old(client.transaction.watchedKeys)))
    {
      if client.transaction.inTransaction {
        return Rejected;
      }
      WatchKeys(client, keys);
      a := Result(Fine(OK));
    }

    method RunExec(client: ClientConnection, now: int) returns (a: Answer)
      requires Valid() && ConnOk(View(), client.View())
      modifies this`history, keyspaces, aof, client, client.transaction
      ensures Valid()
      ensures var sh, c := old(View()), old(client.View());
              if !c.tx.inTransaction then a == Rejected && View() == sh && client.View() == c
              else if !WatchedUnchanged(sh, c.tx) then a == Aborted && View() == sh && client.View() == c.(tx := IDLE)
              else var o := RunQueue(sh, c.(tx := IDLE), c.tx.queued, now);
                   View() == o.sh && client.View() == o.c && a == o.answer
      ensures var sh, tx := old(View()), old(client.View()).tx;
              tx.inTransaction ==>
                if forall w :: w in tx.watched ==> VersionOf(sh, w) == tx.watched[w] then
                  a.Results? && |a.answers| == |tx.queued|
                else a == Aborted
      decreases 1, 0
    {
      hide Dispatch, WellFormed, QueueOk, ConnOk, RunQueue, WatchedUnchanged;
      QueuesOk(View(), client.View());
      ExecIsDecided(View(), client.View(), now);
      if !client.transaction.inTransaction {
        return Rejected;
      }
      ghost var sh := View();
      var safe := client.transaction.CheckWatchedKeys(this);
      var queued := client.transaction.queuedCommands;
      ghost var c := client.View();
      IdleOk(sh, c);
      client.transaction.Reset();
      assert View() == sh;
      if !safe {
        return Aborted;
      }
      a := RunQueued(client, queued, now);
    }

    /** The loop of EXEC. */
    method RunQueued(client: ClientConnection, queued: seq<seq<bytes>>, now: int) returns (a: Answer)
      requires Valid() && ConnOk(View(), client.View()) && client.View().tx == IDLE && QueueOk(queued)
      modifies this`history, keyspaces, aof, client, client.transaction
      ensures Valid()
      ensures var o := RunQueue(old(View()), old(client.View()), queued, now);
              View() == o.sh && client.View() == o.c && a == o.answer
      decreases 0, 3
    {
      hide Dispatch, WellFormed, QueueOk, ConnOk, KindOf, RunQueue;
      var results := [];
      assert queued[0..] == queued;
      ghost var all := RunQueue(View(), client.View(), queued, now);
      for i := 0 to |queued|
        invariant Valid() && ConnOk(View(), client.View()) && client.View().tx == IDLE && QueueOk(queued[i..])
        invariant all == Ahead(results, RunQueue(View(), client.View(), queued[i..], now))
      {
        QueueStep(View(), client.View(), queued, i, now);
        var res := DispatchCommand(client, queued[i], now);
        AheadTwice(results, res, RunQueue(View(), client.View(), queued[i + 1..], now));
        results := results + [res];
      }
      QueueEnd(View(), client.View(), queued, now);
      a := Results(results);
      assert results + [] == results;
    }

    method RunControl(client: ClientConnection, kind: Kind, cmd: seq<bytes>, now: int) returns (a: Answer)
      requires Valid() && ConnOk(View(), client.View()) && cmd != [] && KindOfCommand(cmd) == Some(kind)
      requires IsControl(kind) && kind != ExecKind
      modifies client.transaction
      ensures Valid()
      ensures var o := Run(old(View()), old(client.View()), kind, cmd, now);
              View() == o.sh && client.View() == o.c && a == o.answer
    {
      hide KindOf, WellFormed, Control, ConnOk, Run, AOFManager.Valid;
      ControlIs(View(), client.View(), kind, cmd, now);
      ViewAt(client.dbId);
      a := Controlled(client, kind, cmd[1..]);
    }

    method Controlled(client: ClientConnection, kind: Kind, args: seq<bytes>) returns (a: Answer)
      requires Valid() && client.dbId in dbs && IsControl(kind) && kind != ExecKind
      modifies client.transaction
      ensures (client.View(), a) == Control(dbs[client.dbId].View(), old(client.View()), kind, args)
    {
      hide CommandDispatcher.Valid, Keyspace.View, WatchAll;
      if kind == MultiKind {
        a := RunMulti(client);
      } else if kind == DiscardKind {
        a := RunDiscard(client);
      } else if kind == UnwatchKind {
        client.transaction.Unwatch();
        a := Result(Fine(OK));
      } else {
        a := RunWatch(client, args);
      }
    }

    method RunMulti(client: ClientConnection) returns (a: Answer)
      modifies client.transaction
      ensures var tx := old(client.transaction.View());
              if tx.inTransaction then a == Rejected && client.transaction.View() == tx
              else a == Result(Fine(OK)) && client.transaction.View() == tx.(inTransaction := true, queued := [])
    {
      if client.transaction.inTransaction {
        return Rejected;
      }
      client.transaction.Multi();
      a := Result(Fine(OK));
    }

    method RunDiscard(client: ClientConnection) returns (a: Answer)
      modifies client.transaction
      ensures var tx := old(client.transaction.View());
              if !tx.inTransaction then a == Rejected && client.transaction.View() == tx
              else a == Result(Fine(OK)) && client.transaction.View() == IDLE
    {
      if !client.transaction.inTransaction {
        return Rejected;
      }
      client.transaction.Reset();
      a := Result(Fine(OK));
    }

    method RunOther(client: ClientConnection, kind: Kind, cmd: seq<bytes>, now: int) returns (a: Answer)
      requires Valid() && ConnOk(View(), client.View()) && cmd != [] && KindOfCommand(cmd) == Some(kind)
      requires !IsControl(kind)
      modifies keyspaces, client`dbId
      ensures Valid()
      ensures var o := Run(old(View()), old(client.View()), kind, cmd, now);
              View() == o.sh && client.View() == o.c && a == o.answer
    {
      hide KindOf, WellFormed, Execute, Flushed, Run, ConnOk;
      QueuesOk(View(), client.View());
      OtherIs(View(), client.View(), kind, cmd, now);
      if kind == SelectKind {
        a := RunSelect(client, cmd[1..]);
      } else if kind == FlushAllKind {
        FlushEveryDatabase();
        a := Result(Fine(OK));
      } else {
        ViewAt(client.dbId);
        var reply := ExecuteOn(client.dbId, kind, cmd[1..], now);
        a := Result(reply);
      }
    }

    method RunSelect(client: ClientConnection, args: seq<bytes>) returns (a: Answer)
      requires Valid()
      modifies client`dbId
      ensures (client.View(), a) == Select(databases, old(client.View()), args)
    {
      hide ParseInt;
      var n := if args == [] then None else ParseInt(args[0]);
      if n == None {
        return Result(Oops(NotAnInteger));
      }
      if n.value < 0 || n.value >= databases {
        return Result(Oops(OutOfRange));
      }
      client.dbId := n.value;
      a := Result(Fine(OK));
    }

    method DispatchCommand(client: ClientConnection, cmd: seq<bytes>, now: int) returns (a: Answer)
      requires Valid() && ConnOk(View(), client.View())
      modifies this`history, keyspaces, aof, client, client.transaction
      ensures Valid()
      ensures var o := Dispatch(old(View()), old(client.View()), cmd, now);
              View() == o.sh && client.View() == o.c && a == o.answer
      decreases if IsExec(cmd) then 1 else 0, 2
    {
      hide KindOf, QueueOk, WellFormed, Run, ConnOk;
      if cmd == [] {
        return Silent;
      }
      var found := KindOfCommand(cmd);
      if found == None {
        return UnknownCommand;
      }
      var kind := found.value;
      if !ArityFits(kind, |cmd|) {
        return WrongArity;
      }
      if client.transaction.inTransaction && !IsControl(kind) {
        client.transaction.QueueCommand(cmd);
        return Queued;
      }
      a := RunAny(client, kind, cmd, now);
      if IsWrite(kind) && !IsError(a) {
        LogWrite(cmd);
      }
    }

    /** The write goes to the log under its normalised name. */
    method LogWrite(cmd: seq<bytes>)
      requires Valid() && cmd != []
      modifies this`history, aof
      ensures Valid()
      ensures View() == old(View()).(log := old(View()).log + [[Upper(cmd[0])] + cmd[1..]],
                                     history := old(View()).history + [old(View()).dbs])
    {
      hide WellFormed, Upper;
      history := history + [View().dbs];
      aof.AppendCommand([Upper(cmd[0])] + cmd[1..]);
    }

    method RunAny(client: ClientConnection, kind: Kind, cmd: seq<bytes>, now: int) returns (a: Answer)
      requires Valid() && ConnOk(View(), client.View()) && cmd != [] && KindOfCommand(cmd) == Some(kind)
      modifies this`history, keyspaces, aof, client, client.transaction
      ensures Valid()
      ensures var o := Run(old(View()), old(client.View()), kind, cmd, now);
              View() == o.sh && client.View() == o.c && a == o.answer
      decreases if kind == ExecKind then 1 else 0, 1
    {
      hide KindOf, QueueOk, WellFormed, Run, ConnOk, RunQueue;
      if kind == ExecKind {
        ExecIs(View(), client.View(), cmd, now);
        a := RunExec(client, now);
      } else if IsControl(kind) {
        a := RunControl(client, kind, cmd, now);
      } else {
        a := RunOther(client, kind, cmd, now);
      }
    }
  }

  /** The databases below n flushed, the others not yet. */
  function FlushedTo(dbs: map<int, KS>, n: int): map<int, KS> {
    map d | d in dbs :: if d < n then Flush(dbs[d]) else dbs[d]
  }

  lemma FlushedNone(dbs: map<int, KS>)
    requires forall d :: d in dbs ==> 0 <= d
    ensures FlushedTo(dbs, 0) == dbs
  {
  }

  lemma FlushedOne(dbs: map<int, KS>, d: int)
    requires d in dbs
    ensures d in FlushedTo(dbs, d) && FlushedTo(dbs, d)[d := Flush(FlushedTo(dbs, d)[d])] == FlushedTo(dbs, d + 1)
  {
    hide Flush;
  }

  lemma FlushedAll(dbs: map<int, KS>, n: int)
    requires forall d :: d in dbs ==> d < n
    ensures FlushedTo(dbs, n) == Flushed(dbs)
  {
    hide Flush;
  }

  lemma QueuesOk(sh: Shared, c: Conn)
    requires ConnOk(sh, c)
    ensures c.dbId in sh.dbs
    ensures forall w :: w in c.tx.watched ==> w.0 in sh.dbs
  {
  }

  /** SELECT, and its answer. */
  function Select(databases: nat, c: Conn, args: seq<bytes>): (Conn, Answer) {
    match (if args == [] then None else ParseInt(args[0]))
    case None => (c, Result(Oops(NotAnInteger)))
    case Some(n) =>
      if n < 0 || n >= databases then (c, Result(Oops(OutOfRange))) else (c.(dbId := n), Result(Fine(OK)))
  }

  lemma OtherIs(sh: Shared, c: Conn, kind: Kind, cmd: seq<bytes>, now: int)
    requires ConnOk(sh, c) && cmd != [] && KindOfCommand(cmd) == Some(kind) && !IsControl(kind)
    ensures c.dbId in sh.dbs
    ensures Run(sh, c, kind, cmd, now) ==
            if kind == SelectKind then
              Outcome(sh, Select(sh.databases, c, cmd[1..]).0, Select(sh.databases, c, cmd[1..]).1)
            else if kind == FlushAllKind then Outcome(sh.(dbs := Flushed(sh.dbs)), c, Result(Fine(OK)))
            else
              var (ks, reply) := Execute(kind, cmd[1..], sh.dbs[c.dbId], now);
              Outcome(sh.(dbs := sh.dbs[c.dbId := ks]), c, Result(reply))
  {
    hide KindOf, ParseInt, Execute, Flushed, QueueOk;
  }

  /** MULTI, DISCARD, UNWATCH and WATCH, and their answers. */
  function Control(ks: KS, c: Conn, kind: Kind, args: seq<bytes>): (Conn, Answer)
    requires IsControl(kind) && kind != ExecKind
  {
    var tx := c.tx;
    if kind == UnwatchKind then (c.(tx := tx.(watched := map[], dirty := false)), Result(Fine(OK)))
    else if tx.inTransaction <==> kind != DiscardKind then (c, Rejected)
    else if kind == MultiKind then (c.(tx := tx.(inTransaction := true, queued := [])), Result(Fine(OK)))
    else if kind == DiscardKind then (c.(tx := IDLE), Result(Fine(OK)))
    else (c.(tx := tx.(watched := WatchAll(ks, c.dbId, args, tx.watched))), Result(Fine(OK)))
  }

  lemma ControlIs(sh: Shared, c: Conn, kind: Kind, cmd: seq<bytes>, now: int)
    requires ConnOk(sh, c) && cmd != [] && KindOfCommand(cmd) == Some(kind) && IsControl(kind) && kind != ExecKind
    ensures c.dbId in sh.dbs
    ensures var (c', a) := Control(sh.dbs[c.dbId], c, kind, cmd[1..]); Run(sh, c, kind, cmd, now) == Outcome(sh, c', a)
  {
    hide KindOf, WatchAll, QueueOk;
  }

  lemma ExecIs(sh: Shared, c: Conn, exec: seq<bytes>, now: int)
    requires ConnOk(sh, c) && IsExec(exec)
    ensures Run(sh, c, ExecKind, exec, now) ==
            if !c.tx.inTransaction then Outcome(sh, c, Rejected)
            else if !WatchedUnchanged(sh, c.tx) then Outcome(sh, c.(tx := IDLE), Aborted)
            else RunQueue(sh, c.(tx := IDLE), c.tx.queued, now)
  {
    hide KindOf, RunQueue, WatchedUnchanged, QueueOk;
  }

  /** EXEC inside a transaction is answered by what became of the watched versions. */
  lemma ExecIsDecided(sh: Shared, c: Conn, now: int)
    requires ConnOk(sh, c)
    ensures WatchedUnchanged(sh, c.tx) <==> forall w :: w in c.tx.watched ==> VersionOf(sh, w) == c.tx.watched[w]
    ensures ConnOk(sh, c.(tx := IDLE)) && QueueOk(c.tx.queued)
    ensures |RunQueue(sh, c.(tx := IDLE), c.tx.queued, now).answer.answers| == |c.tx.queued|
  {
    hide RunQueue, QueueOk, VersionOf;
    IdleOk(sh, c);
    RunQueueAdvances(sh, c.(tx := IDLE), c.tx.queued, now);
  }

  function Ahead(answers: seq<Answer>, o: Outcome): Outcome
    requires o.answer.Results?
  {
    o.(answer := Results(answers + o.answer.answers))
  }

  lemma AheadTwice(answers: seq<Answer>, a: Answer, o: Outcome)
    requires o.answer.Results?
    ensures Ahead(answers, Ahead([a], o)) == Ahead(answers + [a], o)
  {
    assert answers + ([a] + o.answer.answers) == (answers + [a]) + o.answer.answers;
  }

  lemma QueueStep(sh: Shared, c: Conn, queue: seq<seq<bytes>>, i: nat, now: int)
    requires ConnOk(sh, c) && c.tx == IDLE && i < |queue| && QueueOk(queue[i..])
    ensures Queueable(queue[i]) && !IsExec(queue[i]) && QueueOk(queue[i + 1..])
    ensures var o := Dispatch(sh, c, queue[i], now);
            && ConnOk(o.sh, o.c) && o.c.tx == IDLE
            && RunQueue(sh, c, queue[i..], now) == Ahead([o.answer], RunQueue(o.sh, o.c, queue[i + 1..], now))
  {
    hide Dispatch, KindOf;
    assert queue[i..][0] == queue[i] && queue[i..][1..] == queue[i + 1..];
    PlainKeepsIdle(sh, c, queue[i], now);
  }

  lemma QueueEnd(sh: Shared, c: Conn, queue: seq<seq<bytes>>, now: int)
    requires ConnOk(sh, c) && c.tx == IDLE
    ensures RunQueue(sh, c, queue[|queue|..], now) == Outcome(sh, c, Results([]))
  {
  }
}
