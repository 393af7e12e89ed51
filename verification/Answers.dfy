// What one command is answered and changes when it is dispatched, and what that means for the keys that connections
// watch.

module CommandAnswers {
  import opened Bytes
  import opened Resp
  import opened Keyspaces
  import opened Commands
  import opened CommandEffects
  import opened Transactions
  import opened Observers

  // ---------------------------------------------------------------------------------------------
  // One command
  // ---------------------------------------------------------------------------------------------

  /** What is no command changes nothing: no words, an unknown name, or the wrong number of words. */
  lemma NotRun(sh: Shared, c: Conn, cmd: seq<bytes>, now: int)
    requires ConnOk(sh, c)
    ensures var o := Dispatch(sh, c, cmd, now);
            if cmd == [] then o == Outcome(sh, c, Silent)
            else
              var kind := KindOf(Upper(cmd[0]));
              && (kind.None? ==> o == Outcome(sh, c, UnknownCommand))
              && (kind.Some? && !ArityFits(kind.value, |cmd|) ==> o == Outcome(sh, c, WrongArity))
  {
    hide KindOf, Run, Upper;
  }

  /** A command in order: known, with as many words as it takes. */
  predicate InOrder(cmd: seq<bytes>, kind: Kind) {
    cmd != [] && KindOf(Upper(cmd[0])) == Some(kind) && ArityFits(kind, |cmd|)
  }

  /** Outside a transaction a data command runs on the connection's database; a successful one but GET is logged. */
  lemma DataCommandRuns(sh: Shared, c: Conn, cmd: seq<bytes>, kind: Kind, now: int)
    requires ConnOk(sh, c) && !c.tx.inTransaction && InOrder(cmd, kind)
    requires kind !in {SelectKind, FlushAllKind, MultiKind, ExecKind, DiscardKind, WatchKind, UnwatchKind}
    ensures var o := Dispatch(sh, c, cmd, now);
            var (ks, r) := Execute(kind, cmd[1..], sh.dbs[c.dbId], now);
            && o.answer == Result(r) && o.c == c
            && o.sh.dbs == sh.dbs[c.dbId := ks] && o.sh.databases == sh.databases
            && o.sh.log == sh.log + if kind != GetKind && r.Fine? then [[Upper(cmd[0])] + cmd[1..]] else []
  {
    hide KindOf, Execute, Upper, QueueOk;
  }

  /** SELECT n moves the connection to database n, if there is one. */
  lemma SelectMoves(sh: Shared, c: Conn, cmd: seq<bytes>, now: int)
    requires ConnOk(sh, c) && !c.tx.inTransaction && InOrder(cmd, SelectKind)
    ensures |cmd| == 2
    ensures var o, n := Dispatch(sh, c, cmd, now), ParseInt(cmd[1]);
            && o.sh == sh
            && (n.Some? && 0 <= n.value < sh.databases ==>
                  o.c == c.(dbId := n.value) && o.answer == Result(Fine(Simple([79, 75]))))
            && (n.Some? && !(0 <= n.value < sh.databases) ==> o.c == c && o.answer == Result(Oops(OutOfRange)))
            && (n.None? ==> o.c == c && o.answer == Result(Oops(NotAnInteger)))
  {
    hide KindOf, Upper, QueueOk, ParseInt;
  }

  /** FLUSHALL empties every database. */
  lemma FlushAllEmpties(sh: Shared, c: Conn, cmd: seq<bytes>, now: int)
    requires ConnOk(sh, c) && !c.tx.inTransaction && InOrder(cmd, FlushAllKind)
    ensures var o := Dispatch(sh, c, cmd, now);
            && o.answer == Result(Fine(Simple([79, 75]))) && o.c == c && o.sh.dbs.Keys == sh.dbs.Keys
            && (forall d :: d in o.sh.dbs ==> o.sh.dbs[d].entries == map[])
            && o.sh.log == sh.log + [[Upper(cmd[0])] + cmd[1..]]
  {
    hide KindOf, Upper, QueueOk, MarkAll;
  }

  /** Inside a transaction a command that is no transaction control waits: it is answered QUEUED, nothing happens. */
  lemma PlainCommandWaits(sh: Shared, c: Conn, cmd: seq<bytes>, kind: Kind, now: int)
    requires ConnOk(sh, c) && c.tx.inTransaction && InOrder(cmd, kind)
    requires kind !in {MultiKind, ExecKind, DiscardKind, WatchKind, UnwatchKind}
    ensures Dispatch(sh, c, cmd, now) == Outcome(sh, c.(tx := c.tx.(queued := c.tx.queued + [cmd])), Queued)
  {
    hide KindOf, Upper, QueueOk, Run;
  }

  /** MULTI opens a transaction with an empty queue: the next plain command waits, whatever others did in between. */
  lemma MultiOpens(sh: Shared, c: Conn, multi: seq<bytes>, now: int, sh': Shared, cmd: seq<bytes>, kind: Kind,
                   later: int)
    requires ConnOk(sh, c) && InOrder(multi, MultiKind) && InOrder(cmd, kind)
    requires kind !in {MultiKind, ExecKind, DiscardKind, WatchKind, UnwatchKind}
    requires ConnOk(sh', Dispatch(sh, c, multi, now).c)
    ensures var o := Dispatch(sh, c, multi, now);
            && o.sh == sh
            && (c.tx.inTransaction ==> o.answer == Rejected && o.c == c)
            && (!c.tx.inTransaction ==> o.answer == Result(Fine(Simple([79, 75]))))
            && var o' := Dispatch(sh', o.c, cmd, later);
               o'.answer == Queued && o'.sh == sh' && (!c.tx.inTransaction ==> o'.c.tx.queued == [cmd])
  {
    hide KindOf, Upper, QueueOk, Execute, WatchAll;
    var o := Dispatch(sh, c, multi, now);
    assert o.c.tx.inTransaction;
    PlainCommandWaits(sh', o.c, cmd, kind, later);
  }

  /** DISCARD and UNWATCH: the first forgets the queue and what is watched, the second only that. */
  lemma DiscardAndUnwatch(sh: Shared, c: Conn, cmd: seq<bytes>, now: int)
    requires ConnOk(sh, c)
    ensures var o := Dispatch(sh, c, cmd, now);
            && (InOrder(cmd, DiscardKind) ==>
                  && o.sh == sh && o.c.dbId == c.dbId
                  && (c.tx.inTransaction ==> o.answer == Result(Fine(Simple([79, 75]))) && o.c.tx == IDLE)
                  && (!c.tx.inTransaction ==> o.answer == Rejected && o.c == c))
            && (InOrder(cmd, UnwatchKind) ==>
                  && o.sh == sh && o.c == c.(tx := c.tx.(watched := map[]))
                  && o.answer == Result(Fine(Simple([79, 75]))))
  {
    hide KindOf, Upper, QueueOk, Execute, WatchAll, Flushed, ParseInt, RunQueue;
  }

  /** EXEC runs its queue one after the other: the i-th answer is that of the i-th command, after those before it. */
  lemma {:induction false} QueueInOrder(sh: Shared, c: Conn, queue: seq<seq<bytes>>, i: nat, now: int)
    requires ConnOk(sh, c) && c.tx == IDLE && QueueOk(queue) && i < |queue|
    ensures QueueOk(queue[..i]) && QueueOk(queue[..i + 1])
    ensures var before := RunQueue(sh, c, queue[..i], now);
            && ConnOk(before.sh, before.c)
            && var o, all := Dispatch(before.sh, before.c, queue[i], now), RunQueue(sh, c, queue, now);
               && |all.answer.answers| == |queue| && all.answer.answers[i] == o.answer
               && RunQueue(sh, c, queue[..i + 1], now).sh == o.sh && RunQueue(sh, c, queue[..i + 1], now).c == o.c
    decreases |queue|
  {
    hide Dispatch, KindOf, ConnOk, Advances;
    var o := Dispatch(sh, c, queue[0], now);
    PlainKeepsIdle(sh, c, queue[0], now);
    RunQueueAdvances(sh, c, queue, now);
    if i > 0 {
      QueueInOrder(o.sh, o.c, queue[1..], i - 1, now);
      assert queue[1..][..i - 1] == queue[..i][1..] && queue[1..][..i] == queue[..i + 1][1..];
    } else {
      assert queue[..1][1..] == [];
    }
  }

  /** After any run: a plain command of a connection waits exactly if the connection is in a transaction. */
  lemma WaitsExactlyInTransaction(databases: nat, events: seq<Event>, id: int, cmd: seq<bytes>, kind: Kind, now: int)
    requires databases > 0 && id in AfterEvents(Started(databases), events).conns && InOrder(cmd, kind)
    requires kind !in {MultiKind, ExecKind, DiscardKind, WatchKind, UnwatchKind}
    ensures var s := AfterEvents(Started(databases), events);
            var o := Dispatch(s.sh, s.conns[id], cmd, now);
            && (o.answer == Queued <==> id in OpenAfter(Started(databases), events, {}))
            && (o.answer == Queued ==> o.sh == s.sh)
  {
    hide KindOf, Upper, ConnOk, AfterEvents, OpenAfter, StampedAfter, Run;
    StartedOk(databases);
    StartedKnown(databases);
    AfterKnown(Started(databases), events, {}, map[]);
    var s := AfterEvents(Started(databases), events);
    ConnAt(s, id);
    if s.conns[id].tx.inTransaction {
      PlainCommandWaits(s.sh, s.conns[id], cmd, kind, now);
    } else {
      QueueAfterRun(s.sh, s.conns[id], kind, cmd, now);
    }
  }

  // ---------------------------------------------------------------------------------------------
  // Keys that nobody names
  // ---------------------------------------------------------------------------------------------

  /** Entry and version of the key are what they were. */
  ghost predicate Same(a: KS, b: KS, key: bytes) {
    Stored(b, key) == Stored(a, key) && Version(b, key) == Version(a, key)
  }

  lemma SparedIsSame(a: KS, b: KS, key: bytes, other: bytes)
    requires Spares(a, b, key) && other != key
    ensures Same(a, b, other)
  {
  }

  lemma OneKeyCommandSpares(kind: Kind, args: seq<bytes>, ks: KS, now: int)
    requires IsData(kind) && kind !in {DelKind, RenameKind, FlushDbKind} && EnoughArgs(kind, |args|)
    ensures Spares(ks, Execute(kind, args, ks, now).0, args[0])
  {
    hide Spares, Execute, GetEntry;
    SweepSpares(ks, args[0], now);
    match kind
    case GetKind => GetEffect(args, ks, now);
    case SetKind =>
      var o := ParseSetOptions(args[2..], NO_OPTIONS);
      if o.Chosen? {
        SetEffect(args, ks, now, o.opts);
      } else {
        RefusedSet(args, ks, now);
      }
    case AppendKind => AppendEffect(args, ks, now);
    case IncrByKind => IncrByEffect(args, ks, now);
    case LPushKind => LPushEffect(args, ks, now);
    case RPushKind => RPushEffect(args, ks, now);
    case LPopKind => LPopEffect(args, ks, now);
    case SAddKind => SAddEffect(args, ks, now);
    case SRemKind => SRemEffect(args, ks, now);
    case HSetKind => HSetEffect(args, ks, now);
    case HDelKind => HDelEffect(args, ks, now);
    case ZAddKind => ZAddEffect(args, ks, now);
    case ZRemKind => ZRemEffect(args, ks, now);
    case PExpireAtKind => PExpireAtEffect(args, ks, now);
    case PersistKind => PersistEffect(args, ks, now);
  }

  /** A data command leaves a key alone that it does not name; FLUSHDB, one that is not stored. */
  lemma DataCommandSpares(kind: Kind, args: seq<bytes>, ks: KS, now: int, key: bytes)
    requires IsData(kind) && WellFormed(ks) && key !in args && (kind == FlushDbKind ==> key !in ks.entries)
    ensures Same(ks, Execute(kind, args, ks, now).0, key)
  {
    hide Spares, Execute;
    if !EnoughArgs(kind, |args|) {
      TooFewArguments(kind, args, ks, now);
    } else if kind == DelKind {
      DelEffect(args, ks, now);
    } else if kind == RenameKind {
      RenameEffect(args, ks, now);
    } else if kind == FlushDbKind {
      FlushDbEffect(args, ks, now);
    } else {
      OneKeyCommandSpares(kind, args, ks, now);
      SparedIsSame(ks, Execute(kind, args, ks, now).0, args[0], key);
    }
  }

  /** When it is run, the command names neither the key nor everything. */
  predicate Leaves(cmd: seq<bytes>, key: bytes) {
    match KindOfCommand(cmd)
    case None => true
    case Some(kind) =>
      IsControl(kind) || kind == SelectKind || (IsData(kind) && kind != FlushDbKind && key !in cmd[1..])
  }

  /** Entry and version of a watched key, in whatever database, are what they were. */
  ghost predicate SameAt(a: Shared, b: Shared, w: (int, bytes)) {
    w.0 in a.dbs && w.0 in b.dbs && Same(a.dbs[w.0], b.dbs[w.0], w.1)
  }

  ghost predicate AllWellFormed(sh: Shared) {
    forall d :: d in sh.dbs ==> WellFormed(sh.dbs[d])
  }

  lemma StaysWellFormed(a: Shared, b: Shared)
    requires AllWellFormed(a) && Advances(a, b)
    ensures AllWellFormed(b)
  {
    hide WellFormed;
    forall d | d in b.dbs
      ensures WellFormed(b.dbs[d])
    {
      assert d in a.dbs.Keys;
      AdvancesAt(a, b, d);
    }
  }

  lemma DispatchLeaves(sh: Shared, c: Conn, cmd: seq<bytes>, now: int, w: (int, bytes))
    requires ConnOk(sh, c) && AllWellFormed(sh) && w.0 in sh.dbs && Leaves(cmd, w.1) && !IsExec(cmd)
    ensures SameAt(sh, Dispatch(sh, c, cmd, now).sh, w)
  {
    hide KindOf, Execute, WellFormed, Upper, QueueOk, Same, WatchAll, ParseInt, Flushed;
    SameIsSame(sh.dbs[w.0], w.1);
    var kind := KindOfCommand(cmd);
    if kind.Some? && IsData(kind.value) {
      DataCommandSpares(kind.value, cmd[1..], sh.dbs[c.dbId], now, w.1);
    }
  }

  lemma SameIsSame(ks: KS, key: bytes)
    ensures Same(ks, ks, key)
  {
  }

  lemma SameTrans(a: Shared, b: Shared, c: Shared, w: (int, bytes))
    requires SameAt(a, b, w) && SameAt(b, c, w)
    ensures SameAt(a, c, w)
  {
  }

  lemma {:induction false} QueueLeaves(sh: Shared, c: Conn, queue: seq<seq<bytes>>, now: int, w: (int, bytes))
    requires ConnOk(sh, c) && c.tx == IDLE && QueueOk(queue) && AllWellFormed(sh) && w.0 in sh.dbs
    requires forall i :: 0 <= i < |queue| ==> Leaves(queue[i], w.1)
    ensures SameAt(sh, RunQueue(sh, c, queue, now).sh, w)
    decreases |queue|
  {
    hide Dispatch, KindOf, AllWellFormed, Advances, SameAt, Leaves;
    if queue == [] {
      SameAtOnce(sh, w);
    } else {
      var o := Dispatch(sh, c, queue[0], now);
      DispatchAdvances(sh, c, queue[0], now);
      PlainKeepsIdle(sh, c, queue[0], now);
      StaysWellFormed(sh, o.sh);
      DispatchLeaves(sh, c, queue[0], now, w);
      InBoth(sh, o.sh, w);
      QueueLeaves(o.sh, o.c, queue[1..], now, w);
      SameTrans(sh, o.sh, RunQueue(sh, c, queue, now).sh, w);
    }
  }

  lemma SameAtOnce(sh: Shared, w: (int, bytes))
    requires w.0 in sh.dbs
    ensures SameAt(sh, sh, w)
  {
  }

  lemma InBoth(a: Shared, b: Shared, w: (int, bytes))
    requires SameAt(a, b, w)
    ensures w.0 in b.dbs
  {
  }

  // ---------------------------------------------------------------------------------------------
  // Runs in which nobody disturbs a connection
  // ---------------------------------------------------------------------------------------------

  /** The event does not touch the key: a command waits, or leaves it; an EXEC runs only commands that leave it. */
  predicate Quiet(s: Server, ev: Event, w: (int, bytes))
    requires ServerOk(s)
  {
    match ev
    case Connect(_) => true
    case Disconnect(_) => true
    case Command(id, cmd, _) =>
      id !in s.conns || AnsweredQueued(s, ev) ||
      if IsExec(cmd) then
        var queue := s.conns[id].tx.queued;
        forall i :: 0 <= i < |queue| ==> Leaves(queue[i], w.1)
      else Leaves(cmd, w.1)
    case Expire(db, key, _) => (db, key) != w
    case Evict(db, key) => (db, key) != w
  }

  /**
    * All these are quiet: connecting and disconnecting; expiry and eviction of other keys; a command that only waits; a
    * data command but FLUSHDB that does not name the key; SELECT, and transaction control but EXEC.
    */
  lemma WhatIsQuiet(s: Server, ev: Event, kind: Kind, w: (int, bytes))
    requires ServerOk(s)
    ensures ev.Connect? || ev.Disconnect? ==> Quiet(s, ev, w)
    ensures ev.Expire? && (ev.db != w.0 || ev.key != w.1) ==> Quiet(s, ev, w)
    ensures ev.Evict? && (ev.db != w.0 || ev.key != w.1) ==> Quiet(s, ev, w)
    ensures ev.Command? && ev.id in s.conns && Dispatch(s.sh, s.conns[ev.id], ev.cmd, ev.now).answer == Queued ==>
              Quiet(s, ev, w)
    ensures ev.Command? && InOrder(ev.cmd, kind) && kind != ExecKind && kind != FlushDbKind && kind != FlushAllKind &&
            w.1 !in ev.cmd[1..] ==>
              Quiet(s, ev, w)
    ensures ev.Command? && InOrder(ev.cmd, kind) &&
            kind in {SelectKind, MultiKind, DiscardKind, WatchKind, UnwatchKind} ==>
              Quiet(s, ev, w)
  {
    hide Dispatch, ServerOk, KindOf, Upper;
  }

  lemma QuietKeeps(s: Server, ev: Event, w: (int, bytes))
    requires ServerOk(s) && w.0 in s.sh.dbs && Quiet(s, ev, w)
    ensures SameAt(s.sh, Next(s, ev).sh, w)
  {
    hide Dispatch, Leaves, Same, ConnOk, WellFormed, KindOf, Swept, Delete;
    SameIsSame(s.sh.dbs[w.0], w.1);
    match ev
    case Command(id, cmd, now) =>
      if id in s.conns {
        ConnAt(s, id);
        if AnsweredQueued(s, ev) {
          QueuedChangesNothing(s.sh, s.conns[id], cmd, now);
        } else if IsExec(cmd) {
          ExecLeaves(s.sh, s.conns[id], cmd, now, w);
        } else {
          DispatchLeaves(s.sh, s.conns[id], cmd, now, w);
        }
      }
    case Expire(db, key, now) =>
      if db == w.0 {
        SweepSpares(s.sh.dbs[db], key, now);
        SparedIsSame(s.sh.dbs[db], Swept(s.sh.dbs[db], key, now), key, w.1);
      }
    case Evict(db, key) =>
      if db == w.0 {
        DeleteSpares(s.sh.dbs[db], key);
        SparedIsSame(s.sh.dbs[db], Delete(s.sh.dbs[db], key), key, w.1);
      }
    case _ =>
  }

  lemma QueuedChangesNothing(sh: Shared, c: Conn, cmd: seq<bytes>, now: int)
    requires ConnOk(sh, c) && Dispatch(sh, c, cmd, now).answer == Queued
    ensures Dispatch(sh, c, cmd, now).sh == sh
  {
    hide KindOf, Run, ConnOk, Upper;
    var k := KindOfCommand(cmd);
    if k.Some? && ArityFits(k.value, |cmd|) && !(c.tx.inTransaction && !IsControl(k.value)) {
      NeverQueued(sh, c, k.value, cmd, now);
    }
  }

  lemma NeverQueued(sh: Shared, c: Conn, kind: Kind, cmd: seq<bytes>, now: int)
    requires ConnOk(sh, c) && cmd != [] && KindOfCommand(cmd) == Some(kind)
    ensures Run(sh, c, kind, cmd, now).answer != Queued
  {
    hide KindOf, Execute, WatchAll, QueueOk, Flushed, ParseInt, RunQueue;
    if kind == ExecKind {
      IdleOk(sh, c);
    }
  }

  lemma ExecLeaves(sh: Shared, c: Conn, exec: seq<bytes>, now: int, w: (int, bytes))
    requires ConnOk(sh, c) && AllWellFormed(sh) && w.0 in sh.dbs && IsExec(exec)
    requires forall i :: 0 <= i < |c.tx.queued| ==> Leaves(c.tx.queued[i], w.1)
    ensures SameAt(sh, Dispatch(sh, c, exec, now).sh, w)
  {
    hide KindOf, Execute, RunQueue, WatchedUnchanged, AllWellFormed, Leaves, Same;
    SameIsSame(sh.dbs[w.0], w.1);
    if ArityFits(ExecKind, |exec|) {
      ExecRuns(sh, c, exec, now);
      IdleOk(sh, c);
      QueueLeaves(sh, c.(tx := IDLE), c.tx.queued, now, w);
    }
  }

  /**
    * Over the whole run no event touches a key while the connection watches it, but for the connection's own EXEC,
    * DISCARD and UNWATCH.
    */
  ghost predicate Undisturbed(s: Server, events: seq<Event>, id: int, stamped: map<int, Stamps>)
    requires ServerOk(s)
    decreases |events|
  {
    events == [] ||
    (&& ((events[0].Command? && events[0].id == id && Resets(s, events[0])) ||
         forall w :: w in StampsOf(stamped, id) ==> Quiet(s, events[0], w))
     && (NextAdvances(s, events[0]); Undisturbed(Next(s, events[0]), events[1..], id, Stamp(s, events[0], stamped))))
  }

  lemma CurrentStep(s: Server, ev: Event, id: int, stamped: map<int, Stamps>)
    requires ServerOk(s) && AllCurrent(s.sh, StampsOf(stamped, id))
    requires (ev.Command? && ev.id == id && Resets(s, ev)) || forall w :: w in StampsOf(stamped, id) ==> Quiet(s, ev, w)
    ensures AllCurrent(Next(s, ev).sh, StampsOf(Stamp(s, ev, stamped), id))
  {
    hide Dispatch, Quiet, ServerOk, Next, CarriesOut, Stamp, AllCurrent;
    if ev.Command? && ev.id == id && CarriesOut(s, ev, WatchKind) {
      CurrentAfterWatch(s, ev, stamped);
    } else if (ev.Connect? && ev.id == id) || (ev.Command? && ev.id == id && Resets(s, ev)) {
      NothingStamped(s, ev, stamped);
    } else {
      StampsStay(s, ev, id, stamped);
      QuietForAll(s, ev, StampsOf(stamped, id));
    }
  }

  lemma CurrentAfterWatch(s: Server, ev: Event, stamped: map<int, Stamps>)
    requires ServerOk(s) && CarriesOut(s, ev, WatchKind) && AllCurrent(s.sh, StampsOf(stamped, ev.id))
    ensures AllCurrent(Next(s, ev).sh, StampsOf(Stamp(s, ev, stamped), ev.id))
  {
    hide Dispatch, ServerOk;
    WatchRuns(s, ev);
    ConnAt(s, ev.id);
  }

  lemma NothingStamped(s: Server, ev: Event, stamped: map<int, Stamps>)
    requires ServerOk(s) && (ev.Connect? || (ev.Command? && Resets(s, ev)))
    ensures StampsOf(Stamp(s, ev, stamped), ev.id) == map[] && AllCurrent(Next(s, ev).sh, map[])
  {
    hide Dispatch, ServerOk, KindOf;
  }

  lemma StampsStay(s: Server, ev: Event, id: int, stamped: map<int, Stamps>)
    requires ServerOk(s) && !(ev.Connect? && ev.id == id)
    requires !(ev.Command? && ev.id == id && (CarriesOut(s, ev, WatchKind) || Resets(s, ev)))
    ensures StampsOf(Stamp(s, ev, stamped), id) == StampsOf(stamped, id)
  {
    hide Dispatch, ServerOk;
  }

  lemma QuietForAll(s: Server, ev: Event, stamps: Stamps)
    requires ServerOk(s) && AllCurrent(s.sh, stamps) && forall w :: w in stamps ==> Quiet(s, ev, w)
    ensures AllCurrent(Next(s, ev).sh, stamps)
  {
    hide Next, Quiet, ServerOk;
    forall w | w in stamps
      ensures w.0 in Next(s, ev).sh.dbs && Version(Next(s, ev).sh.dbs[w.0], w.1) == stamps[w]
    {
      QuietKeeps(s, ev, w);
    }
  }

  lemma {:induction false} StaysCurrent(s: Server, events: seq<Event>, id: int, stamped: map<int, Stamps>)
    requires ServerOk(s) && AllCurrent(s.sh, StampsOf(stamped, id)) && Undisturbed(s, events, id, stamped)
    ensures AllCurrent(AfterEvents(s, events).sh, StampsOf(StampedAfter(s, events, stamped), id))
    decreases |events|
  {
    hide ServerOk, AllCurrent, Next, Stamp, Quiet, Resets;
    if events != [] {
      NextAdvances(s, events[0]);
      CurrentStep(s, events[0], id, stamped);
      StaysCurrent(Next(s, events[0]), events[1..], id, Stamp(s, events[0], stamped));
    }
  }

  /**
    * Over any run: if no event ever touched a key while the connection was watching it, an EXEC inside a transaction
    * goes through, with one answer for each command that was answered QUEUED.
    */
  lemma UndisturbedExec(databases: nat, events: seq<Event>, id: int, exec: seq<bytes>, now: int)
    requires databases > 0 && IsExec(exec) && ArityFits(ExecKind, |exec|)
    requires Undisturbed(Started(databases), events, id, map[])
    requires id in AfterEvents(Started(databases), events).conns && id in OpenAfter(Started(databases), events, {})
    ensures var s := AfterEvents(Started(databases), events);
            var o := Dispatch(s.sh, s.conns[id], exec, now);
            && o.answer.Results?
            && |o.answer.answers| == |QueuedOf(HeardAfter(Started(databases), events, map[]), id)|
  {
    hide Dispatch, AfterEvents, OpenAfter, StampedAfter, HeardAfter, Undisturbed, KindOf;
    StartedOk(databases);
    StaysCurrent(Started(databases), events, id, map[]);
    ExecAnswers(databases, events, id, exec, now);
  }
}
