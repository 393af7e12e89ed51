// What somebody who sees only the commands and answers of every connection can tell: optimistic concurrency over any
// interleaving of connections (commands/transactions.py and transaction/manager.py).

module Observers {
  import opened Bytes
  import opened Resp
  import opened Keyspaces
  import opened Commands
  import opened Transactions

  // ---------------------------------------------------------------------------------------------
  // Watched keys, as the observer notes them
  // ---------------------------------------------------------------------------------------------

  /** What was stored under a key when it was last watched. */
  type Notes = map<(int, bytes), Option<Entry>>

  /** An observer's notes for every connection. */
  type Seen = map<int, Notes>

  function NotesOf(seen: Seen, id: int): Notes {
    if id in seen then seen[id] else map[]
  }

  function NoteAll(ks: KS, db: int, keys: seq<bytes>, notes: Notes): Notes
    decreases |keys|
  {
    if keys == [] then notes else NoteAll(ks, db, keys[1..], notes[(db, keys[0]) := Stored(ks, keys[0])])
  }

  /** The notes after a WATCH: for the keys it names what is stored now, for the others what was noted before. */
  lemma {:induction false} NoteAllMembers(ks: KS, db: int, keys: seq<bytes>, notes: Notes, w: (int, bytes))
    ensures w in NoteAll(ks, db, keys, notes) <==> w in notes || (w.0 == db && w.1 in keys)
    ensures w in NoteAll(ks, db, keys, notes) ==>
              NoteAll(ks, db, keys, notes)[w] == if w.0 == db && w.1 in keys then Stored(ks, w.1) else notes[w]
    decreases |keys|
  {
    if keys != [] {
      NoteAllMembers(ks, db, keys[1..], notes[(db, keys[0]) := Stored(ks, keys[0])], w);
    }
  }

  /** The event is a command of this kind, and the answer to it is no error. */
  predicate CarriesOut(s: Server, ev: Event, kind: Kind)
    requires ServerOk(s)
  {
    && ev.Command? && ev.id in s.conns && KindOfCommand(ev.cmd) == Some(kind)
    && !IsError(Dispatch(s.sh, s.conns[ev.id], ev.cmd, ev.now).answer)
  }

  /** What ends the watching of all keys. */
  predicate Resets(s: Server, ev: Event)
    requires ServerOk(s)
  {
    CarriesOut(s, ev, ExecKind) || CarriesOut(s, ev, DiscardKind) || CarriesOut(s, ev, UnwatchKind)
  }

  /**
    * The observer sees commands and answers, not the transaction state: a WATCH that is answered is noted, key by
    * key, and an answered EXEC (carried out or aborted), DISCARD or UNWATCH, or a new connection, clears the notes.
    */
  function Observe(s: Server, ev: Event, seen: Seen): Seen
    requires ServerOk(s)
  {
    if ev.Connect? then seen[ev.id := map[]]
    else if CarriesOut(s, ev, WatchKind) then
      var c := s.conns[ev.id];
      seen[ev.id := NoteAll(s.sh.dbs[c.dbId], c.dbId, ev.cmd[1..], NotesOf(seen, ev.id))]
    else if Resets(s, ev) then seen[ev.id := map[]]
    else seen
  }

  /** While the version is the recorded one, the stored entry is the noted one. */
  ghost predicate Covered(sh: Shared, c: Conn, notes: Notes, w: (int, bytes)) {
    && (w in c.tx.watched <==> w in notes)
    && (w in c.tx.watched ==>
          && c.tx.watched[w] <= VersionOf(sh, w)
          && (c.tx.watched[w] == VersionOf(sh, w) ==> StoredOf(sh, w) == notes[w]))
  }

  /** The connection watches exactly the noted keys, and covers each of them. */
  ghost predicate AllCovered(sh: Shared, c: Conn, notes: Notes) {
    forall w :: Covered(sh, c, notes, w)
  }

  ghost predicate WatchOk(s: Server, seen: Seen) {
    && ServerOk(s)
    && forall id :: id in s.conns ==> AllCovered(s.sh, s.conns[id], NotesOf(seen, id))
  }

  lemma AdvancesAt(a: Shared, b: Shared, db: int)
    requires Advances(a, b) && db in a.dbs
    ensures db in b.dbs && Step(a.dbs[db], b.dbs[db])
  {
    hide Step;
    assert db in a.dbs.Keys;
  }

  lemma CoveredAdvances(a: Shared, b: Shared, c: Conn, c': Conn, notes: Notes)
    requires Advances(a, b) && ConnOk(a, c) && AllCovered(a, c, notes)
    requires forall d :: d in a.dbs ==> WellFormed(a.dbs[d])
    requires c'.tx.watched == c.tx.watched
    ensures AllCovered(b, c', notes)
  {
    forall w
      ensures Covered(b, c', notes, w)
    {
      assert Covered(a, c, notes, w);
      if w in c.tx.watched {
        AdvancesAt(a, b, w.0);
        TrackedSees(a.dbs[w.0], b.dbs[w.0], w.1);
      }
    }
  }

  lemma WatchedNow(sh: Shared, c: Conn, keys: seq<bytes>, notes: Notes)
    requires c.dbId in sh.dbs && AllCovered(sh, c, notes)
    ensures AllCovered(sh, c.(tx := c.tx.(watched := WatchAll(sh.dbs[c.dbId], c.dbId, keys, c.tx.watched))),
                       NoteAll(sh.dbs[c.dbId], c.dbId, keys, notes))
  {
    hide WatchAll, NoteAll;
    var ks := sh.dbs[c.dbId];
    forall w
      ensures Covered(sh, c.(tx := c.tx.(watched := WatchAll(ks, c.dbId, keys, c.tx.watched))),
                      NoteAll(ks, c.dbId, keys, notes), w)
    {
      assert Covered(sh, c, notes, w);
      WatchAllMembers(ks, c.dbId, keys, c.tx.watched, w);
      NoteAllMembers(ks, c.dbId, keys, notes, w);
    }
  }

  lemma NothingWatched(sh: Shared, c: Conn, notes: Notes)
    requires c.tx.watched == map[] && notes == map[]
    ensures AllCovered(sh, c, notes)
  {
  }

  /** Only WATCH adds to the watched keys, only EXEC, DISCARD and UNWATCH take them away, and these take all. */
  lemma WatchedAfter(s: Server, ev: Event)
    requires ServerOk(s) && ev.Command? && ev.id in s.conns
    ensures var c, c' := s.conns[ev.id], Dispatch(s.sh, s.conns[ev.id], ev.cmd, ev.now).c;
            c'.tx.watched ==
            if CarriesOut(s, ev, WatchKind) then WatchAll(s.sh.dbs[c.dbId], c.dbId, ev.cmd[1..], c.tx.watched)
            else if Resets(s, ev) then map[]
            else c.tx.watched
  {
    hide Dispatch, KindOf, WatchAll, ServerOk, ConnOk;
    ConnAt(s, ev.id);
    if IsExec(ev.cmd) {
      WatchedAfterExec(s, ev);
    } else {
      WatchedAfterOther(s.sh, s.conns[ev.id], ev.cmd, ev.now);
    }
  }

  lemma WatchedAfterOther(sh: Shared, c: Conn, cmd: seq<bytes>, now: int)
    requires ConnOk(sh, c) && !IsExec(cmd)
    ensures var o, k := Dispatch(sh, c, cmd, now), KindOfCommand(cmd);
            o.c.tx.watched ==
            if IsError(o.answer) then c.tx.watched
            else if k == Some(WatchKind) then WatchAll(sh.dbs[c.dbId], c.dbId, cmd[1..], c.tx.watched)
            else if k == Some(DiscardKind) || k == Some(UnwatchKind) then map[]
            else c.tx.watched
  {
    hide KindOf, Run, WatchAll, ConnOk, Upper;
    var k := KindOfCommand(cmd);
    if k.Some? {
      WatchedAfterRun(sh, c, k.value, cmd, now);
    }
  }

  lemma WatchedAfterRun(sh: Shared, c: Conn, kind: Kind, cmd: seq<bytes>, now: int)
    requires ConnOk(sh, c) && cmd != [] && KindOfCommand(cmd) == Some(kind) && kind != ExecKind
    ensures c.dbId in sh.dbs
    ensures var o := Run(sh, c, kind, cmd, now);
            o.c.tx.watched ==
            if IsError(o.answer) then c.tx.watched
            else if kind == WatchKind then WatchAll(sh.dbs[c.dbId], c.dbId, cmd[1..], c.tx.watched)
            else if kind == DiscardKind || kind == UnwatchKind then map[]
            else c.tx.watched
  {
    hide KindOf, Execute, WatchAll, QueueOk, Flushed, ParseInt;
  }

  lemma WatchedAfterExec(s: Server, ev: Event)
    requires ServerOk(s) && ev.Command? && ev.id in s.conns && IsExec(ev.cmd)
    ensures Dispatch(s.sh, s.conns[ev.id], ev.cmd, ev.now).c.tx.watched ==
            if CarriesOut(s, ev, ExecKind) then map[] else s.conns[ev.id].tx.watched
  {
    hide KindOf, Execute, WatchedUnchanged, RunQueue, ConnOk, ServerOk;
    var c := s.conns[ev.id];
    assert ConnOk(s.sh, c) by { ConnAt(s, ev.id); }
    if ArityFits(ExecKind, |ev.cmd|) {
      ExecRuns(s.sh, c, ev.cmd, ev.now);
      IdleOk(s.sh, c);
      if WatchedUnchanged(s.sh, c.tx) {
        RunQueueAdvances(s.sh, c.(tx := IDLE), c.tx.queued, ev.now);
      }
    }
  }

  lemma ConnAt(s: Server, id: int)
    requires ServerOk(s) && id in s.conns
    ensures ConnOk(s.sh, s.conns[id])
  {
    hide ConnOk;
  }

  lemma WatchRuns(s: Server, ev: Event)
    requires ServerOk(s) && CarriesOut(s, ev, WatchKind)
    ensures var c := s.conns[ev.id];
            var o := Dispatch(s.sh, c, ev.cmd, ev.now);
            && ev.cmd != [] && o.sh == s.sh
            && o.c == c.(tx := c.tx.(watched := WatchAll(s.sh.dbs[c.dbId], c.dbId, ev.cmd[1..], c.tx.watched)))
  {
    hide KindOf, WatchAll;
  }

  lemma NextWatchOk(s: Server, ev: Event, seen: Seen)
    requires WatchOk(s, seen)
    ensures WatchOk(Next(s, ev), Observe(s, ev, seen))
  {
    hide Advances, Dispatch, Step, ConnOk, WellFormed, Swept, Delete, NoteAll, CarriesOut;
    var s', seen' := Next(s, ev), Observe(s, ev, seen);
    NextAdvances(s, ev);
    forall id | id in s'.conns
      ensures AllCovered(s'.sh, s'.conns[id], NotesOf(seen', id))
    {
      EventCovers(s, ev, seen, id);
    }
  }

  lemma EventCovers(s: Server, ev: Event, seen: Seen, id: int)
    requires WatchOk(s, seen) && id in Next(s, ev).conns && Advances(s.sh, Next(s, ev).sh)
    ensures AllCovered(Next(s, ev).sh, Next(s, ev).conns[id], NotesOf(Observe(s, ev, seen), id))
  {
    hide Advances, Dispatch, Step, Swept, Delete, NoteAll, WatchAll, AllCovered, WellFormed, CarriesOut;
    var s', seen' := Next(s, ev), Observe(s, ev, seen);
    if ev.Connect? && ev.id == id {
      NothingWatched(s'.sh, s'.conns[id], NotesOf(seen', id));
    } else if ev.Command? && ev.id == id {
      CommandCovers(s, ev, seen);
    } else {
      OnlyOwnNotes(s, ev, seen, id);
      CoveredAdvances(s.sh, s'.sh, s.conns[id], s'.conns[id], NotesOf(seen, id));
    }
  }

  lemma OnlyOwnNotes(s: Server, ev: Event, seen: Seen, id: int)
    requires ServerOk(s) && ((ev.Connect? || ev.Command?) ==> ev.id != id)
    ensures NotesOf(Observe(s, ev, seen), id) == NotesOf(seen, id)
  {
    hide Dispatch, NoteAll;
  }

  lemma CommandCovers(s: Server, ev: Event, seen: Seen)
    requires WatchOk(s, seen) && ev.Command? && ev.id in s.conns && Advances(s.sh, Next(s, ev).sh)
    ensures AllCovered(Next(s, ev).sh, Next(s, ev).conns[ev.id], NotesOf(Observe(s, ev, seen), ev.id))
  {
    hide Advances, Dispatch, Step, NoteAll, WatchAll, AllCovered, WellFormed, CarriesOut;
    var s', c, notes := Next(s, ev), s.conns[ev.id], NotesOf(seen, ev.id);
    WatchedAfter(s, ev);
    if CarriesOut(s, ev, WatchKind) {
      WatchRuns(s, ev);
      WatchedNow(s.sh, c, ev.cmd[1..], notes);
    } else if Resets(s, ev) {
      NothingWatched(s'.sh, s'.conns[ev.id], map[]);
    } else {
      CoveredAdvances(s.sh, s'.sh, c, s'.conns[ev.id], notes);
    }
  }

  /** The notes taken during a run of events. */
  function SeenAfter(s: Server, events: seq<Event>, seen: Seen): Seen
    requires ServerOk(s)
    decreases |events|
  {
    if events == [] then seen
    else NextAdvances(s, events[0]); SeenAfter(Next(s, events[0]), events[1..], Observe(s, events[0], seen))
  }

  lemma {:induction false} AfterWatchOk(s: Server, events: seq<Event>, seen: Seen)
    requires WatchOk(s, seen)
    ensures WatchOk(AfterEvents(s, events), SeenAfter(s, events, seen))
    decreases |events|
  {
    assert ServerOk(s);
    hide WatchOk, Next, Observe;
    if events != [] {
      NextAdvances(s, events[0]);
      NextWatchOk(s, events[0], seen);
      AfterWatchOk(Next(s, events[0]), events[1..], Observe(s, events[0], seen));
    }
  }

  // ---------------------------------------------------------------------------------------------
  // The queue, as the observer hears it
  // ---------------------------------------------------------------------------------------------

  /** For every connection the commands that were answered QUEUED since its last MULTI. */
  type Heard = map<int, seq<seq<bytes>>>

  function QueuedOf(heard: Heard, id: int): seq<seq<bytes>> {
    if id in heard then heard[id] else []
  }

  predicate AnsweredQueued(s: Server, ev: Event)
    requires ServerOk(s)
  {
    ev.Command? && ev.id in s.conns && Dispatch(s.sh, s.conns[ev.id], ev.cmd, ev.now).answer == Queued
  }

  /** What begins or ends a queue. */
  predicate ClearsQueue(s: Server, ev: Event)
    requires ServerOk(s)
  {
    CarriesOut(s, ev, MultiKind) || CarriesOut(s, ev, ExecKind) || CarriesOut(s, ev, DiscardKind)
  }

  function Listen(s: Server, ev: Event, heard: Heard): Heard
    requires ServerOk(s)
  {
    if ev.Connect? || ClearsQueue(s, ev) then heard[ev.id := []]
    else if AnsweredQueued(s, ev) then heard[ev.id := QueuedOf(heard, ev.id) + [ev.cmd]]
    else heard
  }

  function HeardAfter(s: Server, events: seq<Event>, heard: Heard): Heard
    requires ServerOk(s)
    decreases |events|
  {
    if events == [] then heard
    else NextAdvances(s, events[0]); HeardAfter(Next(s, events[0]), events[1..], Listen(s, events[0], heard))
  }

  /** The queue of every connection is what was heard. */
  ghost predicate HeardOk(s: Server, heard: Heard) {
    ServerOk(s) && forall id :: id in s.conns ==> s.conns[id].tx.queued == QueuedOf(heard, id)
  }

  /** A queue grows by the commands answered QUEUED, and MULTI, EXEC and DISCARD empty it. */
  lemma QueueAfter(s: Server, ev: Event)
    requires ServerOk(s) && ev.Command? && ev.id in s.conns
    ensures var c, o := s.conns[ev.id], Dispatch(s.sh, s.conns[ev.id], ev.cmd, ev.now);
            o.c.tx.queued ==
            if ClearsQueue(s, ev) then [] else if o.answer == Queued then c.tx.queued + [ev.cmd] else c.tx.queued
  {
    hide Dispatch, KindOf, ServerOk, ConnOk;
    ConnAt(s, ev.id);
    if IsExec(ev.cmd) {
      QueueAfterExec(s, ev);
    } else {
      QueueAfterOther(s.sh, s.conns[ev.id], ev.cmd, ev.now);
    }
  }

  lemma QueueAfterOther(sh: Shared, c: Conn, cmd: seq<bytes>, now: int)
    requires ConnOk(sh, c) && !IsExec(cmd)
    ensures var o, k := Dispatch(sh, c, cmd, now), KindOfCommand(cmd);
            o.c.tx.queued ==
            if o.answer == Queued then c.tx.queued + [cmd]
            else if !IsError(o.answer) && (k == Some(MultiKind) || k == Some(DiscardKind)) then []
            else c.tx.queued
    ensures Dispatch(sh, c, cmd, now).answer == Queued ==>
              KindOfCommand(cmd) != Some(MultiKind) && KindOfCommand(cmd) != Some(DiscardKind)
  {
    hide KindOf, Run, ConnOk, Upper;
    var k := KindOfCommand(cmd);
    if k.Some? {
      QueueAfterRun(sh, c, k.value, cmd, now);
    }
  }

  lemma QueueAfterRun(sh: Shared, c: Conn, kind: Kind, cmd: seq<bytes>, now: int)
    requires ConnOk(sh, c) && cmd != [] && KindOfCommand(cmd) == Some(kind) && kind != ExecKind
    ensures var o := Run(sh, c, kind, cmd, now);
            && o.answer != Queued
            && o.c.tx.queued ==
               if !IsError(o.answer) && (kind == MultiKind || kind == DiscardKind) then [] else c.tx.queued
  {
    hide KindOf, Execute, WatchAll, QueueOk, Flushed, ParseInt;
  }

  lemma QueueAfterExec(s: Server, ev: Event)
    requires ServerOk(s) && ev.Command? && ev.id in s.conns && IsExec(ev.cmd)
    ensures var c, o := s.conns[ev.id], Dispatch(s.sh, s.conns[ev.id], ev.cmd, ev.now);
            o.answer != Queued && o.c.tx.queued == if CarriesOut(s, ev, ExecKind) then [] else c.tx.queued
  {
    hide KindOf, Execute, WatchedUnchanged, RunQueue, ConnOk, ServerOk;
    var c := s.conns[ev.id];
    assert ConnOk(s.sh, c) by { ConnAt(s, ev.id); }
    if ArityFits(ExecKind, |ev.cmd|) {
      ExecRuns(s.sh, c, ev.cmd, ev.now);
      IdleOk(s.sh, c);
      if WatchedUnchanged(s.sh, c.tx) {
        RunQueueAdvances(s.sh, c.(tx := IDLE), c.tx.queued, ev.now);
      }
    }
  }

  lemma NextHeardOk(s: Server, ev: Event, heard: Heard)
    requires HeardOk(s, heard)
    ensures HeardOk(Next(s, ev), Listen(s, ev, heard))
  {
    hide Dispatch, ServerOk, Swept, Delete, CarriesOut;
    NextAdvances(s, ev);
    if ev.Command? && ev.id in s.conns {
      QueueAfter(s, ev);
    } else {
      NoAnswer(s, ev);
    }
  }

  /** Only commands of a connection are carried out or answered. */
  lemma NoAnswer(s: Server, ev: Event)
    requires ServerOk(s) && !(ev.Command? && ev.id in s.conns)
    ensures !ClearsQueue(s, ev) && !AnsweredQueued(s, ev)
  {
    hide Dispatch, ServerOk;
  }

  lemma {:induction false} AfterHeardOk(s: Server, events: seq<Event>, heard: Heard)
    requires HeardOk(s, heard)
    ensures HeardOk(AfterEvents(s, events), HeardAfter(s, events, heard))
    decreases |events|
  {
    assert ServerOk(s);
    hide HeardOk, Next, Listen;
    if events != [] {
      NextAdvances(s, events[0]);
      NextHeardOk(s, events[0], heard);
      AfterHeardOk(Next(s, events[0]), events[1..], Listen(s, events[0], heard));
    }
  }

  // ---------------------------------------------------------------------------------------------
  // EXEC
  // ---------------------------------------------------------------------------------------------

  lemma StartedWatchOk(databases: nat)
    requires databases > 0
    ensures WatchOk(Started(databases), map[]) && HeardOk(Started(databases), map[])
  {
    StartedOk(databases);
  }

  /**
    * After any interleaving of connections, expiries and evictions: an EXEC that is carried out finds under every key
    * that the connection named in a WATCH since its last EXEC, DISCARD or UNWATCH what was stored there at the last
    * such WATCH, and then does exactly what the commands do that were answered QUEUED since its MULTI, in order, one
    * answer each.
    */
  lemma ExecSeesWhatWasWatched(databases: nat, events: seq<Event>, id: int, exec: seq<bytes>, now: int)
    requires databases > 0
    requires id in AfterEvents(Started(databases), events).conns && IsExec(exec) && ArityFits(ExecKind, |exec|)
    requires var s := AfterEvents(Started(databases), events);
             Dispatch(s.sh, s.conns[id], exec, now).answer.Results?
    ensures var s := AfterEvents(Started(databases), events);
            var notes := NotesOf(SeenAfter(Started(databases), events, map[]), id);
            forall w :: w in notes ==> StoredOf(s.sh, w) == notes[w]
    ensures var queue := QueuedOf(HeardAfter(Started(databases), events, map[]), id);
            var s := AfterEvents(Started(databases), events);
            var o := Dispatch(s.sh, s.conns[id], exec, now);
            QueueOk(queue) &&
            var q := RunQueue(s.sh, s.conns[id].(tx := IDLE), queue, now);
            && o.answer == q.answer && |q.answer.answers| == |queue|
            && o.sh.dbs == q.sh.dbs && o.c == q.c && o.c.tx == IDLE
            && o.sh.log == q.sh.log + [[Upper(exec[0])]]
  {
    hide Dispatch, RunQueue, AfterEvents, SeenAfter, HeardAfter, ConnOk, KindOf;
    StartedWatchOk(databases);
    AfterWatchOk(Started(databases), events, map[]);
    AfterHeardOk(Started(databases), events, map[]);
    var s := AfterEvents(Started(databases), events);
    var notes := NotesOf(SeenAfter(Started(databases), events, map[]), id);
    IdleOk(s.sh, s.conns[id]);
    ExecCarriedOut(s.sh, s.conns[id], exec, now);
    forall w | w in notes
      ensures StoredOf(s.sh, w) == notes[w]
    {
      assert Covered(s.sh, s.conns[id], notes, w);
    }
  }

  // ---------------------------------------------------------------------------------------------
  // Changes that were undone
  // ---------------------------------------------------------------------------------------------

  /** The connection begins anew, stops watching, or names this key in another WATCH. */
  predicate Touches(s: Server, ev: Event, id: int, w: (int, bytes))
    requires ServerOk(s)
  {
    || (ev.Connect? && ev.id == id)
    || (ev.Command? && ev.id == id && Resets(s, ev))
    || (ev.Command? && ev.id == id && CarriesOut(s, ev, WatchKind) && w.0 == s.conns[id].dbId && w.1 in ev.cmd[1..])
  }

  predicate Untouched(s: Server, events: seq<Event>, id: int, w: (int, bytes))
    requires ServerOk(s)
    decreases |events|
  {
    events == [] ||
    (!Touches(s, events[0], id, w) && (NextAdvances(s, events[0]); Untouched(Next(s, events[0]), events[1..], id, w)))
  }

  /** Recorded version and note stand as they were. */
  ghost predicate Stands(s: Server, s': Server, seen: Seen, seen': Seen, id: int, w: (int, bytes)) {
    && id in s.conns && id in s'.conns
    && w in s.conns[id].tx.watched && w in s'.conns[id].tx.watched
    && s'.conns[id].tx.watched[w] == s.conns[id].tx.watched[w]
    && w in NotesOf(seen, id) && w in NotesOf(seen', id) && NotesOf(seen', id)[w] == NotesOf(seen, id)[w]
  }

  lemma StandsStep(s: Server, ev: Event, seen: Seen, id: int, w: (int, bytes))
    requires WatchOk(s, seen) && id in Next(s, ev).conns && w in NotesOf(seen, id) && !Touches(s, ev, id, w)
    ensures Stands(s, Next(s, ev), seen, Observe(s, ev, seen), id, w)
  {
    hide Dispatch, ServerOk, Swept, Delete, NoteAll, WatchAll, CarriesOut;
    assert AllCovered(s.sh, s.conns[id], NotesOf(seen, id));
    assert Covered(s.sh, s.conns[id], NotesOf(seen, id), w);
    if ev.Command? && ev.id == id {
      WatchedAfter(s, ev);
      if CarriesOut(s, ev, WatchKind) {
        WatchRuns(s, ev);
        ConnAt(s, id);
        var c := s.conns[id];
        WatchAllMembers(s.sh.dbs[c.dbId], c.dbId, ev.cmd[1..], c.tx.watched, w);
        NoteAllMembers(s.sh.dbs[c.dbId], c.dbId, ev.cmd[1..], NotesOf(seen, id), w);
      }
    } else {
      OnlyOwnNotes(s, ev, seen, id);
    }
  }

  lemma {:induction false} StandsAfter(s: Server, events: seq<Event>, seen: Seen, id: int, w: (int, bytes))
    requires WatchOk(s, seen) && id in AfterEvents(s, events).conns && w in NotesOf(seen, id) &&
             Untouched(s, events, id, w)
    ensures Stands(s, AfterEvents(s, events), seen, SeenAfter(s, events, seen), id, w)
    decreases |events|
  {
    assert ServerOk(s);
    WasConnected(s, events, id, w);
    if events == [] {
      hide ServerOk;
      assert AllCovered(s.sh, s.conns[id], NotesOf(seen, id));
      assert Covered(s.sh, s.conns[id], NotesOf(seen, id), w);
    } else {
      hide WatchOk, Next, Observe, ServerOk, Touches;
      var s1, seen1 := Next(s, events[0]), Observe(s, events[0], seen);
      NextAdvances(s, events[0]);
      NextWatchOk(s, events[0], seen);
      WasConnected(s1, events[1..], id, w);
      StandsStep(s, events[0], seen, id, w);
      StandsAfter(s1, events[1..], seen1, id, w);
    }
  }

  /** Who is connected at the end, and did not connect anew, was connected all the time. */
  lemma {:induction false} WasConnected(s: Server, events: seq<Event>, id: int, w: (int, bytes))
    requires ServerOk(s) && id in AfterEvents(s, events).conns && Untouched(s, events, id, w)
    ensures id in s.conns
    decreases |events|
  {
    if events != [] {
      hide ServerOk, Dispatch;
      NextAdvances(s, events[0]);
      WasConnected(Next(s, events[0]), events[1..], id, w);
    }
  }

  /**
    * An EXEC that is carried out was preceded by no change at all to a watched key, not even one that was undone: in
    * every state since the key's last WATCH it held the entry noted then.
    */
  lemma ExecSawNoChange(databases: nat, before: seq<Event>, since: seq<Event>, id: int, w: (int, bytes),
                        exec: seq<bytes>, now: int)
    requires databases > 0 && IsExec(exec) && ArityFits(ExecKind, |exec|)
    requires var s := AfterEvents(Started(databases), before);
             && w in NotesOf(SeenAfter(Started(databases), before, map[]), id) && Untouched(s, since, id, w)
             && id in AfterEvents(s, since).conns
             && Dispatch(AfterEvents(s, since).sh, AfterEvents(s, since).conns[id], exec, now).answer.Results?
    ensures var s := AfterEvents(Started(databases), before);
            var seen := SeenAfter(Started(databases), before, map[]);
            && StoredOf(s.sh, w) == NotesOf(seen, id)[w]
            && w in NotesOf(SeenAfter(s, since, seen), id) &&
               NotesOf(SeenAfter(s, since, seen), id)[w] == NotesOf(seen, id)[w]
  {
    hide Dispatch, AfterEvents, SeenAfter, ConnOk, KindOf, Untouched, Advances, RunQueue;
    StartedWatchOk(databases);
    AfterWatchOk(Started(databases), before, map[]);
    var s := AfterEvents(Started(databases), before);
    var seen := SeenAfter(Started(databases), before, map[]);
    StandsAfter(s, since, seen, id, w);
    AfterWatchOk(s, since, seen);
    var s' := AfterEvents(s, since);
    ExecCarriedOut(s'.sh, s'.conns[id], exec, now);
    AfterAdvances(s, since);
    VersionStood(s, s', seen, id, w);
  }

  /** A version that is at the end what it was when recorded was that all the time. */
  lemma VersionStood(s: Server, s': Server, seen: Seen, id: int, w: (int, bytes))
    requires WatchOk(s, seen) && Advances(s.sh, s'.sh) && id in s.conns && w in s.conns[id].tx.watched &&
             w in NotesOf(seen, id)
    requires VersionOf(s'.sh, w) == s.conns[id].tx.watched[w]
    ensures StoredOf(s.sh, w) == NotesOf(seen, id)[w]
  {
    hide Step;
    assert AllCovered(s.sh, s.conns[id], NotesOf(seen, id));
    assert Covered(s.sh, s.conns[id], NotesOf(seen, id), w);
    assert ConnOk(s.sh, s.conns[id]);
    AdvancesAt(s.sh, s'.sh, w.0);
    StepSees(s.sh.dbs[w.0], s'.sh.dbs[w.0], w.1);
  }

  lemma StepSees(a: KS, b: KS, key: bytes)
    requires WellFormed(a) && Step(a, b)
    ensures Version(b, key) >= Version(a, key)
  {
    TrackedSees(a, b, key);
  }

  // ---------------------------------------------------------------------------------------------
  // Exactly when EXEC goes through
  // ---------------------------------------------------------------------------------------------

  /** The connections that were answered MULTI, and since then neither EXEC nor DISCARD. */
  function Open(s: Server, ev: Event, open: set<int>): set<int>
    requires ServerOk(s)
  {
    if ev.Connect? then open - {ev.id}
    else if CarriesOut(s, ev, MultiKind) then open + {ev.id}
    else if CarriesOut(s, ev, ExecKind) || CarriesOut(s, ev, DiscardKind) then open - {ev.id}
    else open
  }

  function OpenAfter(s: Server, events: seq<Event>, open: set<int>): set<int>
    requires ServerOk(s)
    decreases |events|
  {
    if events == [] then open
    else NextAdvances(s, events[0]); OpenAfter(Next(s, events[0]), events[1..], Open(s, events[0], open))
  }

  /** The versions that keys had when they were last named in a WATCH. */
  type Stamps = map<(int, bytes), nat>

  function StampsOf(stamped: map<int, Stamps>, id: int): Stamps {
    if id in stamped then stamped[id] else map[]
  }

  function VersionsNow(ks: KS, db: int, keys: seq<bytes>): Stamps {
    map k | k in keys :: (db, k) := Version(ks, k)
  }

  function Stamp(s: Server, ev: Event, stamped: map<int, Stamps>): map<int, Stamps>
    requires ServerOk(s)
  {
    if ev.Connect? then stamped[ev.id := map[]]
    else if CarriesOut(s, ev, WatchKind) then
      var c := s.conns[ev.id];
      stamped[ev.id := StampsOf(stamped, ev.id) + VersionsNow(s.sh.dbs[c.dbId], c.dbId, ev.cmd[1..])]
    else if Resets(s, ev) then stamped[ev.id := map[]]
    else stamped
  }

  function StampedAfter(s: Server, events: seq<Event>, stamped: map<int, Stamps>): map<int, Stamps>
    requires ServerOk(s)
    decreases |events|
  {
    if events == [] then stamped
    else NextAdvances(s, events[0]); StampedAfter(Next(s, events[0]), events[1..], Stamp(s, events[0], stamped))
  }

  /** Who is in a transaction, and what it watches, is what the observer says. */
  ghost predicate Known(s: Server, open: set<int>, stamped: map<int, Stamps>) {
    && ServerOk(s)
    && forall id :: id in s.conns ==>
         && (s.conns[id].tx.inTransaction <==> id in open)
         && s.conns[id].tx.watched == StampsOf(stamped, id)
  }

  lemma WatchAllIsStamps(ks: KS, db: int, keys: seq<bytes>, watched: Watched)
    ensures WatchAll(ks, db, keys, watched) == watched + VersionsNow(ks, db, keys)
  {
    hide WatchAll;
    forall w
      ensures w in WatchAll(ks, db, keys, watched) <==> w in watched + VersionsNow(ks, db, keys)
      ensures w in WatchAll(ks, db, keys, watched) ==>
                WatchAll(ks, db, keys, watched)[w] == (watched + VersionsNow(ks, db, keys))[w]
    {
      WatchAllMembers(ks, db, keys, watched, w);
      assert w in VersionsNow(ks, db, keys) <==> w.0 == db && w.1 in keys;
    }
  }

  /** MULTI begins a transaction, EXEC and DISCARD end it, and nothing else does either. */
  lemma InTransactionAfter(s: Server, ev: Event)
    requires ServerOk(s) && ev.Command? && ev.id in s.conns
    ensures var c, o := s.conns[ev.id], Dispatch(s.sh, s.conns[ev.id], ev.cmd, ev.now);
            o.c.tx.inTransaction <==>
            CarriesOut(s, ev, MultiKind) ||
            (c.tx.inTransaction && !CarriesOut(s, ev, ExecKind) && !CarriesOut(s, ev, DiscardKind))
  {
    hide Dispatch, KindOf, ServerOk, ConnOk;
    ConnAt(s, ev.id);
    if IsExec(ev.cmd) {
      InTransactionAfterExec(s, ev);
    } else {
      InTransactionAfterOther(s.sh, s.conns[ev.id], ev.cmd, ev.now);
    }
  }

  lemma InTransactionAfterOther(sh: Shared, c: Conn, cmd: seq<bytes>, now: int)
    requires ConnOk(sh, c) && !IsExec(cmd)
    ensures var o, k := Dispatch(sh, c, cmd, now), KindOfCommand(cmd);
            o.c.tx.inTransaction <==>
            (!IsError(o.answer) && k == Some(MultiKind)) ||
            (c.tx.inTransaction && (IsError(o.answer) || k != Some(DiscardKind)))
  {
    hide KindOf, Run, ConnOk, Upper;
    var k := KindOfCommand(cmd);
    if k.Some? {
      InTransactionAfterRun(sh, c, k.value, cmd, now);
    }
  }

  lemma InTransactionAfterRun(sh: Shared, c: Conn, kind: Kind, cmd: seq<bytes>, now: int)
    requires ConnOk(sh, c) && cmd != [] && KindOfCommand(cmd) == Some(kind) && kind != ExecKind
    ensures var o := Run(sh, c, kind, cmd, now);
            o.c.tx.inTransaction <==>
            (!IsError(o.answer) && kind == MultiKind) ||
            (c.tx.inTransaction && (IsError(o.answer) || kind != DiscardKind))
  {
    hide KindOf, Execute, WatchAll, QueueOk, Flushed, ParseInt;
  }

  lemma InTransactionAfterExec(s: Server, ev: Event)
    requires ServerOk(s) && ev.Command? && ev.id in s.conns && IsExec(ev.cmd)
    ensures var c, o := s.conns[ev.id], Dispatch(s.sh, s.conns[ev.id], ev.cmd, ev.now);
            o.c.tx.inTransaction <==> c.tx.inTransaction && !CarriesOut(s, ev, ExecKind)
  {
    hide KindOf, Execute, WatchedUnchanged, RunQueue, ConnOk, ServerOk;
    var c := s.conns[ev.id];
    assert ConnOk(s.sh, c) by { ConnAt(s, ev.id); }
    if ArityFits(ExecKind, |ev.cmd|) {
      ExecRuns(s.sh, c, ev.cmd, ev.now);
      IdleOk(s.sh, c);
      if WatchedUnchanged(s.sh, c.tx) {
        RunQueueAdvances(s.sh, c.(tx := IDLE), c.tx.queued, ev.now);
      }
    }
  }

  lemma NextKnown(s: Server, ev: Event, open: set<int>, stamped: map<int, Stamps>)
    requires Known(s, open, stamped)
    ensures Known(Next(s, ev), Open(s, ev, open), Stamp(s, ev, stamped))
  {
    hide Dispatch, ServerOk, Swept, Delete, CarriesOut, WatchAll, VersionsNow;
    NextAdvances(s, ev);
    if ev.Command? && ev.id in s.conns {
      InTransactionAfter(s, ev);
      WatchedAfter(s, ev);
      if CarriesOut(s, ev, WatchKind) {
        WatchRuns(s, ev);
        ConnAt(s, ev.id);
        var c := s.conns[ev.id];
        WatchAllIsStamps(s.sh.dbs[c.dbId], c.dbId, ev.cmd[1..], c.tx.watched);
        OneKind(s, ev);
      }
    } else {
      NothingCarriedOut(s, ev);
    }
  }

  /** A command is of one kind only. */
  lemma OneKind(s: Server, ev: Event)
    requires ServerOk(s) && CarriesOut(s, ev, WatchKind)
    ensures !CarriesOut(s, ev, MultiKind) && !CarriesOut(s, ev, ExecKind) && !CarriesOut(s, ev, DiscardKind)
  {
    hide Dispatch, KindOf, ServerOk;
  }

  lemma NothingCarriedOut(s: Server, ev: Event)
    requires ServerOk(s) && !(ev.Command? && ev.id in s.conns)
    ensures forall kind :: !CarriesOut(s, ev, kind)
  {
    hide Dispatch, ServerOk;
  }

  lemma {:induction false} AfterKnown(s: Server, events: seq<Event>, open: set<int>, stamped: map<int, Stamps>)
    requires Known(s, open, stamped)
    ensures Known(AfterEvents(s, events), OpenAfter(s, events, open), StampedAfter(s, events, stamped))
    decreases |events|
  {
    assert ServerOk(s);
    hide Known, Next, Open, Stamp;
    if events != [] {
      NextAdvances(s, events[0]);
      NextKnown(s, events[0], open, stamped);
      AfterKnown(Next(s, events[0]), events[1..], Open(s, events[0], open), Stamp(s, events[0], stamped));
    }
  }

  /** Every noted key still has the version that it had at its last WATCH. */
  ghost predicate AllCurrent(sh: Shared, stamps: Stamps) {
    forall w :: w in stamps ==> w.0 in sh.dbs && Version(sh.dbs[w.0], w.1) == stamps[w]
  }

  lemma ExecDecided(sh: Shared, c: Conn, exec: seq<bytes>, now: int)
    requires ConnOk(sh, c) && IsExec(exec) && ArityFits(ExecKind, |exec|)
    ensures var o := Dispatch(sh, c, exec, now);
            if !c.tx.inTransaction then o.answer == Rejected && o.sh == sh && o.c == c
            else if AllCurrent(sh, c.tx.watched) then o.answer.Results? && |o.answer.answers| == |c.tx.queued|
            else o.answer == Aborted && o.sh.dbs == sh.dbs && o.c == c.(tx := IDLE)
  {
    hide KindOf, Execute, RunQueue, Dispatch, QueueOk;
    ExecRuns(sh, c, exec, now);
    IdleOk(sh, c);
    RunQueueAdvances(sh, c.(tx := IDLE), c.tx.queued, now);
  }

  /**
    * After any interleaving of connections, expiries and evictions: EXEC is refused exactly to a connection that was
    * not answered MULTI since its last EXEC or DISCARD. To the others it gives one answer for each command that was
    * answered QUEUED, if every key watched still has the version it had at its last WATCH; if one has not, it aborts,
    * and nothing that is stored changes.
    */
  lemma ExecAnswers(databases: nat, events: seq<Event>, id: int, exec: seq<bytes>, now: int)
    requires databases > 0
    requires id in AfterEvents(Started(databases), events).conns && IsExec(exec) && ArityFits(ExecKind, |exec|)
    ensures var s := AfterEvents(Started(databases), events);
            var o := Dispatch(s.sh, s.conns[id], exec, now);
            var stamps := StampsOf(StampedAfter(Started(databases), events, map[]), id);
            if id !in OpenAfter(Started(databases), events, {}) then o.answer == Rejected && o.sh == s.sh
            else if forall w :: w in stamps ==> w.0 in s.sh.dbs && Version(s.sh.dbs[w.0], w.1) == stamps[w] then
              && o.answer.Results?
              && |o.answer.answers| == |QueuedOf(HeardAfter(Started(databases), events, map[]), id)|
            else o.answer == Aborted && o.sh.dbs == s.sh.dbs
  {
    hide Dispatch, AfterEvents, OpenAfter, StampedAfter, HeardAfter, ConnOk, KindOf;
    StartedWatchOk(databases);
    StartedKnown(databases);
    AfterKnown(Started(databases), events, {}, map[]);
    AfterHeardOk(Started(databases), events, map[]);
    var s := AfterEvents(Started(databases), events);
    ConnAt(s, id);
    ExecDecided(s.sh, s.conns[id], exec, now);
  }

  lemma StartedKnown(databases: nat)
    requires databases > 0
    ensures Known(Started(databases), {}, map[])
  {
    StartedOk(databases);
  }
}
