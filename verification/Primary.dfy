// The primary's side of replication, replication/primary.py: writes go to the backlog and to every online replica,
// and PSYNC answers from the backlog when it can.

module PrimaryReplication {
  import opened Basics
  import opened Bytes
  import opened Resp
  import opened Commands
  import opened Encoders
  import opened ReplicationBacklogs

  /** What one send to a replica was for. */
  datatype Frame =
    | Continued(from: int, data: bytes)
    | FullSync(offset: int, stream: bytes)
    | Command(raw: bytes)
    | Heartbeat

  const PING: seq<bytes> := [Ascii("PING")]

  /** The bytes of a frame. */
  function Raw(f: Frame, replid: bytes): bytes {
    match f
    case Continued(_, data) => Line(PLUS, Ascii("CONTINUE ") + replid) + data
    case FullSync(offset, stream) => Line(PLUS, Ascii("FULLRESYNC ") + replid + [SPACE] + Decimal(offset)) + stream
    case Command(raw) => raw
    case Heartbeat => CommandBytes(PING)
  }

  function RawAll(frames: seq<Frame>, replid: bytes): bytes {
    if frames == [] then [] else RawAll(frames[..|frames| - 1], replid) + Raw(frames[|frames| - 1], replid)
  }

  /**
    * What a replica was given since its last handshake, heartbeats aside, if that was a partial one: from where, and
    * the bytes.
    */
  function Streamed(frames: seq<Frame>): Option<(int, bytes)> {
    if frames == [] then None
    else
      var before, last := frames[..|frames| - 1], frames[|frames| - 1];
      match last
      case Continued(from, data) => Some((from, data))
      case FullSync(_, _) => None
      case Command(raw) => (match Streamed(before) case None => None case Some(s) => Some((s.0, s.1 + raw)))
      case Heartbeat => Streamed(before)
  }

  /** What goes over the wire, byte by byte. */
  lemma FramesOnTheWire(replid: bytes, offset: int, data: bytes)
    ensures Raw(Continued(offset, data), replid) == [43] + Ascii("CONTINUE ") + replid + [13, 10] + data
    ensures Raw(FullSync(offset, data), replid) ==
            [43] + Ascii("FULLRESYNC ") + replid + [32] + Decimal(offset) + [13, 10] + data
    ensures Raw(Command(data), replid) == data
  {
    hide Decimal, Ascii, CommandBytes;
    var text := Ascii("FULLRESYNC ") + replid + [SPACE] + Decimal(offset);
    assert [43] + text == [43] + Ascii("FULLRESYNC ") + replid + [32] + Decimal(offset);
    assert Line(PLUS, Ascii("CONTINUE ") + replid) == [43] + Ascii("CONTINUE ") + replid + [13, 10];
  }

  lemma HeartbeatOnTheWire(replid: bytes)
    ensures Raw(Heartbeat, replid) == [42, 49, 13, 10, 36, 52, 13, 10, 80, 73, 78, 71, 13, 10]
  {
    hide CommandBytes;
    CommandOnTheWire(Ascii("PING"));
    assert Ascii("PING") == [80, 73, 78, 71];
    OneDigit(4);
  }

  /** A connection to a replica, as far as its output goes. */
  class ClientLink {
    var output: bytes
    ghost var frames: seq<Frame>

    ghost predicate Ok(replid: bytes)
      reads this
    {
      output == RawAll(frames, replid)
    }

    constructor (replid: bytes)
      ensures Ok(replid) && frames == []
    {
      output, frames := [], [];
    }

    method SendRaw(raw: bytes, ghost f: Frame, replid: bytes)
      requires Ok(replid) && raw == Raw(f, replid)
      modifies this
      ensures Ok(replid) && frames == old(frames) + [f]
      ensures output == old(output) + raw
    {
      output := output + raw;
      frames := frames + [f];
      assert frames[..|frames| - 1] == old(frames);
    }
  }

  /** HANDSHAKE is a replica that is not online. */
  datatype Info = Info(online: bool, ackOffset: int)

  /** The stream given to a replica is the history from its offset on. */
  ghost predicate InStep(frames: seq<Frame>, history: bytes) {
    var s := Streamed(frames);
    s.Some? ==> 0 <= s.value.0 <= |history| && s.value.1 == history[s.value.0..]
  }

  lemma CommandKeepsStep(frames: seq<Frame>, history: bytes, raw: bytes)
    requires InStep(frames, history)
    ensures InStep(frames + [Command(raw)], history + raw)
  {
    var more := frames + [Command(raw)];
    assert more[..|more| - 1] == frames;
  }

  lemma ContinuedStep(frames: seq<Frame>, history: bytes, from: nat)
    requires from <= |history|
    ensures InStep(frames + [Continued(from, history[from..])], history)
  {
  }

  lemma FullSyncStep(frames: seq<Frame>, history: bytes, offset: int, stream: bytes)
    ensures InStep(frames + [FullSync(offset, stream)], history)
  {
  }

  /** The commands among the frames, one after the other. */
  function Sent(frames: seq<Frame>): bytes {
    if frames == [] then []
    else (if frames[0].Command? then frames[0].raw else []) + Sent(frames[1..])
  }

  lemma {:induction false} SentMore(frames: seq<Frame>, f: Frame)
    ensures Sent(frames + [f]) == Sent(frames) + if f.Command? then f.raw else []
  {
    if frames == [] {
      assert [f][1..] == [];
    } else {
      assert (frames + [f])[1..] == frames[1..] + [f];
      SentMore(frames[1..], f);
    }
  }

  /** In step: the answer CONTINUE and all commands sent since are the history from the offset on. */
  lemma {:induction false} InStepMeans(frames: seq<Frame>, history: bytes, i: nat)
    requires i < |frames| && frames[i].Continued?
    requires forall j :: i < j < |frames| ==> frames[j].Command? || frames[j].Heartbeat?
    ensures InStep(frames, history) <==>
            0 <= frames[i].from <= |history| && frames[i].data + Sent(frames[i + 1..]) == history[frames[i].from..]
  {
    StreamedSince(frames, i);
  }

  lemma {:induction false} StreamedSince(frames: seq<Frame>, i: nat)
    requires i < |frames| && frames[i].Continued?
    requires forall j :: i < j < |frames| ==> frames[j].Command? || frames[j].Heartbeat?
    ensures Streamed(frames) == Some((frames[i].from, frames[i].data + Sent(frames[i + 1..])))
  {
    var n := |frames| - 1;
    if i < n {
      var before, last := frames[..n], frames[n];
      StreamedSince(before, i);
      assert frames[i + 1..] == before[i + 1..] + [last] && before[i] == frames[i];
      SentMore(before[i + 1..], last);
      var data, sent := frames[i].data, Sent(before[i + 1..]);
      if last.Command? {
        JoinThree(data, sent, last.raw);
        assert Streamed(frames) == Some((frames[i].from, data + sent + last.raw));
      } else {
        assert sent + [] == sent;
        assert Streamed(frames) == Some((frames[i].from, data + sent));
      }
    } else {
      assert frames[i].data + [] == frames[i].data;
      assert frames[i + 1..] == [];
    }
  }

  lemma JoinThree(x: bytes, y: bytes, z: bytes)
    ensures x + (y + z) == (x + y) + z
  {
  }

  datatype Event =
    | WriteEvent(parts: seq<bytes>)
    | PsyncEvent(client: ClientLink, replid: bytes, offset: int, stream: bytes)
    | PingEvent
    | RegisterEvent(client: ClientLink)
    | AckEvent(client: ClientLink, offset: int)
    | LeaveEvent(client: ClientLink)

  function Clients(events: seq<Event>): set<ClientLink> {
    set i | 0 <= i < |events| && (events[i].PsyncEvent? || events[i].RegisterEvent?) :: events[i].client
  }

  class PrimaryReplicationManager {
    const replid: bytes
    const backlog: ReplicationBacklog
    var replicas: map<ClientLink, Info>

    ghost predicate Valid()
      reads this, backlog, replicas.Keys
    {
      backlog.Valid() && forall c :: c in replicas ==> c.Ok(replid)
    }

    /** No online replica has a gap or a repeat in what it was sent since its partial resync. */
    ghost predicate AllInStep()
      reads this, backlog, replicas.Keys
    {
      forall c :: c in replicas && replicas[c].online ==> InStep(c.frames, backlog.history)
    }

    constructor (replid: bytes, size: nat)
      requires size > 0
      ensures Valid() && AllInStep() && backlog.Refines() && backlog.history == [] && replicas == map[]
      ensures this.replid == replid && backlog.maxSize == size && fresh(backlog) && fresh(backlog.buffer)
    {
      this.replid := replid;
      backlog := new ReplicationBacklog(size);
      replicas := map[];
    }

    method RegisterReplica(client: ClientLink)
      requires Valid() && client.Ok(replid)
      modifies this`replicas
      ensures Valid() && (old(AllInStep()) ==> AllInStep())
      ensures replicas == if client in old(replicas) then old(replicas) else old(replicas)[client := Info(false, 0)]
    {
      if client !in replicas {
        replicas := replicas[client := Info(false, 0)];
      }
    }

    method RemoveReplica(client: ClientLink)
      requires Valid()
      modifies this`replicas
      ensures Valid() && (old(AllInStep()) ==> AllInStep())
      ensures replicas == old(replicas) - {client}
    {
      replicas := replicas - {client};
    }

    method UpdateReplicaAck(client: ClientLink, offset: int)
      requires Valid()
      modifies this`replicas
      ensures Valid() && (old(AllInStep()) ==> AllInStep())
      ensures replicas ==
              if client in old(replicas) then old(replicas)[client := old(replicas)[client].(ackOffset := offset)]
              else old(replicas)
    {
      if client in replicas {
        replicas := replicas[client := replicas[client].(ackOffset := offset)];
      }
    }

    /** Sends one frame to every replica that is online. */
    method Broadcast(raw: bytes, ghost f: Frame)
      requires Valid() && raw == Raw(f, replid)
      modifies replicas.Keys
      ensures Valid()
      ensures forall c :: c in replicas ==>
                c.frames == if replicas[c].online then old(c.frames) + [f] else old(c.frames)
    {
      hide RawAll, Raw, InStep;
      var left := replicas.Keys;
      while left != {}
        invariant left <= replicas.Keys
        invariant forall c :: c in replicas ==> c.Ok(replid)
        invariant forall c :: c in replicas ==>
                                c.frames ==
                                if c !in left && replicas[c].online then old(c.frames) + [f] else old(c.frames)
        decreases |left|
      {
        var c :| c in left;
        left := left - {c};
        if replicas[c].online {
          c.SendRaw(raw, f, replid);
        }
      }
    }

    /** A write reaches the history and every online replica alike, whatever its size. */
    method PropagateWrite(parts: seq<bytes>)
      requires Valid()
      modifies backlog`masterOffset, backlog`firstByteOffset, backlog`history, backlog.buffer, replicas.Keys
      ensures Valid() && (old(AllInStep()) ==> AllInStep())
      ensures backlog.history == old(backlog.history) + CommandBytes(parts)
      ensures old(backlog.Refines()) && |CommandBytes(parts)| < backlog.maxSize ==> backlog.Refines()
      ensures forall c :: c in replicas ==>
                            c.frames ==
                            if replicas[c].online then old(c.frames) + [Command(CommandBytes(parts))]
                            else old(c.frames)
    {
      hide RawAll, InStep, Streamed;
      var raw := EncodeCommand(parts);
      backlog.Feed(raw);
      Broadcast(raw, Command(raw));
      if old(AllInStep()) {
        forall c | c in replicas && replicas[c].online
          ensures InStep(c.frames, backlog.history)
        {
          CommandKeepsStep(old(c.frames), old(backlog.history), raw);
        }
      }
    }

    /** One round of the heartbeat loop. */
    method Ping()
      requires Valid()
      modifies replicas.Keys
      ensures Valid() && (old(AllInStep()) ==> AllInStep())
      ensures forall c :: c in replicas ==>
                c.frames == if replicas[c].online then old(c.frames) + [Heartbeat] else old(c.frames)
    {
      var raw := EncodeCommand(PING);
      Broadcast(raw, Heartbeat);
      if old(AllInStep()) {
        forall c | c in replicas && replicas[c].online
          ensures InStep(c.frames, backlog.history)
        {
        }
      }
    }

    /** A request is served from the backlog exactly when it names this primary and an offset in the window. */
    method SyncPayload(requested: bytes, offset: int, stream: bytes) returns (payload: bytes, ghost f: Frame)
      requires Valid()
      ensures payload == Raw(f, replid)
      ensures if requested == replid && backlog.firstByteOffset <= offset <= backlog.masterOffset
              then f.Continued? && f.from == offset
              else f == FullSync(backlog.masterOffset, stream)
      ensures backlog.Refines() ==>
                f ==
                if requested == replid &&
                   Max(0, |backlog.history| - backlog.maxSize) <= offset <= |backlog.history|
                then Continued(offset, backlog.history[offset..])
                else FullSync(|backlog.history|, stream)
    {
      hide RawAll, InStep, Streamed, ReadFrom, Holds, Decimal, Digits, Ascii;
      if requested == replid && backlog.IsOffsetInBacklog(offset) {
        var data := backlog.GetDataSinceOffset(offset);
        var rest := if data.None? then [] else data.value;
        payload := Line(PLUS, Ascii("CONTINUE ") + replid) + rest;
        f := Continued(offset, rest);
      } else {
        payload := Line(PLUS, Ascii("FULLRESYNC ") + replid + [SPACE] + Decimal(backlog.masterOffset)) + stream;
        f := FullSync(backlog.masterOffset, stream);
      }
    }

    /** Both answers put the replica online. */
    method HandlePsync(client: ClientLink, requested: bytes, offset: int, stream: bytes)
      returns (payload: bytes, ghost f: Frame)
      requires Valid() && client.Ok(replid)
      modifies this`replicas
      ensures Valid() && client in replicas && replicas[client].online && replicas.Keys == old(replicas.Keys) + {client}
      ensures forall c :: c in old(replicas) && c != client ==> replicas[c] == old(replicas)[c]
      ensures payload == Raw(f, replid)
      ensures if requested == replid && backlog.firstByteOffset <= offset <= backlog.masterOffset
              then f.Continued? && f.from == offset
              else f == FullSync(backlog.masterOffset, stream)
      ensures backlog.Refines() ==>
                f ==
                if requested == replid &&
                   Max(0, |backlog.history| - backlog.maxSize) <= offset <= |backlog.history|
                then Continued(offset, backlog.history[offset..])
                else FullSync(|backlog.history|, stream)
    {
      hide RawAll, Raw, InStep, Streamed, Holds, Max;
      RegisterReplica(client);
      replicas := replicas[client := replicas[client].(online := true)];
      payload, f := SyncPayload(requested, offset, stream);
    }

    /** The PSYNC command: the answer goes out before anything else can. */
    method Psync(client: ClientLink, requested: bytes, offset: int, stream: bytes)
      requires Valid() && client.Ok(replid)
      modifies this`replicas, client
      ensures Valid() && (old(AllInStep()) && backlog.Refines() ==> AllInStep())
      ensures client in replicas && replicas[client].online && replicas.Keys == old(replicas.Keys) + {client}
      ensures backlog.Refines() ==>
                client.frames ==
                old(client.frames) +
                [if requested == replid &&
                    Max(0, |backlog.history| - backlog.maxSize) <= offset <= |backlog.history|
                 then Continued(offset, backlog.history[offset..])
                 else FullSync(|backlog.history|, stream)]
    {
      hide RawAll, Raw, InStep, Streamed;
      var payload, f := HandlePsync(client, requested, offset, stream);
      client.SendRaw(payload, f, replid);
      if backlog.Refines() && old(AllInStep()) {
        if f.Continued? {
          ContinuedStep(old(client.frames), backlog.history, offset);
        } else {
          FullSyncStep(old(client.frames), backlog.history, f.offset, f.stream);
        }
      }
    }

    /**
      * Any run of events whose commands are shorter than the backlog keeps the backlog true and every replica in
      * step.
      */
    method Serve(events: seq<Event>)
      requires Valid() && AllInStep() && backlog.Refines()
      requires forall c :: c in Clients(events) ==> c.Ok(replid)
      modifies this`replicas, backlog`masterOffset, backlog`firstByteOffset, backlog`history, backlog.buffer,
               replicas.Keys + Clients(events)
      ensures Valid()
      ensures (forall i :: 0 <= i < |events| && events[i].WriteEvent? ==>
               |CommandBytes(events[i].parts)| < backlog.maxSize) ==>
                backlog.Refines() && AllInStep()
    {
      ghost var short := forall i :: 0 <= i < |events| && events[i].WriteEvent? ==>
            |CommandBytes(events[i].parts)| < backlog.maxSize;
      hide InStep, Streamed, RawAll, Holds, Max;
      for i := 0 to |events|
        invariant Valid() && replicas.Keys <= old(replicas.Keys) + Clients(events)
        invariant forall c :: c in Clients(events) ==> c.Ok(replid)
        invariant short ==> backlog.Refines() && AllInStep()
      {
        match events[i]
        case WriteEvent(parts) => PropagateWrite(parts);
        case PsyncEvent(client, requested, offset, stream) =>
          assert client in Clients(events);
          Psync(client, requested, offset, stream);
        case PingEvent => Ping();
        case RegisterEvent(client) =>
          assert client in Clients(events);
          RegisterReplica(client);
        case AckEvent(client, offset) => UpdateReplicaAck(client, offset);
        case LeaveEvent(client) => RemoveReplica(client);
      }
    }
  }
}
