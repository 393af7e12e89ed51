// The append-only log of persistence/aof.py: every logged command reaches the buffer, then the file.

module AppendOnlyLog {
  import opened Bytes
  import opened Resp
  import opened Encoders

  /** Logged commands as the values that their bytes encode. */
  function Records(log: seq<seq<bytes>>): (vs: seq<Value>)
    ensures |vs| == |log| && forall k :: 0 <= k < |log| ==> vs[k] == Array(Bulks(log[k]))
  {
    seq(|log|, k requires 0 <= k < |log| => Array(Bulks(log[k])))
  }

  /** The content of a log file. */
  function LogBytes(log: seq<seq<bytes>>): bytes {
    EncodeItems(Records(log))
  }

  lemma LogBytesAppend(log: seq<seq<bytes>>, cmd: seq<bytes>)
    ensures LogBytes(log + [cmd]) == LogBytes(log) + CommandBytes(cmd)
  {
    assert Records(log + [cmd]) == Records(log) + [Array(Bulks(cmd))];
    EncodeItemsAppend(Records(log), Array(Bulks(cmd)));
  }

  lemma {:induction false} SplitLog(log: seq<seq<bytes>>, j: nat)
    requires j <= |log|
    ensures LogBytes(log) == LogBytes(log[..j]) + LogBytes(log[j..])
    decreases |log| - j
  {
    hide Encode;
    if j == |log| {
      assert log[..j] == log && log[j..] == [];
    } else {
      SplitLog(log, j + 1);
      assert log[..j + 1] == log[..j] + [log[j]];
      LogBytesAppend(log[..j], log[j]);
      assert Records(log[j..])[1..] == Records(log[j + 1..]);
      assert Records(log[j..])[0] == Array(Bulks(log[j]));
      assert log[j..] != [];
    }
  }

  const FLUSH_AT: nat := 65536

  class AOFManager {
    const enabled: bool
    const always: bool  // fsync_mode is "always"
    var file: bytes     // what has been written out
    var buffer: bytes
    var totalWrites: nat
    ghost var records: seq<seq<bytes>>
    ghost var flushed: nat  // how many records are in the file already

    ghost predicate Valid()
      reads this
    {
      flushed <= |records| && file == LogBytes(records[..flushed]) && buffer == LogBytes(records[flushed..])
    }

    /** File and buffer together are always the bytes of the records. */
    lemma WholeLog()
      requires Valid()
      ensures file + buffer == LogBytes(records)
    {
      SplitLog(records, flushed);
    }

    constructor (enabled: bool, always: bool)
      ensures Valid() && records == [] && this.enabled == enabled && this.always == always
    {
      this.enabled, this.always := enabled, always;
      file, buffer, totalWrites, records, flushed := [], [], 0, [], 0;
    }

    /** Nothing is lost and nothing reordered; with fsync "always" nothing stays in the buffer either. */
    method AppendCommand(parts: seq<bytes>)
      requires Valid()
      modifies this
      ensures Valid()
      ensures records == if enabled then old(records) + [parts] else old(records)
      ensures old(file) <= file && totalWrites == old(totalWrites) + if enabled then 1 else 0
      ensures enabled && always ==> buffer == [] && file == LogBytes(records)
      ensures !enabled ==> file == old(file) && buffer == old(buffer)
      ensures enabled ==>
                var more := old(buffer) + CommandBytes(parts);
                if always || |more| >= 65536 then buffer == [] && file == old(file) + more
                else buffer == more && file == old(file)
    {
      if !enabled {
        return;
      }
      LogBytesAppend(records[flushed..], parts);
      var data := EncodeCommand(parts);
      buffer := buffer + data;
      totalWrites := totalWrites + 1;
      assert (records + [parts])[..flushed] == records[..flushed];
      assert (records + [parts])[flushed..] == records[flushed..] + [parts];
      records := records + [parts];
      if always {
        Flush();
      } else if |buffer| >= FLUSH_AT {
        Flush();
      }
    }

    method Flush()
      requires Valid()
      modifies this`file, this`buffer, this`flushed
      ensures Valid() && buffer == [] && file == LogBytes(records)
      ensures file == old(file) + old(buffer)
    {
      WholeLog();
      file := file + buffer;
      buffer := [];
      flushed := |records|;
      assert records[..flushed] == records && records[flushed..] == [];
    }

    /** The end of an in-place rewrite: the new file takes the place of the old one; the buffer is not looked at. */
    method ReplaceFile(newFile: bytes, ghost cmds: seq<seq<bytes>>)
      requires Valid() && newFile == LogBytes(cmds)
      modifies this`file, this`records, this`flushed
      ensures Valid() && file == newFile && buffer == old(buffer) && records == cmds + old(records[flushed..])
    {
      file := newFile;
      ghost var pending := records[flushed..];
      records := cmds + pending;
      flushed := |cmds|;
      assert records[..flushed] == cmds && records[flushed..] == pending;
    }
  }
}
