// The streaming parser of protocol/parser.py.

module Parsers {
  import opened Bytes
  import opened Resp

  datatype ProtocolError =
    | BufferExceeded
    | InvalidInteger(line: bytes)
    | InvalidBulkLength(line: bytes)
    | NegativeBulkLength(length: int)
    | MissingCrlf
    | InvalidArrayLength(line: bytes)
    | NegativeArrayCount(count: int)

  // ---------------------------------------------------------------------------------------------
  // One object, as a function of the buffer and the position
  // ---------------------------------------------------------------------------------------------

  /** How an attempt to parse ends, and where it leaves the position. */
  datatype Parsed =
    | Done(obj: Value, pos: nat)
    | More(pos: nat)
    | Bad(error: ProtocolError, pos: nat)

  predicate IsPrefix(b: byte) {
    b == PLUS || b == MINUS || b == COLON || b == DOLLAR || b == STAR
  }

  function ParseOne(buf: bytes, pos: nat): (r: Parsed)
    requires pos <= |buf|
    ensures pos <= r.pos <= |buf|
    ensures r.Done? ==> r.pos > pos
    decreases |buf| - pos, 1
  {
    if pos >= |buf| then More(pos)
    else
      var prefix := buf[pos];
      var start := if IsPrefix(prefix) then pos + 1 else pos;
      var idx := FindCrlf(buf, start);
      if idx == -1 then More(start)
      else ParseBody(buf, prefix, buf[start..idx], idx + 2)
  }

  /** The object that a line starts, by the prefix it came with. */
  function ParseBody(buf: bytes, prefix: byte, line: bytes, next: nat): (r: Parsed)
    requires next <= |buf|
    ensures next <= r.pos <= |buf|
    decreases |buf| - next, 3
  {
    if prefix == PLUS then Done(Simple(line), next)
    else if prefix == MINUS then Done(ErrorOfLine(line), next)
    else if prefix == COLON then
      match ParseInt(line)
      case None => Bad(InvalidInteger(line), next)
      case Some(v) => Done(Int(v), next)
    else if prefix == DOLLAR then
      match ParseInt(line)
      case None => Bad(InvalidBulkLength(line), next)
      case Some(length) => ParseBulk(buf, next, length)
    else if prefix == STAR then
      match ParseInt(line)
      case None => Bad(InvalidArrayLength(line), next)
      case Some(count) =>
        if count == -1 then Done(Null, next)
        else if count < -1 then Bad(NegativeArrayCount(count), next)
        else ParseItems(buf, next, count)
    else Done(Array(Bulks(Words(line))), next)
  }

  function ParseBulk(buf: bytes, pos: nat, length: int): (r: Parsed)
    requires pos <= |buf|
    ensures pos <= r.pos <= |buf|
  {
    if length == -1 then Done(Null, pos)
    else if length < -1 then Bad(NegativeBulkLength(length), pos)
    else if pos + length + 2 > |buf| then More(pos)
    else if buf[pos + length..pos + length + 2] != CRLF then Bad(MissingCrlf, pos)
    else Done(Bulk(buf[pos..pos + length]), pos + length + 2)
  }

  /** count objects in a row, as one array. */
  function ParseItems(buf: bytes, pos: nat, count: nat): (r: Parsed)
    requires pos <= |buf|
    ensures pos <= r.pos <= |buf|
    ensures r.Done? ==> r.obj.Array? && |r.obj.items| == count
    decreases |buf| - pos, 2
  {
    if count == 0 then Done(Array([]), pos)
    else
      match ParseOne(buf, pos)
      case Done(v, p) => Prepend(v, ParseItems(buf, p, count - 1))
      case other => other
  }

  function Prepend(v: Value, r: Parsed): Parsed
    requires r.Done? ==> r.obj.Array?
  {
    if r.Done? then Done(Array([v] + r.obj.items), r.pos) else r
  }

  function PrependAll(vs: seq<Value>, r: Parsed): Parsed
    requires r.Done? ==> r.obj.Array?
  {
    if r.Done? then Done(Array(vs + r.obj.items), r.pos) else r
  }

  lemma PrependOne(vs: seq<Value>, v: Value, r: Parsed)
    requires r.Done? ==> r.obj.Array?
    ensures PrependAll(vs, Prepend(v, r)) == PrependAll(vs + [v], r)
  {
    if r.Done? {
      assert vs + ([v] + r.obj.items) == (vs + [v]) + r.obj.items;
    }
  }

  lemma PrefixedLine(prefix: byte, line: bytes, rest: bytes)
    requires IsPrefix(prefix) && NoCrlf(line)
    ensures var buf := [prefix] + line + [13, 10] + rest;
            ParseOne(buf, 0) == ParseBody(buf, prefix, line, |line| + 3) && buf[|line| + 3..] == rest
  {
    hide ParseOne, ParseBody, FindCrlf;
    var tail := line + CRLF + rest;
    FindCrlfAfter(line, 0, rest);
    BehindPrefix(prefix, tail);
    assert tail[..|line|] == line;
    assert [prefix] + line + [13, 10] + rest == [prefix] + tail;
  }

  lemma BehindPrefix(prefix: byte, tail: bytes)
    requires IsPrefix(prefix) && FindCrlf(tail, 0) != -1
    ensures var i, buf := FindCrlf(tail, 0), [prefix] + tail;
            ParseOne(buf, 0) == ParseBody(buf, prefix, tail[..i], i + 3)
  {
    hide ParseBody, FindCrlf;
    FindCrlfShifted([prefix], tail, 0);
    assert ([prefix] + tail)[1..FindCrlf(tail, 0) + 1] == tail[..FindCrlf(tail, 0)];
  }

  /** A line after "+", "-" or ":" is the value. */
  lemma LineMeans(prefix: byte, line: bytes, rest: bytes)
    requires NoCrlf(line)
    ensures var r, next := ParseOne([prefix] + line + [13, 10] + rest, 0), |line| + 3;
            && (prefix == 43 ==> r == Done(Simple(line), next))
            && (prefix == 45 ==> r == Done(ErrorOfLine(line), next))
            && (prefix == 58 ==>
                  r == if ParseInt(line).Some? then Done(Int(ParseInt(line).value), next)
                       else Bad(InvalidInteger(line), next))
  {
    hide ParseOne, ParseInt, ErrorOfLine;
    if IsPrefix(prefix) {
      PrefixedLine(prefix, line, rest);
    }
  }

  /** After "$" stands the length of a byte string, which a CRLF must follow; -1 stands for none. */
  lemma BulkLineMeans(line: bytes, rest: bytes)
    requires NoCrlf(line)
    ensures var r, n, next := ParseOne([36] + line + [13, 10] + rest, 0), ParseInt(line), |line| + 3;
            if n.None? then r == Bad(InvalidBulkLength(line), next)
            else if n.value == -1 then r == Done(Null, next)
            else if n.value < 0 then r == Bad(NegativeBulkLength(n.value), next)
            else if n.value + 2 > |rest| then r == More(next)
            else if rest[n.value] != 13 || rest[n.value + 1] != 10 then r == Bad(MissingCrlf, next)
            else r == Done(Bulk(rest[..n.value]), next + n.value + 2)
  {
    hide ParseOne, ParseInt, ParseBulk;
    PrefixedLine(36, line, rest);
    if ParseInt(line).Some? {
      BulkMeans([36] + line + [13, 10] + rest, rest, ParseInt(line).value);
    }
  }

  /** After "*" stands how many objects follow; -1 stands for no array. */
  lemma ArrayLineMeans(line: bytes, rest: bytes)
    requires NoCrlf(line)
    ensures var r, n, next := ParseOne([42] + line + [13, 10] + rest, 0), ParseInt(line), |line| + 3;
            && (n.None? ==> r == Bad(InvalidArrayLength(line), next))
            && (n == Some(-1) ==> r == Done(Null, next))
            && (n.Some? && n.value < -1 ==> r == Bad(NegativeArrayCount(n.value), next))
            && (n == Some(0) ==> r == Done(Array([]), next))
  {
    hide ParseOne, ParseInt;
    PrefixedLine(42, line, rest);
  }

  lemma BulkMeans(buf: bytes, rest: bytes, k: int)
    requires |rest| <= |buf| && buf[|buf| - |rest|..] == rest
    ensures var r, pos := ParseBulk(buf, |buf| - |rest|, k), |buf| - |rest|;
            if k == -1 then r == Done(Null, pos)
            else if k < 0 then r == Bad(NegativeBulkLength(k), pos)
            else if k + 2 > |rest| then r == More(pos)
            else if rest[k] != 13 || rest[k + 1] != 10 then r == Bad(MissingCrlf, pos)
            else r == Done(Bulk(rest[..k]), pos + k + 2)
  {
    var pos := |buf| - |rest|;
    if 0 <= k && k + 2 <= |rest| {
      assert buf[pos + k..pos + k + 2] == [rest[k], rest[k + 1]];
      assert buf[pos..pos + k] == rest[..k];
    }
  }

  /** A line that begins otherwise is an inline command: an array of its words. */
  lemma InlineMeans(line: bytes, rest: bytes)
    requires NoCrlf(line) && line != [] && line[0] !in {43, 45, 58, 36, 42}
    ensures ParseOne(line + [13, 10] + rest, 0) == Done(Array(Bulks(Words(line))), |line| + 2)
  {
    hide ParseInt, ErrorOfLine, Words;
    FindCrlfAfter(line, 0, rest);
    assert line + CRLF + rest == line + [13, 10] + rest;
    assert (line + [13, 10] + rest)[0..|line|] == line;
  }

  /** What has been decided stays decided when more bytes arrive. */
  lemma {:induction false} ParseOneExtended(buf: bytes, pos: nat, ext: bytes)
    requires pos <= |buf| && !ParseOne(buf, pos).More?
    ensures ParseOne(buf + ext, pos) == ParseOne(buf, pos)
    decreases |buf| - pos, 1
  {
    hide ParseBody;
    var start := if IsPrefix(buf[pos]) then pos + 1 else pos;
    var idx := FindCrlf(buf, start);
    FindCrlfExtended(buf, start, ext);
    assert (buf + ext)[start..idx] == buf[start..idx];
    ParseBodyExtended(buf, buf[pos], buf[start..idx], idx + 2, ext);
  }

  lemma {:induction false} ParseBodyExtended(buf: bytes, prefix: byte, line: bytes, next: nat, ext: bytes)
    requires next <= |buf| && !ParseBody(buf, prefix, line, next).More?
    ensures ParseBody(buf + ext, prefix, line, next) == ParseBody(buf, prefix, line, next)
    decreases |buf| - next, 3
  {
    var n := ParseInt(line);
    if prefix == DOLLAR && n.Some? {
      ParseBulkExtended(buf, next, n.value, ext);
    }
    if prefix == STAR && n.Some? && n.value >= 0 {
      ParseItemsExtended(buf, next, n.value, ext);
    }
  }

  lemma ParseBulkExtended(buf: bytes, pos: nat, length: int, ext: bytes)
    requires pos <= |buf| && !ParseBulk(buf, pos, length).More?
    ensures ParseBulk(buf + ext, pos, length) == ParseBulk(buf, pos, length)
  {
    if length >= 0 {
      assert (buf + ext)[pos + length..pos + length + 2] == buf[pos + length..pos + length + 2];
      assert (buf + ext)[pos..pos + length] == buf[pos..pos + length];
    }
  }

  lemma {:induction false} ParseItemsExtended(buf: bytes, pos: nat, count: nat, ext: bytes)
    requires pos <= |buf| && !ParseItems(buf, pos, count).More?
    ensures ParseItems(buf + ext, pos, count) == ParseItems(buf, pos, count)
    decreases |buf| - pos, 2
  {
    if count > 0 {
      ParseOneExtended(buf, pos, ext);
      var r := ParseOne(buf, pos);
      if r.Done? {
        ParseItemsExtended(buf, r.pos, count - 1, ext);
      }
    }
  }

  function Shifted(r: Parsed, n: nat): Parsed {
    match r
    case Done(v, p) => Done(v, p + n)
    case More(p) => More(p + n)
    case Bad(e, p) => Bad(e, p + n)
  }

  lemma SliceShifted(pre: bytes, buf: bytes, start: nat, end: nat)
    requires start <= end <= |buf|
    ensures (pre + buf)[|pre| + start..|pre| + end] == buf[start..end]
  {
  }

  /** Only the bytes from the position on matter. */
  lemma {:induction false} ParseOneShifted(pre: bytes, buf: bytes, pos: nat)
    requires pos <= |buf|
    ensures ParseOne(pre + buf, |pre| + pos) == Shifted(ParseOne(buf, pos), |pre|)
    decreases |buf| - pos, 1
  {
    hide ParseBody;
    if pos < |buf| {
      var start := if IsPrefix(buf[pos]) then pos + 1 else pos;
      var idx := FindCrlf(buf, start);
      FindCrlfShifted(pre, buf, start);
      if idx != -1 {
        SliceShifted(pre, buf, start, idx);
        ParseBodyShifted(pre, buf, buf[pos], buf[start..idx], idx + 2);
      }
    }
  }

  lemma {:induction false} ParseBodyShifted(pre: bytes, buf: bytes, prefix: byte, line: bytes, next: nat)
    requires next <= |buf|
    ensures ParseBody(pre + buf, prefix, line, |pre| + next) == Shifted(ParseBody(buf, prefix, line, next), |pre|)
    decreases |buf| - next, 3
  {
    var n := ParseInt(line);
    if prefix == DOLLAR && n.Some? {
      ParseBulkShifted(pre, buf, next, n.value);
    }
    if prefix == STAR && n.Some? && n.value >= 0 {
      ParseItemsShifted(pre, buf, next, n.value);
    }
  }

  lemma ParseBulkShifted(pre: bytes, buf: bytes, pos: nat, length: int)
    requires pos <= |buf|
    ensures ParseBulk(pre + buf, |pre| + pos, length) == Shifted(ParseBulk(buf, pos, length), |pre|)
  {
    if length >= 0 && pos + length + 2 <= |buf| {
      var n := |pre|;
      assert (pre + buf)[n + pos + length..n + pos + length + 2] == buf[pos + length..pos + length + 2];
      assert (pre + buf)[n + pos..n + pos + length] == buf[pos..pos + length];
    }
  }

  lemma {:induction false} ParseItemsShifted(pre: bytes, buf: bytes, pos: nat, count: nat)
    requires pos <= |buf|
    ensures ParseItems(pre + buf, |pre| + pos, count) == Shifted(ParseItems(buf, pos, count), |pre|)
    decreases |buf| - pos, 2
  {
    if count > 0 {
      ParseOneShifted(pre, buf, pos);
      var r := ParseOne(buf, pos);
      if r.Done? {
        ParseItemsShifted(pre, buf, r.pos, count - 1);
      }
    }
  }

  // ---------------------------------------------------------------------------------------------
  // All objects that are complete
  // ---------------------------------------------------------------------------------------------

  /** All(objs, pos): the complete objects, and where the first incomplete one starts. */
  datatype Stream =
    | All(objs: seq<Value>, pos: nat)
    | Broken(error: ProtocolError, pos: nat)

  function ParseAll(buf: bytes, pos: nat): (r: Stream)
    requires pos <= |buf|
    ensures pos <= r.pos <= |buf|
    decreases |buf| - pos
  {
    match ParseOne(buf, pos)
    case More(_) => All([], pos)
    case Bad(e, p) => Broken(e, p)
    case Done(v, p) => After([v], ParseAll(buf, p))
  }

  function After(objs: seq<Value>, r: Stream): Stream {
    match r
    case All(os, p) => All(objs + os, p)
    case Broken(e, p) => Broken(e, p)
  }

  lemma AfterAll(os: seq<Value>, v: Value, r: Stream)
    ensures After(os, After([v], r)) == After(os + [v], r)
  {
    if r.All? {
      assert os + ([v] + r.objs) == (os + [v]) + r.objs;
    }
  }

  function MovedBy(r: Stream, n: nat): Stream {
    match r
    case All(os, p) => All(os, p + n)
    case Broken(e, p) => Broken(e, p + n)
  }

  lemma AfterAfter(v: Value, os: seq<Value>, r: Stream)
    ensures After([v], After(os, r)) == After([v] + os, r)
    ensures After([], r) == r
  {
    if r.All? {
      assert [v] + (os + r.objs) == ([v] + os) + r.objs;
      assert [] + r.objs == r.objs;
    }
  }

  lemma {:induction false} ParseAllShifted(pre: bytes, buf: bytes, pos: nat)
    requires pos <= |buf|
    ensures ParseAll(pre + buf, |pre| + pos) == MovedBy(ParseAll(buf, pos), |pre|)
    decreases |buf| - pos
  {
    hide ParseOne;
    ParseOneShifted(pre, buf, pos);
    var r := ParseOne(buf, pos);
    if r.Done? {
      ParseAllShifted(pre, buf, r.pos);
    }
  }

  /** Parsing a first part, then the unconsumed tail with the rest appended, is parsing it all. */
  lemma {:induction false} ParseAllSplit(a: bytes, pos: nat, b: bytes)
    requires pos <= |a|
    ensures var r := ParseAll(a, pos);
            ParseAll(a + b, pos) ==
            if r.All? then After(r.objs, MovedBy(ParseAll(a[r.pos..] + b, 0), r.pos)) else r
    decreases |a| - pos
  {
    var r := ParseOne(a, pos);
    if r.More? {
      assert a + b == a[..pos] + (a[pos..] + b);
      ParseAllShifted(a[..pos], a[pos..] + b, 0);
      AfterAfter(Null, [], MovedBy(ParseAll(a[pos..] + b, 0), pos));
    } else {
      ParseOneExtended(a, pos, b);
      if r.Done? {
        ParseAllSplit(a, r.pos, b);
        if ParseAll(a, r.pos).All? {
          var p := ParseAll(a, r.pos).pos;
          AfterAfter(r.obj, ParseAll(a, r.pos).objs, MovedBy(ParseAll(a[p..] + b, 0), p));
        }
      }
    }
  }

  // ---------------------------------------------------------------------------------------------
  // Chunk independence
  // ---------------------------------------------------------------------------------------------

  function Joined(chunks: seq<bytes>): bytes {
    if chunks == [] then [] else chunks[0] + Joined(chunks[1..])
  }

  /** What a reader sees that feeds chunk after chunk and takes the commands after each. */
  datatype Run =
    | Ran(objs: seq<Value>, rest: bytes)
    | Raised(error: ProtocolError)

  function Feeds(rest: bytes, chunks: seq<bytes>, limit: nat): Run
    decreases |chunks|
  {
    if chunks == [] then Ran([], rest)
    else if |rest| + |chunks[0]| > limit then Raised(BufferExceeded)
    else
      var buf := rest + chunks[0];
      match ParseAll(buf, 0)
      case Broken(e, _) => Raised(e)
      case All(os, p) => Earlier(os, Feeds(buf[p..], chunks[1..], limit))
  }

  function Earlier(os: seq<Value>, r: Run): Run {
    match r
    case Ran(objs, rest) => Ran(os + objs, rest)
    case Raised(e) => Raised(e)
  }

  /** The same bytes in one piece. */
  function OneFeed(buf: bytes): Run {
    match ParseAll(buf, 0)
    case All(os, p) => Ran(os, buf[p..])
    case Broken(e, _) => Raised(e)
  }

  /** A tail that get_parsed_commands left behind. */
  predicate Quiet(rest: bytes) {
    ParseOne(rest, 0).More?
  }

  lemma {:induction false} TailIsQuiet(buf: bytes, pos: nat)
    requires pos <= |buf| && ParseAll(buf, pos).All?
    ensures Quiet(buf[ParseAll(buf, pos).pos..])
    decreases |buf| - pos
  {
    var r := ParseOne(buf, pos);
    if r.Done? {
      TailIsQuiet(buf, r.pos);
    } else {
      assert buf == buf[..pos] + buf[pos..];
      ParseOneShifted(buf[..pos], buf[pos..], 0);
    }
  }

  lemma OneFeedSplit(buf: bytes, tail: bytes)
    ensures var r := ParseAll(buf, 0);
            OneFeed(buf + tail) ==
            if r.All? then Earlier(r.objs, OneFeed(buf[r.pos..] + tail)) else Raised(r.error)
  {
    hide ParseAll;
    ParseAllSplit(buf, 0, tail);
    var r := ParseAll(buf, 0);
    if r.All? {
      DropTwice(buf, tail, r.pos, ParseAll(buf[r.pos..] + tail, 0).pos);
    }
  }

  lemma DropTwice(buf: bytes, tail: bytes, a: nat, b: nat)
    requires a <= |buf| && b <= |buf[a..] + tail|
    ensures (buf[a..] + tail)[b..] == (buf + tail)[a + b..]
  {
  }

  /**
    * However a stream is split, the reader gets the same objects, the same unconsumed tail, and the same
    * error if there is one; only the size limit can tell the difference.
    */
  lemma {:induction false} ChunkIndependence(rest: bytes, chunks: seq<bytes>, limit: nat)
    requires Quiet(rest)
    ensures Feeds(rest, chunks, limit) == OneFeed(rest + Joined(chunks)) ||
            Feeds(rest, chunks, limit) == Raised(BufferExceeded)
    ensures |rest| + |Joined(chunks)| <= limit ==> Feeds(rest, chunks, limit) == OneFeed(rest + Joined(chunks))
    decreases |chunks|
  {
    if chunks == [] {
      assert rest + Joined(chunks) == rest;
    } else {
      var buf := rest + chunks[0];
      assert rest + Joined(chunks) == buf + Joined(chunks[1..]);
      OneFeedSplit(buf, Joined(chunks[1..]));
      var r := ParseAll(buf, 0);
      if r.All? {
        TailIsQuiet(buf, 0);
        ChunkIndependence(buf[r.pos..], chunks[1..], limit);
      }
    }
  }

  // ---------------------------------------------------------------------------------------------
  // The stateful parser
  // ---------------------------------------------------------------------------------------------

  datatype Attempt = Complete(obj: Value) | Incomplete | Failed(error: ProtocolError)

  /** What a Parsed means to a caller that holds the position in a field. */
  function AttemptOf(r: Parsed): Attempt {
    match r
    case Done(v, _) => Complete(v)
    case More(_) => Incomplete
    case Bad(e, _) => Failed(e)
  }

  datatype Commands = Batch(objs: seq<Value>) | Aborted(error: ProtocolError)

  const COMPACT_AT: nat := 65536

  class RESPParser {
    var buffer: bytes
    var pos: nat
    const maxBufferSize: nat

    ghost predicate Valid()
      reads this
    {
      pos <= |buffer|
    }

    /** The bytes still to be parsed: all that a caller can tell about the state. */
    ghost function Rest(): bytes
      requires Valid()
      reads this
    {
      buffer[pos..]
    }

    constructor (maxBufferSize: nat)
      ensures Valid() && Rest() == [] && this.maxBufferSize == maxBufferSize
    {
      buffer := [];
      pos := 0;
      this.maxBufferSize := maxBufferSize;
    }

    method Feed(data: bytes) returns (ok: bool)
      requires Valid()
      modifies this
      ensures Valid()
      ensures ok <==> |old(Rest())| + |data| <= maxBufferSize
      ensures Rest() == if ok then old(Rest()) + data else old(Rest())
    {
      if |buffer| - pos + |data| > maxBufferSize {
        return false;
      }
      if pos > COMPACT_AT && pos > |buffer| / 2 {
        buffer := buffer[pos..];
        pos := 0;
      }
      buffer := buffer + data;
      ok := true;
    }

    method ReadLine() returns (line: Option<bytes>)
      requires Valid()
      modifies this`pos
      ensures Valid()
      ensures var idx := FindCrlf(buffer, old(pos));
              if idx == -1 then line == None && pos == old(pos)
              else line == Some(buffer[old(pos)..idx]) && pos == idx + 2
    {
      var idx := FindCrlf(buffer, pos);
      if idx == -1 {
        return None;
      }
      line := Some(buffer[pos..idx]);
      pos := idx + |CRLF|;
    }

    method ParseOneObject() returns (r: Attempt)
      requires Valid()
      modifies this`pos
      ensures Valid()
      ensures var p := ParseOne(buffer, old(pos)); r == AttemptOf(p) && pos == p.pos
      decreases |buffer| - pos, 1
    {
      if pos >= |buffer| {
        return Incomplete;
      }
      var prefix := buffer[pos];
      if IsPrefix(prefix) {
        pos := pos + 1;
      }
      var line := ReadLine();
      if line == None {
        return Incomplete;
      }
      if prefix == PLUS {
        return Complete(Simple(line.value));
      }
      if prefix == MINUS {
        return Complete(ErrorOfLine(line.value));
      }
      if prefix == COLON {
        var n := ParseInt(line.value);
        return if n == None then Failed(InvalidInteger(line.value)) else Complete(Int(n.value));
      }
      if prefix == DOLLAR {
        var n := ParseInt(line.value);
        if n == None {
          return Failed(InvalidBulkLength(line.value));
        }
        r := ReadBulk(n.value);
        return;
      }
      if prefix == STAR {
        var n := ParseInt(line.value);
        if n == None {
          return Failed(InvalidArrayLength(line.value));
        }
        r := ReadArray(n.value);
        return;
      }
      r := Complete(Array(Bulks(Words(line.value))));
    }

    method ReadBulk(length: int) returns (r: Attempt)
      requires Valid()
      modifies this`pos
      ensures Valid()
      ensures var p := ParseBulk(buffer, old(pos), length); r == AttemptOf(p) && pos == p.pos
    {
      if length == -1 {
        return Complete(Null);
      }
      if length < -1 {
        return Failed(NegativeBulkLength(length));
      }
      var end := pos + length;
      if end + |CRLF| > |buffer| {
        return Incomplete;
      }
      if buffer[end..end + |CRLF|] != CRLF {
        return Failed(ProtocolError.MissingCrlf);
      }
      r := Complete(Bulk(buffer[pos..end]));
      pos := end + |CRLF|;
    }

    method ReadArray(count: int) returns (r: Attempt)
      requires Valid()
      modifies this`pos
      ensures Valid()
      ensures if count == -1 then r == Complete(Null) && pos == old(pos)
              else if count < -1 then r == Failed(NegativeArrayCount(count)) && pos == old(pos)
              else var p := ParseItems(buffer, old(pos), count); r == AttemptOf(p) && pos == p.pos
      decreases |buffer| - pos, 2
    {
      if count == -1 {
        return Complete(Null);
      }
      if count < -1 {
        return Failed(NegativeArrayCount(count));
      }
      var elements := [];
      for i := 0 to count
        invariant Valid() && pos >= old(pos)
        invariant ParseItems(buffer, old(pos), count) == PrependAll(elements, ParseItems(buffer, pos, count - i))
      {
        hide ParseOne;
        ghost var p := ParseOne(buffer, pos);
        ghost var left := if p.Done? then ParseItems(buffer, p.pos, count - i - 1) else p;
        var elem := ParseOneObject();
        if !elem.Complete? {
          return elem;
        }
        PrependOne(elements, elem.obj, left);
        elements := elements + [elem.obj];
      }
      r := Complete(Array(elements));
    }

    /** Parses on while objects are complete; an incomplete one is rolled back. */
    method GetParsedCommands() returns (r: Commands)
      requires Valid()
      modifies this
      ensures Valid()
      ensures var p := ParseAll(old(buffer), old(pos));
              if p.All? then r == Batch(p.objs) && Rest() == old(buffer)[p.pos..]
              else r == Aborted(p.error) && buffer == old(buffer) && pos == p.pos
    {
      var results := [];
      while true
        invariant Valid() && buffer == old(buffer)
        invariant ParseAll(buffer, old(pos)) == After(results, ParseAll(buffer, pos))
        decreases |buffer| - pos
      {
        var savedPos := pos;
        var obj := ParseOneObject();
        if obj.Incomplete? {
          pos := savedPos;
          break;
        }
        if obj.Failed? {
          return Aborted(obj.error);
        }
        AfterAll(results, obj.obj, ParseAll(buffer, pos));
        results := results + [obj.obj];
      }
      if pos >= |buffer| {
        buffer := [];
        pos := 0;
      } else if pos > COMPACT_AT && pos > |buffer| / 2 {
        buffer := buffer[pos..];
        pos := 0;
      }
      r := Batch(results);
    }
  }

  /** A reader's loop over what arrives: feed a chunk, take what is complete. */
  method ReadChunks(parser: RESPParser, chunks: seq<bytes>) returns (r: Run)
    requires parser.Valid() && Quiet(parser.Rest())
    modifies parser
    ensures parser.Valid()
    ensures r == Feeds(old(parser.Rest()), chunks, parser.maxBufferSize)
    ensures r.Ran? ==> parser.Rest() == r.rest
    ensures |old(parser.Rest())| + |Joined(chunks)| <= parser.maxBufferSize ==>
              r == OneFeed(old(parser.Rest()) + Joined(chunks))
  {
    hide ParseAll, Feeds, OneFeed, ParseOne;
    ChunkIndependence(parser.Rest(), chunks, parser.maxBufferSize);
    var objs := [];
    for i := 0 to |chunks|
      invariant parser.Valid()
      invariant Feeds(old(parser.Rest()), chunks, parser.maxBufferSize)
             == Earlier(objs, Feeds(parser.Rest(), chunks[i..], parser.maxBufferSize))
    {
      FeedsStep(parser.Rest(), chunks, i, parser.maxBufferSize);
      var ok := parser.Feed(chunks[i]);
      if !ok {
        return Raised(BufferExceeded);
      }
      FromPosition(parser.buffer, parser.pos);
      var more := parser.GetParsedCommands();
      if more.Aborted? {
        return Raised(more.error);
      }
      objs := objs + more.objs;
    }
    FeedsNone(parser.Rest(), chunks, parser.maxBufferSize);
    assert objs + [] == objs;
    r := Ran(objs, parser.buffer[parser.pos..]);
  }

  lemma FeedsNone(rest: bytes, chunks: seq<bytes>, limit: nat)
    ensures Feeds(rest, chunks[|chunks|..], limit) == Ran([], rest)
  {
  }

  lemma FeedsStep(rest: bytes, chunks: seq<bytes>, i: nat, limit: nat)
    requires i < |chunks|
    ensures Feeds(rest, chunks[i..], limit) ==
            if |rest| + |chunks[i]| > limit then Raised(BufferExceeded)
            else
              var p := ParseAll(rest + chunks[i], 0);
              if p.All? then Earlier(p.objs, Feeds((rest + chunks[i])[p.pos..], chunks[i + 1..], limit))
              else Raised(p.error)
  {
    assert chunks[i..][0] == chunks[i] && chunks[i..][1..] == chunks[i + 1..];
  }

  /** Parsing from a position is parsing the bytes from there on. */
  lemma FromPosition(buf: bytes, pos: nat)
    requires pos <= |buf|
    ensures ParseAll(buf, pos) == MovedBy(ParseAll(buf[pos..], 0), pos)
    ensures ParseAll(buf[pos..], 0).All? ==> buf[pos..][ParseAll(buf[pos..], 0).pos..] == buf[ParseAll(buf, pos).pos..]
  {
    assert buf == buf[..pos] + buf[pos..];
    ParseAllShifted(buf[..pos], buf[pos..], 0);
  }

}
