// The encoder of protocol/encoder.py, and the proof that the parser inverts it.

module Encoders {
  import opened Bytes
  import opened Resp
  import opened Parsers

  /** One line of the protocol: prefix, text, CRLF. */
  function Line(prefix: byte, text: bytes): (s: bytes)
    ensures |s| == |text| + 3
  {
    [prefix] + text + CRLF
  }

  const NULL_BULK_STRING: bytes := Line(DOLLAR, [MINUS, 49])

  predicate StartsWith(s: bytes, prefix: bytes) { prefix <= s }

  /** str() of an error response. */
  function ErrorText(prefix: bytes, message: bytes): bytes {
    if prefix != [] && !StartsWith(message, prefix) then prefix + [SPACE] + message else message
  }

  function EncodeBulk(data: bytes): bytes {
    Line(DOLLAR, Decimal(|data|)) + data + CRLF
  }

  function Encode(v: Value): (s: bytes)
    ensures |s| > 0
    decreases v, 0
  {
    match v
    case Null => NULL_BULK_STRING
    case Simple(text) => Line(PLUS, text)
    case Error(prefix, message) => Line(MINUS, ErrorText(prefix, message))
    case Int(n) => Line(COLON, Decimal(n))
    case Bulk(data) => EncodeBulk(data)
    case Array(items) => Line(STAR, Decimal(|items|)) + EncodeItems(items)
  }

  function EncodeItems(items: seq<Value>): bytes
    decreases items, 1
  {
    if items == [] then [] else Encode(items[0]) + EncodeItems(items[1..])
  }

  lemma {:induction false} EncodeItemsAppend(vs: seq<Value>, v: Value)
    ensures EncodeItems(vs + [v]) == EncodeItems(vs) + Encode(v)
  {
    if vs == [] {
      assert [v][1..] == [];
    } else {
      assert (vs + [v])[1..] == vs[1..] + [v];
      EncodeItemsAppend(vs[1..], v);
    }
  }

  /** _encode_sequence: the parts are appended to a list and joined. */
  method EncodeSequence(items: seq<Value>) returns (s: bytes)
    ensures s == Encode(Array(items))
  {
    var parts := Line(STAR, Decimal(|items|));
    for i := 0 to |items|
      invariant parts == Line(STAR, Decimal(|items|)) + EncodeItems(items[..i])
    {
      assert items[..i + 1] == items[..i] + [items[i]];
      EncodeItemsAppend(items[..i], items[i]);
      parts := parts + Encode(items[i]);
    }
    assert items[..|items|] == items;
    s := parts;
  }

  /** The bytes of one command, as clients, the log and the replication stream send it. */
  function CommandBytes(args: seq<bytes>): bytes {
    Encode(Array(Bulks(args)))
  }

  method EncodeCommand(args: seq<bytes>) returns (s: bytes)
    ensures s == CommandBytes(args)
  {
    var parts := Line(STAR, Decimal(|args|));
    for i := 0 to |args|
      invariant parts == Line(STAR, Decimal(|args|)) + EncodeItems(Bulks(args[..i]))
    {
      assert Bulks(args[..i + 1]) == Bulks(args[..i]) + [Bulk(args[i])];
      EncodeItemsAppend(Bulks(args[..i]), Bulk(args[i]));
      parts := parts + EncodeBulk(args[i]);
    }
    assert args[..|args|] == args;
    s := parts;
  }

  /** What goes over the wire, byte by byte. */
  lemma OnTheWire(text: bytes, prefix: bytes, message: bytes, n: int)
    ensures Encode(Null) == [36, 45, 49, 13, 10]
    ensures Encode(Simple(text)) == [43] + text + [13, 10]
    ensures Encode(Int(n)) == [58] + Decimal(n) + [13, 10]
    ensures Encode(Bulk(text)) == [36] + Decimal(|text|) + [13, 10] + text + [13, 10]
    ensures prefix != [] && !(prefix <= message) ==>
              Encode(Error(prefix, message)) == [45] + prefix + [32] + message + [13, 10]
    ensures prefix == [] || prefix <= message ==> Encode(Error(prefix, message)) == [45] + message + [13, 10]
  {
    hide Decimal;
    if prefix != [] && !(prefix <= message) {
      assert Encode(Error(prefix, message)) == [45] + (prefix + [32] + message) + [13, 10];
    }
  }

  /** An array is its count and the items, one after the other. */
  lemma ArrayOnTheWire(items: seq<Value>, v: Value)
    ensures Encode(Array([])) == [42, 48, 13, 10]
    ensures Encode(Array(items)) == [42] + Decimal(|items|) + [13, 10] + EncodeItems(items)
    ensures EncodeItems([]) == [] && EncodeItems(items + [v]) == EncodeItems(items) + Encode(v)
  {
    hide Decimal;
    EncodeItemsAppend(items, v);
    OneDigit(0);
  }

  /** A command of one word, as the log and the replication stream hold it. */
  lemma CommandOnTheWire(word: bytes)
    ensures CommandBytes([word]) == [42, 49, 13, 10, 36] + Decimal(|word|) + [13, 10] + word + [13, 10]
  {
    hide Decimal;
    assert Bulks([word]) == [Bulk(word)];
    assert [Bulk(word)][1..] == [];
    OneDigit(1);
    assert EncodeItems([Bulk(word)]) == Encode(Bulk(word)) + [];
    OnTheWire(word, [], [], 0);
  }

  // ---------------------------------------------------------------------------------------------
  // Round trip
  // ---------------------------------------------------------------------------------------------

  /** What an error response must look like for its line to be read back as the same response. */
  predicate PlainError(prefix: bytes, message: bytes) {
    if prefix != [] && !StartsWith(message, prefix) then SPACE !in prefix
    else prefix == ERR && SPACE !in message
  }

  /** The values whose encoding the parser reads back. */
  predicate Sendable(v: Value)
    decreases v
  {
    match v
    case Null => true
    case Int(_) => true
    case Bulk(_) => true
    case Simple(text) => NoCrlf(text)
    case Error(prefix, message) => NoCrlf(ErrorText(prefix, message)) && PlainError(prefix, message)
    case Array(items) => forall k :: 0 <= k < |items| ==> Sendable(items[k])
  }

  lemma ErrorLine(prefix: bytes, message: bytes)
    ensures ErrorOfLine(ErrorText(prefix, message)) == Error(prefix, message) <==> PlainError(prefix, message)
  {
    var line := ErrorText(prefix, message);
    var i := IndexOf(line, SPACE, 0);
    if prefix != [] && !StartsWith(message, prefix) {
      assert line[|prefix|] == SPACE;
      assert line[..|prefix|] == prefix && line[|prefix| + 1..] == message;
      if SPACE in prefix {
        var j :| 0 <= j < |prefix| && prefix[j] == SPACE;
        assert line[j] == SPACE;
      } else {
        assert forall j :: 0 <= j < |prefix| ==> line[j] == prefix[j];
      }
    } else if i != -1 {
      assert |line[i + 1..]| < |message|;
    }
  }

  /** A typed line is read up to its CRLF, whatever follows. */
  lemma TypedLine(prefix: byte, line: bytes, ext: bytes)
    requires IsPrefix(prefix) && NoCrlf(line)
    ensures ParseOne(Line(prefix, line) + ext, 0) == ParseBody(Line(prefix, line) + ext, prefix, line, |line| + 3)
  {
    hide ParseBody, ParseOne;
    PrefixedLine(prefix, line, ext);
    assert Line(prefix, line) + ext == [prefix] + line + [13, 10] + ext;
  }

  lemma PayloadRead(head: bytes, data: bytes, ext: bytes)
    ensures ParseBulk(head + data + CRLF + ext, |head|, |data|) == Done(Bulk(data), |head| + |data| + 2)
  {
    var s, p := head + data + CRLF + ext, |head|;
    assert s[p..p + |data|] == data;
    assert s[p + |data|..p + |data| + 2] == CRLF;
  }

  lemma BulkRoundTrip(data: bytes, ext: bytes)
    ensures ParseOne(EncodeBulk(data) + ext, 0) == Done(Bulk(data), |EncodeBulk(data)|)
  {
    hide ParseOne, ParseBulk, ParseInt, Decimal, Line;
    var head := Line(DOLLAR, Decimal(|data|));
    var rest := data + CRLF + ext;
    assert EncodeBulk(data) + ext == head + rest == head + data + CRLF + ext;
    DecimalHasNoCrlf(|data|);
    TypedLine(DOLLAR, Decimal(|data|), rest);
    ParseIntInvertsDecimal(|data|);
    PayloadRead(head, data, ext);
  }

  lemma NullRoundTrip(ext: bytes)
    ensures ParseOne(NULL_BULK_STRING + ext, 0) == Done(Null, |NULL_BULK_STRING|)
  {
    hide ParseOne, Line;
    assert Digits(1) == [49] && Decimal(-1) == [MINUS, 49];
    TypedLine(DOLLAR, [MINUS, 49], ext);
    ParseIntInvertsDecimal(-1);
  }

  lemma IntRoundTrip(n: int, ext: bytes)
    ensures ParseOne(Line(COLON, Decimal(n)) + ext, 0) == Done(Int(n), |Decimal(n)| + 3)
  {
    hide ParseOne, Line;
    DecimalHasNoCrlf(n);
    ParseIntInvertsDecimal(n);
    TypedLine(COLON, Decimal(n), ext);
  }

  lemma HeaderRoundTrip(count: nat, rest: bytes)
    ensures var head := Line(STAR, Decimal(count));
            ParseOne(head + rest, 0) == Shifted(ParseItems(rest, 0, count), |head|)
  {
    hide ParseOne, ParseItems, Line;
    var head := Line(STAR, Decimal(count));
    DecimalHasNoCrlf(count);
    ParseIntInvertsDecimal(count);
    TypedLine(STAR, Decimal(count), rest);
    ParseItemsShifted(head, rest, 0, count);
  }

  lemma {:induction false} RoundTrip(v: Value, ext: bytes)
    requires Sendable(v)
    ensures ParseOne(Encode(v) + ext, 0) == Done(v, |Encode(v)|)
    decreases v, 0
  {
    hide ParseOne, ParseItems, Line, EncodeBulk;
    match v
    case Null =>
      NullRoundTrip(ext);
    case Simple(text) =>
      TypedLine(PLUS, text, ext);
    case Error(prefix, message) =>
      TypedLine(MINUS, ErrorText(prefix, message), ext);
      ErrorLine(prefix, message);
    case Int(n) =>
      IntRoundTrip(n, ext);
    case Bulk(data) =>
      BulkRoundTrip(data, ext);
    case Array(items) =>
      assert Encode(v) + ext == Line(STAR, Decimal(|items|)) + (EncodeItems(items) + ext);
      ItemsRoundTrip(items, ext);
      HeaderRoundTrip(|items|, EncodeItems(items) + ext);
  }

  lemma {:induction false} ItemsRoundTrip(items: seq<Value>, ext: bytes)
    requires forall k :: 0 <= k < |items| ==> Sendable(items[k])
    ensures ParseItems(EncodeItems(items) + ext, 0, |items|) == Done(Array(items), |EncodeItems(items)|)
    decreases items, 1
  {
    hide Encode, ParseOne;
    if items != [] {
      var head, tail := Encode(items[0]), EncodeItems(items[1..]) + ext;
      assert EncodeItems(items) + ext == head + tail;
      RoundTrip(items[0], tail);
      ItemsRoundTrip(items[1..], ext);
      ParseItemsShifted(head, tail, 0, |items| - 1);
      assert [items[0]] + items[1..] == items;
    }
  }

  /** Pipelining: a row of encoded values is read back as that row, with nothing left. */
  lemma {:induction false} Pipelining(vs: seq<Value>, ext: bytes)
    requires forall k :: 0 <= k < |vs| ==> Sendable(vs[k])
    ensures ParseAll(EncodeItems(vs) + ext, 0) == After(vs, MovedBy(ParseAll(ext, 0), |EncodeItems(vs)|))
    decreases |vs|
  {
    hide Encode, ParseOne;
    if vs == [] {
      assert EncodeItems(vs) + ext == ext;
      AfterAfter(Null, [], ParseAll(ext, 0));
    } else {
      var head, tail := Encode(vs[0]), EncodeItems(vs[1..]) + ext;
      assert EncodeItems(vs) + ext == head + tail;
      RoundTrip(vs[0], tail);
      Pipelining(vs[1..], ext);
      ParseAllShifted(head, tail, 0);
      AfterAfter(vs[0], vs[1..], MovedBy(ParseAll(ext, 0), |EncodeItems(vs)|));
      assert [vs[0]] + vs[1..] == vs;
    }
  }

  /** A proper prefix of an encoded value is incomplete, never an error and never something else. */
  lemma ProperPrefixIsIncomplete(v: Value, n: nat)
    requires Sendable(v) && n < |Encode(v)|
    ensures ParseOne(Encode(v)[..n], 0).More?
    ensures ParseAll(Encode(v)[..n], 0) == All([], 0)
  {
    var s := Encode(v);
    assert s == s[..n] + s[n..] && s + [] == s;
    RoundTrip(v, []);
    if !ParseOne(s[..n], 0).More? {
      ParseOneExtended(s[..n], 0, s[n..]);
    }
  }

  // ---------------------------------------------------------------------------------------------
  // No other value is read back as itself
  // ---------------------------------------------------------------------------------------------

  ghost predicate ReadBack(r: Parsed, v: Value) {
    r.Done? && r.obj == v
  }

  /** Where a line with a CRLF in it is cut: the last byte of the line cannot be the start of that CRLF. */
  lemma CutPlace(line: bytes, ext: bytes) returns (i: nat)
    requires !NoCrlf(line)
    ensures i < |line| - 1 && line[i] == CR && FindCrlf(line + CRLF + ext, 0) == i
  {
    var t := line + CRLF + ext;
    var j :| 0 <= j < |line| - 1 && line[j] == CR && line[j + 1] == LF;
    FindCrlfInside(line, 0, j, ext);
    hide NoCrlf;
    i := FindCrlf(t, 0);
    assert t[|line|] == CR && t[i] == line[i];
  }

  lemma CutLine(prefix: byte, line: bytes, ext: bytes) returns (i: nat)
    requires (prefix == PLUS || prefix == MINUS) && !NoCrlf(line)
    ensures i < |line| - 1 && line[i] == CR
    ensures ParseOne(Line(prefix, line) + ext, 0) ==
              Done(if prefix == PLUS then Simple(line[..i]) else ErrorOfLine(line[..i]), i + 3)
  {
    hide NoCrlf, FindCrlf, ErrorOfLine;
    var s := Line(prefix, line) + ext;
    var t := line + CRLF + ext;
    assert s == [prefix] + t;
    i := CutPlace(line, ext);
    FindCrlfShifted([prefix], t, 0);
    assert s[1..i + 1] == line[..i];
  }

  /** No part of an error's line, cut before a CR, stands for the whole error. */
  lemma CutErrorDiffers(prefix: bytes, message: bytes, i: nat)
    requires var line := ErrorText(prefix, message); i < |line| - 1 && line[i] == CR
    ensures ErrorOfLine(ErrorText(prefix, message)[..i]) != Error(prefix, message)
  {
    var line := ErrorText(prefix, message);
    var cut := line[..i];
    assert forall k {:trigger line[k]} :: 0 <= k < i ==> cut[k] == line[k];
    if prefix != [] && !StartsWith(message, prefix) {
      assert line[|prefix|] == SPACE;
      assert prefix == ERR ==> line[0] == 69 && line[1] == 82 && line[2] == 82;
    }
  }

  lemma TextMistaken(v: Value, ext: bytes)
    requires (v.Simple? || v.Error?) && !Sendable(v)
    ensures !ReadBack(ParseOne(Encode(v) + ext, 0), v)
  {
    hide ParseOne, Line, ErrorText, ErrorOfLine, PlainError, NoCrlf;
    var prefix := if v.Simple? then PLUS else MINUS;
    var line := if v.Simple? then v.text else ErrorText(v.prefix, v.message);
    if NoCrlf(line) {
      TypedLine(prefix, line, ext);
      ErrorLine(v.prefix, v.message);
    } else {
      var i := CutLine(prefix, line, ext);
      if v.Error? {
        CutErrorDiffers(v.prefix, v.message, i);
      }
    }
  }

  /** However deep in a value the part that does not survive lies, the value is not read back. */
  lemma {:induction false} Mistaken(v: Value, ext: bytes)
    requires !Sendable(v)
    ensures !ReadBack(ParseOne(Encode(v) + ext, 0), v)
    decreases v, 0
  {
    hide ParseOne, ParseItems, Line, NoCrlf, PlainError;
    if v.Array? {
      var items := v.items;
      assert Encode(v) + ext == Line(STAR, Decimal(|items|)) + (EncodeItems(items) + ext);
      HeaderRoundTrip(|items|, EncodeItems(items) + ext);
      ItemsMistaken(items, ext);
    } else {
      TextMistaken(v, ext);
    }
  }

  lemma {:induction false} ItemsMistaken(items: seq<Value>, ext: bytes)
    requires exists k :: 0 <= k < |items| && !Sendable(items[k])
    ensures !ReadBack(ParseItems(EncodeItems(items) + ext, 0, |items|), Array(items))
    decreases items, 1
  {
    hide Encode, ParseOne, Sendable;
    var head, tail := Encode(items[0]), EncodeItems(items[1..]) + ext;
    assert EncodeItems(items) + ext == head + tail;
    if Sendable(items[0]) {
      var k :| 0 <= k < |items| && !Sendable(items[k]);
      assert items[1..][k - 1] == items[k];
      RoundTrip(items[0], tail);
      ItemsMistaken(items[1..], ext);
      ParseItemsShifted(head, tail, 0, |items| - 1);
    } else {
      Mistaken(items[0], tail);
    }
  }

  /** The sendable values are exactly those that come back as themselves, whatever follows them. */
  lemma SendableIsExact(v: Value, ext: bytes)
    ensures Sendable(v) <==> ParseOne(Encode(v) + ext, 0) == Done(v, |Encode(v)|)
    ensures Sendable(v) <==> ReadBack(ParseOne(Encode(v) + ext, 0), v)
  {
    hide ParseOne, Encode, Sendable;
    if Sendable(v) {
      RoundTrip(v, ext);
    } else {
      Mistaken(v, ext);
    }
  }
}
