// The part of JSON that snapshots use: strings, integral numbers and arrays, as Python's json module prints and reads
// them.

module Json {
  import opened Bytes
  import opened Resp
  import opened Commands

  datatype Value = Str(text: bytes) | Num(n: int) | Arr(items: seq<Value>)

  const QUOTE: byte := 34
  const BACKSLASH: byte := 92
  const LEFT: byte := 91
  const RIGHT: byte := 93
  const COMMA: byte := 44
  const LETTER_U: byte := 117
  const ZERO: byte := 48

  // ---------------------------------------------------------------------------------------------
  // Strings: latin-1 text, everything outside printable ASCII escaped
  // ---------------------------------------------------------------------------------------------

  function HexDigit(d: int): (b: byte)
    requires 0 <= d < 16
  {
    if d < 10 then (48 + d) as byte else (87 + d) as byte
  }

  function HexValue(b: byte): Option<int> {
    if 48 <= b <= 57 then Some(b as int - 48)
    else if 97 <= b <= 102 then Some(b as int - 87)
    else if 65 <= b <= 70 then Some(b as int - 55)
    else None
  }

  /** The letter of a short escape, for the bytes that have one. */
  function ShortEscape(b: byte): Option<byte> {
    if b == QUOTE then Some(QUOTE)
    else if b == BACKSLASH then Some(BACKSLASH)
    else if b == 8 then Some(98)
    else if b == 12 then Some(102)
    else if b == 10 then Some(110)
    else if b == 13 then Some(114)
    else if b == 9 then Some(116)
    else None
  }

  function FromShortEscape(letter: byte): Option<byte> {
    if letter == QUOTE then Some(QUOTE)
    else if letter == BACKSLASH then Some(BACKSLASH)
    else if letter == 47 then Some(47)
    else if letter == 98 then Some(8)
    else if letter == 102 then Some(12)
    else if letter == 110 then Some(10)
    else if letter == 114 then Some(13)
    else if letter == 116 then Some(9)
    else None
  }

  function EscapeByte(b: byte): bytes {
    if ShortEscape(b).Some? then [BACKSLASH, ShortEscape(b).value]
    else if 32 <= b <= 126 then [b]
    else [BACKSLASH, LETTER_U, ZERO, ZERO, HexDigit(b as int / 16), HexDigit(b as int % 16)]
  }

  function Escape(text: bytes): bytes {
    if text == [] then [] else EscapeByte(text[0]) + Escape(text[1..])
  }

  /** Four hexadecimal digits. */
  function ReadHex(s: bytes): Option<int> {
    if |s| < 4 then None
    else
      match (HexValue(s[0]), HexValue(s[1]), HexValue(s[2]), HexValue(s[3]))
      case (Some(a), Some(b), Some(c), Some(d)) => Some(4096 * a + 256 * b + 16 * c + d)
      case _ => None
  }

  /** A parsed value, and what follows it. */
  datatype Parsed<T> = Parsed(value: T, rest: bytes)

  /** One character of a string, escaped or not; none at the closing quote. */
  function ReadChar(s: bytes): (r: Option<Parsed<byte>>)
    ensures r.Some? ==> |r.value.rest| < |s|
  {
    if s == [] || s[0] == QUOTE then None
    else if s[0] == BACKSLASH then
      if |s| < 2 then None
      else if s[1] == LETTER_U then
        (match ReadHex(s[2..])
         case None => None
         case Some(c) => if 0 <= c < 256 then Some(Parsed(c as byte, s[6..])) else None)
      else
        (match FromShortEscape(s[1]) case None => None case Some(b) => Some(Parsed(b, s[2..])))
    else if 32 <= s[0] <= 127 then Some(Parsed(s[0], s[1..]))
    else None
  }

  function ReadText(s: bytes): (r: Option<Parsed<bytes>>)
    ensures r.Some? ==> |r.value.rest| < |s|
    decreases |s|
  {
    if s != [] && s[0] == QUOTE then Some(Parsed([], s[1..]))
    else
      match ReadChar(s)
      case None => None
      case Some(c) =>
        match ReadText(c.rest)
        case None => None
        case Some(t) => Some(Parsed([c.value] + t.value, t.rest))
  }

  lemma ReadsEscaped(b: byte, more: bytes)
    ensures ReadChar(EscapeByte(b) + more) == Some(Parsed(b, more))
  {
    var s := EscapeByte(b) + more;
    if ShortEscape(b).Some? {
      assert s[2..] == more;
    } else if 32 <= b <= 126 {
      assert s[1..] == more;
    } else {
      var hi, lo := b as int / 16, b as int % 16;
      assert s[2..][..4] == [ZERO, ZERO, HexDigit(hi), HexDigit(lo)];
      assert HexValue(HexDigit(hi)) == Some(hi) && HexValue(HexDigit(lo)) == Some(lo);
      assert s[6..] == more;
    }
  }

  lemma {:induction false} ReadsEscapedText(text: bytes, more: bytes)
    ensures ReadText(Escape(text) + [QUOTE] + more) == Some(Parsed(text, more))
  {
    var s := Escape(text) + [QUOTE] + more;
    if text == [] {
      assert s[1..] == more;
    } else {
      var tail := Escape(text[1..]) + [QUOTE] + more;
      assert s == EscapeByte(text[0]) + tail;
      ReadsEscaped(text[0], tail);
      ReadsEscapedText(text[1..], more);
      assert s[0] == EscapeByte(text[0])[0] != QUOTE;
      assert text == [text[0]] + text[1..];
    }
  }

  // ---------------------------------------------------------------------------------------------
  // Values
  // ---------------------------------------------------------------------------------------------

  const SEPARATOR: bytes := [COMMA, SPACE]

  function Dumps(v: Value): (s: bytes)
    ensures |s| > 0
    decreases v, 0
  {
    match v
    case Str(text) => [QUOTE] + Escape(text) + [QUOTE]
    case Num(n) => ScoreText(n)
    case Arr(items) => [LEFT] + DumpItems(items) + [RIGHT]
  }

  function DumpItems(items: seq<Value>): bytes
    decreases items, 1
  {
    if items == [] then []
    else if |items| == 1 then Dumps(items[0])
    else Dumps(items[0]) + SEPARATOR + DumpItems(items[1..])
  }

  /** The text of strings, numbers and arrays, byte by byte. */
  lemma DumpsReads(text: bytes, n: int, v: Value, w: Value, more: seq<Value>)
    ensures Dumps(Str(text)) == [34] + Escape(text) + [34]
    ensures Dumps(Num(n)) == Decimal(n) + [46, 48]
    ensures Dumps(Arr([])) == [91, 93]
    ensures Dumps(Arr([v])) == [91] + Dumps(v) + [93]
    ensures Dumps(Arr([v, w] + more)) == [91] + (Dumps(v) + [44, 32] + DumpItems([w] + more)) + [93]
  {
    hide Escape, Decimal;
    assert ([v, w] + more)[1..] == [w] + more;
  }

  /** Printable ASCII stands for itself, but for quotes and backslashes; the rest is escaped. */
  lemma EscapeReads(text: bytes, b: byte)
    ensures Escape([]) == [] && Escape([b] + text) == EscapeByte(b) + Escape(text)
    ensures 32 <= b <= 126 && b != 34 && b != 92 ==> EscapeByte(b) == [b]
    ensures EscapeByte(34) == [92, 34] && EscapeByte(92) == [92, 92] && EscapeByte(10) == [92, 110]
    ensures EscapeByte(13) == [92, 114] && EscapeByte(9) == [92, 116] && EscapeByte(8) == [92, 98]
    ensures EscapeByte(12) == [92, 102] && EscapeByte(255) == [92, 117, 48, 48, 102, 102]
  {
    assert ([b] + text)[1..] == text;
  }

  predicate IsJsonSpace(b: byte) { b == 32 || b == 9 || b == 10 || b == 13 }

  function SkipSpace(s: bytes): (r: bytes)
    ensures |r| <= |s|
  {
    if s != [] && IsJsonSpace(s[0]) then SkipSpace(s[1..]) else s
  }

  predicate IsNumberByte(b: byte) { IsDigit(b) || b == MINUS || b == 46 }

  function NumberEnd(s: bytes, k: nat): (e: nat)
    requires k <= |s|
    ensures k <= e <= |s|
    decreases |s| - k
  {
    if k < |s| && IsNumberByte(s[k]) then NumberEnd(s, k + 1) else k
  }

  function LoadValue(s: bytes): (r: Option<Parsed<Value>>)
    ensures r.Some? ==> |r.value.rest| < |s|
    decreases |s|, 1
  {
    if s == [] then None
    else if s[0] == QUOTE then
      (match ReadText(s[1..]) case None => None case Some(t) => Some(Parsed(Str(t.value), t.rest)))
    else if s[0] == LEFT then
      var t := SkipSpace(s[1..]);
      if t != [] && t[0] == RIGHT then Some(Parsed(Arr([]), t[1..]))
      else
        (match LoadItems(t) case None => None case Some(vs) => Some(Parsed(Arr(vs.value), vs.rest)))
    else
      var e := NumberEnd(s, 0);
      if e == 0 then None
      else
        match ParseScore(s[..e]) case None => None case Some(n) => Some(Parsed(Num(n), s[e..]))
  }

  /** The items of an array up to and including the closing bracket. */
  function LoadItems(s: bytes): (r: Option<Parsed<seq<Value>>>)
    ensures r.Some? ==> |r.value.rest| < |s|
    decreases |s|, 2
  {
    match LoadValue(s)
    case None => None
    case Some(v) =>
      var t := SkipSpace(v.rest);
      if t != [] && t[0] == RIGHT then Some(Parsed([v.value], t[1..]))
      else if t != [] && t[0] == COMMA then
        (match LoadItems(SkipSpace(t[1..]))
         case None => None
         case Some(vs) => Some(Parsed([v.value] + vs.value, vs.rest)))
      else None
  }

  function Loads(s: bytes): Option<Value> {
    match LoadValue(SkipSpace(s))
    case None => None
    case Some(v) => if SkipSpace(v.rest) == [] then Some(v.value) else None
  }

  // ---------------------------------------------------------------------------------------------
  // Loading inverts dumping
  // ---------------------------------------------------------------------------------------------

  /** A number ends where something else begins. */
  predicate EndsNumber(more: bytes) {
    more == [] || !IsNumberByte(more[0])
  }

  lemma {:induction false} NumberEndsAt(text: bytes, more: bytes, k: nat)
    requires k <= |text| && EndsNumber(more) && forall i :: 0 <= i < |text| ==> IsNumberByte(text[i])
    ensures NumberEnd(text + more, k) == |text|
    decreases |text| - k
  {
    if k < |text| {
      NumberEndsAt(text, more, k + 1);
    }
  }

  lemma ReadsNumber(n: int, more: bytes)
    requires EndsNumber(more)
    ensures LoadValue(ScoreText(n) + more) == Some(Parsed(Num(n), more))
  {
    var text := ScoreText(n);
    var s := text + more;
    assert forall i :: 0 <= i < |text| ==> IsNumberByte(text[i]);
    NumberEndsAt(text, more, 0);
    ParseScoreInvertsScoreText(n);
    assert s[..|text|] == text && s[|text|..] == more;
    assert IsNumberByte(s[0]) && s[0] != QUOTE && s[0] != LEFT;
  }

  lemma {:induction false} ReadsValue(v: Value, more: bytes)
    requires EndsNumber(more)
    ensures LoadValue(Dumps(v) + more) == Some(Parsed(v, more))
    decreases v, 0
  {
    hide LoadItems, DumpItems, LoadValue, Dumps;
    match v
    case Str(text) =>
      ReadsString(text, more);
    case Num(n) =>
      ReadsNumber(n, more);
      DumpsNumber(n);
    case Arr(items) =>
      if items == [] {
        ReadsEmptyArray(more);
      } else {
        ReadsItems(items, more);
        ReadsArray(items, more);
      }
  }

  lemma DumpsNumber(n: int)
    ensures Dumps(Num(n)) == ScoreText(n)
  {
  }

  lemma ReadsString(text: bytes, more: bytes)
    ensures LoadValue(Dumps(Str(text)) + more) == Some(Parsed(Str(text), more))
  {
    var s := Dumps(Str(text)) + more;
    assert s[1..] == Escape(text) + [QUOTE] + more;
    ReadsEscapedText(text, more);
  }

  lemma ReadsEmptyArray(more: bytes)
    ensures LoadValue(Dumps(Arr([])) + more) == Some(Parsed(Arr([]), more))
  {
    var s := Dumps(Arr([])) + more;
    assert s[1..] == [RIGHT] + more;
    assert SkipSpace(s[1..]) == s[1..];
    assert s[1..][1..] == more;
  }

  lemma ReadsArray(items: seq<Value>, more: bytes)
    requires items != [] && LoadItems(DumpItems(items) + [RIGHT] + more) == Some(Parsed(items, more))
    ensures LoadValue(Dumps(Arr(items)) + more) == Some(Parsed(Arr(items), more))
  {
    hide DumpItems, LoadItems, SkipSpace;
    var s := Dumps(Arr(items)) + more;
    assert s[1..] == DumpItems(items) + [RIGHT] + more;
    ItemsStartPlainly(items, more);
  }

  lemma DumpStartsPlainly(v: Value, more: bytes)
    ensures var s := Dumps(v) + more; SkipSpace(s) == s && s[0] != RIGHT
  {
    if v.Num? {
      assert IsNumberByte(ScoreText(v.n)[0]);
    }
  }

  lemma ItemsStartPlainly(items: seq<Value>, more: bytes)
    requires items != []
    ensures var s := DumpItems(items) + [RIGHT] + more; s != [] && SkipSpace(s) == s && s[0] != RIGHT
  {
    hide Dumps, DumpItems, SkipSpace;
    FirstItem(items, more);
    var tail := if |items| == 1 then [RIGHT] + more else [COMMA] + ([SPACE] + (DumpItems(items[1..]) + [RIGHT] + more));
    DumpStartsPlainly(items[0], tail);
  }

  lemma {:induction false} ReadsItems(items: seq<Value>, more: bytes)
    requires items != []
    ensures LoadItems(DumpItems(items) + [RIGHT] + more) == Some(Parsed(items, more))
    decreases items, 1
  {
    hide Dumps, DumpItems, LoadValue, LoadItems, SkipSpace;
    FirstItem(items, more);
    if |items| == 1 {
      NoSpace(RIGHT, more);
      ReadsValue(items[0], [RIGHT] + more);
      LoadLast(DumpItems(items) + [RIGHT] + more, items[0], more);
      assert items == [items[0]];
    } else {
      var next := DumpItems(items[1..]) + [RIGHT] + more;
      NoSpace(COMMA, [SPACE] + next);
      ReadsValue(items[0], [COMMA] + ([SPACE] + next));
      ItemsStartPlainly(items[1..], more);
      ReadsItems(items[1..], more);
      LoadNext(DumpItems(items) + [RIGHT] + more, items[0], next, items[1..], more);
      assert items == [items[0]] + items[1..];
    }
  }

  lemma FirstItem(items: seq<Value>, more: bytes)
    requires items != []
    ensures DumpItems(items) + [RIGHT] + more ==
            Dumps(items[0]) +
            if |items| == 1 then [RIGHT] + more
            else [COMMA] + ([SPACE] + (DumpItems(items[1..]) + [RIGHT] + more))
  {
    hide Dumps;
    ItemsAre(items);
    if |items| > 1 {
      hide DumpItems;
      Regrouped(Dumps(items[0]), DumpItems(items[1..]), more);
    }
  }

  lemma ItemsAre(items: seq<Value>)
    requires items != []
    ensures DumpItems(items) ==
            if |items| == 1 then Dumps(items[0])
            else Dumps(items[0]) + SEPARATOR + DumpItems(items[1..])
  {
  }

  lemma Regrouped(first: bytes, others: bytes, more: bytes)
    ensures first + SEPARATOR + others + [RIGHT] + more == first + ([COMMA] + ([SPACE] + (others + [RIGHT] + more)))
  {
    assert SEPARATOR == [COMMA] + [SPACE];
  }

  lemma LoadLast(s: bytes, v: Value, more: bytes)
    requires LoadValue(s) == Some(Parsed(v, [RIGHT] + more))
    ensures LoadItems(s) == Some(Parsed([v], more))
  {
    NoSpace(RIGHT, more);
    hide LoadValue, SkipSpace;
  }

  lemma LoadNext(s: bytes, v: Value, next: bytes, vs: seq<Value>, more: bytes)
    requires LoadValue(s) == Some(Parsed(v, [COMMA] + ([SPACE] + next))) && SkipSpace(next) == next
    requires LoadItems(next) == Some(Parsed(vs, more))
    ensures LoadItems(s) == Some(Parsed([v] + vs, more))
  {
    NoSpace(COMMA, [SPACE] + next);
    hide LoadValue, SkipSpace;
  }

  lemma NoSpace(b: byte, more: bytes)
    requires b == RIGHT || b == COMMA
    ensures var s := [b] + more; SkipSpace(s) == s && s[0] == b && s[1..] == more && EndsNumber(s)
  {
  }

  /** Whatever was dumped loads as itself. */
  lemma LoadsInvertsDumps(v: Value)
    ensures Loads(Dumps(v)) == Some(v)
  {
    assert Dumps(v) + [] == Dumps(v);
    DumpStartsPlainly(v, []);
    ReadsValue(v, []);
  }
}
