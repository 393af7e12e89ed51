// The values of the Redis serialization protocol, decimal numbers, and lines.

module Resp {
  import opened Bytes

  datatype Option<+T> = None | Some(value: T)

  datatype Value =
    | Null
    | Int(n: int)
    | Bulk(data: bytes)
    | Simple(text: bytes)
    | Error(prefix: bytes, message: bytes)
    | Array(items: seq<Value>)

  const CR: byte := 13
  const LF: byte := 10
  const CRLF: bytes := [CR, LF]
  const SPACE: byte := 32
  const PLUS: byte := 43
  const MINUS: byte := 45
  const COLON: byte := 58
  const DOLLAR: byte := 36
  const STAR: byte := 42
  const UNDERSCORE: byte := 95
  const ERR: bytes := [69, 82, 82]

  // ---------------------------------------------------------------------------------------------
  // Decimal numbers: printing, and reading what Python's int accepts
  // ---------------------------------------------------------------------------------------------

  function Digit(d: nat): (b: byte)
    requires d < 10
  {
    (48 + d) as byte
  }

  predicate IsDigit(b: byte) { 48 <= b <= 57 }

  function Digits(n: nat): (s: bytes)
    ensures |s| > 0 && forall k :: 0 <= k < |s| ==> IsDigit(s[k])
  {
    if n < 10 then [Digit(n)] else Digits(n / 10) + [Digit(n % 10)]
  }

  function Decimal(n: int): bytes {
    if n < 0 then [MINUS] + Digits(-n) else Digits(n)
  }

  lemma OneDigit(d: nat)
    requires d < 10
    ensures Decimal(d) == [(48 + d) as byte]
  {
  }

  /** Printing is decimal, highest digit first, with a minus in front of what is negative. */
  lemma DecimalReads(n: int)
    ensures n >= 10 ==> Decimal(n) == Decimal(n / 10) + [(48 + n % 10) as byte]
    ensures n > 0 ==> Decimal(-n) == [45] + Decimal(n)
  {
  }

  predicate IsSpace(b: byte) { b == 32 || 9 <= b <= 13 }

  predicate AllSpace(s: bytes) {
    forall k :: 0 <= k < |s| ==> s[k] == 32 || 9 <= s[k] <= 13
  }

  function StripLeft(s: bytes): bytes {
    if s != [] && IsSpace(s[0]) then StripLeft(s[1..]) else s
  }

  function StripRight(s: bytes): bytes {
    if s != [] && IsSpace(s[|s| - 1]) then StripRight(s[..|s| - 1]) else s
  }

  /** A number without sign: digits, with single underscores allowed between them. */
  function ParseDigits(s: bytes): Option<nat> {
    if s == [] || !IsDigit(s[|s| - 1]) then None
    else
      var d := s[|s| - 1] as int - 48;
      if |s| == 1 then Some(d)
      else
        var rest := if s[|s| - 2] == UNDERSCORE then s[..|s| - 2] else s[..|s| - 1];
        match ParseDigits(rest)
        case None => None
        case Some(v) => Some(10 * v + d)
  }

  function ParseInt(line: bytes): Option<int> {
    var s := StripRight(StripLeft(line));
    if s != [] && s[0] == MINUS then
      match ParseDigits(s[1..]) case None => None case Some(v) => Some(-(v as int))
    else if s != [] && s[0] == PLUS then
      match ParseDigits(s[1..]) case None => None case Some(v) => Some(v)
    else
      match ParseDigits(s) case None => None case Some(v) => Some(v)
  }

  lemma {:induction false} ParseDigitsInvertsDigits(n: nat)
    ensures ParseDigits(Digits(n)) == Some(n)
  {
    if n >= 10 {
      ParseDigitsInvertsDigits(n / 10);
      var s := Digits(n);
      assert s[..|s| - 1] == Digits(n / 10);
      assert IsDigit(s[|s| - 2]);
    }
  }

  lemma ParseIntInvertsDecimal(n: int)
    ensures ParseInt(Decimal(n)) == Some(n)
  {
    var s := Decimal(n);
    assert !IsSpace(s[0]) && !IsSpace(s[|s| - 1]);
    ParseDigitsInvertsDigits(if n < 0 then -n else n);
    if n < 0 {
      assert s[1..] == Digits(-n);
    } else {
      assert IsDigit(s[0]);
    }
  }

  /** A digit behind a number is its next decimal place; one underscore between two digits does not count. */
  lemma NextDigit(s: bytes, d: byte)
    requires IsDigit(d)
    ensures ParseDigits([d]) == Some(d as int - 48)
    ensures ParseDigits(s).Some? ==>
              && ParseDigits(s + [d]) == Some(10 * ParseDigits(s).value + d as int - 48)
              && ParseDigits(s + [95, d]) == Some(10 * ParseDigits(s).value + d as int - 48)
  {
    hide ParseDigits;
    SingleDigit(d);
    if ParseDigits(s).Some? {
      NotNothing(s);
      LastDigit(s, [d]);
      LastDigit(s, [95, d]);
    }
  }

  lemma SingleDigit(d: byte)
    requires IsDigit(d)
    ensures ParseDigits([d]) == Some(d as int - 48)
  {
  }

  /** The last digit, with or without an underscore in front, is split off. */
  lemma LastDigit(s: bytes, end: bytes)
    requires s != [] && IsDigit(s[|s| - 1]) && 1 <= |end| <= 2 && IsDigit(end[|end| - 1])
    requires |end| == 2 ==> end[0] == UNDERSCORE
    ensures ParseDigits(s + end) ==
            if ParseDigits(s).Some? then Some(10 * ParseDigits(s).value + end[|end| - 1] as int - 48) else None
  {
    var t := s + end;
    assert t[|t| - 1] == end[|end| - 1] && t[..|s|] == s;
    assert t[|t| - 2] == if |end| == 2 then end[0] else s[|s| - 1];
  }

  /** Underscores in front, at the end, or side by side make no number. */
  lemma {:induction false} MisplacedUnderscore(s: bytes, k: nat)
    requires k < |s| && s[k] == 95 && (k == 0 || k == |s| - 1 || s[k + 1] == 95)
    ensures ParseDigits(s).None?
  {
    if ParseDigits(s).Some? && k < |s| - 1 {
      var rest := if s[|s| - 2] == UNDERSCORE then s[..|s| - 2] else s[..|s| - 1];
      DigitsOnly(s, k);
      if k < |rest| {
        MisplacedUnderscore(rest, k);
      }
    }
  }

  /** A number may have white space around it, and a sign. */
  lemma NumberReads(front: bytes, digits: bytes, back: bytes)
    requires AllSpace(front) && AllSpace(back) && ParseDigits(digits).Some?
    ensures ParseInt(front + digits + back) == Some(ParseDigits(digits).value)
    ensures ParseInt(front + ([43] + digits) + back) == Some(ParseDigits(digits).value)
    ensures ParseInt(front + ([45] + digits) + back) == Some(-(ParseDigits(digits).value as int))
  {
    hide ParseDigits;
    NotNothing(digits);
    Stripped(front, digits, back);
    Stripped(front, [43] + digits, back);
    Stripped(front, [45] + digits, back);
    assert ([43] + digits)[1..] == digits && ([45] + digits)[1..] == digits;
  }

  lemma NotNothing(digits: bytes)
    requires ParseDigits(digits).Some?
    ensures digits != [] && IsDigit(digits[|digits| - 1]) && digits[0] != MINUS && digits[0] != PLUS
    ensures !IsSpace(digits[0])
  {
    DigitsOnly(digits, 0);
  }

  lemma Stripped(front: bytes, s: bytes, back: bytes)
    requires AllSpace(front) && AllSpace(back) && s != [] && !IsSpace(s[0]) && !IsSpace(s[|s| - 1])
    ensures StripRight(StripLeft(front + s + back)) == s
  {
    assert front + s + back == front + (s + back);
    StripFront(front, s + back);
    StripBack(s, back);
  }

  lemma {:induction false} StripFront(front: bytes, s: bytes)
    requires AllSpace(front) && s != [] && !IsSpace(s[0])
    ensures StripLeft(front + s) == s
  {
    if front == [] {
      assert front + s == s;
    } else {
      assert (front + s)[1..] == front[1..] + s;
      StripFront(front[1..], s);
    }
  }

  lemma {:induction false} StripBack(s: bytes, back: bytes)
    requires AllSpace(back) && s != [] && !IsSpace(s[|s| - 1])
    ensures StripRight(s + back) == s
  {
    if back == [] {
      assert s + back == s;
    } else {
      var n := |s + back| - 1;
      assert (s + back)[..n] == s + back[..|back| - 1];
      StripBack(s, back[..|back| - 1]);
    }
  }

  /** What no digit, sign, underscore or white space is makes a text no number. */
  lemma NumbersAreDigits(line: bytes, k: nat)
    requires ParseInt(line).Some? && k < |line|
    ensures 48 <= line[k] <= 57 || line[k] in {43, 45, 95, 32} || 9 <= line[k] <= 13
  {
    var left := StripLeft(line);
    var s := StripRight(left);
    StripLeftKeeps(line, k);
    if k >= |line| - |left| {
      StripRightKeeps(left, k - (|line| - |left|));
    }
    var digits := if s != [] && (s[0] == MINUS || s[0] == PLUS) then s[1..] else s;
    forall j | 0 <= j < |digits|
      ensures IsDigit(digits[j]) || digits[j] == UNDERSCORE
    {
      DigitsOnly(digits, j);
    }
    assert forall j :: 0 <= j < |s| ==> s[j] == MINUS || s[j] == PLUS || s[j] in digits;
  }

  lemma {:induction false} DigitsOnly(s: bytes, j: nat)
    requires ParseDigits(s).Some? && j < |s|
    ensures IsDigit(s[j]) || s[j] == UNDERSCORE
  {
    if j < |s| - 1 && !(j == |s| - 2 && s[j] == UNDERSCORE) {
      DigitsOnly(if s[|s| - 2] == UNDERSCORE then s[..|s| - 2] else s[..|s| - 1], j);
    }
  }

  lemma {:induction false} StripLeftKeeps(s: bytes, k: nat)
    requires k < |s|
    ensures |StripLeft(s)| <= |s|
    ensures var cut := |s| - |StripLeft(s)|; if k < cut then IsSpace(s[k]) else s[k] == StripLeft(s)[k - cut]
  {
    if IsSpace(s[0]) && |s| > 1 {
      StripLeftKeeps(s[1..], if k > 0 then k - 1 else 0);
    }
  }

  lemma {:induction false} StripRightKeeps(s: bytes, k: nat)
    requires k < |s|
    ensures |StripRight(s)| <= |s| && if k < |StripRight(s)| then s[k] == StripRight(s)[k] else IsSpace(s[k])
  {
    if IsSpace(s[|s| - 1]) && k < |s| - 1 {
      StripRightKeeps(s[..|s| - 1], k);
    } else if IsSpace(s[|s| - 1]) && |s| > 1 {
      StripRightKeeps(s[..|s| - 1], 0);
    }
  }

  // ---------------------------------------------------------------------------------------------
  // Lines
  // ---------------------------------------------------------------------------------------------

  /** Python's buffer.find(b"\r\n", pos). */
  function FindCrlf(buf: bytes, pos: nat): (idx: int)
    ensures idx == -1 || (pos <= idx && idx + 1 < |buf| && buf[idx] == CR && buf[idx + 1] == LF)
    decreases |buf| - pos
  {
    if pos + 1 >= |buf| then -1
    else if buf[pos] == CR && buf[pos + 1] == LF then pos
    else FindCrlf(buf, pos + 1)
  }

  predicate NoCrlf(s: bytes) {
    forall k :: 0 <= k < |s| - 1 ==> !(s[k] == CR && s[k + 1] == LF)
  }

  /** The first CRLF stays the first whatever is appended or put in front. */
  lemma {:induction false} FindCrlfExtended(buf: bytes, pos: nat, ext: bytes)
    requires FindCrlf(buf, pos) != -1
    ensures FindCrlf(buf + ext, pos) == FindCrlf(buf, pos)
    decreases |buf| - pos
  {
    if !(buf[pos] == CR && buf[pos + 1] == LF) {
      FindCrlfExtended(buf, pos + 1, ext);
    }
  }

  lemma {:induction false} FindCrlfShifted(pre: bytes, buf: bytes, pos: nat)
    ensures FindCrlf(pre + buf, |pre| + pos) == if FindCrlf(buf, pos) == -1 then -1 else |pre| + FindCrlf(buf, pos)
    decreases |buf| - pos
  {
    if pos + 1 < |buf| && !(buf[pos] == CR && buf[pos + 1] == LF) {
      FindCrlfShifted(pre, buf, pos + 1);
    }
  }

  /** A line without CRLF is found whole. */
  lemma {:induction false} FindCrlfAfter(line: bytes, k: nat, ext: bytes)
    requires NoCrlf(line) && k <= |line|
    ensures FindCrlf(line + CRLF + ext, k) == |line|
    decreases |line| - k
  {
    if k < |line| {
      var buf := line + CRLF + ext;
      assert k + 1 < |line| ==> buf[k + 1] == line[k + 1];
      FindCrlfAfter(line, k + 1, ext);
    }
  }

  /** A line with a CRLF in it is cut short. */
  lemma {:induction false} FindCrlfInside(line: bytes, k: nat, j: nat, ext: bytes)
    requires k <= j < |line| - 1 && line[j] == CR && line[j + 1] == LF
    ensures 0 <= FindCrlf(line + CRLF + ext, k) < |line|
    decreases j - k
  {
    if k < j {
      FindCrlfInside(line, k + 1, j, ext);
    }
  }

  lemma DecimalHasNoCrlf(n: int)
    ensures NoCrlf(Decimal(n))
  {
  }

  // ---------------------------------------------------------------------------------------------
  // Words of an inline command: bytes.split() cuts at runs of white space
  // ---------------------------------------------------------------------------------------------

  function WordEnd(s: bytes, k: nat): (e: nat)
    requires k <= |s|
    ensures k <= e <= |s|
    decreases |s| - k
  {
    if k < |s| && !IsSpace(s[k]) then WordEnd(s, k + 1) else k
  }

  function Words(s: bytes): seq<bytes>
    decreases |s|
  {
    if s == [] then []
    else if IsSpace(s[0]) then Words(s[1..])
    else
      var e := WordEnd(s, 1);
      [s[..e]] + Words(s[e..])
  }

  predicate SpaceFree(s: bytes) {
    forall k :: 0 <= k < |s| ==> s[k] != 32 && !(9 <= s[k] <= 13)
  }

  /** Words with white space between them, and perhaps in front and behind. */
  predicate Parted(gaps: seq<bytes>, words: seq<bytes>) {
    && |gaps| == |words| + 1
    && (forall k :: 0 <= k < |gaps| ==> AllSpace(gaps[k]))
    && (forall k :: 0 <= k < |words| ==> words[k] != [] && SpaceFree(words[k]))
    && (forall k :: 0 < k < |words| ==> gaps[k] != [])
  }

  function Spelled(gaps: seq<bytes>, words: seq<bytes>): bytes
    requires |gaps| == |words| + 1
  {
    if words == [] then gaps[0] else gaps[0] + words[0] + Spelled(gaps[1..], words[1..])
  }

  /** Splitting a line gives back the words that it was spelled with, in order, whatever the white space. */
  lemma {:induction false} WordsInvertSpelling(gaps: seq<bytes>, words: seq<bytes>)
    requires Parted(gaps, words)
    ensures Words(Spelled(gaps, words)) == words
    decreases |words|
  {
    if words == [] {
      SkipGap(gaps[0], []);
      assert gaps[0] + [] == gaps[0];
    } else {
      var word, rest := words[0], Spelled(gaps[1..], words[1..]);
      assert Parted(gaps[1..], words[1..]) && AllSpace(gaps[1]);
      WordsInvertSpelling(gaps[1..], words[1..]);
      assert gaps[0] + word + rest == gaps[0] + (word + rest);
      SkipGap(gaps[0], word + rest);
      EndOfWord(word, rest, 1);
      assert (word + rest)[..|word|] == word && (word + rest)[|word|..] == rest;
    }
  }

  /** And every line is spelled with its words. */
  lemma {:induction false} LineIsSpelled(s: bytes) returns (gaps: seq<bytes>)
    ensures Parted(gaps, Words(s)) && Spelled(gaps, Words(s)) == s
    decreases |s|
  {
    if s == [] {
      gaps := [[]];
    } else if IsSpace(s[0]) {
      hide Parted, Spelled;
      var more := LineIsSpelled(s[1..]);
      gaps := WiderGap(s[0], more, Words(s[1..]));
      assert s == [s[0]] + s[1..];
    } else {
      hide Parted, Spelled;
      var e := WordEnd(s, 1);
      WordUpTo(s, 1);
      var more := LineIsSpelled(s[e..]);
      assert s == s[..e] + s[e..];
      gaps := OneMoreWord(s[..e], more, Words(s[e..]));
    }
  }

  lemma WiderGap(b: byte, gaps: seq<bytes>, words: seq<bytes>) returns (wider: seq<bytes>)
    requires IsSpace(b) && Parted(gaps, words)
    ensures Parted(wider, words) && Spelled(wider, words) == [b] + Spelled(gaps, words)
  {
    wider := [[b] + gaps[0]] + gaps[1..];
    assert wider[1..] == gaps[1..];
    assert AllSpace(gaps[0]) && AllSpace([b] + gaps[0]);
  }

  lemma OneMoreWord(word: bytes, gaps: seq<bytes>, words: seq<bytes>) returns (more: seq<bytes>)
    requires word != [] && SpaceFree(word) && Parted(gaps, words)
    requires words == [] || (Spelled(gaps, words) != [] && IsSpace(Spelled(gaps, words)[0]))
    ensures Parted(more, [word] + words) && Spelled(more, [word] + words) == word + Spelled(gaps, words)
  {
    more := [[]] + gaps;
    var all := [word] + words;
    assert more[1..] == gaps && all[1..] == words;
    if words != [] {
      assert SpaceFree(words[0]) && words[0] != [];
    }
    assert AllSpace([]) && [] + word == word;
    forall k | 0 <= k < |more|
      ensures AllSpace(more[k])
    {
      assert k > 0 ==> more[k] == gaps[k - 1];
    }
    forall k | 0 <= k < |all|
      ensures all[k] != [] && SpaceFree(all[k])
    {
      assert k > 0 ==> all[k] == words[k - 1];
    }
  }

  lemma {:induction false} SkipGap(gap: bytes, rest: bytes)
    requires AllSpace(gap)
    ensures Words(gap + rest) == Words(rest)
  {
    if gap == [] {
      assert gap + rest == rest;
    } else {
      assert (gap + rest)[1..] == gap[1..] + rest;
      SkipGap(gap[1..], rest);
    }
  }

  lemma {:induction false} EndOfWord(word: bytes, rest: bytes, k: nat)
    requires SpaceFree(word) && k <= |word| && (rest == [] || IsSpace(rest[0]))
    ensures WordEnd(word + rest, k) == |word|
    decreases |word| - k
  {
    if k < |word| {
      EndOfWord(word, rest, k + 1);
    }
  }

  lemma {:induction false} WordUpTo(s: bytes, k: nat)
    requires k <= |s|
    ensures var e := WordEnd(s, k); SpaceFree(s[k..e]) && (e < |s| ==> IsSpace(s[e]))
    decreases |s| - k
  {
    if k < |s| && !IsSpace(s[k]) {
      WordUpTo(s, k + 1);
      assert s[k..WordEnd(s, k)] == [s[k]] + s[k + 1..WordEnd(s, k)];
    }
  }

  function Bulks(parts: seq<bytes>): (vs: seq<Value>)
    ensures |vs| == |parts| && forall k :: 0 <= k < |parts| ==> vs[k] == Bulk(parts[k])
  {
    seq(|parts|, k requires 0 <= k < |parts| => Bulk(parts[k]))
  }

  /** The first space of an error line parts its prefix from its message. */
  function IndexOf(s: bytes, b: byte, k: nat): (i: int)
    requires k <= |s|
    ensures i == -1 ==> forall j :: k <= j < |s| ==> s[j] != b
    ensures i != -1 ==> k <= i < |s| && s[i] == b && forall j :: k <= j < i ==> s[j] != b
    decreases |s| - k
  {
    if k == |s| then -1 else if s[k] == b then k else IndexOf(s, b, k + 1)
  }

  function ErrorOfLine(line: bytes): Value {
    var i := IndexOf(line, SPACE, 0);
    if i == -1 then Error(ERR, line) else Error(line[..i], line[i + 1..])
  }
}
