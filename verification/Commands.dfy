// The commands of commands/*.py that the model runs, as functions of one keyspace.

module Commands {
  import opened Bytes
  import opened Resp
  import opened Keyspaces
  import SkipLists
  import SortedSetStores

  datatype CommandError = WrongType | Syntax | NotAnInteger | NotAFloat | InvalidExpire | OutOfRange | NoSuchKey

  datatype Reply = Fine(value: Value) | Oops(error: CommandError)

  const OK: Value := Simple([79, 75])

  function IntReply(n: int): Reply { Fine(Int(n)) }

  // ---------------------------------------------------------------------------------------------
  // Names
  // ---------------------------------------------------------------------------------------------

  function UpperByte(b: byte): byte {
    if 97 <= b <= 122 then b - 32 else b
  }

  function Upper(s: bytes): (r: bytes)
    ensures |r| == |s| && forall k :: 0 <= k < |s| ==> r[k] == UpperByte(s[k])
  {
    seq(|s|, k requires 0 <= k < |s| => UpperByte(s[k]))
  }

  lemma UpperTwice(s: bytes)
    ensures Upper(Upper(s)) == Upper(s)
  {
  }

  /** A command name as bytes; names are plain ASCII. */
  function Ascii(s: string): (r: bytes)
    ensures |r| == |s| && forall k :: 0 <= k < |s| ==> r[k] as int == s[k] as int % 256
  {
    seq(|s|, k requires 0 <= k < |s| => (s[k] as int % 256) as byte)
  }

  datatype Kind =
    | GetKind | SetKind | AppendKind | IncrByKind
    | LPushKind | RPushKind | LPopKind
    | SAddKind | SRemKind | HSetKind | HDelKind | ZAddKind | ZRemKind
    | DelKind | PExpireAtKind | PersistKind | RenameKind | FlushDbKind
    | SelectKind | FlushAllKind | MultiKind | ExecKind | DiscardKind | WatchKind | UnwatchKind

  function KindOf(name: bytes): Option<Kind> {
    if name == Ascii("GET") then Some(GetKind)
    else if name == Ascii("SET") then Some(SetKind)
    else if name == Ascii("APPEND") then Some(AppendKind)
    else if name == Ascii("INCRBY") then Some(IncrByKind)
    else if name == Ascii("LPUSH") then Some(LPushKind)
    else if name == Ascii("RPUSH") then Some(RPushKind)
    else if name == Ascii("LPOP") then Some(LPopKind)
    else if name == Ascii("SADD") then Some(SAddKind)
    else if name == Ascii("SREM") then Some(SRemKind)
    else if name == Ascii("HSET") then Some(HSetKind)
    else if name == Ascii("HDEL") then Some(HDelKind)
    else if name == Ascii("ZADD") then Some(ZAddKind)
    else if name == Ascii("ZREM") then Some(ZRemKind)
    else if name == Ascii("DEL") then Some(DelKind)
    else if name == Ascii("PEXPIREAT") then Some(PExpireAtKind)
    else if name == Ascii("PERSIST") then Some(PersistKind)
    else if name == Ascii("RENAME") then Some(RenameKind)
    else if name == Ascii("FLUSHDB") then Some(FlushDbKind)
    else if name == Ascii("SELECT") then Some(SelectKind)
    else if name == Ascii("FLUSHALL") then Some(FlushAllKind)
    else if name == Ascii("MULTI") then Some(MultiKind)
    else if name == Ascii("EXEC") then Some(ExecKind)
    else if name == Ascii("DISCARD") then Some(DiscardKind)
    else if name == Ascii("WATCH") then Some(WatchKind)
    else if name == Ascii("UNWATCH") then Some(UnwatchKind)
    else None
  }

  lemma Differ(a: string, b: string, k: nat)
    requires k < |a| && k < |b| && a[k] as int % 256 != b[k] as int % 256
    ensures Ascii(a) != Ascii(b)
  {
    assert Ascii(a)[k] != Ascii(b)[k];
  }

  /** Every command is found under its name. */
  lemma NamesOfThree()
    ensures KindOf(Ascii("GET")) == Some(GetKind)
    ensures KindOf(Ascii("SET")) == Some(SetKind)
    ensures KindOf(Ascii("DEL")) == Some(DelKind)
  {
    Differ("SET", "GET", 0);
    Differ("DEL", "GET", 0);
    Differ("DEL", "SET", 0);
  }

  lemma NamesOfFour()
    ensures KindOf(Ascii("LPOP")) == Some(LPopKind)
    ensures KindOf(Ascii("SADD")) == Some(SAddKind)
    ensures KindOf(Ascii("SREM")) == Some(SRemKind)
    ensures KindOf(Ascii("HSET")) == Some(HSetKind)
  {
    Differ("SADD", "LPOP", 0);
    Differ("SREM", "LPOP", 0);
    Differ("SREM", "SADD", 1);
    Differ("HSET", "LPOP", 0);
    Differ("HSET", "SADD", 0);
    Differ("HSET", "SREM", 0);
  }

  lemma MoreNamesOfFour()
    ensures KindOf(Ascii("HDEL")) == Some(HDelKind)
    ensures KindOf(Ascii("ZADD")) == Some(ZAddKind)
  {
    Differ("HDEL", "LPOP", 0);
    Differ("HDEL", "SADD", 0);
    Differ("HDEL", "SREM", 0);
    Differ("HDEL", "HSET", 1);
    Differ("ZADD", "LPOP", 0);
    Differ("ZADD", "SADD", 0);
    Differ("ZADD", "SREM", 0);
    Differ("ZADD", "HSET", 0);
    Differ("ZADD", "HDEL", 0);
  }

  lemma NameOfZRem()
    ensures KindOf(Ascii("ZREM")) == Some(ZRemKind)
  {
    Differ("ZREM", "LPOP", 0);
    Differ("ZREM", "SADD", 0);
    Differ("ZREM", "SREM", 0);
    Differ("ZREM", "HSET", 0);
    Differ("ZREM", "HDEL", 0);
    Differ("ZREM", "ZADD", 1);
  }

  lemma NameOfExec()
    ensures KindOf(Ascii("EXEC")) == Some(ExecKind)
  {
    Differ("EXEC", "LPOP", 0);
    Differ("EXEC", "SADD", 0);
    Differ("EXEC", "SREM", 0);
    Differ("EXEC", "HSET", 0);
    Differ("EXEC", "HDEL", 0);
    Differ("EXEC", "ZADD", 0);
    Differ("EXEC", "ZREM", 0);
  }

  lemma NamesOfFive()
    ensures KindOf(Ascii("LPUSH")) == Some(LPushKind)
    ensures KindOf(Ascii("RPUSH")) == Some(RPushKind)
    ensures KindOf(Ascii("MULTI")) == Some(MultiKind)
    ensures KindOf(Ascii("WATCH")) == Some(WatchKind)
  {
    Differ("RPUSH", "LPUSH", 0);
    Differ("MULTI", "LPUSH", 0);
    Differ("MULTI", "RPUSH", 0);
    Differ("WATCH", "LPUSH", 0);
    Differ("WATCH", "RPUSH", 0);
    Differ("WATCH", "MULTI", 0);
  }

  lemma NamesOfSix()
    ensures KindOf(Ascii("APPEND")) == Some(AppendKind)
    ensures KindOf(Ascii("INCRBY")) == Some(IncrByKind)
    ensures KindOf(Ascii("RENAME")) == Some(RenameKind)
    ensures KindOf(Ascii("SELECT")) == Some(SelectKind)
  {
    Differ("INCRBY", "APPEND", 0);
    Differ("RENAME", "APPEND", 0);
    Differ("RENAME", "INCRBY", 0);
    Differ("SELECT", "APPEND", 0);
    Differ("SELECT", "INCRBY", 0);
    Differ("SELECT", "RENAME", 0);
  }

  lemma LongNames()
    ensures KindOf(Ascii("PERSIST")) == Some(PersistKind)
    ensures KindOf(Ascii("FLUSHDB")) == Some(FlushDbKind)
    ensures KindOf(Ascii("DISCARD")) == Some(DiscardKind)
    ensures KindOf(Ascii("UNWATCH")) == Some(UnwatchKind)
    ensures KindOf(Ascii("FLUSHALL")) == Some(FlushAllKind)
    ensures KindOf(Ascii("PEXPIREAT")) == Some(PExpireAtKind)
  {
    Differ("FLUSHDB", "PERSIST", 0);
    Differ("DISCARD", "PERSIST", 0);
    Differ("DISCARD", "FLUSHDB", 0);
    Differ("UNWATCH", "PERSIST", 0);
    Differ("UNWATCH", "FLUSHDB", 0);
    Differ("UNWATCH", "DISCARD", 0);
  }

  /** Any other name is unknown. */
  lemma OtherNames(name: bytes)
    requires name != Ascii("GET") && name != Ascii("SET") && name != Ascii("APPEND") && name != Ascii("INCRBY")
    requires name != Ascii("LPUSH") && name != Ascii("RPUSH") && name != Ascii("LPOP") && name != Ascii("SADD")
    requires name != Ascii("SREM") && name != Ascii("HSET") && name != Ascii("HDEL") && name != Ascii("ZADD")
    requires name != Ascii("ZREM") && name != Ascii("DEL") && name != Ascii("PEXPIREAT") && name != Ascii("PERSIST")
    requires name != Ascii("RENAME") && name != Ascii("FLUSHDB") && name != Ascii("SELECT") && name != Ascii("FLUSHALL")
    requires name != Ascii("MULTI") && name != Ascii("EXEC") && name != Ascii("DISCARD") && name != Ascii("WATCH")
    requires name != Ascii("UNWATCH")
    ensures KindOf(name) == None
  {
    hide Ascii;
  }

  /** Names that are upper case already stay as they are. */
  lemma UpperName(s: string)
    requires forall k :: 0 <= k < |s| ==> 'A' <= s[k] <= 'Z'
    ensures Upper(Ascii(s)) == Ascii(s)
  {
  }

  /** Negative arities are lower bounds; the command name counts. */
  function Arity(kind: Kind): int {
    match kind
    case GetKind => 2
    case SetKind => -3
    case AppendKind => 3
    case IncrByKind => 3
    case LPushKind => -3
    case RPushKind => -3
    case LPopKind => -2
    case SAddKind => -3
    case SRemKind => -3
    case HSetKind => -4
    case HDelKind => -3
    case ZAddKind => -4
    case ZRemKind => -3
    case DelKind => -2
    case PExpireAtKind => 3
    case PersistKind => 2
    case RenameKind => 3
    case FlushDbKind => -1
    case SelectKind => 2
    case FlushAllKind => -1
    case MultiKind => 1
    case ExecKind => 1
    case DiscardKind => 1
    case WatchKind => -2
    case UnwatchKind => 1
  }

  predicate ArityFits(kind: Kind, tokens: nat) {
    if Arity(kind) > 0 then tokens == Arity(kind) else tokens >= -Arity(kind)
  }

  predicate IsWrite(kind: Kind) {
    kind !in {GetKind, SelectKind, MultiKind, DiscardKind, WatchKind, UnwatchKind}
  }

  /** The commands that are run at once even inside a transaction. */
  predicate IsControl(kind: Kind) {
    kind in {ExecKind, DiscardKind, MultiKind, WatchKind, UnwatchKind}
  }

  /** The commands that work on one keyspace. */
  predicate IsData(kind: Kind) {
    !IsControl(kind) && kind != SelectKind && kind != FlushAllKind
  }

  // ---------------------------------------------------------------------------------------------
  // Typed access
  // ---------------------------------------------------------------------------------------------

  datatype Fetched = Missing | Mismatch | Found(entry: Entry)

  datatype DataType = StringType | HashType | ListType | SetType | ZSetType

  function TypeOf(d: Data): DataType {
    match d
    case StringData(_) => StringType
    case HashData(_) => HashType
    case ListData(_) => ListType
    case SetData(_) => SetType
    case ZSetData(_) => ZSetType
  }

  /** get_typed_entry, after the sweep. */
  function Typed(ks: KS, key: bytes, t: DataType, now: int): (f: Fetched)
    ensures f.Found? ==> TypeOf(f.entry.data) == t && key in Swept(ks, key, now).entries
    ensures f.Found? ==> Swept(ks, key, now).entries[key] == f.entry && Swept(ks, key, now) == ks
  {
    match GetEntry(ks, key, now)
    case None => Missing
    case Some(e) => if TypeOf(e.data) == t then Found(e) else Mismatch
  }

  // ---------------------------------------------------------------------------------------------
  // Strings
  // ---------------------------------------------------------------------------------------------

  datatype SetOptions = SetOptions(ex: Option<int>, px: Option<int>, nx: bool, xx: bool, get: bool, keepTtl: bool)

  datatype Options = Chosen(opts: SetOptions) | Refused(error: CommandError)

  function ParseSetOptions(args: seq<bytes>, o: SetOptions): Options
    decreases |args|
  {
    if args == [] then Chosen(o)
    else
      var opt := Upper(args[0]);
      if opt == Ascii("EX") && |args| > 1 then
        match ParseInt(args[1])
        case None => Refused(NotAnInteger)
        case Some(n) => if n <= 0 then Refused(InvalidExpire) else ParseSetOptions(args[2..], o.(ex := Some(n)))
      else if opt == Ascii("PX") && |args| > 1 then
        match ParseInt(args[1])
        case None => Refused(NotAnInteger)
        case Some(n) => if n <= 0 then Refused(InvalidExpire) else ParseSetOptions(args[2..], o.(px := Some(n)))
      else if opt == Ascii("NX") then ParseSetOptions(args[1..], o.(nx := true))
      else if opt == Ascii("XX") then ParseSetOptions(args[1..], o.(xx := true))
      else if opt == Ascii("GET") then ParseSetOptions(args[1..], o.(get := true))
      else if opt == Ascii("KEEPTTL") then ParseSetOptions(args[1..], o.(keepTtl := true))
      else Refused(Syntax)
  }

  const NO_OPTIONS: SetOptions := SetOptions(None, None, false, false, false, false)

  function TextReply(e: Option<Entry>): Value {
    if e.Some? && e.value.data.StringData? then Bulk(e.value.data.text) else Null
  }

  function RunSet(ks: KS, args: seq<bytes>, now: int): (KS, Reply)
    requires |args| >= 2
  {
    match ParseSetOptions(args[2..], NO_OPTIONS)
    case Refused(e) => (ks, Oops(e))
    case Chosen(o) =>
      if o.nx && o.xx then (ks, Oops(Syntax))
      else
        var key := args[0];
        var existing := GetEntry(ks, key, now);
        var ks1 := Swept(ks, key, now);
        if existing.Some? && !existing.value.data.StringData? && o.get then (ks1, Oops(WrongType))
        else if (o.nx && existing.Some?) || (o.xx && existing.None?) then
          (ks1, Fine(if o.get then TextReply(existing) else Null))
        else
          var expireAt :=
            if o.ex.Some? then Some(now + o.ex.value * 1000)
            else if o.px.Some? then Some(now + o.px.value)
            else if o.keepTtl && existing.Some? then existing.value.expireAt
            else None;
          (Set(ks1, key, Entry(StringData(args[1]), expireAt)), Fine(if o.get then TextReply(existing) else OK))
  }

  function RunGet(ks: KS, args: seq<bytes>, now: int): (KS, Reply)
    requires |args| >= 1
  {
    var ks1 := Swept(ks, args[0], now);
    match Typed(ks, args[0], StringType, now)
    case Missing => (ks1, Fine(Null))
    case Mismatch => (ks1, Oops(WrongType))
    case Found(e) => (ks1, Fine(Bulk(e.data.text)))
  }

  function RunAppend(ks: KS, args: seq<bytes>, now: int): (KS, Reply)
    requires |args| >= 2
  {
    var ks1 := Swept(ks, args[0], now);
    match Typed(ks, args[0], StringType, now)
    case Mismatch => (ks1, Oops(WrongType))
    case Missing => (Set(ks1, args[0], Entry(StringData(args[1]), None)), IntReply(|args[1]|))
    case Found(e) =>
      (Set(ks1, args[0], Entry(StringData(e.data.text + args[1]), e.expireAt)), IntReply(|e.data.text + args[1]|))
  }

  function RunIncrBy(ks: KS, args: seq<bytes>, now: int): (KS, Reply)
    requires |args| >= 2
  {
    match ParseInt(args[1])
    case None => (ks, Oops(NotAnInteger))
    case Some(delta) =>
      var ks1 := Swept(ks, args[0], now);
      match Typed(ks, args[0], StringType, now)
      case Mismatch => (ks1, Oops(WrongType))
      case Missing => (Set(ks1, args[0], Entry(StringData(Decimal(delta)), None)), IntReply(delta))
      case Found(e) =>
        match ParseInt(e.data.text)
        case None => (ks1, Oops(NotAnInteger))
        case Some(n) => (Set(ks1, args[0], Entry(StringData(Decimal(n + delta)), e.expireAt)), IntReply(n + delta))
  }

  // ---------------------------------------------------------------------------------------------
  // Containers
  // ---------------------------------------------------------------------------------------------

  /** A container command on a key of its type: a missing key first gets an empty container. */
  function Upsert(ks: KS, key: bytes, initial: Data, t: DataType, now: int): (r: Option<KS>)
    requires TypeOf(initial) == t
    ensures r.Some? ==> key in r.value.entries && TypeOf(r.value.entries[key].data) == t
  {
    match Typed(ks, key, t, now)
    case Mismatch => None
    case Missing => Some(Set(Swept(ks, key, now), key, Entry(initial, None)))
    case Found(_) => Some(ks)
  }

  /** After a removal: an empty container takes its key with it. */
  function Shrunk(ks: KS, key: bytes, data: Data, empty: bool): KS
    requires key in ks.entries
  {
    if empty then Delete(ks.(entries := ks.entries[key := ks.entries[key].(data := data)]), key)
    else Mutated(ks, key, data)
  }

  function Reverse(s: seq<bytes>): seq<bytes> {
    if s == [] then [] else Reverse(s[1..]) + [s[0]]
  }

  function RunPush(ks: KS, args: seq<bytes>, left: bool, now: int): (KS, Reply)
    requires |args| >= 1
  {
    var key := args[0];
    match Upsert(ks, key, ListData([]), ListType, now)
    case None => (Swept(ks, key, now), Oops(WrongType))
    case Some(ks1) =>
      var items := ks1.entries[key].data.items;
      var items' := if left then Reverse(args[1..]) + items else items + args[1..];
      (Mutated(ks1, key, ListData(items')), IntReply(|items'|))
  }

  function RunLPop(ks: KS, args: seq<bytes>, now: int): (KS, Reply)
    requires |args| >= 1
  {
    var n := if |args| > 1 then ParseInt(args[1]) else Some(1);
    if n == None then (ks, Oops(NotAnInteger))
    else if n.value < 0 then (ks, Oops(OutOfRange))
    else
      var ks1 := Swept(ks, args[0], now);
      match Typed(ks, args[0], ListType, now)
      case Mismatch => (ks1, Oops(WrongType))
      case Missing => (ks1, Fine(if |args| > 1 then Array([]) else Null))
      case Found(e) =>
        var items := e.data.items;
        var k := if n.value < |items| then n.value else |items|;
        var reply := if |args| > 1 then Array(Bulks(items[..k])) else if k > 0 then Bulk(items[0]) else Null;
        (Shrunk(ks1, args[0], ListData(items[k..]), |items[k..]| == 0), Fine(reply))
  }

  function RunSAdd(ks: KS, args: seq<bytes>, now: int): (KS, Reply)
    requires |args| >= 1
  {
    var key := args[0];
    match Upsert(ks, key, SetData({}), SetType, now)
    case None => (Swept(ks, key, now), Oops(WrongType))
    case Some(ks1) =>
      var members := ks1.entries[key].data.members;
      var members' := members + set m | m in args[1..];
      (Mutated(ks1, key, SetData(members')), IntReply(|members'| - |members|))
  }

  function RunSRem(ks: KS, args: seq<bytes>, now: int): (KS, Reply)
    requires |args| >= 1
  {
    var ks1 := Swept(ks, args[0], now);
    match Typed(ks, args[0], SetType, now)
    case Mismatch => (ks1, Oops(WrongType))
    case Missing => (ks1, IntReply(0))
    case Found(e) =>
      var members' := e.data.members - set m | m in args[1..];
      (Shrunk(ks1, args[0], SetData(members'), members' == {}), IntReply(|e.data.members| - |members'|))
  }

  /** hset stores the pairs from left to right. */
  function WithFields(fields: map<bytes, bytes>, args: seq<bytes>): map<bytes, bytes>
    decreases |args|
  {
    if |args| < 2 then fields else WithFields(fields[args[0] := args[1]], args[2..])
  }

  function RunHSet(ks: KS, args: seq<bytes>, now: int): (KS, Reply)
    requires |args| >= 1
  {
    var key := args[0];
    if (|args| - 1) % 2 != 0 then (ks, Oops(Syntax))
    else
      match Upsert(ks, key, HashData(map[]), HashType, now)
      case None => (Swept(ks, key, now), Oops(WrongType))
      case Some(ks1) =>
        var fields := ks1.entries[key].data.fields;
        var fields' := WithFields(fields, args[1..]);
        (Mutated(ks1, key, HashData(fields')), IntReply(|fields'| - |fields|))
  }

  function RunHDel(ks: KS, args: seq<bytes>, now: int): (KS, Reply)
    requires |args| >= 1
  {
    var ks1 := Swept(ks, args[0], now);
    match Typed(ks, args[0], HashType, now)
    case Mismatch => (ks1, Oops(WrongType))
    case Missing => (ks1, IntReply(0))
    case Found(e) =>
      var fields' := e.data.fields - set m | m in args[1..];
      (Shrunk(ks1, args[0], HashData(fields'), fields' == map[]), IntReply(|e.data.fields| - |fields'|))
  }

  // ---------------------------------------------------------------------------------------------
  // Sorted sets
  // ---------------------------------------------------------------------------------------------

  const POINT_ZERO: bytes := [46, 48]

  /** str() of an integral score. */
  function ScoreText(n: int): bytes { Decimal(n) + POINT_ZERO }

  /** float() of an integral number, with or without the fraction that printing adds. */
  function ParseScore(text: bytes): Option<int> {
    if |text| >= 2 && text[|text| - 2..] == POINT_ZERO then ParseInt(text[..|text| - 2]) else ParseInt(text)
  }

  lemma ParseScoreInvertsScoreText(n: int)
    ensures ParseScore(ScoreText(n)) == Some(n)
  {
    var text := ScoreText(n);
    assert text[|text| - 2..] == POINT_ZERO && text[..|text| - 2] == Decimal(n);
    ParseIntInvertsDecimal(n);
  }

  /** A score may also be written without a fraction. */
  lemma ParseScoreReads(n: int)
    ensures ParseScore(Decimal(n)) == Some(n)
  {
    hide ParseInt;
    var text := Decimal(n);
    ParseIntInvertsDecimal(n);
    assert |text| >= 2 ==> text[|text| - 2..][0] == text[|text| - 2];
  }

  datatype ZFlags = ZFlags(nx: bool, xx: bool, ch: bool, rest: seq<bytes>)

  function ParseZFlags(args: seq<bytes>, nx: bool, xx: bool, ch: bool): (f: ZFlags)
    ensures |f.rest| <= |args|
    decreases |args|
  {
    if args == [] then ZFlags(nx, xx, ch, args)
    else
      var flag := Upper(args[0]);
      if flag == Ascii("NX") then ParseZFlags(args[1..], true, xx, ch)
      else if flag == Ascii("XX") then ParseZFlags(args[1..], nx, true, ch)
      else if flag == Ascii("CH") then ParseZFlags(args[1..], nx, xx, true)
      else ZFlags(nx, xx, ch, args)
  }

  function ParsePairs(args: seq<bytes>): Option<seq<SkipLists.Pair>>
    requires |args| % 2 == 0
    decreases |args|
  {
    if args == [] then Some([])
    else
      match ParseScore(args[0])
      case None => None
      case Some(score) =>
        match ParsePairs(args[2..])
        case None => None
        case Some(rest) => Some([SkipLists.Pair(score, args[1])] + rest)
  }

  function RunZAdd(ks: KS, args: seq<bytes>, now: int): (KS, Reply)
    requires |args| >= 1
  {
    var key := args[0];
    var f := ParseZFlags(args[1..], false, false, false);
    if |f.rest| % 2 != 0 || |f.rest| == 0 then (ks, Oops(Syntax))
    else
      match ParsePairs(f.rest)
      case None => (ks, Oops(NotAFloat))
      case Some(pairs) =>
        match Upsert(ks, key, ZSetData(map[]), ZSetType, now)
        case None => (Swept(ks, key, now), Oops(WrongType))
        case Some(ks1) =>
          var scores := ks1.entries[key].data.scores;
          var scores' := SortedSetStores.AddedAll(scores, pairs, f.nx, f.xx);
          var count := if f.ch then SortedSetStores.ChangedCount(scores, pairs, f.nx, f.xx) else |scores'| - |scores|;
          (Mutated(ks1, key, ZSetData(scores')), IntReply(count))
  }

  /** On a missing key a ZADD that is carried out leaves an empty sorted set behind exactly when it says XX. */
  lemma ZAddOnMissingKey(ks: KS, args: seq<bytes>, now: int)
    requires |args| >= 1 && Typed(ks, args[0], ZSetType, now).Missing? && RunZAdd(ks, args, now).1.Fine?
    ensures var e := Stored(RunZAdd(ks, args, now).0, args[0]);
            && e.Some? && e.value.data.ZSetData?
            && (e.value.data.scores == map[] <==> ParseZFlags(args[1..], false, false, false).xx)
  {
    hide SortedSetStores.AddedAll, Swept, ParseZFlags;
    var f := ParseZFlags(args[1..], false, false, false);
    PairsCount(f.rest);
    var pairs := ParsePairs(f.rest).value;
    forall m
      ensures m in SortedSetStores.AddedAll(map[], pairs, f.nx, f.xx) <==> !f.xx && SortedSetStores.Names(pairs, m)
    {
      SortedSetStores.AddedMembers(map[], pairs, f.nx, f.xx, m);
    }
    assert SortedSetStores.Names(pairs, pairs[0].member);
  }

  lemma {:induction false} PairsCount(args: seq<bytes>)
    requires |args| % 2 == 0
    ensures ParsePairs(args).Some? ==> 2 * |ParsePairs(args).value| == |args|
    decreases |args|
  {
    if args != [] {
      PairsCount(args[2..]);
    }
  }

  function RunZRem(ks: KS, args: seq<bytes>, now: int): (KS, Reply)
    requires |args| >= 1
  {
    var ks1 := Swept(ks, args[0], now);
    match Typed(ks, args[0], ZSetType, now)
    case Mismatch => (ks1, Oops(WrongType))
    case Missing => (ks1, IntReply(0))
    case Found(e) =>
      var scores' := SortedSetStores.RemovedAll(e.data.scores, args[1..]);
      (Shrunk(ks1, args[0], ZSetData(scores'), scores' == map[]), IntReply(|e.data.scores| - |scores'|))
  }

  // ---------------------------------------------------------------------------------------------
  // Keys
  // ---------------------------------------------------------------------------------------------

  function RunDel(ks: KS, args: seq<bytes>): (KS, Reply) {
    var ks1 := DeleteAll(ks, args);
    (ks1, IntReply(|ks.entries| - |ks1.entries|))
  }

  function RunPExpireAt(ks: KS, args: seq<bytes>, now: int): (KS, Reply)
    requires |args| >= 2
  {
    match ParseInt(args[1])
    case None => (ks, Oops(NotAnInteger))
    case Some(at) => (ExpireAt(ks, args[0], at, now), IntReply(if GetEntry(ks, args[0], now).Some? then 1 else 0))
  }

  function RunPersist(ks: KS, args: seq<bytes>, now: int): (KS, Reply)
    requires |args| >= 1
  {
    var e := GetEntry(ks, args[0], now);
    (Persist(ks, args[0], now), IntReply(if e.Some? && e.value.expireAt.Some? then 1 else 0))
  }

  function RunRename(ks: KS, args: seq<bytes>, now: int): (KS, Reply)
    requires |args| >= 2
  {
    (Rename(ks, args[0], args[1], now), if GetEntry(ks, args[0], now).Some? then Fine(OK) else Oops(NoSuchKey))
  }

  /** Fewer arguments than the command indexes: Python raises IndexError before anything is changed. */
  predicate EnoughArgs(kind: Kind, n: nat) {
    match kind
    case FlushDbKind => true
    case DelKind => true
    case SetKind => n >= 2
    case AppendKind => n >= 2
    case IncrByKind => n >= 2
    case PExpireAtKind => n >= 2
    case RenameKind => n >= 2
    case _ => n >= 1
  }

  function Execute(kind: Kind, args: seq<bytes>, ks: KS, now: int): (KS, Reply)
    requires IsData(kind)
  {
    if !EnoughArgs(kind, |args|) then (ks, Oops(OutOfRange))
    else
      match kind
      case GetKind => RunGet(ks, args, now)
      case SetKind => RunSet(ks, args, now)
      case AppendKind => RunAppend(ks, args, now)
      case IncrByKind => RunIncrBy(ks, args, now)
      case LPushKind => RunPush(ks, args, true, now)
      case RPushKind => RunPush(ks, args, false, now)
      case LPopKind => RunLPop(ks, args, now)
      case SAddKind => RunSAdd(ks, args, now)
      case SRemKind => RunSRem(ks, args, now)
      case HSetKind => RunHSet(ks, args, now)
      case HDelKind => RunHDel(ks, args, now)
      case ZAddKind => RunZAdd(ks, args, now)
      case ZRemKind => RunZRem(ks, args, now)
      case DelKind => RunDel(ks, args)
      case PExpireAtKind => RunPExpireAt(ks, args, now)
      case PersistKind => RunPersist(ks, args, now)
      case RenameKind => RunRename(ks, args, now)
      case FlushDbKind => (Flush(ks), Fine(OK))
  }

  // ---------------------------------------------------------------------------------------------
  // Without expiries, the clock does not matter, and only successful writes change anything
  // ---------------------------------------------------------------------------------------------

  predicate TtlFree(ks: KS) {
    forall k :: k in ks.entries ==> ks.entries[k].expireAt == None
  }

  /** A command that sets no expiry. */
  predicate SetsNoTtl(kind: Kind, args: seq<bytes>) {
    && kind != PExpireAtKind
    && (kind == SetKind && |args| >= 2 ==>
          match ParseSetOptions(args[2..], NO_OPTIONS)
          case Refused(_) => true
          case Chosen(o) => o.ex == None && o.px == None)
  }

  lemma TtlFreeSweep(ks: KS, key: bytes, now: int)
    requires TtlFree(ks)
    ensures Swept(ks, key, now) == ks && GetEntry(ks, key, now) == Stored(ks, key)
  {
  }

  // ---------------------------------------------------------------------------------------------
  // Every command's changes are seen in the versions
  // ---------------------------------------------------------------------------------------------

  lemma StepUpsert(ks: KS, key: bytes, initial: Data, t: DataType, now: int)
    requires TypeOf(initial) == t && Upsert(ks, key, initial, t, now).Some?
    ensures Step(ks, Upsert(ks, key, initial, t, now).value)
  {
    hide Step, Swept, Set;
    var ks1 := Swept(ks, key, now);
    StepSwept(ks, key, now);
    StepSet(ks1, key, Entry(initial, None));
    StepTrans(ks, ks1, Set(ks1, key, Entry(initial, None)));
    StepRefl(ks);
  }

  lemma StepShrunk(ks: KS, key: bytes, data: Data, empty: bool)
    requires key in ks.entries
    ensures Step(ks, Shrunk(ks, key, data, empty))
  {
    if empty {
      DroppedMembers(ks.order, key);
      if WellFormed(ks) {
        DroppedDistinct(ks.order, key);
      }
    } else {
      StepAltered(ks, key, ks.entries[key].(data := data));
    }
  }

  lemma StepStrings(kind: Kind, args: seq<bytes>, ks: KS, now: int)
    requires kind in {GetKind, SetKind, AppendKind, IncrByKind} && EnoughArgs(kind, |args|)
    ensures Step(ks, Execute(kind, args, ks, now).0)
  {
    hide Step, Swept, Set, Typed, GetEntry, ParseSetOptions, ParseInt, Decimal;
    var ks1 := Swept(ks, args[0], now);
    StepSwept(ks, args[0], now);
    StepRefl(ks);
    var ks2 := Execute(kind, args, ks, now).0;
    if ks2 != ks && ks2 != ks1 {
      var e :| ks2 == Set(ks1, args[0], e);
      StepSet(ks1, args[0], e);
      StepTrans(ks, ks1, ks2);
    }
  }

  lemma ShrunkFacts(ks: KS, key: bytes, data: Data, empty: bool)
    requires key in ks.entries
    ensures Step(ks, Shrunk(ks, key, data, empty))
    ensures TtlFree(ks) ==> TtlFree(Shrunk(ks, key, data, empty))
  {
    StepShrunk(ks, key, data, empty);
  }

  lemma SweepFacts(ks: KS, key: bytes, now: int)
    ensures Step(ks, ks) && Step(ks, Swept(ks, key, now))
    ensures TtlFree(ks) ==> Swept(ks, key, now) == ks && GetEntry(ks, key, now) == Stored(ks, key)
  {
    StepRefl(ks);
    StepSwept(ks, key, now);
  }

  lemma UpsertFacts(ks: KS, key: bytes, initial: Data, now: int, later: int, data: Data)
    requires Upsert(ks, key, initial, TypeOf(initial), now).Some?
    ensures Step(ks, Mutated(Upsert(ks, key, initial, TypeOf(initial), now).value, key, data))
    ensures TtlFree(ks) ==> TtlFree(Mutated(Upsert(ks, key, initial, TypeOf(initial), now).value, key, data))
  {
    hide Step, Altered, Upsert;
    var ks1 := Upsert(ks, key, initial, TypeOf(initial), now).value;
    StepUpsert(ks, key, initial, TypeOf(initial), now);
    StepAltered(ks1, key, ks1.entries[key].(data := data));
    StepTrans(ks, ks1, Mutated(ks1, key, data));
    if TtlFree(ks) {
      TtlFreeUpsert(ks, key, initial, TypeOf(initial), now, later);
      TtlFreeAltered(ks1, key, data);
    }
  }

  lemma TtlFreeAltered(ks: KS, key: bytes, data: Data)
    requires TtlFree(ks) && key in ks.entries
    ensures TtlFree(Mutated(ks, key, data))
  {
  }

  lemma TtlFreeUpsert(ks: KS, key: bytes, initial: Data, t: DataType, now: int, later: int)
    requires TtlFree(ks) && TypeOf(initial) == t
    ensures Upsert(ks, key, initial, t, now) == Upsert(ks, key, initial, t, later)
    ensures var up := Upsert(ks, key, initial, t, now); up.Some? ==> TtlFree(up.value)
  {
    TtlFreeSweep(ks, key, now);
    TtlFreeSweep(ks, key, later);
  }

  lemma PushFacts(args: seq<bytes>, left: bool, ks: KS, now: int, later: int)
    requires |args| >= 1
    ensures Step(ks, RunPush(ks, args, left, now).0)
    ensures TtlFree(ks) ==>
              RunPush(ks, args, left, now) == RunPush(ks, args, left, later) && TtlFree(RunPush(ks, args, left, now).0)
  {
    hide Step, Mutated, Upsert, TtlFree, Swept, Reverse;
    var key := args[0];
    SweepFacts(ks, key, now);
    SweepFacts(ks, key, later);
    if TtlFree(ks) {
      TtlFreeUpsert(ks, key, ListData([]), ListType, now, later);
    }
    var up := Upsert(ks, key, ListData([]), ListType, now);
    if up.Some? {
      var items := up.value.entries[key].data.items;
      UpsertFacts(ks, key, ListData([]), now, later,
                  ListData(if left then Reverse(args[1..]) + items else items + args[1..]));
    }
  }

  lemma SAddFacts(args: seq<bytes>, ks: KS, now: int, later: int)
    requires |args| >= 1
    ensures Step(ks, RunSAdd(ks, args, now).0)
    ensures TtlFree(ks) ==> RunSAdd(ks, args, now) == RunSAdd(ks, args, later) && TtlFree(RunSAdd(ks, args, now).0)
  {
    hide Step, Mutated, Upsert, TtlFree, Swept;
    var key := args[0];
    SweepFacts(ks, key, now);
    SweepFacts(ks, key, later);
    if TtlFree(ks) {
      TtlFreeUpsert(ks, key, SetData({}), SetType, now, later);
    }
    var up := Upsert(ks, key, SetData({}), SetType, now);
    if up.Some? {
      var members := up.value.entries[key].data.members + set m | m in args[1..];
      UpsertFacts(ks, key, SetData({}), now, later, SetData(members));
    }
  }

  lemma HSetFacts(args: seq<bytes>, ks: KS, now: int, later: int)
    requires |args| >= 1
    ensures Step(ks, RunHSet(ks, args, now).0)
    ensures TtlFree(ks) ==> RunHSet(ks, args, now) == RunHSet(ks, args, later) && TtlFree(RunHSet(ks, args, now).0)
  {
    hide Step, Mutated, Upsert, TtlFree, Swept, WithFields;
    var key := args[0];
    SweepFacts(ks, key, now);
    SweepFacts(ks, key, later);
    if TtlFree(ks) {
      TtlFreeUpsert(ks, key, HashData(map[]), HashType, now, later);
    }
    var up := Upsert(ks, key, HashData(map[]), HashType, now);
    if up.Some? {
      var fields := WithFields(up.value.entries[key].data.fields, args[1..]);
      UpsertFacts(ks, key, HashData(map[]), now, later, HashData(fields));
    }
  }

  lemma ZAddFacts(args: seq<bytes>, ks: KS, now: int, later: int)
    requires |args| >= 1
    ensures Step(ks, RunZAdd(ks, args, now).0)
    ensures TtlFree(ks) ==> RunZAdd(ks, args, now) == RunZAdd(ks, args, later) && TtlFree(RunZAdd(ks, args, now).0)
  {
    hide Step, Mutated, Upsert, TtlFree, Swept, ParseZFlags, ParsePairs;
    var key := args[0];
    SweepFacts(ks, key, now);
    SweepFacts(ks, key, later);
    if TtlFree(ks) {
      TtlFreeUpsert(ks, key, ZSetData(map[]), ZSetType, now, later);
    }
    var up := Upsert(ks, key, ZSetData(map[]), ZSetType, now);
    if up.Some? {
      var f := ParseZFlags(args[1..], false, false, false);
      if |f.rest| % 2 == 0 && ParsePairs(f.rest).Some? {
        var scores := SortedSetStores.AddedAll(up.value.entries[key].data.scores, ParsePairs(f.rest).value, f.nx, f.xx);
        UpsertFacts(ks, key, ZSetData(map[]), now, later, ZSetData(scores));
      }
    }
  }

  lemma LPopFacts(args: seq<bytes>, ks: KS, now: int, later: int)
    requires |args| >= 1
    ensures Step(ks, RunLPop(ks, args, now).0)
    ensures TtlFree(ks) ==> RunLPop(ks, args, now) == RunLPop(ks, args, later) && TtlFree(RunLPop(ks, args, now).0)
  {
    hide Step, Shrunk, TtlFree, ParseInt, Swept, GetEntry;
    var key := args[0];
    SweepFacts(ks, key, now);
    SweepFacts(ks, key, later);
    var n := if |args| > 1 then ParseInt(args[1]) else Some(1);
    if Typed(ks, key, ListType, now).Found? && n.Some? && n.value >= 0 {
      var items := ks.entries[key].data.items;
      var k := if n.value < |items| then n.value else |items|;
      ShrunkFacts(ks, key, ListData(items[k..]), |items[k..]| == 0);
    }
  }

  lemma SRemFacts(args: seq<bytes>, ks: KS, now: int, later: int)
    requires |args| >= 1
    ensures Step(ks, RunSRem(ks, args, now).0)
    ensures TtlFree(ks) ==> RunSRem(ks, args, now) == RunSRem(ks, args, later) && TtlFree(RunSRem(ks, args, now).0)
  {
    hide Step, Shrunk, TtlFree, Swept, GetEntry;
    var key := args[0];
    SweepFacts(ks, key, now);
    SweepFacts(ks, key, later);
    if Typed(ks, key, SetType, now).Found? {
      var members := ks.entries[key].data.members - set m | m in args[1..];
      ShrunkFacts(ks, key, SetData(members), members == {});
    }
  }

  lemma HDelFacts(args: seq<bytes>, ks: KS, now: int, later: int)
    requires |args| >= 1
    ensures Step(ks, RunHDel(ks, args, now).0)
    ensures TtlFree(ks) ==> RunHDel(ks, args, now) == RunHDel(ks, args, later) && TtlFree(RunHDel(ks, args, now).0)
  {
    hide Step, Shrunk, TtlFree, Swept, GetEntry;
    var key := args[0];
    SweepFacts(ks, key, now);
    SweepFacts(ks, key, later);
    if Typed(ks, key, HashType, now).Found? {
      var fields := ks.entries[key].data.fields - set m | m in args[1..];
      ShrunkFacts(ks, key, HashData(fields), fields == map[]);
    }
  }

  lemma ZRemFacts(args: seq<bytes>, ks: KS, now: int, later: int)
    requires |args| >= 1
    ensures Step(ks, RunZRem(ks, args, now).0)
    ensures TtlFree(ks) ==> RunZRem(ks, args, now) == RunZRem(ks, args, later) && TtlFree(RunZRem(ks, args, now).0)
  {
    hide Step, Shrunk, TtlFree, Swept, GetEntry, SortedSetStores.RemovedAll;
    var key := args[0];
    SweepFacts(ks, key, now);
    SweepFacts(ks, key, later);
    if Typed(ks, key, ZSetType, now).Found? {
      var scores := SortedSetStores.RemovedAll(ks.entries[key].data.scores, args[1..]);
      ShrunkFacts(ks, key, ZSetData(scores), scores == map[]);
    }
  }

  lemma StepKeys(kind: Kind, args: seq<bytes>, ks: KS, now: int)
    requires kind in {DelKind, PExpireAtKind, PersistKind, RenameKind, FlushDbKind} && EnoughArgs(kind, |args|)
    ensures Step(ks, Execute(kind, args, ks, now).0)
  {
    hide Step, ExpireAt, Persist, Rename, DeleteAll, Flush, ParseInt;
    StepRefl(ks);
    match kind
    case DelKind => StepDeleteAll(ks, args);
    case PExpireAtKind =>
      if ParseInt(args[1]).Some? {
        StepExpireAt(ks, args[0], ParseInt(args[1]).value, now);
      }
    case PersistKind => StepPersist(ks, args[0], now);
    case RenameKind => StepRename(ks, args[0], args[1], now);
    case FlushDbKind => StepFlush(ks);
  }

  lemma ContainerFacts(kind: Kind, args: seq<bytes>, ks: KS, now: int, later: int)
    requires kind in {LPushKind, RPushKind, SAddKind, HSetKind, ZAddKind, LPopKind, SRemKind, HDelKind, ZRemKind}
    requires EnoughArgs(kind, |args|)
    ensures Step(ks, Execute(kind, args, ks, now).0)
    ensures TtlFree(ks) ==>
              Execute(kind, args, ks, now) == Execute(kind, args, ks, later) && TtlFree(Execute(kind, args, ks, now).0)
  {
    hide Step, TtlFree, RunPush, RunSAdd, RunHSet, RunZAdd, RunLPop, RunSRem, RunHDel, RunZRem;
    match kind
    case LPushKind => PushFacts(args, true, ks, now, later);
    case RPushKind => PushFacts(args, false, ks, now, later);
    case SAddKind => SAddFacts(args, ks, now, later);
    case HSetKind => HSetFacts(args, ks, now, later);
    case ZAddKind => ZAddFacts(args, ks, now, later);
    case LPopKind => LPopFacts(args, ks, now, later);
    case SRemKind => SRemFacts(args, ks, now, later);
    case HDelKind => HDelFacts(args, ks, now, later);
    case ZRemKind => ZRemFacts(args, ks, now, later);
  }

  /** Whatever a data command does, every entry it changes gets a new version. */
  lemma StepExecute(kind: Kind, args: seq<bytes>, ks: KS, now: int)
    requires IsData(kind)
    ensures Step(ks, Execute(kind, args, ks, now).0)
  {
    hide Step;
    StepRefl(ks);
    if EnoughArgs(kind, |args|) {
      if kind in {GetKind, SetKind, AppendKind, IncrByKind} {
        StepStrings(kind, args, ks, now);
      } else if kind in {LPushKind, RPushKind, SAddKind, HSetKind, ZAddKind, LPopKind, SRemKind, HDelKind, ZRemKind} {
        ContainerFacts(kind, args, ks, now, now);
      } else {
        StepKeys(kind, args, ks, now);
      }
    }
  }

  /** With no expiry anywhere, a command that reads or fails leaves the keyspace exactly as it was. */
  lemma OnlyWritesChange(kind: Kind, args: seq<bytes>, ks: KS, now: int)
    requires IsData(kind) && TtlFree(ks)
    requires !IsWrite(kind) || Execute(kind, args, ks, now).1.Oops?
    ensures Execute(kind, args, ks, now).0 == ks
  {
    hide Swept, GetEntry, ParseSetOptions, ParseInt, Decimal, ParseZFlags, ParsePairs, Set, Mutated, Shrunk, ExpireAt,
      Persist, DeleteAll, Flush;
    if EnoughArgs(kind, |args|) && |args| > 0 {
      TtlFreeSweep(ks, args[0], now);
    }
  }

  lemma {:induction false} TtlFreeDeleteAll(ks: KS, keys: seq<bytes>)
    requires TtlFree(ks)
    ensures TtlFree(DeleteAll(ks, keys))
    decreases |keys|
  {
    if keys != [] {
      TtlFreeDeleteAll(Delete(ks, keys[0]), keys[1..]);
    }
  }

  lemma ClockStrings(kind: Kind, args: seq<bytes>, ks: KS, now: int, later: int)
    requires kind in {GetKind, SetKind, AppendKind, IncrByKind} && EnoughArgs(kind, |args|)
    requires TtlFree(ks) && SetsNoTtl(kind, args)
    ensures Execute(kind, args, ks, now) == Execute(kind, args, ks, later)
    ensures TtlFree(Execute(kind, args, ks, now).0)
  {
    hide ParseSetOptions, ParseInt, Decimal, Swept, GetEntry;
    TtlFreeSweep(ks, args[0], now);
    TtlFreeSweep(ks, args[0], later);
  }

  lemma ClockKeys(kind: Kind, args: seq<bytes>, ks: KS, now: int, later: int)
    requires kind in {DelKind, PersistKind, RenameKind, FlushDbKind} && EnoughArgs(kind, |args|)
    requires TtlFree(ks)
    ensures Execute(kind, args, ks, now) == Execute(kind, args, ks, later)
    ensures TtlFree(Execute(kind, args, ks, now).0)
  {
    hide Swept, GetEntry, Dropped, DeleteAll;
    TtlFreeDeleteAll(ks, args);
    if |args| > 0 {
      TtlFreeSweep(ks, args[0], now);
      TtlFreeSweep(ks, args[0], later);
    }
  }

  /** With no expiry anywhere, a command that sets none does the same at any time. */
  lemma ClockDoesNotMatter(kind: Kind, args: seq<bytes>, ks: KS, now: int, later: int)
    requires IsData(kind) && TtlFree(ks) && SetsNoTtl(kind, args)
    ensures Execute(kind, args, ks, now) == Execute(kind, args, ks, later)
    ensures TtlFree(Execute(kind, args, ks, now).0)
  {
    if EnoughArgs(kind, |args|) {
      if kind in {GetKind, SetKind, AppendKind, IncrByKind} {
        ClockStrings(kind, args, ks, now, later);
      } else if kind in {LPushKind, RPushKind, SAddKind, HSetKind, ZAddKind, LPopKind, SRemKind, HDelKind, ZRemKind} {
        ContainerFacts(kind, args, ks, now, later);
      } else {
        ClockKeys(kind, args, ks, now, later);
      }
    }
  }
}
