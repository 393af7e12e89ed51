// The snapshot file of persistence/snapshot.py: values, records, framing, and what loading a file means.

module SnapshotFormat {
  import opened Basics
  import opened Bytes
  import opened Resp
  import opened Keyspaces
  import opened Commands
  import Json

  // ---------------------------------------------------------------------------------------------
  // Numbers, high byte first
  // ---------------------------------------------------------------------------------------------

  const TWO_BYTES: int := 0x1_0000
  const FOUR_BYTES: int := 0x1_0000_0000
  const EIGHT_BYTES: int := 0x1_0000_0000_0000_0000

  function Power256(w: nat): nat {
    if w == 0 then 1 else 256 * Power256(w - 1)
  }

  function BigEndian(n: nat, w: nat): (s: bytes)
    ensures |s| == w
    decreases w
  {
    if w == 0 then [] else BigEndian(n / 256, w - 1) + [(n % 256) as byte]
  }

  function FromBigEndian(s: bytes): nat {
    if s == [] then 0 else 256 * FromBigEndian(s[..|s| - 1]) + s[|s| - 1] as int
  }

  lemma {:induction false} FromBigEndianInverts(n: nat, w: nat)
    requires n < Power256(w)
    ensures FromBigEndian(BigEndian(n, w)) == n
    decreases w
  {
    if w > 0 {
      var s := BigEndian(n, w);
      assert s[..|s| - 1] == BigEndian(n / 256, w - 1);
      FromBigEndianInverts(n / 256, w - 1);
    }
  }

  lemma Widths()
    ensures Power256(2) == TWO_BYTES && Power256(4) == FOUR_BYTES && Power256(8) == EIGHT_BYTES
  {
    assert Power256(8) == 256 * 256 * 256 * 256 * Power256(4);
  }

  /** The high byte stands first: the i-th byte from the end counts multiples of the i-th power of 256. */
  lemma {:induction false} BigEndianAt(n: nat, w: nat, i: nat)
    requires i < w
    ensures Power256(i) > 0 && BigEndian(n, w)[w - 1 - i] as int == n / Power256(i) % 256
    decreases w
  {
    PowersArePositive(i);
    if i > 0 {
      BigEndianAt(n / 256, w - 1, i - 1);
      DividedTwice(n, Power256(i - 1));
    }
  }

  lemma {:induction false} PowersArePositive(w: nat)
    ensures Power256(w) > 0
  {
    if w > 0 {
      PowersArePositive(w - 1);
    }
  }

  lemma DividedTwice(n: nat, m: nat)
    requires m > 0
    ensures n / 256 / m == n / (256 * m)
  {
    var q, r := n / 256, n % 256;
    var a, b := q / m, q % m;
    assert n == 256 * (m * a + b) + r;
    assert 256 * (m * a + b) == 256 * m * a + 256 * b by {
      assert 256 * (m * a) == 256 * m * a;
    }
    QuotientIs(n, 256 * m, a, 256 * b + r);
  }

  lemma QuotientIs(n: nat, m: nat, a: nat, s: nat)
    requires s < m && n == m * a + s
    ensures n / m == a
  {
    var p, i := n / m, n % m;
    assert n == m * p + i;
    if a > p {
      AtLeastOne(a, p, m);
    } else if p > a {
      AtLeastOne(p, a, m);
    }
  }

  // ---------------------------------------------------------------------------------------------
  // Values
  // ---------------------------------------------------------------------------------------------

  function TypeByte(d: Data): byte {
    match d
    case StringData(_) => 0
    case HashData(_) => 1
    case ListData(_) => 2
    case SetData(_) => 3
    case ZSetData(_) => 4
  }

  predicate AllStrings(items: seq<Json.Value>) {
    forall i :: 0 <= i < |items| ==> items[i].Str?
  }

  function Texts(items: seq<Json.Value>): (r: seq<bytes>)
    requires AllStrings(items)
    ensures |r| == |items| && forall i :: 0 <= i < |items| ==> r[i] == items[i].text
  {
    seq(|items|, i requires 0 <= i < |items| => items[i].text)
  }

  function Strings(texts: seq<bytes>): (r: seq<Json.Value>)
    ensures |r| == |texts| && AllStrings(r) && Texts(r) == texts
  {
    seq(|texts|, i requires 0 <= i < |texts| => Json.Str(texts[i]))
  }

  predicate IsField(v: Json.Value) { v.Arr? && |v.items| == 2 && v.items[0].Str? && v.items[1].Str? }

  predicate IsScore(v: Json.Value) { v.Arr? && |v.items| == 2 && v.items[0].Str? && v.items[1].Num? }

  /** A dictionary of the pairs, the last one of a field winning. */
  function Fields(items: seq<Json.Value>): map<bytes, bytes>
    requires forall i :: 0 <= i < |items| ==> IsField(items[i])
  {
    if items == [] then map[]
    else
      var last := items[|items| - 1];
      assert IsField(items[|items| - 1]);
      Fields(items[..|items| - 1])[last.items[0].text := last.items[1].text]
  }

  /** A new sorted set to which the pairs were added, one after the other. */
  function Scores(items: seq<Json.Value>): map<bytes, int>
    requires forall i :: 0 <= i < |items| ==> IsScore(items[i])
  {
    if items == [] then map[]
    else
      var last := items[|items| - 1];
      assert IsScore(items[|items| - 1]);
      Scores(items[..|items| - 1])[last.items[0].text := last.items[1].n]
  }

  function FromJson(typeByte: int, v: Json.Value): Option<Data> {
    if !v.Arr? then None
    else if typeByte == 1 then
      if forall i :: 0 <= i < |v.items| ==> IsField(v.items[i]) then Some(HashData(Fields(v.items))) else None
    else if typeByte == 2 then
      if AllStrings(v.items) then Some(ListData(Texts(v.items))) else None
    else if typeByte == 3 then
      if AllStrings(v.items) then Some(SetData(set x | x in Texts(v.items))) else None
    else if typeByte == 4 then
      if forall i :: 0 <= i < |v.items| ==> IsScore(v.items[i]) then Some(ZSetData(Scores(v.items))) else None
    else None
  }

  /** None is the source's exception: an unknown type byte, or a value that is not of the type's form. */
  function Deserialize(typeByte: int, val: bytes): Option<Data> {
    if typeByte == 0 then Some(StringData(val))
    else if !(1 <= typeByte <= 4) then None
    else match Json.Loads(val) case None => None case Some(v) => FromJson(typeByte, v)
  }

  function Count(d: Data): nat {
    match d
    case StringData(text) => |text|
    case HashData(fields) => |fields|
    case ListData(items) => |items|
    case SetData(members) => |members|
    case ZSetData(scores) => |scores|
  }

  function FieldItem(f: bytes, v: bytes): Json.Value { Json.Arr([Json.Str(f), Json.Str(v)]) }

  function ScoreItem(m: bytes, score: int): Json.Value { Json.Arr([Json.Str(m), Json.Num(score)]) }

  /** One item for each element, in any order where the value has none. */
  ghost predicate Lists(d: Data, items: seq<Json.Value>) {
    && |items| == Count(d)
    && match d
       case StringData(_) => false
       case HashData(fields) =>
         && (forall i :: 0 <= i < |items| ==> IsField(items[i]) && StandsIn(items[i], fields))
         && (forall f :: f in fields ==> FieldItem(f, fields[f]) in items)
       case ListData(texts) => items == Strings(texts)
       case SetData(members) =>
         AllStrings(items) && forall x :: x in members <==> Json.Str(x) in items
       case ZSetData(scores) =>
         && (forall i :: 0 <= i < |items| ==> IsScore(items[i]) && StandsAt(items[i], scores))
         && (forall m :: m in scores ==> ScoreItem(m, scores[m]) in items)
  }

  predicate StandsIn(item: Json.Value, fields: map<bytes, bytes>)
    requires IsField(item)
  {
    item.items[0].text in fields && item.items[1].text == fields[item.items[0].text]
  }

  predicate StandsAt(item: Json.Value, scores: map<bytes, int>)
    requires IsScore(item)
  {
    item.items[0].text in scores && item.items[1].n == scores[item.items[0].text]
  }

  /** The texts that serialize a value. */
  ghost predicate Serialized(d: Data, val: bytes) {
    if d.StringData? then val == d.text
    else exists items: seq<Json.Value> :: Lists(d, items) && val == Json.Dumps(Json.Arr(items))
  }

  lemma {:induction false} FieldsRead(items: seq<Json.Value>, fields: map<bytes, bytes>)
    requires forall i :: 0 <= i < |items| ==> IsField(items[i]) && StandsIn(items[i], fields)
    ensures forall f :: f in Fields(items) ==> f in fields && Fields(items)[f] == fields[f]
    ensures forall f :: f in fields && FieldItem(f, fields[f]) in items ==> f in Fields(items)
  {
    if items != [] {
      var n := |items| - 1;
      FieldsRead(items[..n], fields);
      assert IsField(items[n]) && StandsIn(items[n], fields);
      assert items == items[..n] + [items[n]];
    }
  }

  lemma {:induction false} ScoresRead(items: seq<Json.Value>, scores: map<bytes, int>)
    requires forall i :: 0 <= i < |items| ==> IsScore(items[i]) && StandsAt(items[i], scores)
    ensures forall m :: m in Scores(items) ==> m in scores && Scores(items)[m] == scores[m]
    ensures forall m :: m in scores && ScoreItem(m, scores[m]) in items ==> m in Scores(items)
  {
    if items != [] {
      var n := |items| - 1;
      ScoresRead(items[..n], scores);
      assert IsScore(items[n]) && StandsAt(items[n], scores);
      assert items == items[..n] + [items[n]];
    }
  }

  lemma MembersRead(items: seq<Json.Value>, members: set<bytes>)
    requires AllStrings(items) && forall x :: x in members <==> Json.Str(x) in items
    ensures (set x | x in Texts(items)) == members
  {
    forall x
      ensures x in Texts(items) <==> x in members
    {
      if x in Texts(items) {
        var i :| 0 <= i < |items| && Texts(items)[i] == x;
        assert items[i] == Json.Str(x);
      }
      if x in members {
        var i :| 0 <= i < |items| && items[i] == Json.Str(x);
        assert Texts(items)[i] == x;
      }
    }
  }

  /** The items of a value, whatever their order, read back as the value. */
  lemma ListedIsRead(d: Data, items: seq<Json.Value>)
    requires Lists(d, items)
    ensures FromJson(TypeByte(d) as int, Json.Arr(items)) == Some(d)
  {
    match d
    case HashData(fields) =>
      FieldsRead(items, fields);
      assert Fields(items) == fields;
    case ListData(_) =>
    case SetData(members) => MembersRead(items, members);
    case ZSetData(scores) =>
      ScoresRead(items, scores);
      assert Scores(items) == scores;
  }

  lemma DeserializeInverts(d: Data, val: bytes)
    requires Serialized(d, val)
    ensures Deserialize(TypeByte(d) as int, val) == Some(d)
  {
    hide FromJson, Lists, Json.Loads, Json.Dumps;
    if !d.StringData? {
      var items: seq<Json.Value> :| Lists(d, items) && val == Json.Dumps(Json.Arr(items));
      ListedIsRead(d, items);
      Json.LoadsInvertsDumps(Json.Arr(items));
    }
  }

  // ---------------------------------------------------------------------------------------------
  // Records
  // ---------------------------------------------------------------------------------------------

  const OP_EXPIRETIME_MS: byte := 253
  const OP_SELECTDB: byte := 254
  const OP_EOF: byte := 255

  datatype Rec = SelectDb(db: nat) | Put(key: bytes, e: Entry, val: bytes)

  predicate ExpiryFits(e: Entry) {
    e.expireAt.Some? ==> 0 <= e.expireAt.value < EIGHT_BYTES
  }

  /** What struct.pack accepts, with a value that reads back. */
  predicate RecOk(r: Rec) {
    match r
    case SelectDb(db) => db < TWO_BYTES
    case Put(key, e, val) =>
      && ExpiryFits(e) && |key| < FOUR_BYTES && |val| < FOUR_BYTES
      && Deserialize(TypeByte(e.data) as int, val) == Some(e.data)
  }

  function ExpiryBytes(e: Entry): bytes
    requires ExpiryFits(e)
  {
    if e.expireAt.Some? then [OP_EXPIRETIME_MS] + BigEndian(e.expireAt.value, 8) else []
  }

  function Sized(s: bytes): bytes {
    BigEndian(|s|, 4) + s
  }

  function RecBytes(r: Rec): bytes
    requires RecOk(r)
  {
    match r
    case SelectDb(db) => [OP_SELECTDB] + BigEndian(db, 2)
    case Put(key, e, val) => ExpiryBytes(e) + [TypeByte(e.data)] + (Sized(key) + Sized(val))
  }

  predicate AllOk(recs: seq<Rec>) {
    forall i :: 0 <= i < |recs| ==> RecOk(recs[i])
  }

  function RecsBytes(recs: seq<Rec>): bytes
    requires AllOk(recs)
  {
    if recs == [] then [] else RecsBytes(recs[..|recs| - 1]) + RecBytes(recs[|recs| - 1])
  }

  // ---------------------------------------------------------------------------------------------
  // Loading
  // ---------------------------------------------------------------------------------------------

  datatype LoadError = TooSmall | ChecksumMismatch | BadMagic | BadVersion | BadRecord

  /** The databases while a file is loaded, the selected number, and what went wrong, if anything did. */
  datatype Store = Store(dbs: map<int, KS>, current: int, error: Option<LoadError>)

  function Failed(s: Store, error: LoadError): Store {
    s.(error := Some(error))
  }

  /** keyspace.set in the selected database, which is opened if its number is below the bound and it is new. */
  function PutEntry(s: Store, key: bytes, e: Entry, bound: nat): Store {
    if !(0 <= s.current < bound) then Failed(s, BadRecord)
    else
      var ks := if s.current in s.dbs then s.dbs[s.current] else EMPTY;
      s.(dbs := s.dbs[s.current := Set(ks, key, e)])
  }

  function Take(s: bytes, n: nat): bytes {
    if n < |s| then s[..n] else s
  }

  function Drop(s: bytes, n: nat): bytes {
    if n < |s| then s[n..] else []
  }

  /** The rest of a record after its type byte; a key or a value cut short by the end of the data is taken as it is. */
  function LoadBody(s: Store, expireAt: Option<int>, typeByte: byte, rest: bytes, bound: nat,
                    now: int): (r: (Store, bytes))
    ensures |r.1| <= |rest|
  {
    if |rest| < 4 then (Failed(s, BadRecord), [])
    else
      var keyLen, rest1 := FromBigEndian(rest[..4]), rest[4..];
      var key, rest2 := Take(rest1, keyLen), Drop(rest1, keyLen);
      if |rest2| < 4 then (Failed(s, BadRecord), [])
      else
        var valLen, rest3 := FromBigEndian(rest2[..4]), rest2[4..];
        var val, rest4 := Take(rest3, valLen), Drop(rest3, valLen);
        (StoreRecord(s, key, expireAt, typeByte, val, bound, now), rest4)
  }

  /** What becomes of one record. */
  function StoreRecord(s: Store, key: bytes, expireAt: Option<int>, typeByte: byte, val: bytes, bound: nat,
                       now: int): Store {
    if expireAt.Some? && expireAt.value <= now then s
    else
      match Deserialize(typeByte as int, val)
      case None => Failed(s, BadRecord)
      case Some(d) => PutEntry(s, key, Entry(d, expireAt), bound)
  }

  function LoadEntry(s: Store, opcode: byte, rest: bytes, bound: nat, now: int): (r: (Store, bytes))
    ensures |r.1| <= |rest|
  {
    if opcode == OP_EXPIRETIME_MS then
      if |rest| < 9 then (Failed(s, BadRecord), [])
      else LoadBody(s, Some(FromBigEndian(rest[..8])), rest[8], rest[9..], bound, now)
    else LoadBody(s, None, opcode, rest, bound, now)
  }

  function LoadRecords(s: Store, rest: bytes, bound: nat, now: int): Store
    decreases |rest|
  {
    if s.error.Some? || rest == [] || rest[0] == OP_EOF then s
    else if rest[0] == OP_SELECTDB then
      if |rest| < 3 then Failed(s, BadRecord)
      else LoadRecords(s.(current := FromBigEndian(rest[1..3])), rest[3..], bound, now)
    else
      var (s', rest') := LoadEntry(s, rest[0], rest[1..], bound, now);
      LoadRecords(s', rest', bound, now)
  }

  const VERSION: int := 1
  const MAGIC: bytes := Ascii("NOMDB")
  const CHECKSUM_SIZE: int := 32

  /** The whole of load, for an arbitrary checksum function. */
  function LoadFile(dbs: map<int, KS>, content: bytes, sha: bytes -> bytes, bound: nat, now: int): Store {
    var s := Store(dbs, 0, None);
    if |content| < |MAGIC| + 2 + CHECKSUM_SIZE then Failed(s, TooSmall)
    else
      var data, checksum := content[..|content| - CHECKSUM_SIZE], content[|content| - CHECKSUM_SIZE..];
      if checksum != sha(data) then Failed(s, ChecksumMismatch)
      else if data[..|MAGIC|] != MAGIC then Failed(s, BadMagic)
      else if FromBigEndian(data[|MAGIC|..|MAGIC| + 2]) > VERSION then Failed(s, BadVersion)
      else LoadRecords(s, data[|MAGIC| + 2..], bound, now)
  }

  function Framed(recs: seq<Rec>, sha: bytes -> bytes): bytes
    requires AllOk(recs)
  {
    var data := MAGIC + BigEndian(VERSION, 2) + RecsBytes(recs) + [OP_EOF];
    data + sha(data)
  }

  /** The file, byte by byte: magic and version, the records, the end mark, the checksum of all that. */
  lemma FileReads(recs: seq<Rec>, sha: bytes -> bytes)
    requires AllOk(recs)
    ensures var data := [78, 79, 77, 68, 66, 0, 1] + RecsBytes(recs) + [255]; Framed(recs, sha) == data + sha(data)
  {
    hide RecsBytes, AllOk;
    HeaderReads();
  }

  lemma HeaderReads()
    ensures MAGIC + BigEndian(VERSION, 2) == [78, 79, 77, 68, 66, 0, 1]
  {
    assert BigEndian(0, 1) == [0];
    assert BigEndian(1, 2) == [0, 1];
    assert MAGIC == [78, 79, 77, 68, 66];
  }

  /** A record: the number of the database, or the expiry if there is one, type, key and value, with their lengths. */
  lemma RecordReads(db: nat, key: bytes, e: Entry, val: bytes)
    requires db < TWO_BYTES && RecOk(Put(key, e, val))
    ensures RecBytes(SelectDb(db)) == [254] + BigEndian(db, 2)
    ensures var body := BigEndian(|key|, 4) + key + (BigEndian(|val|, 4) + val);
            RecBytes(Put(key, e, val)) ==
            (if e.expireAt.Some? then [253] + BigEndian(e.expireAt.value, 8) else []) + [TypeByte(e.data)] + body
    ensures TypeByte(e.data) ==
            if e.data.StringData? then 0
            else if e.data.HashData? then 1
            else if e.data.ListData? then 2
            else if e.data.SetData? then 3
            else 4
  {
    hide BigEndian;
  }

  /** What is no snapshot is refused before anything is stored: by size, checksum, magic and version, in this order. */
  lemma FileRefused(dbs: map<int, KS>, content: bytes, sha: bytes -> bytes, bound: nat, now: int)
    ensures var s, n := LoadFile(dbs, content, sha, bound, now), |content|;
            if n < 39 then s == Store(dbs, 0, Some(TooSmall))
            else if sha(content[..n - 32]) != content[n - 32..] then s == Store(dbs, 0, Some(ChecksumMismatch))
            else if content[..5] != [78, 79, 77, 68, 66] then s == Store(dbs, 0, Some(BadMagic))
            else if content[5] != 0 || content[6] > 1 then s == Store(dbs, 0, Some(BadVersion))
            else s == LoadRecords(Store(dbs, 0, None), content[7..n - 32], bound, now)
  {
    hide LoadRecords;
    assert Ascii("NOMDB") == [78, 79, 77, 68, 66];
    if |content| >= 39 {
      var data := content[..|content| - 32];
      assert data[..5] == content[..5] && data[5..7] == content[5..7] && data[7..] == content[7..|content| - 32];
      assert FromBigEndian(content[5..7]) == 256 * content[5] as int + content[6] as int by {
        assert content[5..7][..1] == [content[5]];
        assert FromBigEndian([content[5]]) == 256 * FromBigEndian([]) + content[5] as int;
      }
    }
  }

  // ---------------------------------------------------------------------------------------------
  // Reading back what was written
  // ---------------------------------------------------------------------------------------------

  function ApplyRecord(s: Store, r: Rec, bound: nat, now: int): Store {
    if s.error.Some? then s
    else
      match r
      case SelectDb(db) => s.(current := db)
      case Put(key, e, _) => if Expired(e, now) then s else PutEntry(s, key, e, bound)
  }

  /** The records carried out in order. */
  function Applied(s: Store, recs: seq<Rec>, bound: nat, now: int): Store {
    if recs == [] then s else ApplyRecord(Applied(s, recs[..|recs| - 1], bound, now), recs[|recs| - 1], bound, now)
  }

  lemma SizedReads(s: bytes, more: bytes)
    requires |s| < FOUR_BYTES
    ensures var all := Sized(s) + more;
            |all| >= 4 && FromBigEndian(all[..4]) == |s| && Take(all[4..], |s|) == s && Drop(all[4..], |s|) == more
  {
    hide BigEndian, FromBigEndian, Power256;
    Widths();
    FromBigEndianInverts(|s|, 4);
    var all := Sized(s) + more;
    assert all[..4] == BigEndian(|s|, 4) && all[4..] == s + more;
  }

  lemma BodyReads(s: Store, expireAt: Option<int>, typeByte: byte, key: bytes, val: bytes, more: bytes, bound: nat,
                  now: int)
    requires |key| < FOUR_BYTES && |val| < FOUR_BYTES
    ensures LoadBody(s, expireAt, typeByte, Sized(key) + Sized(val) + more, bound, now) ==
            (StoreRecord(s, key, expireAt, typeByte, val, bound, now), more)
  {
    hide Take, Drop, FromBigEndian, Sized, StoreRecord;
    SizedReads(key, Sized(val) + more);
    SizedReads(val, more);
    assert Sized(key) + Sized(val) + more == Sized(key) + (Sized(val) + more);
  }

  lemma ReadsSelect(s: Store, db: nat, more: bytes, bound: nat, now: int)
    requires db < TWO_BYTES && s.error.None?
    ensures LoadRecords(s, [OP_SELECTDB] + BigEndian(db, 2) + more, bound, now) ==
              LoadRecords(s.(current := db), more, bound, now)
  {
    hide BigEndian, FromBigEndian;
    Widths();
    FromBigEndianInverts(db, 2);
    var all := [OP_SELECTDB] + BigEndian(db, 2) + more;
    assert all[1..3] == BigEndian(db, 2) && all[3..] == more;
  }

  lemma ReadsPut(s: Store, key: bytes, e: Entry, val: bytes, more: bytes, bound: nat, now: int)
    requires RecOk(Put(key, e, val)) && s.error.None?
    ensures LoadRecords(s, RecBytes(Put(key, e, val)) + more, bound, now) ==
              LoadRecords(ApplyRecord(s, Put(key, e, val), bound, now), more, bound, now)
  {
    hide BigEndian, FromBigEndian, Deserialize, Sized, LoadBody, PutEntry;
    var all := RecBytes(Put(key, e, val)) + more;
    var body := Sized(key) + Sized(val) + more;
    BodyReads(s, e.expireAt, TypeByte(e.data), key, val, more, bound, now);
    if e.expireAt.Some? {
      Widths();
      FromBigEndianInverts(e.expireAt.value, 8);
      assert all[1..] == BigEndian(e.expireAt.value, 8) + [TypeByte(e.data)] + body;
      assert all[1..][..8] == BigEndian(e.expireAt.value, 8) && all[1..][9..] == body;
    } else {
      assert all == [TypeByte(e.data)] + body;
      assert all[1..] == body;
    }
  }

  lemma ReadsOne(s: Store, r: Rec, more: bytes, bound: nat, now: int)
    requires RecOk(r)
    ensures LoadRecords(s, RecBytes(r) + more, bound, now) ==
              LoadRecords(ApplyRecord(s, r, bound, now), more, bound, now)
  {
    hide RecOk, ApplyRecord, RecBytes;
    if s.error.Some? {
      assert ApplyRecord(s, r, bound, now) == s by {
        FailedStays(s, r, bound, now);
      }
    } else if r.Put? {
      ReadsPut(s, r.key, r.e, r.val, more, bound, now);
    } else {
      SelectBytes(s, r.db, bound, now);
      ReadsSelect(s, r.db, more, bound, now);
    }
  }

  lemma FailedStays(s: Store, r: Rec, bound: nat, now: int)
    requires s.error.Some?
    ensures ApplyRecord(s, r, bound, now) == s
  {
  }

  lemma SelectBytes(s: Store, db: nat, bound: nat, now: int)
    requires s.error.None?
    ensures RecOk(SelectDb(db)) ==> db < TWO_BYTES && RecBytes(SelectDb(db)) == [OP_SELECTDB] + BigEndian(db, 2)
    ensures ApplyRecord(s, SelectDb(db), bound, now) == s.(current := db)
  {
  }

  /** The framing is unambiguous: the records come back one by one, and the end marker ends them. */
  lemma {:induction false} ReadsAll(s: Store, recs: seq<Rec>, more: bytes, bound: nat, now: int)
    requires AllOk(recs)
    ensures LoadRecords(s, RecsBytes(recs) + more, bound, now) ==
              LoadRecords(Applied(s, recs, bound, now), more, bound, now)
    decreases |recs|
  {
    hide LoadRecords, ApplyRecord, RecBytes, RecOk;
    if recs == [] {
      assert RecsBytes(recs) + more == more;
    } else {
      var n := |recs| - 1;
      assert AllOk(recs[..n]);
      ReadsAll(s, recs[..n], RecBytes(recs[n]) + more, bound, now);
      ReadsOne(Applied(s, recs[..n], bound, now), recs[n], more, bound, now);
      assert RecsBytes(recs) + more == RecsBytes(recs[..n]) + (RecBytes(recs[n]) + more);
    }
  }

  lemma EndOfRecords(s: Store, bound: nat, now: int)
    ensures LoadRecords(s, [OP_EOF], bound, now) == s
  {
  }

  /** A file with its checksum loads as its records. */
  lemma LoadsFramed(dbs: map<int, KS>, recs: seq<Rec>, sha: bytes -> bytes, bound: nat, now: int)
    requires AllOk(recs) && forall x :: |sha(x)| == CHECKSUM_SIZE
    ensures LoadFile(dbs, Framed(recs, sha), sha, bound, now) == Applied(Store(dbs, 0, None), recs, bound, now)
  {
    hide LoadRecords, Applied, RecsBytes, AllOk, Ascii;
    var s := Store(dbs, 0, None);
    var data := MAGIC + BigEndian(VERSION, 2) + RecsBytes(recs) + [OP_EOF];
    var content := Framed(recs, sha);
    assert content[..|content| - CHECKSUM_SIZE] == data && content[|content| - CHECKSUM_SIZE..] == sha(data);
    assert data[..|MAGIC|] == MAGIC && data[|MAGIC|..|MAGIC| + 2] == BigEndian(VERSION, 2);
    Widths();
    FromBigEndianInverts(VERSION, 2);
    assert data[|MAGIC| + 2..] == RecsBytes(recs) + [OP_EOF];
    ReadsAll(s, recs, [OP_EOF], bound, now);
    EndOfRecords(Applied(s, recs, bound, now), bound, now);
  }
}
