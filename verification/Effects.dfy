// What the commands of commands/*.py do, told from outside: the entry before, the entry after, and the reply.

module CommandEffects {
  import opened Bytes
  import opened Resp
  import opened Keyspaces
  import opened Commands
  import SkipLists
  import SortedSetStores

  /** An entry lives until the clock reaches its expiry; what is not alive cannot be found. */
  lemma LiveUntilExpiry(ks: KS, key: bytes, now: int)
    ensures GetEntry(ks, key, now) ==
            if key !in ks.entries then None
            else if ks.entries[key].expireAt == None || now < ks.entries[key].expireAt.value then Some(ks.entries[key])
            else None
  {
  }

  /** The entry under every other key stays, and so does the version that watchers compare. */
  ghost predicate Spares(a: KS, b: KS, key: bytes) {
    && (forall k {:trigger k in b.entries} {:trigger k in a.entries} :: k != key ==>
          (k in b.entries <==> k in a.entries) && (k in a.entries ==> b.entries[k] == a.entries[k]))
    && (forall k {:trigger k in b.versions} {:trigger k in a.versions} :: k != key ==>
          (k in b.versions <==> k in a.versions) && (k in a.versions ==> b.versions[k] == a.versions[k]))
  }

  lemma SparesTrans(a: KS, b: KS, c: KS, key: bytes)
    requires Spares(a, b, key) && Spares(b, c, key)
    ensures Spares(a, c, key)
  {
  }

  lemma SweepSpares(ks: KS, key: bytes, now: int)
    ensures Spares(ks, ks, key) && Spares(ks, Swept(ks, key, now), key)
    ensures GetEntry(ks, key, now) == None ==> key !in Swept(ks, key, now).entries
    ensures GetEntry(ks, key, now).Some? ==> Swept(ks, key, now) == ks && key in ks.entries
  {
  }

  lemma StoreSpares(ks: KS, key: bytes, e: Entry)
    ensures Spares(ks, Set(ks, key, e), key) && Set(ks, key, e).entries == ks.entries[key := e]
  {
  }

  /** The key holds the entry, and only the key was touched. */
  ghost predicate SetIn(a: KS, b: KS, key: bytes, e: Entry) {
    Spares(a, b, key) && key in b.entries && b.entries[key] == e
  }

  lemma AlterSpares(ks: KS, key: bytes, e: Entry)
    requires key in ks.entries
    ensures Spares(ks, Altered(ks, key, e), key) && Altered(ks, key, e).entries == ks.entries[key := e]
  {
  }

  lemma DeleteSpares(ks: KS, key: bytes)
    ensures Spares(ks, Delete(ks, key), key) && Delete(ks, key).entries == ks.entries - {key}
  {
  }

  /** Whatever is stored after the sweep, only the key is touched. */
  lemma AnyStored(ks: KS, key: bytes, now: int)
    ensures forall e: Entry :: SetIn(ks, Set(Swept(ks, key, now), key, e), key, e)
  {
    hide Swept, Set, Spares;
    forall e: Entry
      ensures SetIn(ks, Set(Swept(ks, key, now), key, e), key, e)
    {
      SweepSpares(ks, key, now);
      StoreSpares(Swept(ks, key, now), key, e);
      SparesTrans(ks, Swept(ks, key, now), Set(Swept(ks, key, now), key, e), key);
    }
  }

  // ---------------------------------------------------------------------------------------------
  // How a command is recognised
  // ---------------------------------------------------------------------------------------------

  /** A name may be written in small letters. */
  lemma SmallLetters(small: string, capital: string)
    requires |small| == |capital|
    requires forall k :: 0 <= k < |small| ==> 'a' <= small[k] <= 'z' && capital[k] as int == small[k] as int - 32
    ensures Upper(Ascii(small)) == Ascii(capital)
  {
  }

  /** How many words a command takes, its name included. */
  lemma ArityTable(kind: Kind, words: nat)
    ensures ArityFits(kind, words) <==>
            if kind in {MultiKind, ExecKind, DiscardKind, UnwatchKind} then words == 1
            else if kind in {GetKind, PersistKind, SelectKind} then words == 2
            else if kind in {AppendKind, IncrByKind, PExpireAtKind, RenameKind} then words == 3
            else if kind in {FlushDbKind, FlushAllKind} then words >= 1
            else if kind in {LPopKind, DelKind, WatchKind} then words >= 2
            else if kind in {HSetKind, ZAddKind} then words >= 4
            else words >= 3
  {
  }

  // ---------------------------------------------------------------------------------------------
  // Strings
  // ---------------------------------------------------------------------------------------------

  lemma GetEffect(args: seq<bytes>, ks: KS, now: int)
    requires |args| >= 1
    ensures var e, (b, r) := GetEntry(ks, args[0], now), Execute(GetKind, args, ks, now);
            && Spares(ks, b, args[0])
            && (e.None? ==> args[0] !in b.entries && r == Fine(Null))
            && (e.Some? && e.value.data.StringData? ==> b == ks && r == Fine(Bulk(e.value.data.text)))
            && (e.Some? && !e.value.data.StringData? ==> b == ks && r == Oops(WrongType))
  {
    hide Swept, GetEntry, Spares;
    SweepSpares(ks, args[0], now);
  }

  predicate IsPlainOption(opt: bytes) {
    opt == Ascii("NX") || opt == Ascii("XX") || opt == Ascii("GET") || opt == Ascii("KEEPTTL")
  }

  lemma OptionNames()
    ensures Ascii("EX") != Ascii("PX") && !IsPlainOption(Ascii("EX")) && !IsPlainOption(Ascii("PX"))
    ensures Ascii("NX") != Ascii("XX") && Ascii("GET") != Ascii("NX") && Ascii("GET") != Ascii("XX")
    ensures Ascii("KEEPTTL") != Ascii("NX") && Ascii("KEEPTTL") != Ascii("XX") && Ascii("KEEPTTL") != Ascii("GET")
  {
    Differ("EX", "PX", 0);
    Differ("EX", "NX", 0);
    Differ("EX", "XX", 0);
    Differ("PX", "NX", 0);
    Differ("PX", "XX", 0);
    Differ("NX", "XX", 0);
  }

  /** What was read stays read when more options follow. */
  lemma {:induction false} OptionsGoOn(args: seq<bytes>, more: seq<bytes>, start: SetOptions, o: SetOptions)
    requires ParseSetOptions(args, start) == Chosen(o)
    ensures ParseSetOptions(args + more, start) == ParseSetOptions(more, o)
    decreases |args|
  {
    hide Upper, Ascii, ParseInt;
    OptionNames();
    if args == [] {
      assert args + more == more;
    } else {
      var opt := Upper(args[0]);
      assert (args + more)[0] == args[0] && (args + more)[1..] == args[1..] + more;
      if (opt == Ascii("EX") || opt == Ascii("PX")) && |args| > 1 {
        assert (args + more)[1] == args[1] && (args + more)[2..] == args[2..] + more;
        var n := ParseInt(args[1]);
        OptionsGoOn(args[2..], more, if opt == Ascii("EX") then start.(ex := n) else start.(px := n), o);
      } else {
        var next :=
          if opt == Ascii("NX") then start.(nx := true)
          else if opt == Ascii("XX") then start.(xx := true)
          else if opt == Ascii("GET") then start.(get := true)
          else start.(keepTtl := true);
        OptionsGoOn(args[1..], more, next, o);
      }
    }
  }

  /**
    * Behind options that are in order, in any case: NX, XX, GET and KEEPTTL set their flags; EX and PX take the number
    * behind them, which must be positive; nothing else is an option, and the first fault decides the error.
    */
  lemma OptionRead(args: seq<bytes>, o: SetOptions, word: bytes, value: bytes, more: seq<bytes>)
    requires ParseSetOptions(args, NO_OPTIONS) == Chosen(o)
    ensures ParseSetOptions([], NO_OPTIONS) == Chosen(SetOptions(None, None, false, false, false, false))
    ensures Upper(word) == Ascii("NX") ==> ParseSetOptions(args + [word], NO_OPTIONS) == Chosen(o.(nx := true))
    ensures Upper(word) == Ascii("XX") ==> ParseSetOptions(args + [word], NO_OPTIONS) == Chosen(o.(xx := true))
    ensures Upper(word) == Ascii("GET") ==> ParseSetOptions(args + [word], NO_OPTIONS) == Chosen(o.(get := true))
    ensures Upper(word) == Ascii("KEEPTTL") ==>
              ParseSetOptions(args + [word], NO_OPTIONS) == Chosen(o.(keepTtl := true))
    ensures var n := ParseInt(value);
            Upper(word) == Ascii("EX") ==>
              && ParseSetOptions(args + [word], NO_OPTIONS) == Refused(Syntax)
              && (n.Some? && n.value > 0 ==>
                    ParseSetOptions(args + [word, value], NO_OPTIONS) == Chosen(o.(ex := n)))
              && (n.Some? && n.value <= 0 ==>
                    ParseSetOptions(args + ([word, value] + more), NO_OPTIONS) == Refused(InvalidExpire))
              && (n.None? ==> ParseSetOptions(args + ([word, value] + more), NO_OPTIONS) == Refused(NotAnInteger))
    ensures var n := ParseInt(value);
            Upper(word) == Ascii("PX") ==>
              && ParseSetOptions(args + [word], NO_OPTIONS) == Refused(Syntax)
              && (n.Some? && n.value > 0 ==>
                    ParseSetOptions(args + [word, value], NO_OPTIONS) == Chosen(o.(px := n)))
              && (n.Some? && n.value <= 0 ==>
                    ParseSetOptions(args + ([word, value] + more), NO_OPTIONS) == Refused(InvalidExpire))
              && (n.None? ==> ParseSetOptions(args + ([word, value] + more), NO_OPTIONS) == Refused(NotAnInteger))
    ensures !IsPlainOption(Upper(word)) && Upper(word) != Ascii("EX") && Upper(word) != Ascii("PX") ==>
              ParseSetOptions(args + ([word] + more), NO_OPTIONS) == Refused(Syntax)
  {
    hide Upper, Ascii, ParseInt;
    OptionNames();
    OptionsGoOn(args, [word], NO_OPTIONS, o);
    OptionsGoOn(args, [word, value], NO_OPTIONS, o);
    OptionsGoOn(args, [word, value] + more, NO_OPTIONS, o);
    OptionsGoOn(args, [word] + more, NO_OPTIONS, o);
    assert [word][1..] == [] && [word, value][2..] == [];
  }

  /** The text that was there, if any. */
  function OldText(e: Option<Entry>): Reply {
    match e
    case Some(Entry(StringData(text), _)) => Fine(Bulk(text))
    case _ => Fine(Null)
  }

  /**
    * SET stores its second argument. The expiry is EX seconds or PX milliseconds from now, or the old one under
    * KEEPTTL, or none; NX wants the key missing, XX there; GET answers the old text, and wants no other type.
    */
  lemma SetEffect(args: seq<bytes>, ks: KS, now: int, o: SetOptions)
    requires |args| >= 2 && ParseSetOptions(args[2..], NO_OPTIONS) == Chosen(o)
    ensures var key, e, (b, r) := args[0], GetEntry(ks, args[0], now), Execute(SetKind, args, ks, now);
            && Spares(ks, b, key)
            && (o.nx && o.xx ==> b == ks && r == Oops(Syntax))
            && (!(o.nx && o.xx) ==>
                  if o.get && e.Some? && !e.value.data.StringData? then b == ks && r == Oops(WrongType)
                  else if (o.nx && e.Some?) || (o.xx && e.None?) then
                    GetEntry(b, key, now) == e && r == if o.get then OldText(e) else Fine(Null)
                  else
                    && key in b.entries && b.entries[key].data == StringData(args[1])
                    && (o.ex.Some? ==> b.entries[key].expireAt == Some(now + 1000 * o.ex.value))
                    && (o.ex.None? && o.px.Some? ==> b.entries[key].expireAt == Some(now + o.px.value))
                    && (o.ex.None? && o.px.None? && o.keepTtl && e.Some? ==>
                          b.entries[key].expireAt == e.value.expireAt)
                    && (o.ex.None? && o.px.None? && !(o.keepTtl && e.Some?) ==> b.entries[key].expireAt == None)
                    && r == if o.get then OldText(e) else Fine(Simple([79, 75])))
  {
    hide Swept, Set, Spares, ParseSetOptions;
    var key := args[0];
    SweepSpares(ks, key, now);
    AnyStored(ks, key, now);
  }

  /** Options that are not in order, and too few arguments, change nothing. */
  lemma RefusedSet(args: seq<bytes>, ks: KS, now: int)
    requires |args| >= 2 && ParseSetOptions(args[2..], NO_OPTIONS).Refused?
    ensures Execute(SetKind, args, ks, now) == (ks, Oops(ParseSetOptions(args[2..], NO_OPTIONS).error))
  {
    hide ParseSetOptions;
  }

  lemma TooFewArguments(kind: Kind, args: seq<bytes>, ks: KS, now: int)
    requires IsData(kind) && !EnoughArgs(kind, |args|)
    ensures Execute(kind, args, ks, now).0 == ks && Execute(kind, args, ks, now).1.Oops?
  {
  }

  function ExpiryOf(e: Option<Entry>): Option<int> {
    if e.Some? then e.value.expireAt else None
  }

  /** APPEND puts its text behind the old one, or behind nothing, and answers the new length. */
  lemma AppendEffect(args: seq<bytes>, ks: KS, now: int)
    requires |args| >= 2
    ensures var key, e, (b, r) := args[0], GetEntry(ks, args[0], now), Execute(AppendKind, args, ks, now);
            if e.Some? && !e.value.data.StringData? then b == ks && r == Oops(WrongType)
            else
              var text := (if e.Some? then e.value.data.text else []) + args[1];
              SetIn(ks, b, key, Entry(StringData(text), ExpiryOf(e))) && r == Fine(Int(|text|))
  {
    hide Swept, Set, Spares;
    SweepSpares(ks, args[0], now);
    AnyStored(ks, args[0], now);
    assert [] + args[1] == args[1];
  }

  /** INCRBY stores, as a text that reads as it, the sum of the number there (0 for a missing key) and the one given. */
  lemma IncrByEffect(args: seq<bytes>, ks: KS, now: int)
    requires |args| >= 2
    ensures var key, e, (b, r) := args[0], GetEntry(ks, args[0], now), Execute(IncrByKind, args, ks, now);
            if ParseInt(args[1]).None? then b == ks && r == Oops(NotAnInteger)
            else if e.Some? && !e.value.data.StringData? then b == ks && r == Oops(WrongType)
            else
              var n := if e.Some? then ParseInt(e.value.data.text) else Some(0);
              if n.None? then b == ks && r == Oops(NotAnInteger)
              else
                var sum := n.value + ParseInt(args[1]).value;
                SetIn(ks, b, key, Entry(StringData(Decimal(sum)), ExpiryOf(e)))
                && ParseInt(Decimal(sum)) == Some(sum) && r == Fine(Int(sum))
  {
    hide Swept, Set, Spares, ParseInt, Decimal;
    SweepSpares(ks, args[0], now);
    AnyStored(ks, args[0], now);
    var e := GetEntry(ks, args[0], now);
    if ParseInt(args[1]).Some? && (e.None? || (e.value.data.StringData? && ParseInt(e.value.data.text).Some?)) {
      ParseIntInvertsDecimal((if e.Some? then ParseInt(e.value.data.text).value else 0) + ParseInt(args[1]).value);
    }
  }

  // ---------------------------------------------------------------------------------------------
  // Lists
  // ---------------------------------------------------------------------------------------------

  /** A container command on a missing key or one of its type leaves the new value there, the expiry as it was. */
  lemma Filled(ks: KS, key: bytes, initial: Data, data: Data, now: int)
    requires Upsert(ks, key, initial, TypeOf(initial), now).Some?
    ensures var up := Upsert(ks, key, initial, TypeOf(initial), now).value;
            && SetIn(ks, Mutated(up, key, data), key, Entry(data, ExpiryOf(GetEntry(ks, key, now))))
            && up.entries[key].data ==
               (if GetEntry(ks, key, now).Some? then GetEntry(ks, key, now).value.data else initial)
  {
    hide Spares, Swept, Set, Altered;
    var up := Upsert(ks, key, initial, TypeOf(initial), now).value;
    SweepSpares(ks, key, now);
    StoreSpares(Swept(ks, key, now), key, Entry(initial, None));
    SparesTrans(ks, Swept(ks, key, now), Set(Swept(ks, key, now), key, Entry(initial, None)), key);
    AlterSpares(up, key, up.entries[key].(data := data));
    SparesTrans(ks, up, Mutated(up, key, data), key);
  }

  lemma UpsertFits(ks: KS, key: bytes, initial: Data, now: int)
    ensures var e := GetEntry(ks, key, now);
            Upsert(ks, key, initial, TypeOf(initial), now).None? <==>
            e.Some? && TypeOf(e.value.data) != TypeOf(initial)
    ensures GetEntry(ks, key, now).Some? ==> Swept(ks, key, now) == ks
  {
    hide Set;
  }

  lemma {:induction false} ReverseAt(s: seq<bytes>)
    ensures |Reverse(s)| == |s| && forall i :: 0 <= i < |s| ==> Reverse(s)[|s| - 1 - i] == s[i]
  {
    if s != [] {
      ReverseAt(s[1..]);
    }
  }

  /** LPUSH keeps the old list as the end of the new one; the values stand in front of it, the last one first. */
  lemma LPushEffect(args: seq<bytes>, ks: KS, now: int)
    requires |args| >= 1
    ensures var key, e, (b, r) := args[0], GetEntry(ks, args[0], now), Execute(LPushKind, args, ks, now);
            if e.Some? && !e.value.data.ListData? then b == ks && r == Oops(WrongType)
            else
              && key in b.entries && b.entries[key].data.ListData?
              && var items, after := if e.Some? then e.value.data.items else [], b.entries[key].data.items;
                 var n := |args| - 1;
                 && SetIn(ks, b, key, Entry(ListData(after), ExpiryOf(e)))
                 && |after| == n + |items| && after[n..] == items
                 && (forall i :: 1 <= i <= n ==> after[n - i] == args[i])
                 && r == Fine(Int(n + |items|))
  {
    hide Spares, Swept, Mutated, Upsert;
    var key, initial := args[0], ListData([]);
    UpsertFits(ks, key, initial, now);
    var up := Upsert(ks, key, initial, ListType, now);
    if up.Some? {
      var values, items := args[1..], up.value.entries[key].data.items;
      ReverseAt(values);
      Filled(ks, key, initial, ListData(Reverse(values) + items), now);
      forall i | 1 <= i <= |values|
        ensures (Reverse(values) + items)[|values| - i] == args[i]
      {
        assert args[i] == values[i - 1] == Reverse(values)[|values| - 1 - (i - 1)];
      }
    }
  }

  /** RPUSH keeps the old list as the beginning, and the values follow in order. */
  lemma RPushEffect(args: seq<bytes>, ks: KS, now: int)
    requires |args| >= 1
    ensures var key, e, (b, r) := args[0], GetEntry(ks, args[0], now), Execute(RPushKind, args, ks, now);
            if e.Some? && !e.value.data.ListData? then b == ks && r == Oops(WrongType)
            else
              var items := if e.Some? then e.value.data.items else [];
              && SetIn(ks, b, key, Entry(ListData(items + args[1..]), ExpiryOf(e)))
              && r == Fine(Int(|items| + |args| - 1))
  {
    hide Spares, Swept, Mutated, Upsert;
    var key, initial := args[0], ListData([]);
    UpsertFits(ks, key, initial, now);
    var up := Upsert(ks, key, initial, ListType, now);
    if up.Some? {
      Filled(ks, key, initial, ListData(up.value.entries[key].data.items + args[1..]), now);
    }
  }

  /** What is left under a key after a removal: nothing at all when the container is empty. */
  ghost predicate LeftIn(a: KS, b: KS, key: bytes, e: Entry, empty: bool) {
    Spares(a, b, key) && if empty then key !in b.entries else key in b.entries && b.entries[key] == e
  }

  lemma Emptied(ks: KS, key: bytes, data: Data, empty: bool)
    requires key in ks.entries
    ensures LeftIn(ks, Shrunk(ks, key, data, empty), key, Entry(data, ks.entries[key].expireAt), empty)
  {
    hide Spares, Altered, Delete;
    var e := ks.entries[key].(data := data);
    var edited := ks.(entries := ks.entries[key := e]);
    AlterSpares(ks, key, e);
    DeleteSpares(edited, key);
    assert Spares(ks, edited, key) by {
      EditSpares(ks, key, e);
    }
    SparesTrans(ks, edited, Delete(edited, key), key);
  }

  lemma EditSpares(ks: KS, key: bytes, e: Entry)
    ensures Spares(ks, ks.(entries := ks.entries[key := e]), key)
  {
  }

  /** LPOP answers the first elements, as many as asked for and there, and keeps the rest; an emptied list is gone. */
  lemma LPopEffect(args: seq<bytes>, ks: KS, now: int)
    requires |args| >= 1
    ensures var key, e, (b, r) := args[0], GetEntry(ks, args[0], now), Execute(LPopKind, args, ks, now);
            var n := if |args| > 1 then ParseInt(args[1]) else Some(1);
            if n.None? then b == ks && r == Oops(NotAnInteger)
            else if n.value < 0 then b == ks && r == Oops(OutOfRange)
            else if e.None? then
              Spares(ks, b, key) && key !in b.entries && r == Fine(if |args| > 1 then Array([]) else Null)
            else if !e.value.data.ListData? then b == ks && r == Oops(WrongType)
            else
              var items := e.value.data.items;
              var k := if n.value <= |items| then n.value else |items|;
              && LeftIn(ks, b, key, Entry(ListData(items[k..]), e.value.expireAt), k == |items|)
              && (|args| == 1 ==> r == Fine(if items == [] then Null else Bulk(items[0])))
              && (|args| > 1 ==>
                    && r.Fine? && r.value.Array? && |r.value.items| == k
                    && forall i :: 0 <= i < k ==> r.value.items[i] == Bulk(items[i]))
  {
    hide Spares, Swept, Shrunk, ParseInt, GetEntry, LeftIn;
    var key := args[0];
    SweepSpares(ks, key, now);
    var n := if |args| > 1 then ParseInt(args[1]) else Some(1);
    var e := GetEntry(ks, key, now);
    if e.Some? && e.value.data.ListData? && n.Some? && n.value >= 0 {
      var items := e.value.data.items;
      var k := if n.value < |items| then n.value else |items|;
      LiveUntilExpiry(ks, key, now);
      Emptied(ks, key, ListData(items[k..]), |items[k..]| == 0);
    }
  }

  // ---------------------------------------------------------------------------------------------
  // Sets
  // ---------------------------------------------------------------------------------------------

  /** SADD adds the members named, and answers how many of them were new. */
  lemma SAddEffect(args: seq<bytes>, ks: KS, now: int)
    requires |args| >= 1
    ensures var key, e, (b, r) := args[0], GetEntry(ks, args[0], now), Execute(SAddKind, args, ks, now);
            if e.Some? && !e.value.data.SetData? then b == ks && r == Oops(WrongType)
            else
              && key in b.entries && b.entries[key].data.SetData?
              && var members, after := if e.Some? then e.value.data.members else {}, b.entries[key].data.members;
                 && SetIn(ks, b, key, Entry(SetData(after), ExpiryOf(e)))
                 && (forall m :: m in after <==> m in members || m in args[1..])
                 && r == Fine(Int(|set m | m in args[1..] && m !in members|))
  {
    hide Spares, Swept, Mutated, Upsert;
    var key, initial := args[0], SetData({});
    UpsertFits(ks, key, initial, now);
    var up := Upsert(ks, key, initial, SetType, now);
    if up.Some? {
      var members, named := up.value.entries[key].data.members, set m | m in args[1..];
      Filled(ks, key, initial, SetData(members + named), now);
      NewMembers(members, args[1..]);
    }
  }

  lemma NewMembers(members: set<bytes>, names: seq<bytes>)
    ensures var named := set m | m in names;
            && (forall m :: m in members + named <==> m in members || m in names)
            && |members + named| - |members| == |set m | m in names && m !in members|
  {
    var named := set m | m in names;
    assert (set m | m in names && m !in members) == named - members;
    SetGrows(members, members + named);
    assert (members + named) - members == named - members;
  }

  /** SREM takes away the members named, and answers how many of them were there; an emptied set is gone. */
  lemma SRemEffect(args: seq<bytes>, ks: KS, now: int)
    requires |args| >= 1
    ensures var key, e, (b, r) := args[0], GetEntry(ks, args[0], now), Execute(SRemKind, args, ks, now);
            if e.None? then Spares(ks, b, key) && key !in b.entries && r == Fine(Int(0))
            else if !e.value.data.SetData? then b == ks && r == Oops(WrongType)
            else
              var members := e.value.data.members;
              var left := set m | m in members && m !in args[1..];
              && LeftIn(ks, b, key, Entry(SetData(left), e.value.expireAt), left == {})
              && r == Fine(Int(|set m | m in members && m in args[1..]|))
  {
    hide Spares, Swept, Shrunk, GetEntry, LeftIn;
    var key := args[0];
    SweepSpares(ks, key, now);
    var e := GetEntry(ks, key, now);
    if e.Some? && e.value.data.SetData? {
      var members, named := e.value.data.members, set m | m in args[1..];
      LiveUntilExpiry(ks, key, now);
      Emptied(ks, key, SetData(members - named), members - named == {});
      assert (set m | m in members && m !in args[1..]) == members - named;
      assert (set m | m in members && m in args[1..]) == members * named;
      assert |members| == |members - named| + |members * named|;
    }
  }

  // ---------------------------------------------------------------------------------------------
  // Hashes
  // ---------------------------------------------------------------------------------------------

  /** The i-th pair of the arguments names the field. */
  predicate NamedAt(args: seq<bytes>, i: nat, f: bytes) {
    2 * i + 1 < |args| && args[2 * i] == f
  }

  ghost predicate Named(args: seq<bytes>, f: bytes) {
    exists i: nat :: NamedAt(args, i, f)
  }

  ghost predicate LastNamedAt(args: seq<bytes>, i: nat, f: bytes) {
    NamedAt(args, i, f) && forall j: nat :: j > i ==> !NamedAt(args, j, f)
  }

  /** The fields after HSET are the old ones and those named; of the pairs that name a field the last decides. */
  lemma {:induction false} WithFieldsMeans(fields: map<bytes, bytes>, args: seq<bytes>, f: bytes)
    ensures f in WithFields(fields, args) <==> f in fields || Named(args, f)
    ensures f in fields && !Named(args, f) ==> WithFields(fields, args)[f] == fields[f]
    ensures forall i: nat :: LastNamedAt(args, i, f) ==>
              f in WithFields(fields, args) && WithFields(fields, args)[f] == args[2 * i + 1]
    decreases |args|
  {
    if |args| >= 2 {
      hide Named, LastNamedAt;
      WithFieldsMeans(fields[args[0] := args[1]], args[2..], f);
      NamedOn(args, f);
      forall i: nat | LastNamedAt(args, i, f)
        ensures f in WithFields(fields, args) && WithFields(fields, args)[f] == args[2 * i + 1]
      {
        LastPair(args, i, f);
      }
    } else {
      NamedNowhere(args, f);
    }
  }

  lemma NamedNowhere(args: seq<bytes>, f: bytes)
    requires |args| < 2
    ensures !Named(args, f)
  {
  }

  lemma NamedOn(args: seq<bytes>, f: bytes)
    requires |args| >= 2
    ensures Named(args, f) <==> args[0] == f || Named(args[2..], f)
  {
    OnePairOn(args, 0, f);
    if i: nat :| NamedAt(args, i, f) {
      if i > 0 {
        OnePairOn(args, i - 1, f);
      }
    }
    if i: nat :| NamedAt(args[2..], i, f) {
      OnePairOn(args, i, f);
    }
  }

  lemma OnePairOn(args: seq<bytes>, i: nat, f: bytes)
    requires |args| >= 2
    ensures NamedAt(args, 0, f) <==> args[0] == f
    ensures NamedAt(args, i + 1, f) <==> NamedAt(args[2..], i, f)
  {
  }

  /** The last pair that names a field is the last one of the rest, or it is the first and the rest has none. */
  lemma LastPair(args: seq<bytes>, i: nat, f: bytes)
    requires |args| >= 2 && LastNamedAt(args, i, f)
    ensures var rest := args[2..];
            if i == 0 then f == args[0] && !Named(rest, f)
            else LastNamedAt(rest, i - 1, f) && rest[2 * (i - 1) + 1] == args[2 * i + 1]
  {
    forall j: nat
      ensures NamedAt(args, j + 1, f) <==> NamedAt(args[2..], j, f)
    {
      OnePairOn(args, j, f);
    }
  }

  /** HSET stores the pairs, and answers how many fields are new; an odd argument is an error. */
  lemma HSetEffect(args: seq<bytes>, ks: KS, now: int)
    requires |args| >= 1
    ensures var key, e, (b, r) := args[0], GetEntry(ks, args[0], now), Execute(HSetKind, args, ks, now);
            if |args| % 2 == 0 then b == ks && r == Oops(Syntax)
            else if e.Some? && !e.value.data.HashData? then b == ks && r == Oops(WrongType)
            else
              && key in b.entries && b.entries[key].data.HashData?
              && var fields, after := if e.Some? then e.value.data.fields else map[], b.entries[key].data.fields;
                 && SetIn(ks, b, key, Entry(HashData(after), ExpiryOf(e)))
                 && after == WithFields(fields, args[1..])
                 && r == Fine(Int(|set f | f in after && f !in fields|))
  {
    hide Spares, Swept, Mutated, Upsert, WithFields;
    var key, initial := args[0], HashData(map[]);
    UpsertFits(ks, key, initial, now);
    var up := Upsert(ks, key, initial, HashType, now);
    if up.Some? && |args| % 2 == 1 {
      var fields := up.value.entries[key].data.fields;
      var after := WithFields(fields, args[1..]);
      Filled(ks, key, initial, HashData(after), now);
      forall f | f in fields
        ensures f in after
      {
        WithFieldsMeans(fields, args[1..], f);
      }
      MapGrows(fields, after);
    }
  }

  lemma MapGrows<T>(a: map<bytes, T>, b: map<bytes, T>)
    requires forall k :: k in a ==> k in b
    ensures |b| - |a| == |set k | k in b && k !in a|
  {
    assert (set k | k in b && k !in a) == b.Keys - a.Keys;
    SetGrows(a.Keys, b.Keys);
    assert |a.Keys| == |a| && |b.Keys| == |b|;
  }

  lemma SetGrows(a: set<bytes>, b: set<bytes>)
    requires forall k :: k in a ==> k in b
    ensures |b| - |a| == |b - a|
  {
    assert b == a + (b - a);
  }

  lemma MapShrinks<T>(a: map<bytes, T>, names: seq<bytes>)
    ensures var named := set m | m in names;
            && (map k | k in a && k !in names :: a[k]) == a - named
            && |a| - |a - named| == |set k | k in a && k in names|
  {
    var named := set m | m in names;
    assert (set k | k in a && k in names) == a.Keys * named;
    assert (a - named).Keys == a.Keys - named;
    assert |a.Keys| == |a.Keys - named| + |a.Keys * named|;
    assert |a.Keys| == |a| && |(a - named).Keys| == |a - named|;
  }

  /** HDEL takes away the fields named, and answers how many of them were there; an emptied hash is gone. */
  lemma HDelEffect(args: seq<bytes>, ks: KS, now: int)
    requires |args| >= 1
    ensures var key, e, (b, r) := args[0], GetEntry(ks, args[0], now), Execute(HDelKind, args, ks, now);
            if e.None? then Spares(ks, b, key) && key !in b.entries && r == Fine(Int(0))
            else if !e.value.data.HashData? then b == ks && r == Oops(WrongType)
            else
              var fields := e.value.data.fields;
              var left := map f | f in fields && f !in args[1..] :: fields[f];
              && LeftIn(ks, b, key, Entry(HashData(left), e.value.expireAt), left == map[])
              && r == Fine(Int(|set f | f in fields && f in args[1..]|))
  {
    hide Spares, Swept, Shrunk, GetEntry, LeftIn;
    var key := args[0];
    SweepSpares(ks, key, now);
    var e := GetEntry(ks, key, now);
    if e.Some? && e.value.data.HashData? {
      var fields, named := e.value.data.fields, set m | m in args[1..];
      LiveUntilExpiry(ks, key, now);
      Emptied(ks, key, HashData(fields - named), fields - named == map[]);
      MapShrinks(fields, args[1..]);
    }
  }

  // ---------------------------------------------------------------------------------------------
  // Sorted sets
  // ---------------------------------------------------------------------------------------------

  /** One of the first i arguments is the flag, in any case. */
  predicate FlagIn(args: seq<bytes>, i: nat, flag: bytes) {
    exists j :: 0 <= j < i && j < |args| && Upper(args[j]) == flag
  }

  predicate IsFlag(arg: bytes) {
    Upper(arg) == Ascii("NX") || Upper(arg) == Ascii("XX") || Upper(arg) == Ascii("CH")
  }

  /** The flags of ZADD are the arguments up to the first that is none of the three, in any case and order. */
  lemma {:induction false} FlagsRead(args: seq<bytes>, nx: bool, xx: bool, ch: bool) returns (i: nat)
    ensures var f := ParseZFlags(args, nx, xx, ch);
            && i <= |args| && f.rest == args[i..]
            && (forall j :: 0 <= j < i ==> IsFlag(args[j])) && (i < |args| ==> !IsFlag(args[i]))
            && (f.nx <==> nx || FlagIn(args, i, Ascii("NX")))
            && (f.xx <==> xx || FlagIn(args, i, Ascii("XX")))
            && (f.ch <==> ch || FlagIn(args, i, Ascii("CH")))
    decreases |args|
  {
    hide Upper, Ascii, FlagIn;
    i := 0;
    FlagNames();
    NoneIn(args);
    if args != [] && IsFlag(args[0]) {
      var flag := Upper(args[0]);
      var k := FlagsRead(args[1..], nx || flag == Ascii("NX"), xx || flag == Ascii("XX"), ch || flag == Ascii("CH"));
      i := k + 1;
      assert forall j :: 1 <= j < i ==> args[j] == args[1..][j - 1];
      assert args[1..][k..] == args[i..];
      NamedLater(args, i, Ascii("NX"));
      NamedLater(args, i, Ascii("XX"));
      NamedLater(args, i, Ascii("CH"));
    }
  }

  lemma NoneIn(args: seq<bytes>)
    ensures forall flag :: !FlagIn(args, 0, flag)
  {
  }

  lemma FlagNames()
    ensures Ascii("NX") != Ascii("XX") && Ascii("NX") != Ascii("CH") && Ascii("XX") != Ascii("CH")
  {
    Differ("NX", "XX", 0);
    Differ("NX", "CH", 0);
    Differ("XX", "CH", 0);
  }

  lemma NamedLater(args: seq<bytes>, i: nat, name: bytes)
    requires 1 <= i <= |args|
    ensures FlagIn(args, i, name) <==> Upper(args[0]) == name || FlagIn(args[1..], i - 1, name)
  {
    hide Upper;
    if j :| 0 <= j < i && Upper(args[j]) == name {
      assert j > 0 ==> args[1..][j - 1] == args[j];
    }
    if j :| 0 <= j < i - 1 && Upper(args[1..][j]) == name {
      assert args[j + 1] == args[1..][j];
    }
  }

  /** The argument in front of the i-th member is a number. */
  predicate ScoredAt(args: seq<bytes>, i: nat) {
    2 * i < |args| ==> ParseScore(args[2 * i]).Some?
  }

  /** The pairs of ZADD: every other argument must be a number, and each goes with the member behind it. */
  lemma {:induction false} PairsRead(args: seq<bytes>)
    requires |args| % 2 == 0
    ensures ParsePairs(args).Some? <==> forall i: nat :: ScoredAt(args, i)
    ensures ParsePairs(args).Some? ==>
              var pairs := ParsePairs(args).value;
              && 2 * |pairs| == |args|
              && forall i :: 0 <= i < |pairs| ==>
                   pairs[i].member == args[2 * i + 1] && ParseScore(args[2 * i]) == Some(pairs[i].score)
    decreases |args|
  {
    hide ParseScore;
    if args != [] {
      var rest := args[2..];
      PairsRead(rest);
      assert ScoredAt(args, 0) <==> ParseScore(args[0]).Some?;
      forall i: nat
        ensures ScoredAt(args, i + 1) <==> ScoredAt(rest, i)
      {
      }
      if forall i: nat :: ScoredAt(rest, i) {
        assert forall i: nat :: i > 0 && ScoredAt(rest, i - 1) ==> ScoredAt(args, i);
      }
    }
  }

  /** The i-th pair changes the dictionary when it is reached. */
  ghost predicate ChangesAt(d: SortedSetStores.Scores, pairs: seq<SkipLists.Pair>, nx: bool, xx: bool, i: int) {
    && 0 <= i < |pairs|
    && SortedSetStores.AddedAll(d, pairs[..i + 1], nx, xx) != SortedSetStores.AddedAll(d, pairs[..i], nx, xx)
  }

  /** The pairs that do. */
  ghost function Changes(d: SortedSetStores.Scores, pairs: seq<SkipLists.Pair>, nx: bool, xx: bool): set<int> {
    set i | 0 <= i < |pairs| && ChangesAt(d, pairs, nx, xx, i)
  }

  lemma {:induction false} ChangesAreCounted(d: SortedSetStores.Scores, pairs: seq<SkipLists.Pair>, nx: bool, xx: bool)
    ensures SortedSetStores.ChangedCount(d, pairs, nx, xx) == |Changes(d, pairs, nx, xx)|
  {
    if pairs != [] {
      hide Changes, ChangesAt, SortedSetStores.ChangedCount;
      ChangesAreCounted(d, pairs[..|pairs| - 1], nx, xx);
      LastChange(d, pairs, nx, xx);
      ChangesSplit(d, pairs, nx, xx);
    }
  }

  lemma ChangesSplit(d: SortedSetStores.Scores, pairs: seq<SkipLists.Pair>, nx: bool, xx: bool)
    requires pairs != []
    ensures var n := |pairs| - 1;
            && n !in Changes(d, pairs[..n], nx, xx)
            && Changes(d, pairs, nx, xx) ==
               Changes(d, pairs[..n], nx, xx) + if ChangesAt(d, pairs, nx, xx, n) then {n} else {}
  {
    hide ChangesAt, SortedSetStores.ChangedCount, SortedSetStores.AddedAll;
    var n := |pairs| - 1;
    forall i | 0 <= i < n
      ensures ChangesAt(d, pairs, nx, xx, i) <==> ChangesAt(d, pairs[..n], nx, xx, i)
    {
      SameChange(d, pairs, nx, xx, i);
    }
    var last := if ChangesAt(d, pairs, nx, xx, n) then {n} else {};
    assert Changes(d, pairs, nx, xx) == Changes(d, pairs[..n], nx, xx) + last;
  }

  lemma SameChange(d: SortedSetStores.Scores, pairs: seq<SkipLists.Pair>, nx: bool, xx: bool, i: nat)
    requires i < |pairs| - 1
    ensures ChangesAt(d, pairs, nx, xx, i) <==> ChangesAt(d, pairs[..|pairs| - 1], nx, xx, i)
  {
    hide SortedSetStores.AddedAll;
    assert pairs[..|pairs| - 1][..i + 1] == pairs[..i + 1] && pairs[..|pairs| - 1][..i] == pairs[..i];
  }

  lemma LastChange(d: SortedSetStores.Scores, pairs: seq<SkipLists.Pair>, nx: bool, xx: bool)
    requires pairs != []
    ensures var n := |pairs| - 1;
            SortedSetStores.ChangedCount(d, pairs, nx, xx) ==
            SortedSetStores.ChangedCount(d, pairs[..n], nx, xx) + if ChangesAt(d, pairs, nx, xx, n) then 1 else 0
  {
    hide SortedSetStores.AddedAll;
    assert pairs[..|pairs|] == pairs;
  }

  /** ZADD stores the pairs as its flags say, and answers how many members are new, or with CH how many pairs told. */
  lemma ZAddEffect(args: seq<bytes>, ks: KS, now: int)
    requires |args| >= 1
    ensures var key, e, (b, r) := args[0], GetEntry(ks, args[0], now), Execute(ZAddKind, args, ks, now);
            var f := ParseZFlags(args[1..], false, false, false);
            if f.rest == [] || |f.rest| % 2 != 0 then b == ks && r == Oops(Syntax)
            else if ParsePairs(f.rest).None? then b == ks && r == Oops(NotAFloat)
            else if e.Some? && !e.value.data.ZSetData? then b == ks && r == Oops(WrongType)
            else
              var scores, pairs := if e.Some? then e.value.data.scores else map[], ParsePairs(f.rest).value;
              var after := SortedSetStores.AddedAll(scores, pairs, f.nx, f.xx);
              && SetIn(ks, b, key, Entry(ZSetData(after), ExpiryOf(e)))
              && (!f.ch ==> r == Fine(Int(|set m | m in after && m !in scores|)))
              && (f.ch ==>
                    r == Fine(Int(|Changes(scores, pairs, f.nx, f.xx)|)))
  {
    hide Spares, Swept, Mutated, Upsert, ParseZFlags, ParsePairs, Changes, SortedSetStores.AddedAll,
      SortedSetStores.ChangedCount;
    var key, initial := args[0], ZSetData(map[]);
    UpsertFits(ks, key, initial, now);
    var up := Upsert(ks, key, initial, ZSetType, now);
    var f := ParseZFlags(args[1..], false, false, false);
    if up.Some? && f.rest != [] && |f.rest| % 2 == 0 && ParsePairs(f.rest).Some? {
      var scores, pairs := up.value.entries[key].data.scores, ParsePairs(f.rest).value;
      var after := SortedSetStores.AddedAll(scores, pairs, f.nx, f.xx);
      Filled(ks, key, initial, ZSetData(after), now);
      ChangesAreCounted(scores, pairs, f.nx, f.xx);
      forall m | m in scores
        ensures m in after
      {
        SortedSetStores.AddedMembers(scores, pairs, f.nx, f.xx, m);
      }
      MapGrows(scores, after);
    }
  }

  /** ZREM takes away the members named, and answers how many of them were there; an emptied sorted set is gone. */
  lemma ZRemEffect(args: seq<bytes>, ks: KS, now: int)
    requires |args| >= 1
    ensures var key, e, (b, r) := args[0], GetEntry(ks, args[0], now), Execute(ZRemKind, args, ks, now);
            if e.None? then Spares(ks, b, key) && key !in b.entries && r == Fine(Int(0))
            else if !e.value.data.ZSetData? then b == ks && r == Oops(WrongType)
            else
              var scores := e.value.data.scores;
              var left := map m | m in scores && m !in args[1..] :: scores[m];
              && LeftIn(ks, b, key, Entry(ZSetData(left), e.value.expireAt), left == map[])
              && r == Fine(Int(|set m | m in scores && m in args[1..]|))
  {
    hide Spares, Swept, Shrunk, GetEntry, LeftIn, SortedSetStores.RemovedAll;
    var key := args[0];
    SweepSpares(ks, key, now);
    var e := GetEntry(ks, key, now);
    if e.Some? && e.value.data.ZSetData? {
      var scores, named := e.value.data.scores, set m | m in args[1..];
      LiveUntilExpiry(ks, key, now);
      SortedSetStores.RemovedAllMeans(scores, args[1..]);
      Emptied(ks, key, ZSetData(scores - named), scores - named == map[]);
      MapShrinks(scores, args[1..]);
    }
  }

  // ---------------------------------------------------------------------------------------------
  // Keys
  // ---------------------------------------------------------------------------------------------

  /** Entries and versions of the keys outside a set stay. */
  ghost predicate SparesAll(a: KS, b: KS, keys: set<bytes>) {
    forall k :: k !in keys ==> Stored(b, k) == Stored(a, k) && Version(b, k) == Version(a, k)
  }

  lemma {:induction false} DeletedAll(ks: KS, keys: seq<bytes>)
    ensures var b, named := DeleteAll(ks, keys), set k | k in keys;
            b.entries == ks.entries - named && SparesAll(ks, b, named)
    decreases |keys|
  {
    if keys != [] {
      DeletedAll(Delete(ks, keys[0]), keys[1..]);
      var named, later := set k | k in keys, set k | k in keys[1..];
      assert keys == [keys[0]] + keys[1..];
      assert named == {keys[0]} + later;
      assert (ks.entries - {keys[0]}) - later == ks.entries - named;
    }
  }

  /** DEL takes away the keys named, and answers how many of them were stored. */
  lemma DelEffect(args: seq<bytes>, ks: KS, now: int)
    ensures var (b, r) := Execute(DelKind, args, ks, now);
            && (forall k :: k in b.entries <==> k in ks.entries && k !in args)
            && SparesAll(ks, b, set k | k in args)
            && r == Fine(Int(|set k | k in ks.entries && k in args|))
  {
    hide DeleteAll, SparesAll;
    DeletedAll(ks, args);
    MapShrinks(ks.entries, args);
  }

  /** PEXPIREAT gives a living entry its expiry, or deletes it if that time is not to come, and says if it was there. */
  lemma PExpireAtEffect(args: seq<bytes>, ks: KS, now: int)
    requires |args| >= 2
    ensures var key, e, (b, r) := args[0], GetEntry(ks, args[0], now), Execute(PExpireAtKind, args, ks, now);
            var at := ParseInt(args[1]);
            if at.None? then b == ks && r == Oops(NotAnInteger)
            else if e.None? then Spares(ks, b, key) && key !in b.entries && r == Fine(Int(0))
            else
              && LeftIn(ks, b, key, Entry(e.value.data, at), at.value <= now)
              && r == Fine(Int(1))
  {
    hide Spares, Swept, Delete, Altered, ParseInt, GetEntry;
    var key, at, e := args[0], ParseInt(args[1]), GetEntry(ks, args[0], now);
    SweepSpares(ks, key, now);
    LiveUntilExpiry(ks, key, now);
    if e.Some? && at.Some? {
      DeleteSpares(ks, key);
      AlterSpares(ks, key, e.value.(expireAt := at));
    }
  }

  /** PERSIST takes the expiry off a living entry that has one, and says if it did. */
  lemma PersistEffect(args: seq<bytes>, ks: KS, now: int)
    requires |args| >= 1
    ensures var key, e, (b, r) := args[0], GetEntry(ks, args[0], now), Execute(PersistKind, args, ks, now);
            if e.None? then Spares(ks, b, key) && key !in b.entries && r == Fine(Int(0))
            else if e.value.expireAt.None? then b == ks && r == Fine(Int(0))
            else SetIn(ks, b, key, Entry(e.value.data, None)) && r == Fine(Int(1))
  {
    hide Spares, Swept, Altered, GetEntry;
    var key, e := args[0], GetEntry(ks, args[0], now);
    SweepSpares(ks, key, now);
    LiveUntilExpiry(ks, key, now);
    if e.Some? {
      AlterSpares(ks, key, e.value.(expireAt := None));
    }
  }

  /** RENAME moves a living entry as it is, over whatever is there; onto itself it deletes it. */
  lemma RenameEffect(args: seq<bytes>, ks: KS, now: int)
    requires |args| >= 2
    ensures var source, destination := args[0], args[1];
            var e, (b, r) := GetEntry(ks, source, now), Execute(RenameKind, args, ks, now);
            && source !in b.entries
            && SparesAll(ks, b, {source, destination})
            && (e.None? ==> Spares(ks, b, source) && r == Oops(NoSuchKey))
            && (e.Some? ==> r == Fine(Simple([79, 75])))
            && (e.Some? && source != destination ==> Stored(b, destination) == e)
  {
    hide Dropped;
  }

  /** FLUSHDB leaves nothing, and touches no key that was not stored. */
  lemma FlushDbEffect(args: seq<bytes>, ks: KS, now: int)
    requires WellFormed(ks)
    ensures var (b, r) := Execute(FlushDbKind, args, ks, now);
            b.entries == map[] && r == Fine(Simple([79, 75])) && SparesAll(ks, b, ks.entries.Keys)
  {
    MarkedOnly(ks, ks.order);
  }

  lemma {:induction false} MarkedOnly(ks: KS, keys: seq<bytes>)
    ensures forall k :: k !in keys ==> Version(MarkAll(ks, keys), k) == Version(ks, k)
    decreases |keys|
  {
    if keys != [] {
      MarkedOnly(Mark(ks, keys[0]), keys[1..]);
      assert keys == [keys[0]] + keys[1..];
    }
  }
}