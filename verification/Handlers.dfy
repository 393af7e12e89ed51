// The handlers of commands/*.py and the value objects of storage/datatypes/, step by step on a keyspace object.

module Handlers {
  import opened Bytes
  import opened Resp
  import opened Keyspaces
  import opened Commands
  import SkipLists
  import SortedSetStores

  // ---------------------------------------------------------------------------------------------
  // Value objects: what their loops compute, and the counts that they return
  // ---------------------------------------------------------------------------------------------

  method PushLeft(items: seq<bytes>, values: seq<bytes>) returns (r: seq<bytes>)
    ensures r == Reverse(values) + items
  {
    r := items;
    for i := 0 to |values|
      invariant Reverse(values) + items == Reverse(values[i..]) + r
    {
      assert values[i..][0] == values[i] && values[i..][1..] == values[i + 1..];
      assert Reverse(values[i..]) + r == Reverse(values[i + 1..]) + ([values[i]] + r);
      r := [values[i]] + r;
    }
  }

  method PushRight(items: seq<bytes>, values: seq<bytes>) returns (r: seq<bytes>)
    ensures r == items + values
  {
    r := items;
    for i := 0 to |values|
      invariant r == items + values[..i]
    {
      r := r + [values[i]];
    }
  }

  method PopLeft(items: seq<bytes>, count: nat) returns (r: seq<bytes>, popped: seq<bytes>)
    ensures var k := if count < |items| then count else |items|; r == items[k..] && popped == items[..k]
  {
    r, popped := items, [];
    var k := if count < |items| then count else |items|;
    for i := 0 to k
      invariant r == items[i..] && popped == items[..i]
    {
      popped := popped + [r[0]];
      r := r[1..];
    }
  }

  method AddMembers(members: set<bytes>, values: seq<bytes>) returns (r: set<bytes>, added: nat)
    ensures r == members + set m | m in values
    ensures added == |r| - |members|
  {
    r, added := members, 0;
    for i := 0 to |values|
      invariant r == members + set m | m in values[..i]
      invariant added == |r| - |members|
    {
      assert values[..i + 1] == values[..i] + [values[i]];
      if values[i] !in r {
        added := added + 1;
      }
      r := r + {values[i]};
    }
    assert values[..|values|] == values;
  }

  method RemoveMembers(members: set<bytes>, values: seq<bytes>) returns (r: set<bytes>, removed: nat)
    ensures r == members - set m | m in values
    ensures removed == |members| - |r|
  {
    r, removed := members, 0;
    for i := 0 to |values|
      invariant r == members - set m | m in values[..i]
      invariant removed == |members| - |r|
    {
      assert values[..i + 1] == values[..i] + [values[i]];
      if values[i] in r {
        removed := removed + 1;
      }
      r := r - {values[i]};
    }
    assert values[..|values|] == values;
  }

  method SetFields(fields: map<bytes, bytes>, pairs: seq<bytes>) returns (r: map<bytes, bytes>, added: nat)
    requires |pairs| % 2 == 0
    ensures r == WithFields(fields, pairs)
    ensures added == |r| - |fields|
  {
    r, added := fields, 0;
    var i := 0;
    while i < |pairs|
      invariant i <= |pairs| && i % 2 == 0
      invariant WithFields(fields, pairs) == WithFields(r, pairs[i..])
      invariant added == |r| - |fields|
    {
      assert pairs[i..][0] == pairs[i] && pairs[i..][1] == pairs[i + 1] && pairs[i..][2..] == pairs[i + 2..];
      if pairs[i] !in r {
        added := added + 1;
      } else {
        assert r[pairs[i] := pairs[i + 1]].Keys == r.Keys;
      }
      r := r[pairs[i] := pairs[i + 1]];
      i := i + 2;
    }
  }

  method DeleteFields(fields: map<bytes, bytes>, names: seq<bytes>) returns (r: map<bytes, bytes>, deleted: nat)
    ensures r == fields - set m | m in names
    ensures deleted == |fields| - |r|
  {
    r, deleted := fields, 0;
    for i := 0 to |names|
      invariant r == Without(fields, names[..i]) && deleted == |fields| - |r|
    {
      OneLess(fields, names, i);
      if names[i] in r {
        deleted := deleted + 1;
      }
      r := r - {names[i]};
    }
    assert names[..|names|] == names;
  }

  function Without(fields: map<bytes, bytes>, names: seq<bytes>): map<bytes, bytes> {
    fields - set m | m in names
  }

  lemma OneLess(fields: map<bytes, bytes>, names: seq<bytes>, i: nat)
    requires i < |names|
    ensures var r, name := Without(fields, names[..i]), names[i];
            && Without(fields, names[..i + 1]) == r - {name}
            && |r - {name}| == if name in r then |r| - 1 else |r|
  {
    var r, name := Without(fields, names[..i]), names[i];
    assert names[..i + 1] == names[..i] + [name];
    assert Without(fields, names[..i + 1]).Keys == (r - {name}).Keys == r.Keys - {name};
    assert |r| == |r.Keys| && |r - {name}| == |(r - {name}).Keys|;
  }

  /** zadd, on the dictionary of a sorted set: its skip list follows (`SortedSetStore.ZAdd`). */
  method AddPairs(scores: map<bytes, int>, pairs: seq<SkipLists.Pair>, nx: bool, xx: bool, ch: bool)
    returns (r: map<bytes, int>, count: nat)
    ensures r == SortedSetStores.AddedAll(scores, pairs, nx, xx)
    ensures count == if ch then SortedSetStores.ChangedCount(scores, pairs, nx, xx) else |r| - |scores|
  {
    hide SortedSetStores.AddedAll, SortedSetStores.ChangedCount;
    r := scores;
    var added, changed := 0, 0;
    NoneAdded(scores, pairs, nx, xx);
    for i := 0 to |pairs|
      invariant r == SortedSetStores.AddedAll(scores, pairs[..i], nx, xx) && added == |r| - |scores|
      invariant changed == SortedSetStores.ChangedCount(scores, pairs[..i], nx, xx)
    {
      OneAdded(scores, pairs, i, nx, xx);
      var score, member := pairs[i].score, pairs[i].member;
      var present := member in r;
      if (nx && present) || (xx && !present) {
        continue;
      }
      if present {
        if r[member] != score {
          changed := changed + 1;
        }
      } else {
        added, changed := added + 1, changed + 1;
      }
      r := r[member := score];
    }
    assert pairs[..|pairs|] == pairs;
    count := if ch then changed else added;
  }

  lemma NoneAdded(scores: map<bytes, int>, pairs: seq<SkipLists.Pair>, nx: bool, xx: bool)
    ensures SortedSetStores.AddedAll(scores, pairs[..0], nx, xx) == scores
    ensures SortedSetStores.ChangedCount(scores, pairs[..0], nx, xx) == 0
  {
  }

  /** One round: what becomes of the dictionary, its size, and the count of changes. */
  lemma OneAdded(scores: map<bytes, int>, pairs: seq<SkipLists.Pair>, i: nat, nx: bool, xx: bool)
    requires i < |pairs|
    ensures var r := SortedSetStores.AddedAll(scores, pairs[..i], nx, xx);
            var m, score := pairs[i].member, pairs[i].score;
            var skip := (nx && m in r) || (xx && m !in r);
            && SortedSetStores.AddedAll(scores, pairs[..i + 1], nx, xx) == (if skip then r else r[m := score])
            && |r[m := score]| == |r| + (if m in r then 0 else 1)
            && SortedSetStores.ChangedCount(scores, pairs[..i + 1], nx, xx) ==
               SortedSetStores.ChangedCount(scores, pairs[..i], nx, xx) +
               if skip || (m in r && r[m] == score) then 0 else 1
  {
    hide SortedSetStores.AddedAll, SortedSetStores.ChangedCount;
    var r := SortedSetStores.AddedAll(scores, pairs[..i], nx, xx);
    var m, score := pairs[i].member, pairs[i].score;
    LastAdded(scores, pairs[..i + 1], nx, xx);
    assert pairs[..i + 1][..i] == pairs[..i];
    StoredSize(r, m, score);
  }

  lemma LastAdded(scores: map<bytes, int>, pairs: seq<SkipLists.Pair>, nx: bool, xx: bool)
    requires pairs != []
    ensures var n := |pairs| - 1;
            var before := SortedSetStores.AddedAll(scores, pairs[..n], nx, xx);
            var after := SortedSetStores.Added(before, pairs[n].score, pairs[n].member, nx, xx);
            && SortedSetStores.AddedAll(scores, pairs, nx, xx) == after
            && SortedSetStores.ChangedCount(scores, pairs, nx, xx) ==
               SortedSetStores.ChangedCount(scores, pairs[..n], nx, xx) + if after != before then 1 else 0
  {
    hide SortedSetStores.Added;
  }

  lemma StoredSize(r: map<bytes, int>, m: bytes, score: int)
    ensures |r[m := score]| == |r| + if m in r then 0 else 1
    ensures r[m := score] == r <==> m in r && r[m] == score
  {
    assert r[m := score].Keys == r.Keys + {m};
    assert |r[m := score].Keys| == |r[m := score]| && |r.Keys| == |r|;
    assert r[m := score][m] == score;
  }

  /** zrem, on the dictionary. */
  method RemovePairs(scores: map<bytes, int>, members: seq<bytes>) returns (r: map<bytes, int>, removed: nat)
    ensures r == SortedSetStores.RemovedAll(scores, members)
    ensures removed == |scores| - |r|
  {
    hide SortedSetStores.RemovedAll;
    r, removed := scores, 0;
    NoneRemoved(scores, members);
    for i := 0 to |members|
      invariant r == SortedSetStores.RemovedAll(scores, members[..i]) && removed == |scores| - |r|
    {
      OneRemoved(scores, members, i);
      if members[i] in r {
        removed := removed + 1;
      }
      r := r - {members[i]};
    }
    assert members[..|members|] == members;
  }

  lemma NoneRemoved(scores: map<bytes, int>, members: seq<bytes>)
    ensures SortedSetStores.RemovedAll(scores, members[..0]) == scores
  {
  }

  lemma OneRemoved(scores: map<bytes, int>, members: seq<bytes>, i: nat)
    requires i < |members|
    ensures var r, m := SortedSetStores.RemovedAll(scores, members[..i]), members[i];
            && SortedSetStores.RemovedAll(scores, members[..i + 1]) == r - {m}
            && |r - {m}| == if m in r then |r| - 1 else |r|
  {
    var r, m := SortedSetStores.RemovedAll(scores, members[..i]), members[i];
    assert members[..i + 1][..i] == members[..i];
    assert (r - {m}).Keys == r.Keys - {m};
    assert |r.Keys| == |r| && |(r - {m}).Keys| == |r - {m}|;
  }

  // ---------------------------------------------------------------------------------------------
  // Looking up, making, and leaving a value
  // ---------------------------------------------------------------------------------------------

  method GetTyped(keyspace: Keyspace, key: bytes, t: DataType, now: int) returns (f: Fetched)
    requires keyspace.Valid()
    modifies keyspace
    ensures keyspace.Valid() && keyspace.View() == Swept(old(keyspace.View()), key, now)
    ensures f == Typed(old(keyspace.View()), key, t, now)
  {
    hide WellFormed, Swept, GetEntry;
    var e := keyspace.FetchEntry(key, now);
    f := if e == None then Missing else if TypeOf(e.value.data) == t then Found(e.value) else Mismatch;
  }

  /** A missing key gets an empty container; None is a value of another type. */
  method Open(keyspace: Keyspace, key: bytes, initial: Data, now: int) returns (data: Option<Data>)
    requires keyspace.Valid()
    modifies keyspace
    ensures keyspace.Valid()
    ensures var up := Upsert(old(keyspace.View()), key, initial, TypeOf(initial), now);
            && keyspace.View() == (if up.Some? then up.value else Swept(old(keyspace.View()), key, now))
            && data == if up.Some? then Some(up.value.entries[key].data) else None
  {
    hide WellFormed, Swept, GetEntry;
    var f := GetTyped(keyspace, key, TypeOf(initial), now);
    match f
    case Mismatch => data := None;
    case Missing =>
      keyspace.SetEntry(key, Entry(initial, None));
      data := Some(initial);
    case Found(e) => data := Some(e.data);
  }

  /** The value was changed, and the key is marked. */
  method Leave(keyspace: Keyspace, key: bytes, data: Data)
    requires keyspace.Valid() && key in keyspace.entries
    modifies keyspace
    ensures keyspace.Valid() && keyspace.View() == Mutated(old(keyspace.View()), key, data)
  {
    StepAltered(keyspace.View(), key, keyspace.entries[key].(data := data));
    keyspace.EditValue(key, data);
    keyspace.MarkModified(key);
  }

  /** The value was made smaller: an emptied one is deleted with its key. */
  method LeaveSmaller(keyspace: Keyspace, key: bytes, data: Data, empty: bool)
    requires keyspace.Valid() && key in keyspace.entries
    modifies keyspace
    ensures keyspace.Valid() && keyspace.View() == Shrunk(old(keyspace.View()), key, data, empty)
  {
    hide WellFormed, Delete, Mutated;
    if empty {
      keyspace.EditValue(key, data);
      var _ := keyspace.DeleteKey(key);
    } else {
      Leave(keyspace, key, data);
    }
  }

  // ---------------------------------------------------------------------------------------------
  // Strings
  // ---------------------------------------------------------------------------------------------

  method RunGetCommand(keyspace: Keyspace, args: seq<bytes>, now: int) returns (reply: Reply)
    requires keyspace.Valid() && |args| >= 1
    modifies keyspace
    ensures keyspace.Valid()
    ensures (keyspace.View(), reply) == RunGet(old(keyspace.View()), args, now)
  {
    hide WellFormed, Swept, GetEntry, Typed;
    var f := GetTyped(keyspace, args[0], StringType, now);
    match f
    case Missing => reply := Fine(Null);
    case Mismatch => reply := Oops(WrongType);
    case Found(e) => reply := Fine(Bulk(e.data.text));
  }

  /** SET: look up, decide, store. */
  method RunSetCommand(keyspace: Keyspace, args: seq<bytes>, now: int) returns (reply: Reply)
    requires keyspace.Valid() && |args| >= 2
    modifies keyspace
    ensures keyspace.Valid()
    ensures (keyspace.View(), reply) == RunSet(old(keyspace.View()), args, now)
  {
    hide WellFormed, Swept, Set;
    var key := args[0];
    var options := ParseSetOptions(args[2..], NO_OPTIONS);
    if options.Refused? {
      return Oops(options.error);
    }
    var o := options.opts;
    if o.nx && o.xx {
      return Oops(Syntax);
    }
    var existing := keyspace.FetchEntry(key, now);
    if existing.Some? && !existing.value.data.StringData? && o.get {
      return Oops(WrongType);
    }
    if (o.nx && existing.Some?) || (o.xx && existing.None?) {
      return Fine(if o.get then TextReply(existing) else Null);
    }
    var expireAt :=
      if o.ex.Some? then Some(now + o.ex.value * 1000)
      else if o.px.Some? then Some(now + o.px.value)
      else if o.keepTtl && existing.Some? then existing.value.expireAt
      else None;
    keyspace.SetEntry(key, Entry(StringData(args[1]), expireAt));
    reply := Fine(if o.get then TextReply(existing) else OK);
  }

  method RunAppendCommand(keyspace: Keyspace, args: seq<bytes>, now: int) returns (reply: Reply)
    requires keyspace.Valid() && |args| >= 2
    modifies keyspace
    ensures keyspace.Valid()
    ensures (keyspace.View(), reply) == RunAppend(old(keyspace.View()), args, now)
  {
    hide WellFormed, Swept, GetEntry, Typed, Set;
    var f := GetTyped(keyspace, args[0], StringType, now);
    if f.Mismatch? {
      return Oops(WrongType);
    }
    var text := if f.Found? then f.entry.data.text + args[1] else args[1];
    keyspace.SetEntry(args[0], Entry(StringData(text), if f.Found? then f.entry.expireAt else None));
    reply := IntReply(|text|);
  }

  method RunIncrByCommand(keyspace: Keyspace, args: seq<bytes>, now: int) returns (reply: Reply)
    requires keyspace.Valid() && |args| >= 2
    modifies keyspace
    ensures keyspace.Valid()
    ensures (keyspace.View(), reply) == RunIncrBy(old(keyspace.View()), args, now)
  {
    hide WellFormed, Swept, GetEntry, Typed, Set, ParseInt, Decimal;
    var delta := ParseInt(args[1]);
    if delta == None {
      return Oops(NotAnInteger);
    }
    var f := GetTyped(keyspace, args[0], StringType, now);
    if f.Mismatch? {
      return Oops(WrongType);
    }
    var n := if f.Found? then ParseInt(f.entry.data.text) else Some(0);
    if n == None {
      return Oops(NotAnInteger);
    }
    var text := Decimal(n.value + delta.value);
    keyspace.SetEntry(args[0], Entry(StringData(text), if f.Found? then f.entry.expireAt else None));
    reply := IntReply(n.value + delta.value);
  }

  // ---------------------------------------------------------------------------------------------
  // Containers
  // ---------------------------------------------------------------------------------------------

  method RunPushCommand(keyspace: Keyspace, args: seq<bytes>, left: bool, now: int) returns (reply: Reply)
    requires keyspace.Valid() && |args| >= 1
    modifies keyspace
    ensures keyspace.Valid()
    ensures (keyspace.View(), reply) == RunPush(old(keyspace.View()), args, left, now)
  {
    hide WellFormed, Swept, Upsert, Mutated, Reverse;
    var data := Open(keyspace, args[0], ListData([]), now);
    if data == None {
      return Oops(WrongType);
    }
    var items;
    if left {
      items := PushLeft(data.value.items, args[1..]);
    } else {
      items := PushRight(data.value.items, args[1..]);
    }
    Leave(keyspace, args[0], ListData(items));
    reply := IntReply(|items|);
  }

  method RunLPopCommand(keyspace: Keyspace, args: seq<bytes>, now: int) returns (reply: Reply)
    requires keyspace.Valid() && |args| >= 1
    modifies keyspace
    ensures keyspace.Valid()
    ensures (keyspace.View(), reply) == RunLPop(old(keyspace.View()), args, now)
  {
    hide WellFormed, Swept, GetEntry, Typed, Shrunk, ParseInt;
    var count := if |args| > 1 then ParseInt(args[1]) else Some(1);
    if count == None {
      return Oops(NotAnInteger);
    }
    if count.value < 0 {
      return Oops(OutOfRange);
    }
    var f := GetTyped(keyspace, args[0], ListType, now);
    if f.Mismatch? {
      return Oops(WrongType);
    }
    if f.Missing? {
      return Fine(if |args| > 1 then Array([]) else Null);
    }
    var items, popped := PopLeft(f.entry.data.items, count.value);
    LeaveSmaller(keyspace, args[0], ListData(items), |items| == 0);
    reply := Fine(if |args| > 1 then Array(Bulks(popped)) else if popped != [] then Bulk(popped[0]) else Null);
  }

  method RunSAddCommand(keyspace: Keyspace, args: seq<bytes>, now: int) returns (reply: Reply)
    requires keyspace.Valid() && |args| >= 1
    modifies keyspace
    ensures keyspace.Valid()
    ensures (keyspace.View(), reply) == RunSAdd(old(keyspace.View()), args, now)
  {
    hide WellFormed, Swept, Upsert, Mutated;
    var data := Open(keyspace, args[0], SetData({}), now);
    if data == None {
      return Oops(WrongType);
    }
    var members, added := AddMembers(data.value.members, args[1..]);
    Leave(keyspace, args[0], SetData(members));
    reply := IntReply(added);
  }

  method RunSRemCommand(keyspace: Keyspace, args: seq<bytes>, now: int) returns (reply: Reply)
    requires keyspace.Valid() && |args| >= 1
    modifies keyspace
    ensures keyspace.Valid()
    ensures (keyspace.View(), reply) == RunSRem(old(keyspace.View()), args, now)
  {
    hide WellFormed, Swept, GetEntry, Typed, Shrunk;
    var f := GetTyped(keyspace, args[0], SetType, now);
    if f.Mismatch? {
      return Oops(WrongType);
    }
    if f.Missing? {
      return IntReply(0);
    }
    var members, removed := RemoveMembers(f.entry.data.members, args[1..]);
    LeaveSmaller(keyspace, args[0], SetData(members), members == {});
    reply := IntReply(removed);
  }

  method RunHSetCommand(keyspace: Keyspace, args: seq<bytes>, now: int) returns (reply: Reply)
    requires keyspace.Valid() && |args| >= 1
    modifies keyspace
    ensures keyspace.Valid()
    ensures (keyspace.View(), reply) == RunHSet(old(keyspace.View()), args, now)
  {
    hide WellFormed, Swept, Upsert, Mutated, WithFields;
    if (|args| - 1) % 2 != 0 {
      return Oops(Syntax);
    }
    var data := Open(keyspace, args[0], HashData(map[]), now);
    if data == None {
      return Oops(WrongType);
    }
    var fields, added := SetFields(data.value.fields, args[1..]);
    Leave(keyspace, args[0], HashData(fields));
    reply := IntReply(added);
  }

  method RunHDelCommand(keyspace: Keyspace, args: seq<bytes>, now: int) returns (reply: Reply)
    requires keyspace.Valid() && |args| >= 1
    modifies keyspace
    ensures keyspace.Valid()
    ensures (keyspace.View(), reply) == RunHDel(old(keyspace.View()), args, now)
  {
    hide WellFormed, Swept, GetEntry, Typed, Shrunk;
    var f := GetTyped(keyspace, args[0], HashType, now);
    if f.Mismatch? {
      return Oops(WrongType);
    }
    if f.Missing? {
      return IntReply(0);
    }
    var fields, deleted := DeleteFields(f.entry.data.fields, args[1..]);
    LeaveSmaller(keyspace, args[0], HashData(fields), fields == map[]);
    reply := IntReply(deleted);
  }

  /** The flags, up to the first argument that is none. */
  method ReadZFlags(args: seq<bytes>) returns (f: ZFlags)
    ensures f == ParseZFlags(args, false, false, false)
  {
    hide Upper, Ascii;
    var i, nx, xx, ch := 0, false, false, false;
    while i < |args|
      invariant i <= |args|
      invariant ParseZFlags(args, false, false, false) == ParseZFlags(args[i..], nx, xx, ch)
    {
      var flag := Upper(args[i]);
      assert args[i..][0] == args[i] && args[i..][1..] == args[i + 1..];
      if flag == Ascii("NX") {
        nx := true;
      } else if flag == Ascii("XX") {
        xx := true;
      } else if flag == Ascii("CH") {
        ch := true;
      } else {
        break;
      }
      i := i + 1;
    }
    f := ZFlags(nx, xx, ch, args[i..]);
  }

  /** The pairs, up to the first score that is no number. */
  method ReadPairs(args: seq<bytes>) returns (pairs: Option<seq<SkipLists.Pair>>)
    requires |args| % 2 == 0
    ensures pairs == ParsePairs(args)
  {
    hide ParseScore;
    var done, i := [], 0;
    assert args[0..] == args;
    assert ParsePairs(args).Some? ==> [] + ParsePairs(args).value == ParsePairs(args).value;
    while i < |args|
      invariant i <= |args| && i % 2 == 0
      invariant ParsePairs(args) ==
                if ParsePairs(args[i..]).Some? then Some(done + ParsePairs(args[i..]).value) else None
    {
      var score := ParseScore(args[i]);
      assert args[i..][0] == args[i] && args[i..][1] == args[i + 1] && args[i..][2..] == args[i + 2..];
      if score == None {
        return None;
      }
      var pair := SkipLists.Pair(score.value, args[i + 1]);
      assert forall rest :: done + ([pair] + rest) == (done + [pair]) + rest;
      done := done + [pair];
      i := i + 2;
    }
    assert done + [] == done;
    pairs := Some(done);
  }

  method RunZAddCommand(keyspace: Keyspace, args: seq<bytes>, now: int) returns (reply: Reply)
    requires keyspace.Valid() && |args| >= 1
    modifies keyspace
    ensures keyspace.Valid()
    ensures (keyspace.View(), reply) == RunZAdd(old(keyspace.View()), args, now)
  {
    hide WellFormed, Swept, Upsert, Mutated, ParseZFlags, ParsePairs, SortedSetStores.AddedAll,
      SortedSetStores.ChangedCount;
    var f := ReadZFlags(args[1..]);
    if |f.rest| % 2 != 0 || |f.rest| == 0 {
      return Oops(Syntax);
    }
    var pairs := ReadPairs(f.rest);
    if pairs == None {
      return Oops(NotAFloat);
    }
    var data := Open(keyspace, args[0], ZSetData(map[]), now);
    if data == None {
      return Oops(WrongType);
    }
    var scores, count := AddPairs(data.value.scores, pairs.value, f.nx, f.xx, f.ch);
    Leave(keyspace, args[0], ZSetData(scores));
    reply := IntReply(count);
  }

  method RunZRemCommand(keyspace: Keyspace, args: seq<bytes>, now: int) returns (reply: Reply)
    requires keyspace.Valid() && |args| >= 1
    modifies keyspace
    ensures keyspace.Valid()
    ensures (keyspace.View(), reply) == RunZRem(old(keyspace.View()), args, now)
  {
    hide WellFormed, Swept, GetEntry, Typed, Shrunk, SortedSetStores.RemovedAll;
    var f := GetTyped(keyspace, args[0], ZSetType, now);
    if f.Mismatch? {
      return Oops(WrongType);
    }
    if f.Missing? {
      return IntReply(0);
    }
    var scores, removed := RemovePairs(f.entry.data.scores, args[1..]);
    LeaveSmaller(keyspace, args[0], ZSetData(scores), scores == map[]);
    reply := IntReply(removed);
  }

  // ---------------------------------------------------------------------------------------------
  // Keys, and all commands together
  // ---------------------------------------------------------------------------------------------

  /** The commands that are nothing but keyspace operations. */
  method RunKeyCommand(keyspace: Keyspace, kind: Kind, args: seq<bytes>, now: int) returns (reply: Reply)
    requires keyspace.Valid() && kind in {DelKind, PExpireAtKind, PersistKind, RenameKind, FlushDbKind} &&
             EnoughArgs(kind, |args|)
    modifies keyspace
    ensures keyspace.Valid()
    ensures (keyspace.View(), reply) == Execute(kind, args, old(keyspace.View()), now)
  {
    hide WellFormed, DeleteAll, ExpireAt, Persist, Rename, Flush, GetEntry;
    match kind
    case DelKind =>
      var n := keyspace.DeleteKeys(args);
      reply := IntReply(n);
    case PExpireAtKind =>
      var at := ParseInt(args[1]);
      if at == None {
        return Oops(NotAnInteger);
      }
      var done := keyspace.ExpireEntryAt(args[0], at.value, now);
      reply := IntReply(if done then 1 else 0);
    case PersistKind =>
      var done := keyspace.PersistEntry(args[0], now);
      reply := IntReply(if done then 1 else 0);
    case RenameKind =>
      var found := keyspace.RenameKey(args[0], args[1], now);
      reply := if found then Fine(OK) else Oops(NoSuchKey);
    case FlushDbKind =>
      keyspace.FlushKeys();
      reply := Fine(OK);
  }

  method RunContainerCommand(keyspace: Keyspace, kind: Kind, args: seq<bytes>, now: int) returns (reply: Reply)
    requires keyspace.Valid() && EnoughArgs(kind, |args|)
    requires kind in {LPushKind, RPushKind, LPopKind, SAddKind, SRemKind, HSetKind, HDelKind, ZAddKind, ZRemKind}
    modifies keyspace
    ensures keyspace.Valid()
    ensures (keyspace.View(), reply) == Execute(kind, args, old(keyspace.View()), now)
  {
    hide WellFormed, RunPush, RunLPop, RunSAdd, RunSRem, RunHSet, RunHDel, RunZAdd, RunZRem;
    match kind
    case LPushKind => reply := RunPushCommand(keyspace, args, true, now);
    case RPushKind => reply := RunPushCommand(keyspace, args, false, now);
    case LPopKind => reply := RunLPopCommand(keyspace, args, now);
    case SAddKind => reply := RunSAddCommand(keyspace, args, now);
    case SRemKind => reply := RunSRemCommand(keyspace, args, now);
    case HSetKind => reply := RunHSetCommand(keyspace, args, now);
    case HDelKind => reply := RunHDelCommand(keyspace, args, now);
    case ZAddKind => reply := RunZAddCommand(keyspace, args, now);
    case ZRemKind => reply := RunZRemCommand(keyspace, args, now);
  }

  /** Any data command, step by step on the keyspace object, does what its specification says. */
  method RunCommand(keyspace: Keyspace, kind: Kind, args: seq<bytes>, now: int) returns (reply: Reply)
    requires keyspace.Valid() && IsData(kind)
    modifies keyspace
    ensures keyspace.Valid()
    ensures (keyspace.View(), reply) == Execute(kind, args, old(keyspace.View()), now)
  {
    hide WellFormed, RunGet, RunSet, RunAppend, RunIncrBy;
    if !EnoughArgs(kind, |args|) {
      return Oops(OutOfRange);
    }
    if kind == GetKind {
      reply := RunGetCommand(keyspace, args, now);
    } else if kind == SetKind {
      reply := RunSetCommand(keyspace, args, now);
    } else if kind == AppendKind {
      reply := RunAppendCommand(keyspace, args, now);
    } else if kind == IncrByKind {
      reply := RunIncrByCommand(keyspace, args, now);
    } else if kind in {DelKind, PExpireAtKind, PersistKind, RenameKind, FlushDbKind} {
      reply := RunKeyCommand(keyspace, kind, args, now);
    } else {
      reply := RunContainerCommand(keyspace, kind, args, now);
    }
  }
}
