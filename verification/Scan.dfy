// A whole SCAN iteration of storage/keyspace.py: many calls, with changes to the keyspace in between.

module Scans {
  import opened Bytes
  import opened Resp
  import opened Keyspaces

  /** What may happen between two calls without moving a key: storing a value, or altering a stored entry. */
  datatype Change =
    | Store(key: bytes, entry: Entry)
    | Alter(key: bytes, entry: Entry)

  /** One call of an iteration, and what happens before the next one. */
  datatype Call = Call(count: int, now: int, changes: seq<Change>)

  /**
    * What an iteration leaves: its last cursor, all results in order, and the last call's time and keyspace, before
    * and after.
    */
  datatype Iteration = Iteration(cursor: int, results: seq<bytes>, now: int, before: KS, ks: KS)

  function Changed(ks: KS, change: Change): KS {
    match change
    case Store(key, e) => Set(ks, key, e)
    case Alter(key, e) => if key in ks.entries then Altered(ks, key, e) else ks
  }

  function ChangedAll(ks: KS, changes: seq<Change>): KS
    decreases |changes|
  {
    if changes == [] then ks else ChangedAll(Changed(ks, changes[0]), changes[1..])
  }

  /** Calls follow each other, each from the cursor of the one before, until a cursor is 0 again. */
  function Iterated(ks: KS, calls: seq<Call>, cursor: int, pattern: bytes -> bool): Iteration
    requires calls != []
    decreases |calls|
  {
    var call := calls[0];
    var (next, batch) := ScanBatch(ks.order, cursor, call.count);
    var results, after := Matching(ks, batch, pattern, call.now), SweptAll(ks, batch, call.now);
    if |calls| == 1 || next == 0 then Iteration(next, results, call.now, ks, after)
    else
      var rest := Iterated(ChangedAll(after, call.changes), calls[1..], next, pattern);
      rest.(results := results + rest.results)
  }

  ghost predicate NoneDue(ks: KS, keys: seq<bytes>, now: int) {
    forall k :: k in keys && k in ks.entries ==> !Expired(ks.entries[k], now)
  }

  /** No call before the last one comes across an entry that is due. */
  ghost predicate Undisturbed(ks: KS, calls: seq<Call>, cursor: int)
    requires calls != []
    decreases |calls|
  {
    var call := calls[0];
    var (next, batch) := ScanBatch(ks.order, cursor, call.count);
    |calls| > 1 && next != 0 ==>
      && NoneDue(ks, batch, call.now)
      && Undisturbed(ChangedAll(SweptAll(ks, batch, call.now), call.changes), calls[1..], next)
  }

  function Filtered(keys: seq<bytes>, pattern: bytes -> bool): seq<bytes> {
    if keys == [] then [] else (if pattern(keys[0]) then [keys[0]] else []) + Filtered(keys[1..], pattern)
  }

  // ---------------------------------------------------------------------------------------------
  // Filtering
  // ---------------------------------------------------------------------------------------------

  lemma {:induction false} FilteredJoin(a: seq<bytes>, b: seq<bytes>, pattern: bytes -> bool)
    ensures Filtered(a + b, pattern) == Filtered(a, pattern) + Filtered(b, pattern)
    decreases |a|
  {
    if a == [] {
      assert a + b == b;
    } else {
      var head := if pattern(a[0]) then [a[0]] else [];
      assert (a + b)[1..] == a[1..] + b && (a + b)[0] == a[0];
      FilteredJoin(a[1..], b, pattern);
      JoinThree(head, Filtered(a[1..], pattern), Filtered(b, pattern));
    }
  }

  lemma JoinThree(x: seq<bytes>, y: seq<bytes>, z: seq<bytes>)
    ensures x + (y + z) == (x + y) + z
  {
  }

  lemma {:induction false} FilteredMembers(keys: seq<bytes>, pattern: bytes -> bool)
    ensures forall k :: k in Filtered(keys, pattern) <==> k in keys && pattern(k)
  {
    if keys != [] {
      FilteredMembers(keys[1..], pattern);
      assert keys == [keys[0]] + keys[1..];
    }
  }

  lemma {:induction false} FilteredDistinct(keys: seq<bytes>, pattern: bytes -> bool)
    requires NoRepeats(keys)
    ensures NoRepeats(Filtered(keys, pattern))
  {
    if keys != [] {
      assert forall i, j :: 0 <= i < j < |keys[1..]| ==> keys[1..][i] == keys[i + 1] && keys[1..][j] == keys[j + 1];
      FilteredDistinct(keys[1..], pattern);
      FilteredMembers(keys[1..], pattern);
      assert keys[0] !in keys[1..];
    }
  }

  /** The keys that are not due, in order. */
  function Living(ks: KS, keys: seq<bytes>, now: int): (r: seq<bytes>)
    ensures |r| <= |keys|
  {
    if keys == [] then []
    else (if GetEntry(ks, keys[0], now).Some? then [keys[0]] else []) + Living(ks, keys[1..], now)
  }

  /** A call returns those of the living keys that match. */
  lemma {:induction false} MatchingIsFiltered(ks: KS, keys: seq<bytes>, pattern: bytes -> bool, now: int)
    ensures Matching(ks, keys, pattern, now) == Filtered(Living(ks, keys, now), pattern)
  {
    if keys != [] {
      MatchingIsFiltered(ks, keys[1..], pattern, now);
      var rest := Living(ks, keys[1..], now);
      assert ([keys[0]] + rest)[0] == keys[0] && ([keys[0]] + rest)[1..] == rest && [] + rest == rest;
      assert [] + Filtered(rest, pattern) == Filtered(rest, pattern);
    }
  }

  /** Among living keys a call deletes nothing. */
  lemma {:induction false} AllAlive(ks: KS, keys: seq<bytes>, now: int)
    requires (forall k :: k in keys ==> k in ks.entries) && NoneDue(ks, keys, now)
    ensures Living(ks, keys, now) == keys && SweptAll(ks, keys, now) == ks
    decreases |keys|
  {
    if keys != [] {
      AllAlive(ks, keys[1..], now);
      assert keys == [keys[0]] + keys[1..];
    }
  }

  // ---------------------------------------------------------------------------------------------
  // Storing and altering move no key
  // ---------------------------------------------------------------------------------------------

  lemma ChangedGrows(ks: KS, change: Change)
    requires WellFormed(ks)
    ensures WellFormed(Changed(ks, change)) && ks.order <= Changed(ks, change).order
  {
    match change
    case Store(key, e) => StepSet(ks, key, e);
    case Alter(key, e) =>
      if key in ks.entries {
        StepAltered(ks, key, e);
      }
  }

  lemma {:induction false} ChangedAllGrows(ks: KS, changes: seq<Change>)
    requires WellFormed(ks)
    ensures WellFormed(ChangedAll(ks, changes)) && ks.order <= ChangedAll(ks, changes).order
    decreases |changes|
  {
    if changes != [] {
      hide WellFormed, Changed;
      ChangedGrows(ks, changes[0]);
      ChangedAllGrows(Changed(ks, changes[0]), changes[1..]);
    }
  }

  // ---------------------------------------------------------------------------------------------
  // Sweeping on the way
  // ---------------------------------------------------------------------------------------------

  lemma {:induction false} DroppedInside(pre: seq<bytes>, key: bytes, post: seq<bytes>)
    requires key !in pre && key !in post
    ensures Dropped(pre + [key] + post, key) == pre + post
    decreases |pre|
  {
    var all := pre + [key] + post;
    if pre == [] {
      assert all[1..] == post;
      NothingDropped(post, key);
    } else {
      assert all[1..] == pre[1..] + [key] + post;
      DroppedInside(pre[1..], key, post);
    }
  }

  lemma {:induction false} NothingDropped(keys: seq<bytes>, key: bytes)
    requires key !in keys
    ensures Dropped(keys, key) == keys
  {
    if keys != [] {
      NothingDropped(keys[1..], key);
    }
  }

  /** Sweeping another key changes nothing about these. */
  lemma {:induction false} LivingElsewhere(ks: KS, key: bytes, keys: seq<bytes>, now: int)
    requires key !in keys
    ensures Living(Swept(ks, key, now), keys, now) == Living(ks, keys, now)
  {
    if keys != [] {
      LivingElsewhere(ks, key, keys[1..], now);
    }
  }

  /** Sweeping a run of keys takes the due ones out of the order. */
  lemma {:induction false} SweptRun(ks: KS, pre: seq<bytes>, batch: seq<bytes>, post: seq<bytes>, now: int)
    requires WellFormed(ks) && ks.order == pre + batch + post
    ensures SweptAll(ks, batch, now).order == pre + Living(ks, batch, now) + post
    decreases |batch|
  {
    hide WellFormed, Swept, GetEntry;
    if batch != [] {
      var key, ks1 := batch[0], Swept(ks, batch[0], now);
      var pre1 := if GetEntry(ks, key, now).Some? then pre + [key] else pre;
      assert ks.order == pre + [key] + (batch[1..] + post);
      SweptOne(ks, pre, key, batch[1..] + post, now);
      LivingElsewhere(ks, key, batch[1..], now);
      assert pre1 + (batch[1..] + post) == pre1 + batch[1..] + post;
      SweptRun(ks1, pre1, batch[1..], post, now);
    } else {
      assert pre + batch + post == pre + post;
    }
  }

  lemma SweptOne(ks: KS, pre: seq<bytes>, key: bytes, post: seq<bytes>, now: int)
    requires WellFormed(ks) && ks.order == pre + [key] + post
    ensures WellFormed(Swept(ks, key, now)) && key !in post
    ensures Swept(ks, key, now).order == (if GetEntry(ks, key, now).Some? then pre + [key] else pre) + post
  {
    hide Dropped;
    StepSwept(ks, key, now);
    assert ks.order[|pre|] == key;
    SplitDistinct(ks.order, pre, key, post);
    DroppedInside(pre, key, post);
  }

  lemma SplitDistinct(order: seq<bytes>, pre: seq<bytes>, key: bytes, post: seq<bytes>)
    requires NoRepeats(order) && order == pre + [key] + post
    ensures key !in pre && key !in post
  {
    assert order[|pre|] == key;
    assert forall i :: 0 <= i < |pre| ==> order[i] == pre[i];
    assert forall i :: 0 <= i < |post| ==> order[|pre| + 1 + i] == post[i];
  }

  lemma {:induction false} SweptStaysWellFormed(ks: KS, keys: seq<bytes>, now: int)
    requires WellFormed(ks)
    ensures WellFormed(SweptAll(ks, keys, now))
    decreases |keys|
  {
    hide WellFormed, Swept;
    if keys != [] {
      SweptIsWellFormed(ks, keys[0], now);
      SweptStaysWellFormed(Swept(ks, keys[0], now), keys[1..], now);
    }
  }

  lemma SweptIsWellFormed(ks: KS, key: bytes, now: int)
    requires WellFormed(ks)
    ensures WellFormed(Swept(ks, key, now))
  {
    hide WellFormed, Swept;
    StepSwept(ks, key, now);
  }

  /** What one call makes of a well-formed keyspace, of which it looks at the middle part. */
  lemma OneCall(ks: KS, cursor: nat, count: int, now: int)
    requires WellFormed(ks) && count >= 1 && cursor < |ks.order|
    ensures var (next, batch) := ScanBatch(ks.order, cursor, count);
            var end, after := if next == 0 then |ks.order| else next, SweptAll(ks, batch, now);
            && cursor < end <= |ks.order| && (next != 0 ==> next < |ks.order|) && batch == ks.order[cursor..end]
            && WellFormed(after) && after.order == ks.order[..cursor] + Living(ks, batch, now) + ks.order[end..]
            && (forall k :: k in batch ==> k in ks.entries)
  {
    hide WellFormed, SweptAll, Living, ScanBatch;
    var (next, batch) := ScanBatch(ks.order, cursor, count);
    BatchIsSlice(ks, cursor, count);
    var end := if next == 0 then |ks.order| else next;
    assert ks.order == ks.order[..cursor] + batch + ks.order[end..];
    SweptRun(ks, ks.order[..cursor], batch, ks.order[end..], now);
    SweptStaysWellFormed(ks, batch, now);
  }

  lemma BatchIsSlice(ks: KS, cursor: nat, count: int)
    requires WellFormed(ks) && count >= 1 && cursor < |ks.order|
    ensures var (next, batch) := ScanBatch(ks.order, cursor, count);
            && (next == 0 || cursor < next < |ks.order|)
            && batch == ks.order[cursor..if next == 0 then |ks.order| else next]
            && forall k :: k in batch ==> k in ks.entries
  {
  }

  // ---------------------------------------------------------------------------------------------
  // Iterations
  // ---------------------------------------------------------------------------------------------

  /**
    * From any cursor on, while no call before the last meets a due entry: the results are the matching keys of the
    * final order behind the cursor, in that order; in front of the cursor, and as far as the last call sees, no key has
    * moved.
    */
  lemma {:induction false} ScanIsComplete(ks: KS, calls: seq<Call>, cursor: int, pattern: bytes -> bool)
    requires WellFormed(ks) && calls != [] && forall i :: 0 <= i < |calls| ==> calls[i].count >= 1
    requires 0 <= cursor <= |ks.order| && (cursor == 0 || cursor < |ks.order|)
    requires Undisturbed(ks, calls, cursor)
    requires Iterated(ks, calls, cursor, pattern).cursor == 0
    ensures var all := Iterated(ks, calls, cursor, pattern);
            && WellFormed(all.ks) && ks.order <= all.before.order
            && cursor <= |all.ks.order| && all.ks.order[..cursor] == ks.order[..cursor]
            && all.results == Filtered(all.ks.order[cursor..], pattern)
    decreases |calls|
  {
    hide WellFormed, Expired, ScanBatch, Matching, SweptAll, ChangedAll, Filtered, NoneDue, Living;
    var call := calls[0];
    var (next, batch) := ScanBatch(ks.order, cursor, call.count);
    MatchingIsFiltered(ks, batch, pattern, call.now);
    if ks.order == [] {
      NothingToScan(ks, cursor, call);
    } else if |calls| > 1 && next != 0 {
      OneCall(ks, cursor, call.count, call.now);
      AllAlive(ks, batch, call.now);
      var ks1 := ChangedAll(ks, call.changes);
      ChangedAllGrows(ks, call.changes);
      ScanIsComplete(ks1, calls[1..], next, pattern);
      var rest := Iterated(ks1, calls[1..], next, pattern);
      JoinSlices(ks.order, rest.ks.order, cursor, next);
      FilteredJoin(batch, rest.ks.order[next..], pattern);
    } else {
      OneCall(ks, cursor, call.count, call.now);
      var after := SweptAll(ks, batch, call.now).order;
      assert after[cursor..] == Living(ks, batch, call.now);
    }
  }

  lemma NothingToScan(ks: KS, cursor: int, call: Call)
    requires ks.order == [] && cursor == 0
    ensures ScanBatch(ks.order, cursor, call.count) == (0, []) && SweptAll(ks, [], call.now) == ks
    ensures Living(ks, [], call.now) == []
  {
  }

  lemma JoinSlices(first: seq<bytes>, last: seq<bytes>, cursor: nat, next: nat)
    requires cursor <= next <= |first| && next <= |last| && first[..next] <= last
    ensures first[cursor..next] + last[next..] == last[cursor..]
    ensures last[..cursor] == first[..cursor]
  {
  }

  /**
    * A full iteration, from cursor 0 to cursor 0, while values are stored and altered between its calls and no call
    * before the last meets a due entry: it returns exactly the matching keys of the final keyspace, each once, and so
    * every matching key that was there from the start and is alive when the last call is made.
    */
  lemma FullScan(ks: KS, calls: seq<Call>, pattern: bytes -> bool)
    requires WellFormed(ks) && calls != [] && forall i :: 0 <= i < |calls| ==> calls[i].count >= 1
    requires Undisturbed(ks, calls, 0) && Iterated(ks, calls, 0, pattern).cursor == 0
    ensures var all := Iterated(ks, calls, 0, pattern);
            && NoRepeats(all.results)
            && (forall k :: k in all.results <==> k in all.ks.entries && pattern(k))
            && (forall k :: k in ks.entries ==> k in all.before.entries)
            && (forall k :: pattern(k) && GetEntry(all.before, k, all.now).Some? ==> k in all.results)
  {
    ScanIsComplete(ks, calls, 0, pattern);
    var all := Iterated(ks, calls, 0, pattern);
    assert all.ks.order[0..] == all.ks.order;
    FilteredMembers(all.ks.order, pattern);
    FilteredDistinct(all.ks.order, pattern);
    LastIsWellFormed(ks, calls, 0, pattern);
    assert forall k :: GetEntry(all.before, k, all.now) == GetEntry(all.ks, k, all.now);
    forall k | k in ks.entries
      ensures k in all.before.entries
    {
      var i :| 0 <= i < |ks.order| && ks.order[i] == k;
      assert all.before.order[i] == k;
    }
  }

  lemma {:induction false} SweptAllKeepsLive(was: KS, ks: KS, keys: seq<bytes>, now: int)
    requires SameLive(was, ks, now) || was == ks
    ensures SameLive(was, SweptAll(ks, keys, now), now)
    decreases |keys|
  {
    hide SameLive, Swept;
    SameLiveRefl(ks, now);
    if keys != [] {
      SameLiveSwept(was, ks, keys[0], now);
      SweptAllKeepsLive(was, Swept(ks, keys[0], now), keys[1..], now);
    }
  }

  /** The calls of an iteration keep the keyspace in order, and the last one deletes nothing that is alive. */
  lemma {:induction false} LastIsWellFormed(ks: KS, calls: seq<Call>, cursor: int, pattern: bytes -> bool)
    requires WellFormed(ks) && calls != []
    ensures var all := Iterated(ks, calls, cursor, pattern);
            WellFormed(all.before) && WellFormed(all.ks) && SameLive(all.before, all.ks, all.now)
    decreases |calls|
  {
    hide WellFormed, ScanBatch, Matching, SameLive;
    var call := calls[0];
    var (next, batch) := ScanBatch(ks.order, cursor, call.count);
    SweptStaysWellFormed(ks, batch, call.now);
    SweptAllKeepsLive(ks, ks, batch, call.now);
    if |calls| > 1 && next != 0 {
      var after := SweptAll(ks, batch, call.now);
      ChangedAllGrows(after, call.changes);
      LastIsWellFormed(ChangedAll(after, call.changes), calls[1..], next, pattern);
    }
  }

  // ---------------------------------------------------------------------------------------------
  // What an expiry on the way does
  // ---------------------------------------------------------------------------------------------

  /** What an iteration still has to look at. */
  function Behind(order: seq<bytes>, cursor: nat): seq<bytes> {
    if cursor < |order| then order[cursor..] else []
  }

  lemma BehindShifted(pre: seq<bytes>, batch: seq<bytes>, living: seq<bytes>, post: seq<bytes>)
    requires |living| <= |batch|
    ensures Behind(pre + living + post, |pre + batch|) == Behind(pre + batch + post, |pre + batch| + |batch| - |living|)
  {
    var due := |batch| - |living|;
    if due < |post| {
      assert (pre + living + post)[|pre + batch|..] == post[due..];
      assert (pre + batch + post)[|pre + batch| + due..] == post[due..];
    }
  }

  /**
    * A call that comes across due entries deletes them from the front of what is left, and the cursor does not know:
    * the next call misses as many keys, which nothing has looked at. It misses none exactly when none was due.
    */
  lemma ExpirySkips(ks: KS, cursor: nat, count: int, now: int)
    requires WellFormed(ks) && count >= 1 && cursor < |ks.order| && ScanBatch(ks.order, cursor, count).0 != 0
    ensures var (next, batch) := ScanBatch(ks.order, cursor, count);
            var after, due := SweptAll(ks, batch, now), |batch| - |Living(ks, batch, now)|;
            && |after.order| == |ks.order| - due
            && Behind(after.order, next) == Behind(ks.order, next + due)
            && (due == 0 <==> forall k :: k in batch ==> GetEntry(ks, k, now).Some?)
  {
    hide WellFormed, ScanBatch, SweptAll, GetEntry, Behind, Living;
    var (next, batch) := ScanBatch(ks.order, cursor, count);
    BatchIsSlice(ks, cursor, count);
    var pre, post := ks.order[..cursor], ks.order[next..];
    BehindShifted(pre, batch, Living(ks, batch, now), post);
    assert ks.order == pre + batch + post;
    SweptRun(ks, pre, batch, post, now);
    LivingAll(ks, batch, now);
  }

  lemma {:induction false} LivingAll(ks: KS, keys: seq<bytes>, now: int)
    ensures |Living(ks, keys, now)| == |keys| <==> forall k :: k in keys ==> GetEntry(ks, k, now).Some?
  {
    if keys != [] {
      LivingAll(ks, keys[1..], now);
      assert keys == [keys[0]] + keys[1..];
    }
  }

  function Anything(): bytes -> bool {
    _ => true
  }

  lemma {:induction false} FilteredAnything(keys: seq<bytes>)
    ensures Filtered(keys, Anything()) == keys
  {
    if keys != [] {
      FilteredAnything(keys[1..]);
    }
  }

  /** The key is in the final keyspace, but the iteration did not return it. */
  predicate Missed(all: Iteration, k: bytes) {
    k in all.ks.order && k !in all.results
  }

  /** What is in front of the cursor stays in the keyspace, and the rest of the iteration does not return it. */
  lemma {:induction false} Passed(ks: KS, calls: seq<Call>, cursor: nat, i: nat)
    requires WellFormed(ks) && calls != [] && forall j :: 0 <= j < |calls| ==> calls[j].count >= 1
    requires i < |ks.order| && i < cursor
    ensures Missed(Iterated(ks, calls, cursor, Anything()), ks.order[i])
    decreases |calls|
  {
    hide WellFormed, Matching, SweptAll, ChangedAll, Living;
    if cursor < |ks.order| {
      var call, k := calls[0], ks.order[i];
      var (next, batch) := ScanBatch(ks.order, cursor, call.count);
      OneCall(ks, cursor, call.count, call.now);
      var after := SweptAll(ks, batch, call.now);
      assert after.order[i] == k;
      NotInBatch(ks, cursor, if next == 0 then |ks.order| else next, i, call.now);
      if |calls| > 1 && next != 0 {
        ChangedAllGrows(after, call.changes);
        Passed(ChangedAll(after, call.changes), calls[1..], next, i);
      }
    } else {
      NothingBehind(ks, cursor, calls[0]);
    }
  }

  lemma NothingBehind(ks: KS, cursor: nat, call: Call)
    requires cursor >= |ks.order|
    ensures ScanBatch(ks.order, cursor, call.count) == (0, [])
    ensures SweptAll(ks, [], call.now) == ks && Matching(ks, [], Anything(), call.now) == []
  {
  }

  /** A key outside the batch is not among its results. */
  lemma NotInBatch(ks: KS, cursor: nat, end: nat, i: nat, now: int)
    requires WellFormed(ks) && cursor <= end <= |ks.order| && i < |ks.order| && (i < cursor || end <= i)
    ensures var batch := ks.order[cursor..end];
            ks.order[i] !in batch && ks.order[i] !in Matching(ks, batch, Anything(), now)
  {
    MatchingMembers(ks, ks.order[cursor..end], now);
  }

  lemma {:induction false} MatchingMembers(ks: KS, keys: seq<bytes>, now: int)
    ensures forall k :: k in Matching(ks, keys, Anything(), now) ==> k in keys
  {
    if keys != [] {
      MatchingMembers(ks, keys[1..], now);
    }
  }

  /** A call before the last that meets a due entry: some key behind its batch is missed. */
  lemma {:induction false} DueMeansMissed(ks: KS, calls: seq<Call>, cursor: nat) returns (k: bytes)
    requires WellFormed(ks) && calls != [] && forall j :: 0 <= j < |calls| ==> calls[j].count >= 1
    requires cursor < |ks.order| && !Undisturbed(ks, calls, cursor)
    ensures Missed(Iterated(ks, calls, cursor, Anything()), k) && k !in ks.order[..cursor]
    decreases |calls|
  {
    hide WellFormed, Matching, SweptAll, ChangedAll, Living, NoneDue;
    var call := calls[0];
    var (next, batch) := ScanBatch(ks.order, cursor, call.count);
    OneCall(ks, cursor, call.count, call.now);
    var after := SweptAll(ks, batch, call.now);
    var ks1 := ChangedAll(after, call.changes);
    ChangedAllGrows(after, call.changes);
    if NoneDue(ks, batch, call.now) {
      AllAlive(ks, batch, call.now);
      k := DueMeansMissed(ks1, calls[1..], next);
      assert ks1.order[..next] == ks.order[..next] == ks.order[..cursor] + batch;
      MatchingMembers(ks, batch, call.now);
    } else {
      k := ks.order[next];
      DueShortens(ks, batch, call.now);
      var i := cursor + |Living(ks, batch, call.now)|;
      assert after.order[i] == k;
      Passed(ks1, calls[1..], next, i);
      NotInBatch(ks, cursor, next, next, call.now);
      NotInFront(ks, next, cursor);
    }
  }

  lemma NotInFront(ks: KS, i: nat, cursor: nat)
    requires WellFormed(ks) && cursor <= i < |ks.order|
    ensures ks.order[i] !in ks.order[..cursor]
  {
  }

  lemma DueShortens(ks: KS, batch: seq<bytes>, now: int)
    requires (forall k :: k in batch ==> k in ks.entries) && !NoneDue(ks, batch, now)
    ensures |Living(ks, batch, now)| < |batch|
  {
    LivingAll(ks, batch, now);
  }

  lemma EmptyIsUndisturbed(ks: KS, calls: seq<Call>)
    requires calls != []
    ensures ks.order == [] ==> Undisturbed(ks, calls, 0)
  {
  }

  /** Exactly: a full iteration returns the final keyspace if and only if no call before the last meets a due entry. */
  lemma FullScanExactly(ks: KS, calls: seq<Call>)
    requires WellFormed(ks) && calls != [] && forall i :: 0 <= i < |calls| ==> calls[i].count >= 1
    requires Iterated(ks, calls, 0, Anything()).cursor == 0
    ensures var all := Iterated(ks, calls, 0, Anything());
            (forall k :: k in all.ks.entries ==> k in all.results) <==> Undisturbed(ks, calls, 0)
  {
    var all := Iterated(ks, calls, 0, Anything());
    LastIsWellFormed(ks, calls, 0, Anything());
    EmptyIsUndisturbed(ks, calls);
    if Undisturbed(ks, calls, 0) {
      FullScan(ks, calls, Anything());
    } else {
      var k := DueMeansMissed(ks, calls, 0);
      assert k in all.ks.entries;
    }
  }

  /** Two keys, one key a call, and the first one due: the other is never looked at. */
  lemma DueHidesLiving(t: int) returns (ks: KS, calls: seq<Call>)
    ensures WellFormed(ks) && GetEntry(ks, [98], t) == Some(Entry(StringData([]), None))
    ensures |calls| == 2 && calls[0] == calls[1] == Call(1, t, [])
    ensures Iterated(ks, calls, 0, Anything()).cursor == 0 && Iterated(ks, calls, 0, Anything()).results == []
    ensures [98] in Iterated(ks, calls, 0, Anything()).ks.entries
  {
    var due, alive := Entry(StringData([]), Some(t)), Entry(StringData([]), None);
    ks := KS(map[[97] := due, [98] := alive], [[97], [98]], map[], 0);
    calls := [Call(1, t, []), Call(1, t, [])];
    assert ks.order[0] == [97] && [97][0] != [98][0];
    assert ks.order[0..1] == [[97]];
    assert ScanBatch(ks.order, 0, 1) == (1, [[97]]);
    assert [[97]][1..] == [];
    var after := Delete(ks, [97]);
    assert SweptAll(ks, [[97]], t) == after;
    assert ks.order[1..] == [[98]] && [[98]][1..] == [];
    assert Dropped([[98]], [97]) == [[98]];
    assert after.order == [[98]];
    assert ScanBatch(after.order, 1, 1) == (0, []);
    assert Matching(ks, [[97]], Anything(), t) == [];
  }
}
