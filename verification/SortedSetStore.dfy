// The sorted set of sorted_set_store.py: a skip list and a dictionary from members to scores.

module SortedSetStores {
  import opened Basics
  import opened Bytes
  import opened Resp
  import opened SkipLists

  type Scores = map<bytes, int>

  // ---------------------------------------------------------------------------------------------
  // What the operations mean, on the dictionary alone
  // ---------------------------------------------------------------------------------------------

  /** One pair of a zadd. */
  function Added(d: Scores, score: int, member: bytes, nx: bool, xx: bool): Scores {
    if (nx && member in d) || (xx && member !in d) then d else d[member := score]
  }

  function AddedAll(d: Scores, pairs: seq<Pair>, nx: bool, xx: bool): Scores {
    if pairs == [] then d
    else
      var last := pairs[|pairs| - 1];
      Added(AddedAll(d, pairs[..|pairs| - 1], nx, xx), last.score, last.member, nx, xx)
  }

  /** How many pairs of a zadd change the dictionary when they are reached. */
  function ChangedCount(d: Scores, pairs: seq<Pair>, nx: bool, xx: bool): nat {
    if pairs == [] then 0
    else
      var before := AddedAll(d, pairs[..|pairs| - 1], nx, xx);
      ChangedCount(d, pairs[..|pairs| - 1], nx, xx) +
      if AddedAll(d, pairs, nx, xx) != before then 1 else 0
  }

  function RemovedAll(d: Scores, members: seq<bytes>): Scores {
    if members == [] then d else RemovedAll(d, members[..|members| - 1]) - {members[|members| - 1]}
  }

  /** zrem takes out exactly the members named, whatever the order and however often. */
  lemma {:induction false} RemovedAllMeans(d: Scores, members: seq<bytes>)
    ensures RemovedAll(d, members) == map m | m in d && m !in members :: d[m]
  {
    if members != [] {
      RemovedAllMeans(d, members[..|members| - 1]);
      assert members == members[..|members| - 1] + [members[|members| - 1]];
    }
  }

  predicate Names(pairs: seq<Pair>, m: bytes) {
    exists i :: 0 <= i < |pairs| && pairs[i].member == m
  }

  lemma NamesMore(pairs: seq<Pair>, m: bytes)
    requires pairs != []
    ensures Names(pairs, m) <==> Names(pairs[..|pairs| - 1], m) || pairs[|pairs| - 1].member == m
  {
    var n := |pairs| - 1;
    assert forall i :: 0 <= i < n ==> pairs[..n][i] == pairs[i];
    if Names(pairs, m) {
      var i :| 0 <= i < |pairs| && pairs[i].member == m;
      assert i < n ==> pairs[..n][i].member == m;
    }
  }

  /** The members after a zadd: with xx the old ones, otherwise also those named. */
  lemma {:induction false} AddedMembers(d: Scores, pairs: seq<Pair>, nx: bool, xx: bool, m: bytes)
    ensures m in AddedAll(d, pairs, nx, xx) <==> m in d || (!xx && Names(pairs, m))
  {
    hide Names;
    if pairs == [] {
      NamesNone(m);
    } else {
      NamesMore(pairs, m);
      AddedMembers(d, pairs[..|pairs| - 1], nx, xx, m);
    }
  }

  lemma NamesNone(m: bytes)
    ensures !Names([], m)
  {
  }

  /**
    * The scores after a zadd: an old member keeps its own with nx or when it is not named; otherwise, of the pairs that
    * name a member, the last decides, and with nx the first.
    */
  lemma {:induction false} AddedScores(d: Scores, pairs: seq<Pair>, nx: bool, xx: bool, m: bytes)
    requires m in AddedAll(d, pairs, nx, xx)
    ensures m in d && (nx || !Names(pairs, m)) ==> AddedAll(d, pairs, nx, xx)[m] == d[m]
    ensures !nx ==> forall i :: 0 <= i < |pairs| && pairs[i].member == m && !Names(pairs[i + 1..], m) ==>
                                  AddedAll(d, pairs, nx, xx)[m] == pairs[i].score
    ensures nx && m !in d ==> forall i :: 0 <= i < |pairs| && pairs[i].member == m && !Names(pairs[..i], m) ==>
                                            AddedAll(d, pairs, nx, xx)[m] == pairs[i].score
  {
    if pairs != [] {
      var n := |pairs| - 1;
      NamesMore(pairs, m);
      AddedMembers(d, pairs[..n], nx, xx, m);
      if m in AddedAll(d, pairs[..n], nx, xx) {
        AddedScores(d, pairs[..n], nx, xx, m);
      }
      if !nx {
        forall i | 0 <= i < |pairs| && pairs[i].member == m && !Names(pairs[i + 1..], m)
          ensures AddedAll(d, pairs, nx, xx)[m] == pairs[i].score
        {
          LastNaming(pairs, i, m);
        }
      } else if m !in d {
        forall i | 0 <= i < |pairs| && pairs[i].member == m && !Names(pairs[..i], m)
          ensures AddedAll(d, pairs, nx, xx)[m] == pairs[i].score
        {
          FirstNaming(d, pairs, xx, i, m);
        }
      }
    }
  }

  /** A new member named before has its score, and with nx it keeps it. */
  lemma FirstNaming(d: Scores, pairs: seq<Pair>, xx: bool, i: nat, m: bytes)
    requires i < |pairs| && !Names(pairs[..i], m) && pairs[i].member == m && m !in d && !xx
    ensures i < |pairs| - 1 ==> m in AddedAll(d, pairs[..|pairs| - 1], true, xx) && pairs[..|pairs| - 1][i] == pairs[i]
    ensures i < |pairs| - 1 ==> pairs[..|pairs| - 1][..i] == pairs[..i]
    ensures i == |pairs| - 1 ==> m !in AddedAll(d, pairs[..|pairs| - 1], true, xx)
  {
    var rest := pairs[..|pairs| - 1];
    AddedMembers(d, rest, true, xx, m);
    if i < |rest| {
      assert rest[i].member == m;
    }
  }

  lemma LastNaming(pairs: seq<Pair>, i: nat, m: bytes)
    requires i < |pairs| && !Names(pairs[i + 1..], m) && pairs[i].member == m
    ensures i < |pairs| - 1 ==>
              && pairs[|pairs| - 1].member != m && pairs[..|pairs| - 1][i] == pairs[i]
              && !Names(pairs[..|pairs| - 1][i + 1..], m)
  {
    var n := |pairs| - 1;
    if i < n {
      assert pairs[i + 1..][n - i - 1] == pairs[n];
      assert pairs[..n][i + 1..] == pairs[i + 1..][..n - i - 1];
    }
  }

  /** The half-open index range that zrange and zrevrange read: negative indices count from the end. */
  function Normalised(n: nat, start: int, stop: int): (r: (nat, nat))
    ensures r.0 <= r.1 <= n
  {
    var lo := if start < 0 then Max(0, n + start) else start;
    var hi := if stop < 0 then Max(0, n + stop) else stop;
    if n == 0 || lo > hi || lo >= n then (0, 0) else (lo, (if hi <= n - 1 then hi else n - 1) + 1)
  }

  /**
    * The pairs at the positions from one index to another, both included, in order and nothing else. An index from 0 on
    * counts from the front, a negative one from the end, and what lies in front of the first pair stands for it.
    */
  ghost predicate Window(es: seq<Pair>, start: int, stop: int, result: seq<Pair>) {
    var from := if start >= 0 then start else Max(0, |es| + start);
    var to := if stop >= 0 then stop else Max(0, |es| + stop);
    && (forall p :: 0 <= p < |es| && from <= p <= to ==> p - from < |result| && result[p - from] == es[p])
    && (forall k :: 0 <= k < |result| ==> from + k <= to && from + k < |es| && result[k] == es[from + k])
  }

  lemma NormalisedIsWindow(es: seq<Pair>, start: int, stop: int)
    ensures var r := Normalised(|es|, start, stop); Window(es, start, stop, es[r.0..r.1])
    ensures start == 0 && stop == -1 ==> es[Normalised(|es|, start, stop).0..Normalised(|es|, start, stop).1] == es
  {
  }

  lemma WindowSize(es: seq<Pair>, start: int, stop: int, result: seq<Pair>)
    requires Window(es, start, stop, result)
    ensures var from := if start >= 0 then start else Max(0, |es| + start);
            var to := if stop >= 0 then stop else Max(0, |es| + stop);
            var end := if to < |es| then to + 1 else |es|;
            result == if from < end then es[from..end] else []
  {
    var from := if start >= 0 then start else Max(0, |es| + start);
    var to := if stop >= 0 then stop else Max(0, |es| + stop);
    var end := if to < |es| then to + 1 else |es|;
    var n := |result|;
    if n > 0 {
      var last := result[n - 1];
      assert from + n - 1 <= to && from + n - 1 < |es|;
    }
    if from < end {
      var last := es[end - 1];
      assert end - 1 - from < n;
    }
  }

  /** The window where it is seen at a glance: indices that exist, from either end, and the whole. */
  lemma WindowReads(es: seq<Pair>, start: int, stop: int, result: seq<Pair>)
    requires Window(es, start, stop, result)
    ensures 0 <= start <= stop < |es| ==> result == es[start..stop + 1]
    ensures -|es| <= start <= stop < 0 ==> result == es[|es| + start..|es| + stop + 1]
    ensures start <= -|es| && (stop == -1 || stop >= |es|) ==> result == es
    ensures start == 0 && stop == -1 ==> result == es
    ensures start >= |es| ==> result == []
  {
    hide Window;
    WindowSize(es, start, stop, result);
    assert es[0..|es|] == es;
  }

  ghost function Reversed(es: seq<Pair>): (r: seq<Pair>)
    ensures |r| == |es| && forall k :: 0 <= k < |es| ==> r[k] == es[|es| - 1 - k]
  {
    seq(|es|, k requires 0 <= k < |es| => es[|es| - 1 - k])
  }

  // ---------------------------------------------------------------------------------------------
  // Agreement of the two halves
  // ---------------------------------------------------------------------------------------------

  /** The dictionary and the stored pairs say the same. */
  ghost predicate Agree(d: Scores, es: seq<Pair>) {
    && (forall m :: m in d ==> Pair(d[m], m) in es)
    && (forall k :: 0 <= k < |es| ==> es[k].member in d && d[es[k].member] == es[k].score)
  }

  lemma AgreeUnique(d: Scores, es: seq<Pair>)
    requires Agree(d, es) && Sorted(es)
    ensures UniqueMembers(es)
  {
    forall a, b | 0 <= a < |es| && 0 <= b < |es| && es[a].member == es[b].member
      ensures a == b
    {
      SortedIsInjective(es, a, b);
    }
  }

  /** The dictionary determines the whole order. */
  lemma AgreeDetermines(d: Scores, es: seq<Pair>, fs: seq<Pair>)
    requires Agree(d, es) && Sorted(es) && Agree(d, fs) && Sorted(fs)
    ensures es == fs
  {
    forall e
      ensures e in es <==> e in fs
    {
      if e in es {
        assert Pair(d[e.member], e.member) == e;
      }
      if e in fs {
        assert Pair(d[e.member], e.member) == e;
      }
    }
    SortedIsUnique(es, fs);
  }

  lemma Stored(d: Scores, es: seq<Pair>, m: bytes) returns (k: nat)
    requires Agree(d, es) && m in d
    ensures k < |es| && es[k] == Pair(d[m], m)
  {
    assert Pair(d[m], m) in es;
    k :| k < |es| && es[k] == Pair(d[m], m);
  }

  lemma NotStored(d: Scores, es: seq<Pair>, score: int, member: bytes)
    requires Agree(d, es) && member !in d
    ensures Pair(score, member) !in es
  {
  }

  lemma SomeKey(d: Scores) returns (m: bytes)
    requires d.Keys != {}
    ensures m in d
  {
    m :| m in d.Keys;
  }

  lemma {:induction false} AgreeCount(d: Scores, es: seq<Pair>)
    requires Agree(d, es) && UniqueMembers(es)
    ensures |d| == |es|
  {
    if es == [] {
      if d.Keys != {} {
        var m := SomeKey(d);
        var k := Stored(d, es, m);
      }
    } else {
      var m := es[|es| - 1].member;
      var es' := es[..|es| - 1];
      var d' := d - {m};
      forall o | o in d'
        ensures Pair(d'[o], o) in es'
      {
        var k := Stored(d, es, o);
        assert es'[k] == es[k];
      }
      AgreeCount(d', es');
    }
  }

  lemma AgreePut(d: Scores, es: seq<Pair>, p: nat, score: int, member: bytes)
    requires Agree(d, es) && p <= |es| && member !in d
    ensures Agree(d[member := score], Put(es, p, Pair(score, member)))
  {
    var es2, d2 := Put(es, p, Pair(score, member)), d[member := score];
    PutPointwise(es, p, Pair(score, member));
    forall m | m in d2
      ensures Pair(d2[m], m) in es2
    {
      if m == member {
        assert es2[p] == Pair(score, member);
      } else {
        var k := Stored(d, es, m);
        assert es2[if k < p then k else k + 1] == es[k];
      }
    }
    forall k | 0 <= k < |es2|
      ensures es2[k].member in d2 && d2[es2[k].member] == es2[k].score
    {
      assert es2[k] == if k < p then es[k] else if k == p then Pair(score, member) else es[k - 1];
    }
  }

  lemma AgreeCut(d: Scores, es: seq<Pair>, p: nat)
    requires Agree(d, es) && UniqueMembers(es) && p < |es|
    ensures Agree(d - {es[p].member}, Cut(es, p))
  {
    var es2, d2 := Cut(es, p), d - {es[p].member};
    forall m | m in d2
      ensures Pair(d2[m], m) in es2
    {
      var k := Stored(d, es, m);
      assert es2[if k < p then k else k - 1] == es[k];
    }
    forall k | 0 <= k < |es2|
      ensures es2[k].member in d2 && d2[es2[k].member] == es2[k].score
    {
      var o := if k < p then k else k + 1;
      assert es2[k] == es[o];
      assert es[o].member != es[p].member;
    }
  }

  /** random_level: a coin is thrown for every level above the first. */
  method RandomLevel() returns (lvl: nat)
    ensures 1 <= lvl <= MAX_LEVEL
  {
    lvl := 1;
    var heads: bool := *;
    while heads && lvl < MAX_LEVEL
      invariant 1 <= lvl <= MAX_LEVEL
      decreases MAX_LEVEL - lvl
    {
      lvl := lvl + 1;
      heads := *;
    }
  }

  class SortedSetStore {
    var dict: Scores
    const skiplist: SkipList

    ghost predicate Valid()
      reads this, skiplist, skiplist.nodes
    {
      && skiplist.Valid()
      && Agree(dict, skiplist.Elems())
    }

    ghost function Repr(): set<object>
      reads this, skiplist
    {
      {this, skiplist} + set n | n in skiplist.nodes
    }

    /** Everything stored, smallest first. */
    ghost function Elems(): seq<Pair>
      requires Valid()
      reads this, skiplist, skiplist.nodes
    {
      skiplist.Elems()
    }

    constructor ()
      ensures Valid() && dict == map[]
      ensures fresh(Repr())
    {
      dict := map[];
      skiplist := new SkipList();
    }

    lemma Facts()
      requires Valid()
      ensures Sorted(Elems()) && UniqueMembers(Elems())
      ensures |dict| == |Elems()| == skiplist.length == |skiplist.nodes| - 1
    {
      AgreeUnique(dict, Elems());
      AgreeCount(dict, Elems());
    }

    /** Stores a member that is not there yet. */
    method PutNew(score: int, member: bytes)
      requires Valid() && member !in dict
      modifies Repr()
      ensures Valid()
      ensures fresh(Repr() - old(Repr()))
      ensures dict == old(dict)[member := score]
    {
      hide SkipList.Valid, Put, Agree;
      NotStored(dict, skiplist.Elems(), score, member);
      ghost var es, nodes := skiplist.Elems(), skiplist.nodes;
      var lvl := RandomLevel();
      var node, p := skiplist.Insert(score, member, lvl);
      AgreePut(dict, es, p, score, member);
      PutMembers(nodes, p + 1, node);
      dict := dict[member := score];
    }

    /** Takes out a stored member. */
    method TakeOut(score: int, member: bytes)
      requires Valid() && member in dict && dict[member] == score
      modifies Repr()
      ensures Valid()
      ensures fresh(Repr() - old(Repr()))
      ensures dict == old(dict) - {member}
    {
      hide SkipList.Valid, Cut, Agree, UniqueMembers, Sorted;
      Facts();
      ghost var es, nodes := skiplist.Elems(), skiplist.nodes;
      ghost var k := Stored(dict, es, member);
      var found, p := skiplist.Delete(score, member);
      AgreeCut(dict, es, p);
      CutMembers(nodes, p + 1);
      dict := dict - {member};
    }

    /** Gives a stored member another score. */
    method Move(oldScore: int, score: int, member: bytes)
      requires Valid() && member in dict && dict[member] == oldScore
      modifies Repr()
      ensures Valid()
      ensures fresh(Repr() - old(Repr()))
      ensures dict == old(dict)[member := score]
    {
      hide SkipList.Valid, SkipList.Shape, Agree;
      assert (dict - {member})[member := score] == dict[member := score];
      TakeOut(oldScore, member);
      PutNew(score, member);
    }

    /** One round of zadd's loop. */
    method AddOne(score: int, member: bytes, nx: bool, xx: bool) returns (added: nat, changed: nat)
      requires Valid()
      modifies Repr()
      ensures Valid()
      ensures fresh(Repr() - old(Repr()))
      ensures dict == Added(old(dict), score, member, nx, xx)
      ensures added == |dict| - |old(dict)|
      ensures changed == if dict != old(dict) then 1 else 0
    {
      hide SkipList.Valid, SkipList.Shape, Agree;
      added, changed := 0, 0;
      var isStored := member in dict;
      if (nx && isStored) || (xx && !isStored) {
        return;
      }
      if isStored {
        var oldScore := dict[member];
        if oldScore != score {
          Move(oldScore, score, member);
          changed := changed + 1;
        }
      } else {
        PutNew(score, member);
        added := added + 1;
        changed := changed + 1;
      }
    }

    method ZAdd(pairs: seq<Pair>, nx: bool := false, xx: bool := false, ch: bool := false) returns (count: nat)
      requires Valid()
      modifies Repr()
      ensures Valid()
      ensures fresh(Repr() - old(Repr()))
      ensures dict == AddedAll(old(dict), pairs, nx, xx)
      ensures count == if ch then ChangedCount(old(dict), pairs, nx, xx) else |dict| - |old(dict)|
    {
      hide SkipList.Valid, SkipList.Shape, Agree;
      var added, changed := 0, 0;
      for i := 0 to |pairs|
        invariant Valid()
        invariant fresh(Repr() - old(Repr()))
        invariant dict == AddedAll(old(dict), pairs[..i], nx, xx)
        invariant added == |dict| - |old(dict)|
        invariant changed == ChangedCount(old(dict), pairs[..i], nx, xx)
      {
        assert pairs[..i + 1][..i] == pairs[..i];
        var a, c := AddOne(pairs[i].score, pairs[i].member, nx, xx);
        added, changed := added + a, changed + c;
      }
      assert pairs[..|pairs|] == pairs;
      count := if ch then changed else added;
    }

    method ZIncrBy(delta: int, member: bytes) returns (score: int)
      requires Valid()
      modifies Repr()
      ensures Valid()
      ensures fresh(Repr() - old(Repr()))
      ensures score == delta + if member in old(dict) then old(dict)[member] else 0
      ensures dict == old(dict)[member := score]
    {
      hide SkipList.Valid, SkipList.Shape, Agree;
      var curr := if member in dict then dict[member] else 0;
      score := curr + delta;
      if member in dict {
        Move(curr, score, member);
      } else {
        PutNew(score, member);
      }
    }

    /** One round of zrem's loop. */
    method RemOne(m: bytes) returns (removed: nat)
      requires Valid()
      modifies Repr()
      ensures Valid()
      ensures fresh(Repr() - old(Repr()))
      ensures dict == old(dict) - {m}
      ensures removed == |old(dict)| - |dict|
    {
      hide SkipList.Valid, SkipList.Shape, Agree;
      removed := 0;
      if m in dict {
        var score := dict[m];
        TakeOut(score, m);
        removed := 1;
      } else {
        assert dict == dict - {m};
      }
    }

    method ZRem(members: seq<bytes>) returns (removed: nat)
      requires Valid()
      modifies Repr()
      ensures Valid()
      ensures fresh(Repr() - old(Repr()))
      ensures dict == RemovedAll(old(dict), members)
      ensures removed == |old(dict)| - |dict|
    {
      hide SkipList.Valid, SkipList.Shape, Agree;
      removed := 0;
      for i := 0 to |members|
        invariant Valid()
        invariant fresh(Repr() - old(Repr()))
        invariant dict == RemovedAll(old(dict), members[..i])
        invariant removed == |old(dict)| - |dict|
      {
        assert members[..i + 1][..i] == members[..i];
        var one := RemOne(members[i]);
        removed := removed + one;
      }
      assert members[..|members|] == members;
    }

    method ZRank(member: bytes) returns (rank: Option<int>)
      requires Valid()
      ensures member !in dict ==> rank == None
      ensures member in dict ==> var e := Pair(dict[member], member);
                rank == if member == [] && !skiplist.TopReaches(e) then None else Some(CountBefore(Elems(), e))
    {
      hide SkipList.Valid, UniqueMembers, Sorted, Agree, SkipList.TopReaches;
      if member !in dict {
        return None;
      }
      Facts();
      ghost var k := Stored(dict, Elems(), member);
      var r := skiplist.GetRank(dict[member], member);
      rank := if r > 0 then Some(r - 1) else None;
    }

    method ZRevRank(member: bytes) returns (rank: Option<int>)
      requires Valid()
      ensures member !in dict ==> rank == None
      ensures member in dict ==> var e := Pair(dict[member], member);
                rank == if member == [] && !skiplist.TopReaches(e) then None
                        else Some(|Elems()| - 1 - CountBefore(Elems(), e))
    {
      hide SkipList.Valid, UniqueMembers, Sorted, Agree, SkipList.TopReaches;
      if member !in dict {
        return None;
      }
      Facts();
      var r := ZRank(member);
      if r == None {
        return None;
      }
      rank := Some(|dict| - 1 - r.value);
    }

    /** The pairs between two indices, smallest first. */
    method ZRange(start: int, stop: int) returns (result: seq<Pair>)
      requires Valid()
      ensures Window(Elems(), start, stop, result)
      ensures start == 0 && stop == -1 ==> result == Elems()
    {
      hide Window, Normalised, SkipList.Valid, Agree;
      result := PairsFrom(start, stop);
      NormalisedIsWindow(Elems(), start, stop);
    }

    /** The code of zrange: the indices, and the loop. */
    method PairsFrom(start: int, stop: int) returns (result: seq<Pair>)
      requires Valid()
      ensures var r := Normalised(|Elems()|, start, stop); result == Elems()[r.0..r.1]
    {
      hide SkipList.Valid, Agree, Sorted, UniqueMembers, Before, Keys, SkipList.Elems, SkipList.TopReaches;
      Facts();
      var n := |dict|;
      if n == 0 {
        return [];
      }
      var lo := if start < 0 then Max(0, n + start) else start;
      var hi := if stop < 0 then Max(0, n + stop) else stop;
      if lo > hi || lo >= n {
        return [];
      }
      hi := if hi <= n - 1 then hi else n - 1;
      var node := skiplist.GetElementByRank(lo + 1);
      var count := hi - lo + 1;
      assert lo + count == hi + 1;
      result := CollectForward(node, count, lo);
    }

    /** The loop of zrange: count pairs along level 0. */
    method CollectForward(from: Node?, n: nat, ghost lo: nat) returns (result: seq<Pair>)
      requires Valid() && lo + n <= |Elems()| == |skiplist.nodes| - 1
      requires n > 0 ==> from == skiplist.nodes[lo + 1]
      ensures result == Elems()[lo..lo + n]
    {
      hide SkipList.Valid, Agree;
      ghost var es := Elems();
      var node, count := from, n;
      result := [];
      while node != null && count > 0
        invariant 0 <= count <= n && |result| == n - count
        invariant count > 0 ==> node == skiplist.nodes[lo + n - count + 1]
        invariant forall k :: 0 <= k < |result| ==> result[k] == es[lo + k]
        decreases count
      {
        skiplist.Next(lo + n - count + 1);
        result := result + [node.Key()];
        node := node.level[0].forward;
        count := count - 1;
      }
    }

    /** The loop of zrevrange: count pairs along the backward pointers. */
    method CollectBackward(from: Node?, n: nat, ghost lo: nat) returns (result: seq<Pair>)
      requires Valid() && lo + n <= |Elems()| == |skiplist.nodes| - 1
      requires n > 0 ==> from == skiplist.nodes[|Elems()| - lo]
      ensures result == Reversed(Elems())[lo..lo + n]
    {
      hide SkipList.Valid, Agree;
      ghost var es := Elems();
      var node, count := from, n;
      result := [];
      while node != null && count > 0
        invariant 0 <= count <= n && |result| == n - count
        invariant count > 0 ==> node == skiplist.nodes[|es| - lo - (n - count)]
        invariant forall k :: 0 <= k < |result| ==> result[k] == es[|es| - 1 - lo - k]
        decreases count
      {
        skiplist.Previous(|es| - lo - (n - count));
        result := result + [node.Key()];
        node := node.backward;
        count := count - 1;
      }
    }

    /** The pairs between two indices, greatest first. */
    method ZRevRange(start: int, stop: int) returns (result: seq<Pair>)
      requires Valid()
      ensures Window(Reversed(Elems()), start, stop, result)
      ensures start == 0 && stop == -1 ==> result == Reversed(Elems())
    {
      hide Window, Normalised, Reversed, SkipList.Valid, Agree;
      result := PairsBackFrom(start, stop);
      NormalisedIsWindow(Reversed(Elems()), start, stop);
    }

    /** The code of zrevrange. */
    method PairsBackFrom(start: int, stop: int) returns (result: seq<Pair>)
      requires Valid()
      ensures var r := Normalised(|Elems()|, start, stop); result == Reversed(Elems())[r.0..r.1]
    {
      hide SkipList.Valid, Agree, Sorted, UniqueMembers, Before, Keys, SkipList.Elems, Reversed;
      Facts();
      var n := |dict|;
      if n == 0 {
        return [];
      }
      var lo := if start < 0 then Max(0, n + start) else start;
      var hi := if stop < 0 then Max(0, n + stop) else stop;
      if lo > hi || lo >= n {
        return [];
      }
      hi := if hi <= n - 1 then hi else n - 1;
      var node := skiplist.GetElementByRank(n - lo);
      var count := hi - lo + 1;
      assert lo + count == hi + 1;
      result := CollectBackward(node, count, lo);
    }
  }
}
