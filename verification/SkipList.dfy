// The skip list of sorted_set_store.py: a multi-level linked list of (score, member) pairs whose links
// carry the number of level-0 steps they jump over.

module SkipLists {
  import opened Bytes

  const MAX_LEVEL: nat := 32

  datatype Pair = Pair(score: int, member: bytes)

  /** The order of a sorted set: by score, then by member. */
  predicate Before(a: Pair, b: Pair) {
    a.score < b.score || (a.score == b.score && Less(a.member, b.member))
  }

  lemma BeforeIsTotal(a: Pair, b: Pair)
    ensures Before(a, b) || a == b || Before(b, a)
  {
    LessTotal(a.member, b.member);
  }

  lemma BeforeIsStrict(a: Pair, b: Pair)
    requires Before(a, b)
    ensures a != b && !Before(b, a)
  {
    LessIrreflexive(a.member);
    if a.score == b.score && Less(b.member, a.member) {
      LessTransitive(a.member, b.member, a.member);
    }
  }

  lemma BeforeIsTransitive(a: Pair, b: Pair, c: Pair)
    requires Before(a, b) && Before(b, c)
    ensures Before(a, c)
  {
    if a.score == b.score == c.score {
      LessTransitive(a.member, b.member, c.member);
    }
  }

  predicate AtMost(a: Pair, b: Pair) {
    a.score < b.score || (a.score == b.score && (Less(a.member, b.member) || a.member == b.member))
  }

  lemma AtMostIsNotAfter(a: Pair, b: Pair)
    ensures AtMost(a, b) <==> !Before(b, a)
  {
    BeforeIsTotal(a, b);
    if Before(a, b) {
      BeforeIsStrict(a, b);
    }
    if a == b {
      LessIrreflexive(a.member);
    }
  }

  /** How many pairs of es come before e: the rank of e, counted from 0. */
  ghost function CountBefore(es: seq<Pair>, e: Pair): nat {
    if es == [] then 0 else CountBefore(es[..|es| - 1], e) + if Before(es[|es| - 1], e) then 1 else 0
  }

  lemma {:induction false} PositionIsCount(es: seq<Pair>, e: Pair, p: nat)
    requires p <= |es|
    requires forall k :: 0 <= k < p ==> Before(es[k], e)
    requires forall k :: p <= k < |es| ==> !Before(es[k], e)
    ensures CountBefore(es, e) == p
  {
    if es != [] {
      PositionIsCount(es[..|es| - 1], e, if p == |es| then p - 1 else p);
    }
  }

  lemma SortedAtMost(es: seq<Pair>, a: nat, b: nat)
    requires Sorted(es) && a <= b < |es|
    ensures AtMost(es[a], es[b])
  {
    if a < b {
      assert Before(es[a], es[b]);
    }
  }

  /** In a sorted sequence the pair at index k has exactly k pairs before it. */
  lemma IndexIsCount(es: seq<Pair>, k: nat)
    requires Sorted(es) && k < |es|
    ensures CountBefore(es, es[k]) == k
  {
    forall j | 0 <= j < |es|
      ensures Before(es[j], es[k]) <==> j < k
    {
      if j < k {
        assert Before(es[j], es[k]);
      } else if j == k {
        LessIrreflexive(es[k].member);
      } else {
        assert Before(es[k], es[j]);
        BeforeIsStrict(es[k], es[j]);
      }
    }
    PositionIsCount(es, es[k], k);
  }

  ghost predicate UniqueMembers(es: seq<Pair>) {
    forall a, b :: 0 <= a < |es| && 0 <= b < |es| && es[a].member == es[b].member ==> a == b
  }

  ghost predicate Sorted(es: seq<Pair>) {
    forall a, b {:trigger Before(es[a], es[b])} :: 0 <= a < b < |es| ==> Before(es[a], es[b])
  }

  /**
    * What is sorted: scores ascend, and among equal scores the members do, a proper prefix coming first and otherwise
    * the first byte that differs deciding.
    */
  lemma SortedMeans(es: seq<Pair>)
    ensures Sorted(es) <==>
            forall i, j {:trigger es[i], es[j]} :: 0 <= i < j < |es| ==>
              || es[i].score < es[j].score
              || (es[i].score == es[j].score &&
                  var a, b := es[i].member, es[j].member;
                  || (|a| < |b| && b[..|a|] == a)
                  || exists k :: 0 <= k < |a| && k < |b| && a[..k] == b[..k] && a[k] < b[k])
  {
    hide Less;
    forall i, j {:trigger es[i], es[j]} | 0 <= i < j < |es|
      ensures Before(es[i], es[j]) <==>
              || es[i].score < es[j].score
              || (es[i].score == es[j].score &&
                  var a, b := es[i].member, es[j].member;
                  || (|a| < |b| && b[..|a|] == a)
                  || exists k :: 0 <= k < |a| && k < |b| && a[..k] == b[..k] && a[k] < b[k])
    {
      LessDecides(es[i].member, es[j].member);
    }
  }

  lemma SortedIsInjective(es: seq<Pair>, a: nat, b: nat)
    requires Sorted(es) && a < |es| && b < |es| && es[a] == es[b]
    ensures a == b
  {
    if a < b {
      assert Before(es[a], es[b]);
      BeforeIsStrict(es[a], es[b]);
    }
    if b < a {
      assert Before(es[b], es[a]);
      BeforeIsStrict(es[b], es[a]);
    }
  }

  /** A set of pairs has only one sorted sequence: what is stored determines every range and rank. */
  lemma {:induction false} SortedIsUnique(es: seq<Pair>, fs: seq<Pair>)
    requires Sorted(es) && Sorted(fs)
    requires forall e :: e in es <==> e in fs
    ensures es == fs
  {
    if es == [] || fs == [] {
      if es != [] {
        var e := Member(es);
      }
      if fs != [] {
        var e := Member(fs);
      }
    } else {
      var es', fs' := es[..|es| - 1], fs[..|fs| - 1];
      var x := es[|es| - 1];
      assert x in fs;
      var y := fs[|fs| - 1];
      assert y in es;
      var i :| 0 <= i < |es| && es[i] == y;
      var j :| 0 <= j < |fs| && fs[j] == x;
      SortedAtMost(es, i, |es| - 1);
      SortedAtMost(fs, j, |fs| - 1);
      AtMostIsNotAfter(x, y);
      AtMostIsNotAfter(y, x);
      BeforeIsTotal(x, y);
      forall e
        ensures e in es' <==> e in fs'
      {
        WithoutLast(es, e);
        WithoutLast(fs, e);
      }
      SortedIsUnique(es', fs');
      assert es == es' + [x] && fs == fs' + [y];
    }
  }

  lemma Member(es: seq<Pair>) returns (e: Pair)
    requires es != []
    ensures e in es
  {
    e := es[0];
  }

  lemma WithoutLast(es: seq<Pair>, e: Pair)
    requires Sorted(es) && es != []
    ensures e in es[..|es| - 1] <==> e in es && e != es[|es| - 1]
  {
    if e in es[..|es| - 1] {
      var k :| 0 <= k < |es| - 1 && es[k] == e;
      if e == es[|es| - 1] {
        SortedIsInjective(es, k, |es| - 1);
      }
    }
  }

  /** One level of a node: the next node at that level, and how many level-0 steps away it is. */
  datatype Link = Link(forward: Node?, span: int)

  class Node {
    const score: int
    const member: bytes
    var backward: Node?
    var level: seq<Link>

    constructor (height: nat, score: int, member: bytes)
      ensures this.score == score && this.member == member
      ensures backward == null
      ensures level == seq(height, _ => Link(null, 0))
    {
      this.score := score;
      this.member := member;
      backward := null;
      level := seq(height, _ => Link(null, 0));
    }

    function Key(): Pair { Pair(score, member) }
  }

  // ---------------------------------------------------------------------------------------------
  // The link structure, as a property of values: nodes[0] is the header, nodes[1..] the stored nodes
  // in order, and links[k] the levels of nodes[k].
  // ---------------------------------------------------------------------------------------------

  ghost predicate LevelsAre(nodes: seq<Node>, links: seq<seq<Link>>)
    reads nodes`level
  {
    && |links| == |nodes|
    && forall k :: 0 <= k < |nodes| ==> nodes[k].level == links[k]
  }

  /** The backward pointers and the tail mirror level 0. */
  ghost predicate Mirrored(nodes: seq<Node>, tail: Node?)
    reads nodes`backward
  {
    && |nodes| >= 1
    && (forall k {:trigger nodes[k].backward} :: 1 <= k < |nodes| ==>
          nodes[k].backward == if k == 1 then null else nodes[k - 1])
    && tail == if |nodes| == 1 then null else nodes[|nodes| - 1]
  }

  /** The index a link leads to; a null link leads past the last node. */
  function Target(k: int, l: Link): int {
    if l.forward == null then k + l.span + 1 else k + l.span
  }

  /** Level i of node k leads to the next node taller than i, and its span is the distance. */
  ghost predicate LinkOk(nodes: seq<Node>, links: seq<seq<Link>>, k: int, i: int)
    requires |links| == |nodes| && 0 <= k < |links| && 0 <= i < |links[k]|
  {
    var t := Target(k, links[k][i]);
    && k < t <= |nodes|
    && (links[k][i].forward == null <==> t == |nodes|)
    && (t < |nodes| ==> links[k][i].forward == nodes[t] && i < |links[t]|)
    && (forall j :: k < j < t ==> |links[j]| <= i)
  }

  ghost predicate Linked(nodes: seq<Node>, links: seq<seq<Link>>, level: nat) {
    && |links| == |nodes| >= 1
    && 1 <= level <= MAX_LEVEL
    && |links[0]| == MAX_LEVEL
    && (forall k :: 1 <= k < |links| ==> 1 <= |links[k]| <= level)
    && (forall k, i :: 0 <= k < |links| && 0 <= i < |links[k]| && i < level ==> LinkOk(nodes, links, k, i))
    && (forall i :: level <= i < MAX_LEVEL ==> links[0][i].forward == null)
  }

  ghost predicate Distinct(nodes: seq<Node>) {
    forall a, b {:trigger Differ(nodes[a], nodes[b])} :: 0 <= a < |nodes| && 0 <= b < |nodes| && a != b ==>
          Differ(nodes[a], nodes[b])
  }

  ghost predicate Differ(a: Node, b: Node) { a != b }

  lemma DistinctAt(nodes: seq<Node>, k: int)
    requires Distinct(nodes) && 0 <= k < |nodes|
    ensures forall j :: 0 <= j < |nodes| && j != k ==> nodes[j] != nodes[k]
  {
    forall j | 0 <= j < |nodes| && j != k
      ensures nodes[j] != nodes[k]
    {
      assert Differ(nodes[j], nodes[k]);
    }
  }

  ghost function Keys(nodes: seq<Node>): (es: seq<Pair>)
    requires |nodes| >= 1
    ensures |es| == |nodes| - 1
    ensures forall k :: 1 <= k < |nodes| ==> es[k - 1] == nodes[k].Key()
  {
    seq(|nodes| - 1, k requires 0 <= k < |nodes| - 1 => nodes[k + 1].Key())
  }

  /** r is the last node at level i that comes before e. */
  ghost predicate PredAt(nodes: seq<Node>, links: seq<seq<Link>>, e: Pair, i: int, r: int) {
    && |links| == |nodes|
    && 0 <= r < |nodes| && 0 <= i < |links[r]|
    && (r > 0 ==> Before(nodes[r].Key(), e))
    && var t := Target(r, links[r][i]);
       (0 <= t < |nodes| ==> !Before(nodes[t].Key(), e))
  }

  /** Level 0 visits every node. */
  lemma LevelZeroStep(nodes: seq<Node>, links: seq<seq<Link>>, level: nat, k: int)
    requires Linked(nodes, links, level) && 0 <= k < |nodes|
    ensures 1 <= |links[k]| && Target(k, links[k][0]) == k + 1
    ensures links[k][0].forward == if k + 1 < |nodes| then nodes[k + 1] else null
  {
    assert LinkOk(nodes, links, k, 0);
    assert k + 1 < |links| ==> 1 <= |links[k + 1]|;
  }

  /** In a sorted list the predecessors found at all levels bracket one position p. */
  lemma PredecessorsBracket(nodes: seq<Node>, links: seq<seq<Link>>, level: nat, e: Pair, i: int, r: int, p: int)
    requires Linked(nodes, links, level) && Sorted(Keys(nodes))
    requires 0 <= i < level && PredAt(nodes, links, e, i, r)
    requires PredAt(nodes, links, e, 0, p)
    ensures r <= p < Target(r, links[r][i])
    ensures forall j :: r < j <= p ==> |links[j]| <= i
  {
    assert LinkOk(nodes, links, p, 0);
    assert LinkOk(nodes, links, r, i);
    var t := Target(r, links[r][i]);
    var es := Keys(nodes);
    LevelZeroStep(nodes, links, level, p);
    if p + 1 < r {
      assert Before(es[p], es[r - 1]);
      BeforeIsTransitive(es[p], es[r - 1], e);
    }
    if t < p {
      assert Before(es[t - 1], es[p - 1]);
      BeforeIsTransitive(es[t - 1], es[p - 1], e);
    }
  }

  // ---------------------------------------------------------------------------------------------
  // What inserting and removing a node does to the links
  // ---------------------------------------------------------------------------------------------

  /** rank[i] is where level i crosses position p. */
  ghost predicate Crossing(nodes: seq<Node>, links: seq<seq<Link>>, level: nat, rank: seq<int>, p: int) {
    && Linked(nodes, links, level)
    && level <= |rank|
    && 0 <= p < |nodes|
    && rank[0] == p
    && (forall i :: 0 <= i < level ==> CrossesAt(nodes, links, i, rank[i], p))
  }

  ghost predicate CrossesAt(nodes: seq<Node>, links: seq<seq<Link>>, i: int, r: int, p: int) {
    && |links| == |nodes|
    && 0 <= r <= p < |nodes|
    && 0 <= i < |links[r]|
    && p < Target(r, links[r][i])
    && (forall j :: r < j <= p ==> |links[j]| <= i)
  }

  /** The links of the old nodes while the levels below n have been spliced around a new node of height h. */
  ghost predicate Spliced(links: seq<seq<Link>>, links': seq<seq<Link>>, rank: seq<int>, p: int, h: nat, node: Node,
                          n: nat) {
    && |links'| == |links| && n <= |rank|
    && (forall k :: 0 <= k < |links| ==> |links'[k]| == |links[k]|)
    && (forall k, i {:trigger links'[k][i]} :: 0 <= k < |links| && 0 <= i < |links[k]| ==>
          links'[k][i] ==
            if i < n && k == rank[i]
            then (if i < h then Link(node, p - k + 1) else Link(links[k][i].forward, links[k][i].span + 1))
            else links[k][i])
  }

  /** The links of the new node once its levels below n are set. */
  ghost predicate NewLinks(links: seq<seq<Link>>, own: seq<Link>, rank: seq<int>, p: int, n: nat) {
    && n <= |own| && n <= |rank|
    && forall i :: 0 <= i < n ==>
         && 0 <= rank[i] < |links| && i < |links[rank[i]]|
         && own[i] == Link(links[rank[i]][i].forward, links[rank[i]][i].span - (p - rank[i]))
  }

  /** s with x put at position q. */
  ghost function Put<T>(s: seq<T>, q: int, x: T): (r: seq<T>)
    requires 0 <= q <= |s|
    ensures |r| == |s| + 1
  {
    s[..q] + [x] + s[q..]
  }

  lemma PutMembers<T>(s: seq<T>, q: int, x: T)
    requires 0 <= q <= |s|
    ensures forall y :: y in Put(s, q, x) <==> y in s || y == x
  {
    forall y
      ensures y in Put(s, q, x) <==> y in s[..q] || y == x || y in s[q..]
    {
    }
    assert s == s[..q] + s[q..];
  }

  lemma KeysPut(nodes: seq<Node>, p: int, node: Node)
    requires 0 <= p < |nodes|
    ensures Keys(Put(nodes, p + 1, node)) == Put(Keys(nodes), p, node.Key())
  {
    var ks, ks2 := Keys(Put(nodes, p + 1, node)), Put(Keys(nodes), p, node.Key());
    forall k | 0 <= k < |ks|
      ensures ks[k] == ks2[k]
    {
      assert ks[k] == Put(nodes, p + 1, node)[k + 1].Key();
      assert ks2[k] == if k < p then Keys(nodes)[k] else if k == p then node.Key() else Keys(nodes)[k - 1];
    }
  }

  lemma DistinctPut(nodes: seq<Node>, q: int, node: Node)
    requires Distinct(nodes) && 0 <= q <= |nodes| && node !in nodes
    ensures Distinct(Put(nodes, q, node))
  {
    var nodes2 := Put(nodes, q, node);
    forall a, b | 0 <= a < |nodes2| && 0 <= b < |nodes2| && a != b
      ensures Differ(nodes2[a], nodes2[b])
    {
      if a != q && b != q {
        assert Differ(nodes[if a < q then a else a - 1], nodes[if b < q then b else b - 1]);
      }
    }
  }

  /** s2 is s with x put at position q. */
  ghost predicate PutIn<T>(s: seq<T>, q: int, x: T, s2: seq<T>) {
    && 0 <= q <= |s| && |s2| == |s| + 1
    && s2[q] == x
    && (forall j :: 0 <= j < q ==> s2[j] == s[j])
    && (forall j :: q < j < |s2| ==> s2[j] == s[j - 1])
  }

  lemma PutPointwise<T>(s: seq<T>, q: int, x: T)
    requires 0 <= q <= |s|
    ensures PutIn(s, q, x, Put(s, q, x))
  {
  }

  /** The hypotheses of one insertion, shared by the lemmas below. */
  ghost predicate Insertion(nodes: seq<Node>, links: seq<seq<Link>>, level: nat, rank: seq<int>, p: int,
                            links': seq<seq<Link>>, node: Node, own: seq<Link>,
                            nodes2: seq<Node>, links2: seq<seq<Link>>)
  {
    && Crossing(nodes, links, level, rank, p)
    && 1 <= |own| <= level
    && Spliced(links, links', rank, p, |own|, node, level)
    && NewLinks(links, own, rank, p, |own|)
    && PutIn(nodes, p + 1, node, nodes2)
    && PutIn(links', p + 1, own, links2)
  }

  lemma InsertedAfter(nodes: seq<Node>, links: seq<seq<Link>>, level: nat, rank: seq<int>, p: int,
                      links': seq<seq<Link>>, node: Node, own: seq<Link>,
                      nodes2: seq<Node>, links2: seq<seq<Link>>, k: int, i: int)
    requires Insertion(nodes, links, level, rank, p, links', node, own, nodes2, links2)
    requires p + 1 < k < |links2| && 0 <= i < |links2[k]| && i < level
    ensures LinkOk(nodes2, links2, k, i)
  {
    assert LinkOk(nodes, links, k - 1, i);
    assert CrossesAt(nodes, links, i, rank[i], p);
    assert links2[k][i] == links'[k - 1][i] == links[k - 1][i];
    assert Target(k, links2[k][i]) == Target(k - 1, links[k - 1][i]) + 1;
  }

  lemma InsertedBefore(nodes: seq<Node>, links: seq<seq<Link>>, level: nat, rank: seq<int>, p: int,
                       links': seq<seq<Link>>, node: Node, own: seq<Link>,
                       nodes2: seq<Node>, links2: seq<seq<Link>>, k: int, i: int)
    requires Insertion(nodes, links, level, rank, p, links', node, own, nodes2, links2)
    requires 0 <= k <= p && 0 <= i < |links2[k]| && i < level && k != rank[i]
    ensures LinkOk(nodes2, links2, k, i)
  {
    var r := rank[i];
    assert CrossesAt(nodes, links, i, r, p);
    assert LinkOk(nodes, links, k, i);
    assert k < r;
    assert |links[r]| > i;
    assert Target(k, links[k][i]) <= r;
  }

  lemma InsertedCrossing(nodes: seq<Node>, links: seq<seq<Link>>, level: nat, rank: seq<int>, p: int,
                         links': seq<seq<Link>>, node: Node, own: seq<Link>,
                         nodes2: seq<Node>, links2: seq<seq<Link>>, i: int)
    requires Insertion(nodes, links, level, rank, p, links', node, own, nodes2, links2)
    requires 0 <= i < level
    ensures 0 <= rank[i] <= p && i < |links2[rank[i]]| && LinkOk(nodes2, links2, rank[i], i)
  {
    var r := rank[i];
    assert CrossesAt(nodes, links, i, r, p);
    assert LinkOk(nodes, links, r, i);
    var t := Target(r, links[r][i]);
    if i < |own| {
      assert Target(r, links2[r][i]) == p + 1;
      forall j | r < j < p + 1
        ensures |links2[j]| <= i
      {
        assert |links2[j]| == |links[j]|;
      }
    } else {
      assert Target(r, links2[r][i]) == t + 1;
      forall j | r < j < t + 1
        ensures |links2[j]| <= i
      {
        assert |links2[j]| == if j <= p then |links[j]| else if j == p + 1 then |own| else |links[j - 1]|;
      }
    }
  }

  lemma InsertedNode(nodes: seq<Node>, links: seq<seq<Link>>, level: nat, rank: seq<int>, p: int,
                     links': seq<seq<Link>>, node: Node, own: seq<Link>,
                     nodes2: seq<Node>, links2: seq<seq<Link>>, i: int)
    requires Insertion(nodes, links, level, rank, p, links', node, own, nodes2, links2)
    requires 0 <= i < |own|
    ensures LinkOk(nodes2, links2, p + 1, i)
  {
    var r := rank[i];
    assert CrossesAt(nodes, links, i, r, p);
    assert LinkOk(nodes, links, r, i);
    var t := Target(r, links[r][i]);
    assert Target(p + 1, own[i]) == t + 1;
    forall j | p + 1 < j < t + 1
      ensures |links2[j]| <= i
    {
      assert |links2[j]| == |links[j - 1]|;
    }
    if t < |nodes| {
      assert nodes2[t + 1] == nodes[t];
    }
  }

  lemma InsertedLinked(nodes: seq<Node>, links: seq<seq<Link>>, level: nat, rank: seq<int>, p: int,
                       links': seq<seq<Link>>, node: Node, own: seq<Link>,
                       nodes2: seq<Node>, links2: seq<seq<Link>>)
    requires Insertion(nodes, links, level, rank, p, links', node, own, nodes2, links2)
    ensures Linked(nodes2, links2, level)
    ensures |own| == level || links[0][level - 1].forward != null ==> links2[0][level - 1].forward != null
  {
    forall k | 0 <= k < |links2|
      ensures |links2[k]| == if k <= p then |links[k]| else if k == p + 1 then |own| else |links[k - 1]|
    {
    }
    forall k, i | 0 <= k < |links2| && 0 <= i < |links2[k]| && i < level
      ensures LinkOk(nodes2, links2, k, i)
    {
      if k == p + 1 {
        InsertedNode(nodes, links, level, rank, p, links', node, own, nodes2, links2, i);
      } else if k > p {
        InsertedAfter(nodes, links, level, rank, p, links', node, own, nodes2, links2, k, i);
      } else if k == rank[i] {
        InsertedCrossing(nodes, links, level, rank, p, links', node, own, nodes2, links2, i);
      } else {
        InsertedBefore(nodes, links, level, rank, p, links', node, own, nodes2, links2, k, i);
      }
    }
    forall i | level <= i < MAX_LEVEL
      ensures links2[0][i].forward == null
    {
      assert links2[0] == links'[0];
      assert links'[0][i] == links[0][i];
    }
    assert LinkOk(nodes2, links2, 0, level - 1);
    if |own| == level {
      assert |links2[p + 1]| == level;
    } else {
      assert links2[0] == links'[0];
      assert links'[0][level - 1].forward == links[0][level - 1].forward;
    }
  }

  /** The links while the levels below n have been bridged over nodes[q]. */
  ghost predicate Bridged(nodes: seq<Node>, links: seq<seq<Link>>, links': seq<seq<Link>>, rank: seq<int>, q: int,
                          n: nat) {
    && |links'| == |links| == |nodes| && n <= |rank| && 0 <= q < |nodes|
    && (forall k :: 0 <= k < |links| ==> |links'[k]| == |links[k]|)
    && (forall k, i {:trigger links'[k][i]} :: 0 <= k < |links| && 0 <= i < |links[k]| ==>
          links'[k][i] ==
            if i < n && k == rank[i]
            then (if links[k][i].forward == nodes[q] && i < |links[q]|
                  then Link(links[q][i].forward, links[k][i].span + links[q][i].span - 1)
                  else Link(links[k][i].forward, links[k][i].span - 1))
            else links[k][i])
  }

  lemma BridgedStep(nodes: seq<Node>, links: seq<seq<Link>>, cur: seq<seq<Link>>, next: seq<seq<Link>>,
                    rank: seq<int>, q: int, n: nat)
    requires Bridged(nodes, links, cur, rank, q, n) && n < |rank|
    requires 0 <= rank[n] < |links| && n < |links[rank[n]]|
    requires |next| == |cur|
    requires forall k :: 0 <= k < |cur| && k != rank[n] ==> next[k] == cur[k]
    requires next[rank[n]] == cur[rank[n]][n :=
      if cur[rank[n]][n].forward == nodes[q] && n < |links[q]|
      then Link(links[q][n].forward, cur[rank[n]][n].span + links[q][n].span - 1)
      else Link(cur[rank[n]][n].forward, cur[rank[n]][n].span - 1)]
    ensures Bridged(nodes, links, next, rank, q, n + 1)
  {
    assert cur[rank[n]][n] == links[rank[n]][n];
    forall k, i | 0 <= k < |links| && 0 <= i < |links[k]|
      ensures next[k][i] ==
            if i < n + 1 && k == rank[i]
            then (if links[k][i].forward == nodes[q] && i < |links[q]|
                  then Link(links[q][i].forward, links[k][i].span + links[q][i].span - 1)
                  else Link(links[k][i].forward, links[k][i].span - 1))
            else links[k][i]
    {
      assert |cur[k]| == |links[k]|;
      assert i != n || k != rank[n] ==> next[k][i] == cur[k][i];
    }
  }

  /** s without the element at position q. */
  ghost function Cut<T>(s: seq<T>, q: int): (r: seq<T>)
    requires 0 <= q < |s|
    ensures |r| == |s| - 1
  {
    s[..q] + s[q + 1..]
  }

  lemma CutMembers<T>(s: seq<T>, q: int)
    requires 0 <= q < |s|
    ensures forall y :: y in Cut(s, q) ==> y in s
  {
  }

  lemma KeysCut(nodes: seq<Node>, q: int)
    requires 1 <= q < |nodes|
    ensures Keys(Cut(nodes, q)) == Cut(Keys(nodes), q - 1)
  {
    var ks, ks2 := Keys(Cut(nodes, q)), Cut(Keys(nodes), q - 1);
    forall k | 0 <= k < |ks|
      ensures ks[k] == ks2[k]
    {
      assert ks[k] == Cut(nodes, q)[k + 1].Key();
      assert ks2[k] == Keys(nodes)[if k < q - 1 then k else k + 1];
    }
  }

  lemma DistinctCut(nodes: seq<Node>, q: int)
    requires Distinct(nodes) && 0 <= q < |nodes|
    ensures Distinct(Cut(nodes, q))
  {
    var nodes2 := Cut(nodes, q);
    forall a, b | 0 <= a < |nodes2| && 0 <= b < |nodes2| && a != b
      ensures Differ(nodes2[a], nodes2[b])
    {
      assert Differ(nodes[if a < q then a else a + 1], nodes[if b < q then b else b + 1]);
    }
  }

  lemma SortedCut(es: seq<Pair>, q: int)
    requires Sorted(es) && 0 <= q < |es|
    ensures Sorted(Cut(es, q))
  {
    var es2 := Cut(es, q);
    forall a, b | 0 <= a < b < |es2|
      ensures Before(es2[a], es2[b])
    {
      assert Before(es[if a < q then a else a + 1], es[if b < q then b else b + 1]);
    }
  }

  /** When the header has no link at the top level, no node is that tall. */
  lemma TopUnused(nodes: seq<Node>, links: seq<seq<Link>>, level: nat)
    requires Linked(nodes, links, level) && level > 1 && links[0][level - 1].forward == null
    ensures Linked(nodes, links, level - 1)
  {
    assert LinkOk(nodes, links, 0, level - 1);
  }

  /** Where a search for e stops tells whether e is stored. */
  lemma StoredAt(es: seq<Pair>, e: Pair, p: nat)
    requires Sorted(es) && p <= |es|
    requires forall k :: 0 <= k < p ==> Before(es[k], e)
    requires forall k :: p <= k < |es| ==> !Before(es[k], e)
    ensures e in es <==> p < |es| && es[p] == e
  {
    forall k | 0 <= k < p
      ensures es[k] != e
    {
      BeforeIsStrict(es[k], e);
    }
    forall k | p < k < |es|
      ensures es[k] != e
    {
      assert Before(es[p], es[k]);
    }
  }

  ghost predicate Removal(nodes: seq<Node>, links: seq<seq<Link>>, level: nat, rank: seq<int>, p: int,
                          links': seq<seq<Link>>, nodes2: seq<Node>, links2: seq<seq<Link>>)
  {
    && Crossing(nodes, links, level, rank, p)
    && Distinct(nodes)
    && p + 1 < |nodes|
    && Bridged(nodes, links, links', rank, p + 1, level)
    && PutIn(nodes2, p + 1, nodes[p + 1], nodes)
    && PutIn(links2, p + 1, links'[p + 1], links')
  }

  lemma RemovedAfter(nodes: seq<Node>, links: seq<seq<Link>>, level: nat, rank: seq<int>, p: int,
                     links': seq<seq<Link>>, nodes2: seq<Node>, links2: seq<seq<Link>>, k: int, i: int)
    requires Removal(nodes, links, level, rank, p, links', nodes2, links2)
    requires p < k < |links2| && 0 <= i < |links2[k]| && i < level
    ensures LinkOk(nodes2, links2, k, i)
  {
    assert links'[k + 1] == links2[k];
    assert LinkOk(nodes, links, k + 1, i);
    assert CrossesAt(nodes, links, i, rank[i], p);
    assert links2[k][i] == links'[k + 1][i] == links[k + 1][i];
    var t := Target(k + 1, links[k + 1][i]);
    assert Target(k, links2[k][i]) == t - 1;
    forall j | k < j < t - 1
      ensures |links2[j]| <= i
    {
      assert links'[j + 1] == links2[j];
    }
    if t < |nodes| {
      assert links'[t] == links2[t - 1] && nodes[t] == nodes2[t - 1];
    }
  }

  lemma RemovedBefore(nodes: seq<Node>, links: seq<seq<Link>>, level: nat, rank: seq<int>, p: int,
                      links': seq<seq<Link>>, nodes2: seq<Node>, links2: seq<seq<Link>>, k: int, i: int)
    requires Removal(nodes, links, level, rank, p, links', nodes2, links2)
    requires 0 <= k <= p && 0 <= i < |links2[k]| && i < level && k != rank[i]
    ensures LinkOk(nodes2, links2, k, i)
  {
    assert links'[k] == links2[k];
    var r := rank[i];
    assert CrossesAt(nodes, links, i, r, p);
    assert LinkOk(nodes, links, k, i);
    assert links2[k][i] == links'[k][i] == links[k][i];
    assert k < r && |links[r]| > i;
    var t := Target(k, links[k][i]);
    assert t <= r;
    forall j | k < j < t
      ensures |links2[j]| <= i
    {
      assert links'[j] == links2[j];
    }
    assert links'[t] == links2[t] && nodes[t] == nodes2[t];
  }

  lemma RemovedCrossing(nodes: seq<Node>, links: seq<seq<Link>>, level: nat, rank: seq<int>, p: int,
                        links': seq<seq<Link>>, nodes2: seq<Node>, links2: seq<seq<Link>>, i: int)
    requires Removal(nodes, links, level, rank, p, links', nodes2, links2)
    requires 0 <= i < level
    ensures 0 <= rank[i] <= p && i < |links2[rank[i]]| && LinkOk(nodes2, links2, rank[i], i)
  {
    var r, q := rank[i], p + 1;
    assert CrossesAt(nodes, links, i, r, p);
    assert LinkOk(nodes, links, r, i);
    assert links'[r] == links2[r];
    var t := Target(r, links[r][i]);
    assert t < |nodes| && t != q ==> Differ(nodes[t], nodes[q]);
    if t == q {
      assert LinkOk(nodes, links, q, i);
    }
    var t' := if t == q then Target(q, links[q][i]) else t;
    assert q < t' <= |nodes|;
    assert Target(r, links2[r][i]) == t' - 1 by {
      assert links2[r][i] == links'[r][i];
    }
    forall j | r < j < t' - 1
      ensures |links2[j]| <= i
    {
      if j <= p {
        assert links'[j] == links2[j];
      } else {
        assert links'[j + 1] == links2[j];
      }
    }
    if t' < |nodes| {
      assert links'[t'] == links2[t' - 1] && nodes[t'] == nodes2[t' - 1];
    }
  }

  lemma RemovedLinked(nodes: seq<Node>, links: seq<seq<Link>>, level: nat, rank: seq<int>, p: int,
                      links': seq<seq<Link>>, nodes2: seq<Node>, links2: seq<seq<Link>>)
    requires Removal(nodes, links, level, rank, p, links', nodes2, links2)
    ensures Linked(nodes2, links2, level)
  {
    forall k | 0 <= k < |links2|
      ensures |links2[k]| == if k <= p then |links[k]| else |links[k + 1]|
      ensures k >= 1 ==> 1 <= |links2[k]| <= level
    {
      assert links2[k] == if k <= p then links'[k] else links'[k + 1];
      assert 1 <= |links[k + 1]| <= level;
      assert k >= 1 ==> 1 <= |links[k]| <= level;
    }
    forall k, i | 0 <= k < |links2| && 0 <= i < |links2[k]| && i < level
      ensures LinkOk(nodes2, links2, k, i)
    {
      if k > p {
        RemovedAfter(nodes, links, level, rank, p, links', nodes2, links2, k, i);
      } else if k == rank[i] {
        RemovedCrossing(nodes, links, level, rank, p, links', nodes2, links2, i);
      } else {
        RemovedBefore(nodes, links, level, rank, p, links', nodes2, links2, k, i);
      }
    }
    forall i | level <= i < MAX_LEVEL
      ensures links2[0][i].forward == null
    {
      assert links2[0] == links'[0];
      assert links'[0][i] == links[0][i];
    }
  }

  /** Raising the level: the header's unused levels below n get null links over the whole list. */
  ghost predicate Raised(links: seq<seq<Link>>, links': seq<seq<Link>>, level: nat, n: nat) {
    && |links'| == |links| >= 1
    && |links'[0]| == |links[0]|
    && (forall k :: 1 <= k < |links| ==> links'[k] == links[k])
    && (forall i :: 0 <= i < |links[0]| ==>
          links'[0][i] == if level <= i < n then Link(links[0][i].forward, |links| - 1) else links[0][i])
  }

  lemma RaisedLinked(nodes: seq<Node>, links: seq<seq<Link>>, links': seq<seq<Link>>, level: nat, n: nat)
    requires Linked(nodes, links, level) && level <= n <= MAX_LEVEL && Raised(links, links', level, n)
    ensures Linked(nodes, links', n)
    ensures forall k :: 0 <= k < |links| ==> |links'[k]| == |links[k]|
    ensures forall i :: level <= i < n ==> links'[0][i] == Link(null, |nodes| - 1)
  {
    forall k, i | 0 <= k < |links'| && 0 <= i < |links'[k]| && i < n
      ensures LinkOk(nodes, links', k, i)
    {
      if i < level {
        assert LinkOk(nodes, links, k, i);
      }
    }
  }

  lemma RaisedCrossing(nodes: seq<Node>, links: seq<seq<Link>>, links': seq<seq<Link>>, level: nat, n: nat,
                       rank: seq<int>, rank': seq<int>, p: int)
    requires Crossing(nodes, links, level, rank, p) && level <= n <= MAX_LEVEL && Raised(links, links', level, n)
    requires n <= |rank'|
    requires forall i :: 0 <= i < level ==> rank'[i] == rank[i]
    requires forall i :: level <= i < n ==> rank'[i] == 0
    ensures Crossing(nodes, links', n, rank', p)
  {
    RaisedLinked(nodes, links, links', level, n);
    forall i | 0 <= i < n
      ensures CrossesAt(nodes, links', i, rank'[i], p)
    {
      if i < level {
        assert CrossesAt(nodes, links, i, rank[i], p);
      }
    }
  }

  /** The predecessors that a search finds cross the position it stops at, and that is where e belongs. */
  lemma SearchCrosses(nodes: seq<Node>, links: seq<seq<Link>>, level: nat, e: Pair, rank: seq<int>)
    requires Linked(nodes, links, level) && Sorted(Keys(nodes)) && level <= |rank|
    requires forall i :: 0 <= i < level ==> PredAt(nodes, links, e, i, rank[i])
    ensures Crossing(nodes, links, level, rank, rank[0])
    ensures forall k :: 1 <= k <= rank[0] ==> Before(nodes[k].Key(), e)
    ensures forall k :: rank[0] < k < |nodes| ==> !Before(nodes[k].Key(), e)
  {
    var p, es := rank[0], Keys(nodes);
    assert PredAt(nodes, links, e, 0, p);
    forall i | 0 <= i < level
      ensures CrossesAt(nodes, links, i, rank[i], p)
    {
      PredecessorsBracket(nodes, links, level, e, i, rank[i], p);
    }
    LevelZeroStep(nodes, links, level, p);
    forall k | 1 <= k <= p
      ensures Before(nodes[k].Key(), e)
    {
      if k < p {
        assert Before(es[k - 1], es[p - 1]);
        BeforeIsTransitive(es[k - 1], es[p - 1], e);
      }
    }
    forall k | p < k < |nodes|
      ensures !Before(nodes[k].Key(), e)
    {
      if k > p + 1 && Before(nodes[k].Key(), e) {
        assert Before(es[p], es[k - 1]);
        BeforeIsTransitive(es[p], es[k - 1], e);
      }
    }
  }

  /** Between its smaller and its greater neighbours a new pair keeps a sequence sorted. */
  lemma SortedWith(es: seq<Pair>, p: nat, e: Pair, es2: seq<Pair>)
    requires Sorted(es) && p <= |es| && e !in es
    requires forall k :: 0 <= k < p ==> Before(es[k], e)
    requires forall k :: p <= k < |es| ==> !Before(es[k], e)
    requires es2 == Put(es, p, e)
    ensures Sorted(es2)
  {
    forall a, b | 0 <= a < b < |es2|
      ensures Before(es2[a], es2[b])
    {
      if a == p {
        BeforeIsTotal(es[b - 1], e);
      } else if b != p {
        assert Before(es[if a < p then a else a - 1], es[if b < p then b else b - 1]);
      }
    }
  }

  // ---------------------------------------------------------------------------------------------
  // The list itself
  // ---------------------------------------------------------------------------------------------

  class SkipList {
    const header: Node
    var tail: Node?
    var length: nat
    var level: nat
    ghost var nodes: seq<Node>      // the header, then the level-0 chain
    ghost var links: seq<seq<Link>> // the levels of each of them

    /** The stored pairs, in order. */
    ghost function Elems(): seq<Pair>
      reads this`nodes
      requires |nodes| >= 1
    {
      Keys(nodes)
    }

    ghost predicate Shape()
      reads this`nodes, this`length
    {
      && |nodes| >= 1
      && nodes[0] == header && header.member == []
      && Distinct(nodes)
      && Sorted(Keys(nodes))
      && length == |nodes| - 1
    }

    /** The multi-level structure: what the methods below keep while they work on it. */
    ghost predicate Leveled()
      reads this`nodes, this`links, this`level, nodes`level
    {
      && Linked(nodes, links, level)
      && LevelsAre(nodes, links)
      && nodes[0] == header
    }

    ghost predicate Valid()
      reads this, nodes
    {
      && Shape()
      && Mirrored(nodes, tail)
      && Leveled()
      && (level > 1 ==> links[0][level - 1].forward != null)
    }

    /** A valid list holds ascending scores, and members in ascending order among equal scores. */
    lemma Ascends(i: nat, j: nat)
      requires Valid() && i < j < |Elems()|
      ensures var x, y := Elems()[i], Elems()[j];
              var a, b := x.member, y.member;
              || x.score < y.score
              || (x.score == y.score && |a| < |b| && b[..|a|] == a)
              || (x.score == y.score && exists k :: 0 <= k < |a| && k < |b| && a[..k] == b[..k] && a[k] < b[k])
    {
      hide Linked, Mirrored, SkipList.Leveled;
      SortedMeans(Elems());
    }

    constructor ()
      ensures Valid()
      ensures Elems() == [] && level == 1
      ensures fresh(nodes)
    {
      var h := new Node(MAX_LEVEL, 0, []);
      header := h;
      tail := null;
      length := 0;
      level := 1;
      nodes := [h];
      links := [h.level];
      new;
      assert LinkOk(nodes, links, 0, 0);
    }

    /** x is a node of level i that comes before e, and rank its index. */
    ghost predicate Reached(e: Pair, x: Node, i: int, rank: int)
      reads this`nodes, this`links, this`level
    {
      && |links| == |nodes|
      && 0 <= rank < |nodes| && x == nodes[rank]
      && 0 <= i < level && i < |links[rank]|
      && (rank > 0 ==> Before(nodes[rank].Key(), e))
    }

    /** One level of the descent: walks right while the next node comes before e, adding up spans. */
    method Walk(e: Pair, from: Node, i: int, start: int) returns (x: Node, rank: int)
      requires Leveled() && Reached(e, from, i, start)
      ensures Reached(e, x, i, rank) && PredAt(nodes, links, e, i, rank)
    {
      x, rank := from, start;
      while x.level[i].forward != null && Before(x.level[i].forward.Key(), e)
        invariant Reached(e, x, i, rank)
        decreases |nodes| - rank
      {
        assert LinkOk(nodes, links, rank, i);
        rank := rank + x.level[i].span;
        x := x.level[i].forward;
      }
      assert LinkOk(nodes, links, rank, i);
    }

    /** update[i] is the nodes[rank[i]] after which a node with key e belongs at level i. */
    ghost predicate Found(e: Pair, update: seq<Node?>, rank: seq<int>, i: int)
      reads this`nodes, this`links
    {
      && |update| == |rank| == MAX_LEVEL && 0 <= i < MAX_LEVEL
      && PredAt(nodes, links, e, i, rank[i]) && update[i] == nodes[rank[i]]
    }

    method FindPredecessors(e: Pair) returns (update: seq<Node?>, rank: seq<int>)
      requires Leveled()
      ensures |update| == |rank| == MAX_LEVEL
      ensures forall i :: 0 <= i < level ==> Found(e, update, rank, i)
    {
      update := seq(MAX_LEVEL, _ => null);
      rank := seq(MAX_LEVEL, _ => 0);
      var x := header;
      var i := level - 1;
      while i >= 0
        invariant -1 <= i < level
        invariant |update| == |rank| == MAX_LEVEL
        invariant i >= 0 ==> Reached(e, x, i, if i < level - 1 then rank[i + 1] else 0)
        invariant forall j :: i < j < level ==> Found(e, update, rank, j)
      {
        var r := if i < level - 1 then rank[i + 1] else 0;
        x, r := Walk(e, x, i, r);
        ghost var rank0, update0 := rank, update;
        rank, update := rank[i := r], update[i := x];
        assert Found(e, update, rank, i);
        forall j | i < j < level
          ensures Found(e, update, rank, j)
        {
          assert Found(e, update0, rank0, j);
        }
        i := i - 1;
      }
    }

    /** The list is open for an insertion at position rank[0]. */
    ghost predicate Open(update: seq<Node?>, rank: seq<int>)
      reads this`nodes, this`links, this`level, nodes`level
    {
      && |update| == |rank| == MAX_LEVEL
      && Leveled()
      && Crossing(nodes, links, level, rank, rank[0])
      && (forall i :: 0 <= i < level ==> update[i] == nodes[rank[i]])
    }

    /** The first part of insert: levels the list never had start at the header. */
    method RaiseLevel(lvl: nat, update0: seq<Node?>, rank0: seq<int>) returns (update: seq<Node?>, rank: seq<int>)
      requires Open(update0, rank0) && level < lvl <= MAX_LEVEL && length == |nodes| - 1
      requires Distinct(nodes)
      modifies this`level, this`links, header`level
      ensures level == lvl && Open(update, rank) && rank[0] == rank0[0]
      ensures rank[level - 1] == 0
    {
      update, rank := update0, rank0;
      ghost var was := links;
      DistinctAt(nodes, 0);
      for i := level to lvl
        invariant level == old(level)
        invariant LevelsAre(nodes, links) && Raised(was, links, level, i)
        invariant |update| == |rank| == MAX_LEVEL
        invariant forall j :: 0 <= j < level ==> update[j] == update0[j] && rank[j] == rank0[j]
        invariant forall j :: level <= j < i ==> update[j] == header && rank[j] == 0
      {
        rank := rank[i := 0];
        update := update[i := header];
        header.level := header.level[i := header.level[i].(span := length)];
        links := links[0 := header.level];
      }
      RaisedCrossing(nodes, was, links, level, lvl, rank0, rank, rank0[0]);
      level := lvl;
    }

    method LinkLevel(node: Node, u: Node, i: nat, rank: seq<int>, ghost was: seq<seq<Link>>)
      requires LevelsAre(nodes, links) && Distinct(nodes) && node !in nodes && i < |node.level|
      requires |was| == |nodes| && i < |rank| && 0 <= rank[i] < |nodes| && i < |was[rank[i]]| && u == nodes[rank[i]]
      requires Spliced(was, links, rank, rank[0], |node.level|, node, i)
      requires NewLinks(was, node.level, rank, rank[0], i)
      modifies this`links, u`level, node`level
      ensures LevelsAre(nodes, links) && |node.level| == old(|node.level|)
      ensures Spliced(was, links, rank, rank[0], |node.level|, node, i + 1)
      ensures NewLinks(was, node.level, rank, rank[0], i + 1)
    {
      ghost var cur := links;
      DistinctAt(nodes, rank[i]);
      assert u.level[i] == was[rank[i]][i] by {
        assert links[rank[i]][i] == was[rank[i]][i];
      }
      node.level := node.level[i := Link(u.level[i].forward, u.level[i].span - (rank[0] - rank[i]))];
      u.level := u.level[i := Link(node, rank[0] - rank[i] + 1)];
      links := links[rank[i] := u.level];
    }

    method WidenLevel(node: Node, u: Node, i: nat, rank: seq<int>, ghost was: seq<seq<Link>>)
      requires LevelsAre(nodes, links) && Distinct(nodes) && node !in nodes && |node.level| <= i
      requires |was| == |nodes| && i < |rank| && 0 <= rank[i] < |nodes| && i < |was[rank[i]]| && u == nodes[rank[i]]
      requires Spliced(was, links, rank, rank[0], |node.level|, node, i)
      modifies this`links, u`level
      ensures LevelsAre(nodes, links) && node.level == old(node.level)
      ensures Spliced(was, links, rank, rank[0], |node.level|, node, i + 1)
    {
      ghost var cur := links;
      DistinctAt(nodes, rank[i]);
      u.level := u.level[i := u.level[i].(span := u.level[i].span + 1)];
      links := links[rank[i] := u.level];
    }

    /** The second part: the new node takes over the links that cross its position; higher ones grow by one. */
    method SpliceIn(node: Node, update: seq<Node?>, rank: seq<int>)
      requires Open(update, rank)
      requires Distinct(nodes) && node !in nodes && 1 <= |node.level| <= level
      modifies this`links, nodes`level, node`level
      ensures LevelsAre(nodes, links) && |node.level| == old(|node.level|)
      ensures Spliced(old(links), links, rank, rank[0], |node.level|, node, level)
      ensures NewLinks(old(links), node.level, rank, rank[0], |node.level|)
    {
      ghost var was := links;
      var lvl := |node.level|;
      for i := 0 to lvl
        invariant LevelsAre(nodes, links) && |node.level| == lvl
        invariant Spliced(was, links, rank, rank[0], lvl, node, i)
        invariant NewLinks(was, node.level, rank, rank[0], i)
      {
        assert CrossesAt(nodes, was, i, rank[i], rank[0]);
        LinkLevel(node, update[i], i, rank, was);
      }
      for i := lvl to level
        invariant LevelsAre(nodes, links) && |node.level| == lvl
        invariant Spliced(was, links, rank, rank[0], lvl, node, i)
        invariant NewLinks(was, node.level, rank, rank[0], lvl)
      {
        assert CrossesAt(nodes, was, i, rank[i], rank[0]);
        WidenLevel(node, update[i], i, rank, was);
      }
    }

    /** The third part: backward pointers and tail. */
    method LinkBack(node: Node, before: Node, ghost p: int)
      requires |nodes| >= 1 && nodes[0] == header && Distinct(nodes) && node !in nodes && Mirrored(nodes, tail)
      requires 0 <= p < |nodes| && before == nodes[p]
      requires |node.level| >= 1 && node.level[0].forward == if p + 1 < |nodes| then nodes[p + 1] else null
      modifies this`tail, node`backward, nodes`backward
      ensures Mirrored(Put(nodes, p + 1, node), tail)
    {
      DistinctAt(nodes, p);
      if p + 1 < |nodes| {
        DistinctAt(nodes, p + 1);
      }
      node.backward := if before == header then null else before;
      if node.level[0].forward != null {
        node.level[0].forward.backward := node;
      } else {
        tail := node;
      }
      DistinctAt(nodes, 0);
      ghost var nodes2 := Put(nodes, p + 1, node);
      forall k | 1 <= k < |nodes2|
        ensures nodes2[k].backward == if k == 1 then null else nodes2[k - 1]
      {
        assert nodes2[k] == if k <= p then nodes[k] else if k == p + 1 then node else nodes[k - 1];
      }
    }

    /** Counts the spliced-in node among the nodes. */
    ghost method Record(node: Node, rank: seq<int>, was: seq<seq<Link>>)
      requires |rank| == MAX_LEVEL && Crossing(nodes, was, level, rank, rank[0])
      requires LevelsAre(nodes, links) && nodes[0] == header && 1 <= |node.level| <= level
      requires Spliced(was, links, rank, rank[0], |node.level|, node, level)
      requires NewLinks(was, node.level, rank, rank[0], |node.level|)
      modifies this`nodes, this`links
      ensures nodes == Put(old(nodes), rank[0] + 1, node)
      ensures Leveled()
      ensures |node.level| == level || was[0][level - 1].forward != null ==> links[0][level - 1].forward != null
      ensures |node.level| < level ==> links[0][level - 1].forward == was[0][level - 1].forward
      ensures |node.level| == level && rank[level - 1] == 0 ==> links[0][level - 1].forward == node
    {
      var p := rank[0];
      var nodes2, links2 := Put(nodes, p + 1, node), Put(links, p + 1, node.level);
      PutPointwise(nodes, p + 1, node);
      PutPointwise(links, p + 1, node.level);
      InsertedLinked(nodes, was, level, rank, p, links, node, node.level, nodes2, links2);
      assert links2[0][level - 1] == links[0][level - 1];
      nodes, links := nodes2, links2;
    }

    /** What insert does once the new node exists and the list is tall enough for it. */
    method Attach(node: Node, update: seq<Node?>, rank: seq<int>)
      requires Open(update, rank)
      requires Distinct(nodes) && node !in nodes && 1 <= |node.level| <= level && Mirrored(nodes, tail)
      requires |node.level| == level || links[0][level - 1].forward != null
      modifies this`tail, this`nodes, this`links, this`length, nodes, node
      ensures nodes == Put(old(nodes), rank[0] + 1, node)
      ensures length == old(length) + 1
      ensures Leveled() && Mirrored(nodes, tail)
      ensures links[0][level - 1].forward != null
      ensures |node.level| == old(|node.level|)
      ensures |node.level| < level ==> links[0][level - 1].forward == old(links[0][level - 1].forward)
      ensures |node.level| == level && rank[level - 1] == 0 ==> links[0][level - 1].forward == node
    {
      hide Linked, Spliced, NewLinks, Put, LinkOk, Mirrored, Distinct, LevelsAre;
      ghost var was: seq<seq<Link>> := links;
      LevelZeroStep(nodes, links, level, rank[0]);
      SpliceIn(node, update, rank);
      assert node.level[0].forward == was[rank[0]][0].forward;
      LinkBack(node, update[0], rank[0]);
      Record(node, rank, was);
      length := length + 1;
    }

    method Insert(score: int, member: bytes, lvl: nat) returns (node: Node, ghost p: nat)
      requires Valid() && 1 <= lvl <= MAX_LEVEL
      requires Pair(score, member) !in Elems()
      modifies this, nodes
      ensures Valid() && fresh(node)
      ensures node.Key() == Pair(score, member) && p <= |old(Elems())|
      ensures nodes == Put(old(nodes), p + 1, node)
      ensures lvl < old(level) ==>
                level == old(level) && links[0][level - 1].forward == old(links[0][level - 1].forward)
      ensures lvl > old(level) ==> level == lvl && links[0][level - 1].forward == node
      ensures Elems() == Put(old(Elems()), p, Pair(score, member))
    {
      hide Linked, Crossing, Put, LinkOk, Mirrored, Distinct, LevelsAre, Sorted, Keys, Found, Before;
      ghost var e, es := Pair(score, member), Elems();
      var update, rank := FindPredecessors(Pair(score, member));
      p := Settle(e, update, rank);
      if lvl > level {
        update, rank := RaiseLevel(lvl, update, rank);
      }
      node := new Node(lvl, score, member);
      ghost var was := nodes;
      Attach(node, update, rank);
      KeysPut(was, p, node);
      DistinctPut(was, p + 1, node);
      SortedWith(es, p, e, Elems());
    }

    /** What a finished search says about the position it found. */
    lemma Settle(e: Pair, update: seq<Node?>, rank: seq<int>) returns (p: nat)
      requires Valid() && |update| == |rank| == MAX_LEVEL
      requires forall i :: 0 <= i < level ==> Found(e, update, rank, i)
      ensures p == rank[0] <= |Elems()| && Open(update, rank)
      ensures forall k :: 0 <= k < p ==> Before(Elems()[k], e)
      ensures forall k :: p <= k < |Elems()| ==> !Before(Elems()[k], e)
    {
      forall i | 0 <= i < level
        ensures PredAt(nodes, links, e, i, rank[i])
      {
        assert Found(e, update, rank, i);
      }
      SearchCrosses(nodes, links, level, e, rank);
      assert Found(e, update, rank, 0);
      p := rank[0];
      forall k | 0 <= k < |Elems()|
        ensures Elems()[k] == nodes[k + 1].Key()
      {
      }
      forall i | 0 <= i < level
        ensures update[i] == nodes[rank[i]]
      {
        assert Found(e, update, rank, i);
      }
    }

    method BridgeLevel(target: Node, u: Node, i: nat, ghost rank: seq<int>, ghost q: int, ghost was: seq<seq<Link>>)
      requires LevelsAre(nodes, links) && Distinct(nodes)
      requires |was| == |nodes| && i < |rank| && 0 <= rank[i] < |nodes| && i < |was[rank[i]]| && u == nodes[rank[i]]
      requires 0 <= q < |nodes| && rank[i] != q && target == nodes[q] && links[q] == was[q]
      requires i < |u.level| && (u.level[i].forward == target ==> i < |was[q]|)
      requires Bridged(nodes, was, links, rank, q, i)
      modifies this`links, u`level
      ensures LevelsAre(nodes, links) && links[q] == was[q]
      ensures Bridged(nodes, was, links, rank, q, i + 1)
    {
      ghost var cur := links;
      DistinctAt(nodes, rank[i]);
      if u.level[i].forward == target {
        u.level := u.level[i := Link(target.level[i].forward, u.level[i].span + target.level[i].span - 1)];
      } else {
        u.level := u.level[i := u.level[i].(span := u.level[i].span - 1)];
      }
      links := links[rank[i] := u.level];
      BridgedStep(nodes, was, cur, links, rank, q, i);
    }

    /** The first part of delete_node: every level is bridged over the target, or shortened by one. */
    method Bridge(target: Node, update: seq<Node?>, ghost rank: seq<int>)
      requires Open(update, rank) && Distinct(nodes)
      requires rank[0] + 1 < |nodes| && target == nodes[rank[0] + 1]
      modifies this`links, nodes`level
      ensures LevelsAre(nodes, links)
      ensures links[rank[0] + 1] == old(links)[rank[0] + 1]
      ensures Bridged(nodes, old(links), links, rank, rank[0] + 1, level)
    {
      hide Crossing, Bridged, Distinct;
      ghost var was, q := links, rank[0] + 1;
      NothingBridged(was, rank);
      for i := 0 to level
        invariant LevelsAre(nodes, links) && links[q] == was[q]
        invariant Bridged(nodes, was, links, rank, q, i)
      {
        LinkedTo(was, links, rank, i);
        BridgeLevel(target, update[i], i, rank, q, was);
      }
    }

    lemma NothingBridged(was: seq<seq<Link>>, rank: seq<int>)
      requires |rank| > 0 && Crossing(nodes, was, level, rank, rank[0])
      requires |was| == |nodes| && rank[0] + 1 < |nodes|
      ensures 0 <= rank[0] && Bridged(nodes, was, was, rank, rank[0] + 1, 0)
    {
    }

    /** A crossing link that ends in the next node says that this node is tall enough. */
    lemma LinkedTo(was: seq<seq<Link>>, cur: seq<seq<Link>>, rank: seq<int>, i: nat)
      requires |rank| == MAX_LEVEL
      requires Crossing(nodes, was, level, rank, rank[0]) && i < level && rank[0] + 1 < |nodes|
      requires Bridged(nodes, was, cur, rank, rank[0] + 1, i) && Distinct(nodes)
      ensures 0 <= rank[i] <= rank[0] && |was| == |cur| == |nodes| && i < |was[rank[i]]| == |cur[rank[i]]|
      ensures cur[rank[i]][i].forward == nodes[rank[0] + 1] ==> i < |was[rank[0] + 1]|
    {
      assert CrossesAt(nodes, was, i, rank[i], rank[0]);
      assert LinkOk(nodes, was, rank[i], i);
      assert cur[rank[i]][i] == was[rank[i]][i];
      var t := Target(rank[i], was[rank[i]][i]);
      if t < |nodes| && t != rank[0] + 1 {
        assert Differ(nodes[t], nodes[rank[0] + 1]);
      }
    }

    /** The second part: backward pointers and tail. */
    method UnlinkBack(target: Node, ghost q: int)
      requires |nodes| >= 1 && nodes[0] == header && Distinct(nodes) && Mirrored(nodes, tail)
      requires 1 <= q < |nodes| && target == nodes[q]
      requires |target.level| >= 1 && target.level[0].forward == if q + 1 < |nodes| then nodes[q + 1] else null
      modifies this`tail, nodes`backward
      ensures Mirrored(Cut(nodes, q), tail)
    {
      if q + 1 < |nodes| {
        DistinctAt(nodes, q + 1);
      }
      if target.level[0].forward != null {
        target.level[0].forward.backward := target.backward;
      } else {
        tail := target.backward;
      }
      ghost var nodes2 := Cut(nodes, q);
      forall k | 1 <= k < |nodes2|
        ensures nodes2[k].backward == if k == 1 then null else nodes2[k - 1]
      {
        assert nodes2[k] == nodes[if k < q then k else k + 1];
        assert nodes2[k - 1] == nodes[if k - 1 < q then k - 1 else k];
      }
    }

    /** Drops the bridged node from the nodes. */
    ghost method Forget(rank: seq<int>, was: seq<seq<Link>>)
      requires |rank| == MAX_LEVEL && Crossing(nodes, was, level, rank, rank[0]) && Distinct(nodes)
      requires LevelsAre(nodes, links) && nodes[0] == header && rank[0] + 1 < |nodes|
      requires Bridged(nodes, was, links, rank, rank[0] + 1, level)
      modifies this`nodes, this`links
      ensures nodes == Cut(old(nodes), rank[0] + 1)
      ensures Leveled()
    {
      hide Linked, Bridged, LinkOk, Distinct, Mirrored, Sorted;
      var q := rank[0] + 1;
      RemovedLinked(nodes, was, level, rank, rank[0], links, Cut(nodes, q), Cut(links, q));
      nodes, links := Cut(nodes, q), Cut(links, q);
    }

    /** The third part: levels that no node reaches any more are given up. */
    method ShrinkLevel()
      requires Leveled()
      modifies this`level
      ensures Leveled() && (level > 1 ==> links[0][level - 1].forward != null)
    {
      while level > 1 && header.level[level - 1].forward == null
        invariant Leveled()
      {
        TopUnused(nodes, links, level);
        level := level - 1;
      }
    }

    method Detach(target: Node, update: seq<Node?>, ghost rank: seq<int>)
      requires Mirrored(nodes, tail) && Distinct(nodes) && Open(update, rank)
      requires rank[0] + 1 < |nodes| && target == nodes[rank[0] + 1]
      modifies this`tail, this`nodes, this`links, nodes
      ensures nodes == Cut(old(nodes), rank[0] + 1)
      ensures Leveled() && Mirrored(nodes, tail)
    {
      hide Linked, Bridged, Cut, LinkOk, Mirrored, Distinct, LevelsAre;
      Basics();
      ghost var was, q := links, rank[0] + 1;
      LevelZeroStep(nodes, links, level, q);
      LevelIs(q);
      Bridge(target, update, rank);
      LevelIs(q);
      UnlinkBack(target, q);
      Forget(rank, was);
    }

    method DeleteNode(target: Node, update: seq<Node?>, ghost rank: seq<int>)
      requires Shape() && Mirrored(nodes, tail) && Open(update, rank)
      requires rank[0] + 1 < |nodes| && target == nodes[rank[0] + 1]
      modifies this, nodes
      ensures nodes == Cut(old(nodes), rank[0] + 1)
      ensures Valid()
    {
      hide Linked, Crossing, CrossesAt, Cut, LinkOk, Mirrored, Distinct, LevelsAre, Sorted;
      ghost var q := rank[0] + 1;
      Position(update, rank);
      KeysCut(nodes, q);
      DistinctCut(nodes, q);
      SortedCut(Keys(nodes), q - 1);
      Detach(target, update, rank);
      ShrinkLevel();
      length := length - 1;
    }

    lemma Position(update: seq<Node?>, rank: seq<int>)
      requires Open(update, rank)
      ensures 0 <= rank[0] < |nodes|
    {
    }

    lemma Basics()
      requires Leveled()
      ensures 1 <= level <= MAX_LEVEL && |nodes| >= 1
      ensures |header.level| == MAX_LEVEL
    {
    }

    lemma LevelIs(k: int)
      requires LevelsAre(nodes, links) && 0 <= k < |nodes|
      ensures |links| == |nodes| && nodes[k].level == links[k]
    {
    }

    method Delete(score: int, member: bytes) returns (found: bool, ghost p: nat)
      requires Valid()
      modifies this, nodes
      ensures Valid()
      ensures found <==> Pair(score, member) in old(Elems())
      ensures found ==> p < |old(Elems())| && old(Elems())[p] == Pair(score, member)
      ensures found ==> nodes == Cut(old(nodes), p + 1) && Elems() == Cut(old(Elems()), p)
      ensures !found ==> nodes == old(nodes)
    {
      hide Linked, Cut, LinkOk, Mirrored, Distinct, LevelsAre, Sorted;
      ghost var es := Elems();
      Basics();
      var update, rank := FindPredecessors(Pair(score, member));
      p := Settle(Pair(score, member), update, rank);
      StoredAt(es, Pair(score, member), p);
      LevelZeroStep(nodes, links, level, p);
      LevelIs(p);
      var target := update[0].level[0].forward;
      if target != null && target.score == score && target.member == member {
        KeysCut(nodes, p + 1);
        DeleteNode(target, update, rank);
        found := true;
      } else {
        found := false;
      }
    }

    /** The first node at the top level is at most e: the search for e leaves the header at once. */
    ghost predicate TopReaches(e: Pair)
      requires Valid()
      reads this, nodes
    {
      && links[0][level - 1].forward != null
      && AtMost(links[0][level - 1].forward.Key(), e)
    }

    /** x is the last node of level i that is at most e, or still on the way to it. */
    ghost predicate Passed(e: Pair, x: Node, i: int, rank: int)
      reads this`nodes, this`links, this`level
    {
      && |links| == |nodes|
      && 0 <= rank < |nodes| && x == nodes[rank]
      && 0 <= i < level && i < |links[rank]|
      && (rank > 0 ==> AtMost(nodes[rank].Key(), e))
    }

    ghost predicate Stops(e: Pair, i: int, rank: int)
      requires |links| == |nodes| && 0 <= rank < |nodes| && 0 <= i < |links[rank]|
      reads this`nodes, this`links
    {
      var t := Target(rank, links[rank][i]);
      0 <= t < |nodes| ==> !AtMost(nodes[t].Key(), e)
    }

    /** One level of the rank search: walks right while the next node is at most e, adding up spans. */
    method WalkThrough(e: Pair, from: Node, i: int, start: int) returns (x: Node, rank: int)
      requires Leveled() && Passed(e, from, i, start)
      ensures Passed(e, x, i, rank) && Stops(e, i, rank) && start <= rank
      ensures rank > start <==> from.level[i].forward != null && AtMost(from.level[i].forward.Key(), e)
    {
      x, rank := from, start;
      while x.level[i].forward != null && AtMost(x.level[i].forward.Key(), e)
        invariant Passed(e, x, i, rank) && start <= rank
        invariant rank == start ==> x == from
        invariant rank > start ==> from.level[i].forward != null && AtMost(from.level[i].forward.Key(), e)
        decreases |nodes| - rank
      {
        assert LinkOk(nodes, links, rank, i);
        rank := rank + x.level[i].span;
        x := x.level[i].forward;
      }
      assert LinkOk(nodes, links, rank, i);
    }

    /** The level-0 search for a stored pair stops at that pair; no search passes it. */
    lemma StopsAtStored(e: Pair, i: int, rank: int, q: nat)
      requires Valid() && 1 <= q < |nodes| && nodes[q].Key() == e
      requires 0 <= rank < |nodes| && Passed(e, nodes[rank], i, rank) && Stops(e, i, rank)
      ensures rank <= q
      ensures i == 0 ==> rank == q
    {
      var es := Elems();
      assert es[q - 1] == e;
      if rank > q {
        assert Before(es[q - 1], es[rank - 1]);
        AtMostIsNotAfter(es[rank - 1], e);
      }
      if i == 0 {
        LevelZeroStep(nodes, links, level, rank);
        if rank < q {
          SortedAtMost(es, rank, q - 1);
        }
      }
    }

    method GetRank(score: int, member: bytes) returns (r: int)
      requires Valid()
      ensures r != 0 ==>
                1 <= r <= length && Elems()[r - 1].member == member && AtMost(Elems()[r - 1], Pair(score, member))
      ensures UniqueMembers(Elems()) && Pair(score, member) in Elems() ==>
                r == if member == [] && !TopReaches(Pair(score, member)) then 0
                     else CountBefore(Elems(), Pair(score, member)) + 1
    {
      hide Linked, LinkOk, Mirrored, Distinct, Sorted, UniqueMembers, CountBefore;
      ghost var e := Pair(score, member);
      Basics();
      LevelIs(0);
      var x, rank := header, 0;
      var i := level - 1;
      while i >= 0
        invariant -1 <= i < level
        invariant i >= 0 ==> Passed(e, x, i, rank)
        invariant i == level - 1 ==> x == header && rank == 0
        invariant i < level - 1 && member == [] ==> rank > 0 && TopReaches(e)
        invariant i < 0 ==> e !in Elems()
      {
        x, rank := WalkThrough(Pair(score, member), x, i, rank);
        assert member == [] && i == level - 1 ==> (rank > 0 <==> TopReaches(e));
        assert member != [] && x.member == member ==> rank > 0;
        if x.member == member {
          if UniqueMembers(Elems()) && e in Elems() {
            FoundRank(e, i, rank);
          }
          return rank;
        }
        if i == 0 {
          NotFound(e, rank);
        }
        i := i - 1;
      }
      r := 0;
    }

    lemma FoundRank(e: Pair, i: int, rank: int)
      requires Valid() && UniqueMembers(Elems()) && e in Elems()
      requires 0 <= rank < |nodes| && Passed(e, nodes[rank], i, rank) && Stops(e, i, rank) &&
               nodes[rank].member == e.member
      ensures rank != 0 ==> rank == CountBefore(Elems(), e) + 1
    {
      if rank > 0 {
        var es := Elems();
        var k :| 0 <= k < |es| && es[k] == e;
        assert es[rank - 1].member == es[k].member;
        IndexIsCount(es, k);
      }
    }

    lemma NotFound(e: Pair, rank: int)
      requires Valid() && 0 <= rank < |nodes| && Passed(e, nodes[rank], 0, rank) && Stops(e, 0, rank) &&
               nodes[rank].member != e.member
      ensures e !in Elems()
    {
      if e in Elems() {
        var k :| 0 <= k < |Elems()| && Elems()[k] == e;
        StopsAtStored(e, 0, rank, k + 1);
      }
    }

    /** Following level 0 goes through the stored pairs in order. */
    lemma Next(k: nat)
      requires Valid() && 1 <= k < |nodes|
      ensures nodes[k].Key() == Elems()[k - 1]
      ensures 1 <= |nodes[k].level|
      ensures nodes[k].level[0].forward == if k + 1 < |nodes| then nodes[k + 1] else null
    {
      LevelZeroStep(nodes, links, level, k);
    }

    /** Following the backward pointers goes through them in reverse. */
    lemma Previous(k: nat)
      requires Valid() && 1 <= k < |nodes|
      ensures nodes[k].Key() == Elems()[k - 1]
      ensures nodes[k].backward == if k == 1 then null else nodes[k - 1]
    {
    }

    method GetElementByRank(rank: int) returns (x: Node?)
      requires Valid()
      ensures x == if 0 <= rank <= length then nodes[rank] else null
    {
      hide Linked, LinkOk, Mirrored, Distinct, Sorted;
      var traversed := 0;
      x := header;
      var i := level - 1;
      Basics();
      LevelIs(0);
      while i >= 0
        invariant -1 <= i < level
        invariant 0 <= traversed < |nodes| && x == nodes[traversed]
        invariant traversed == 0 || traversed <= rank
        invariant i >= 0 ==> i < |links[traversed]|
        invariant i < 0 ==> traversed != rank && !(0 <= rank <= length)
      {
        x, traversed := WalkSpans(x, i, traversed, rank);
        if traversed == rank {
          return x;
        }
        i := i - 1;
      }
      x := null;
    }

    /** One level of the search by rank: walks right while that does not overshoot the rank. */
    method WalkSpans(from: Node, i: int, start: int, rank: int) returns (x: Node, traversed: int)
      requires Leveled() && length == |nodes| - 1
      requires 0 <= i < level && 0 <= start < |nodes| && from == nodes[start] && i < |links[start]|
      requires start == 0 || start <= rank
      ensures 0 <= traversed < |nodes| && x == nodes[traversed] && i < |links[traversed]|
      ensures traversed == 0 || traversed <= rank
      ensures i == 0 && 0 <= rank <= length ==> traversed == rank
    {
      x, traversed := from, start;
      while x.level[i].forward != null && traversed + x.level[i].span <= rank
        invariant 0 <= traversed < |nodes| && x == nodes[traversed] && i < |links[traversed]|
        invariant traversed == 0 || traversed <= rank
        decreases |nodes| - traversed
      {
        assert LinkOk(nodes, links, traversed, i);
        traversed, x := traversed + x.level[i].span, x.level[i].forward;
      }
      if i == 0 {
        LevelZeroStep(nodes, links, level, traversed);
      }
    }
  }

  lemma TwoMembers(es: seq<Pair>)
    requires |es| == 2 && es[0].member != es[1].member
    ensures UniqueMembers(es)
  {
  }

  /** The list of the example: (0, b"") at level 1 in front of a taller (1, b"a"). */
  method EmptyMemberInFront() returns (s: SkipList)
    ensures s.Valid() && UniqueMembers(s.Elems()) && Pair(0, []) in s.Elems() && !s.TopReaches(Pair(0, []))
  {
    hide Linked, LinkOk, Mirrored, Distinct, Sorted, LevelsAre, CountBefore, UniqueMembers;
    s := OneTall();
    var _, p := s.Insert(0, [], 1);
    assert s.Elems()[p] == Pair(0, []);
    assert s.Elems()[1 - p] == Pair(1, [97]);
    TwoMembers(s.Elems());
  }

  method OneTall() returns (s: SkipList)
    ensures s.Valid() && fresh(s) && fresh(s.nodes) && s.Elems() == [Pair(1, [97])]
    ensures s.level == 2 && s.links[0][1].forward != null && s.links[0][1].forward.Key() == Pair(1, [97])
  {
    hide Linked, LinkOk, Mirrored, Distinct, Sorted, LevelsAre, CountBefore, UniqueMembers, Put;
    s := new SkipList();
    ghost var was := s.nodes;
    var a, p := s.Insert(1, [97], 2);
    PutMembers(was, p + 1, a);
    forall i | 0 <= i < |s.nodes|
      ensures fresh(s.nodes[i])
    {
      assert s.nodes[i] in Put(was, p + 1, a);
    }
    PutIntoNone(p, Pair(1, [97]));
  }

  lemma PutIntoNone<T>(p: nat, x: T)
    requires p <= 0
    ensures Put([], p, x) == [x]
  {
  }

  /**
    * An empty member can be missed, because the header carries an empty member too: with (0, b"") at
    * level 1 in front of a taller (1, b"a"), its rank is reported as 0, not found.
    */
  method EmptyMemberIsMissed() returns (s: SkipList, r: int)
    ensures s.Valid() && Pair(0, []) in s.Elems()
    ensures r == 0
  {
    hide Linked, LinkOk, Mirrored, Distinct, Sorted, LevelsAre, CountBefore, UniqueMembers;
    s := EmptyMemberInFront();
    r := s.GetRank(0, []);
  }
}
