// Slot ownership, ranges and routing, cluster/node.py.

module Cluster {
  import opened Bytes
  import opened Resp
  import opened Slots

  // ---------------------------------------------------------------------------------------------
  // Ranges
  // ---------------------------------------------------------------------------------------------

  datatype Range = Range(start: int, end: int)

  predicate Increasing(s: seq<int>) {
    forall i, j :: 0 <= i < j < |s| ==> s[i] < s[j]
  }

  function Expanded(start: int, end: int): (s: seq<int>)
    ensures |s| == if start <= end then end - start + 1 else 0
    ensures forall i :: 0 <= i < |s| ==> s[i] == start + i
    decreases end - start
  {
    if start > end then [] else [start] + Expanded(start + 1, end)
  }

  /** The slots that a list of ranges names, in order. */
  function Expand(ranges: seq<Range>): seq<int> {
    if ranges == [] then []
    else Expand(ranges[..|ranges| - 1]) + Expanded(ranges[|ranges| - 1].start, ranges[|ranges| - 1].end)
  }

  /** No range is empty, and between one and the next at least one slot is missing. */
  predicate Apart(ranges: seq<Range>) {
    && (forall i :: 0 <= i < |ranges| ==> ranges[i].start <= ranges[i].end)
    && (forall i, j :: 0 <= i < j < |ranges| ==> ranges[i].end + 1 < ranges[j].start)
  }

  predicate Within(r: Range, s: int) { r.start <= s <= r.end }

  predicate Covers(ranges: seq<Range>, s: int) {
    exists i :: 0 <= i < |ranges| && Within(ranges[i], s)
  }

  lemma {:induction false} ExpandMembers(ranges: seq<Range>, s: int)
    ensures s in Expand(ranges) <==> Covers(ranges, s)
  {
    if ranges != [] {
      var n := |ranges| - 1;
      ExpandMembers(ranges[..n], s);
      var last := Expanded(ranges[n].start, ranges[n].end);
      if Within(ranges[n], s) {
        assert last[s - ranges[n].start] == s;
      }
      CoversMore(ranges[..n], ranges[n], s);
      assert ranges == ranges[..n] + [ranges[n]];
    }
  }

  lemma CoversMore(ranges: seq<Range>, r: Range, s: int)
    ensures Covers(ranges + [r], s) <==> Covers(ranges, s) || Within(r, s)
  {
    var more := ranges + [r];
    if Covers(ranges, s) {
      var i :| 0 <= i < |ranges| && Within(ranges[i], s);
      assert Within(more[i], s);
    }
    if Within(r, s) {
      assert Within(more[|ranges|], s);
    }
    if Covers(more, s) {
      var i :| 0 <= i < |more| && Within(more[i], s);
      assert i < |ranges| ==> Within(ranges[i], s);
    }
  }

  ghost predicate SameSlots(a: seq<Range>, b: seq<Range>) {
    forall s :: Covers(a, s) <==> Covers(b, s)
  }

  /** Maximal ranges are determined by their slots: only the longest runs leave no other choice. */
  lemma {:induction false} RangesAreUnique(a: seq<Range>, b: seq<Range>)
    requires Apart(a) && Apart(b) && SameSlots(a, b)
    ensures a == b
    decreases |a|
  {
    if a == [] || b == [] {
      NothingCovered(a);
      NothingCovered(b);
    } else {
      hide Apart, SameSlots, Covers;
      SameLast(a, b);
      var n, m := |a| - 1, |b| - 1;
      WithoutLast(a, b);
      RangesAreUnique(a[..n], b[..m]);
      assert a == a[..n] + [a[n]] && b == b[..m] + [b[m]];
    }
  }

  lemma NothingCovered(a: seq<Range>)
    requires Apart(a)
    ensures a == [] || Covers(a, a[0].start)
  {
    if a != [] {
      assert Within(a[0], a[0].start);
    }
  }

  lemma SameLast(a: seq<Range>, b: seq<Range>)
    requires Apart(a) && Apart(b) && a != [] && b != [] && SameSlots(a, b)
    ensures a[|a| - 1] == b[|b| - 1]
  {
    hide Apart, Covers;
    LastSlots(a);
    LastSlots(b);
    var r, q := a[|a| - 1], b[|b| - 1];
    assert Covers(a, r.end) <==> Covers(b, r.end);
    assert Covers(a, q.end) <==> Covers(b, q.end);
    assert Covers(a, r.start - 1) <==> Covers(b, r.start - 1);
    assert Covers(a, q.start - 1) <==> Covers(b, q.start - 1);
  }

  /** The last range ends at the last slot, and the slot before it is missing. */
  lemma LastSlots(a: seq<Range>)
    requires Apart(a) && a != []
    ensures var r := a[|a| - 1];
            && r.start <= r.end
            && (forall s :: r.start <= s <= r.end ==> Covers(a, s))
            && !Covers(a, r.start - 1)
            && (forall s :: s > r.end ==> !Covers(a, s))
  {
    var n := |a| - 1;
    forall s | a[n].start <= s <= a[n].end
      ensures Covers(a, s)
    {
      assert Within(a[n], s);
    }
  }

  lemma WithoutLast(a: seq<Range>, b: seq<Range>)
    requires Apart(a) && Apart(b) && a != [] && b != [] && a[|a| - 1] == b[|b| - 1] && SameSlots(a, b)
    ensures Apart(a[..|a| - 1]) && Apart(b[..|b| - 1]) && SameSlots(a[..|a| - 1], b[..|b| - 1])
  {
    hide Covers;
    var n, m := |a| - 1, |b| - 1;
    forall s
      ensures Covers(a[..n], s) <==> Covers(b[..m], s)
    {
      BeforeLast(a, s);
      BeforeLast(b, s);
    }
  }

  lemma BeforeLast(a: seq<Range>, s: int)
    requires Apart(a) && a != []
    ensures Covers(a[..|a| - 1], s) <==> Covers(a, s) && s < a[|a| - 1].start
  {
    var n := |a| - 1;
    CoversMore(a[..n], a[n], s);
    assert a == a[..n] + [a[n]];
    if Covers(a[..n], s) {
      var i :| 0 <= i < n && Within(a[..n][i], s);
      assert a[i].end + 1 < a[n].start;
    }
  }

  lemma OneMoreRange(ranges: seq<Range>, r: Range)
    requires Apart(ranges) && r.start <= r.end && (ranges != [] ==> ranges[|ranges| - 1].end + 1 < r.start)
    ensures Apart(ranges + [r])
  {
    var more, n := ranges + [r], |ranges|;
    forall i | 0 <= i < n
      ensures more[i].end + 1 < more[n].start
    {
      assert more[i] == ranges[i];
      if i < n - 1 {
        assert ranges[i].end + 1 < ranges[n - 1].start;
      }
    }
  }

  lemma ExpandMore(ranges: seq<Range>, r: Range)
    ensures Expand(ranges + [r]) == Expand(ranges) + Expanded(r.start, r.end)
  {
    assert (ranges + [r])[..|ranges|] == ranges;
  }

  lemma NoRanges()
    ensures Apart([]) && Expand([]) == []
  {
  }

  lemma OneSlot(s: int)
    ensures Expanded(s, s) == [s]
  {
  }

  method GetContiguousRanges(sortedSlots: seq<int>) returns (ranges: seq<Range>)
    requires Increasing(sortedSlots)
    ensures Apart(ranges) && Expand(ranges) == sortedSlots
  {
    hide Apart, Expand, Expanded;
    if sortedSlots == [] {
      NoRanges();
      return [];
    }
    ranges := [];
    NoRanges();
    OneSlot(sortedSlots[0]);
    var start := sortedSlots[0];
    var prev := start;
    for i := 1 to |sortedSlots|
      invariant start <= prev == sortedSlots[i - 1]
      invariant Apart(ranges) && (ranges != [] ==> ranges[|ranges| - 1].end + 1 < start)
      invariant Expand(ranges) + Expanded(start, prev) == sortedSlots[..i]
    {
      var s := sortedSlots[i];
      assert sortedSlots[..i + 1] == sortedSlots[..i] + [s];
      if s == prev + 1 {
        prev := s;
      } else {
        OneMoreRange(ranges, Range(start, prev));
        ExpandMore(ranges, Range(start, prev));
        OneSlot(s);
        ranges := ranges + [Range(start, prev)];
        start := s;
        prev := s;
      }
    }
    assert sortedSlots[..|sortedSlots|] == sortedSlots;
    OneMoreRange(ranges, Range(start, prev));
    ExpandMore(ranges, Range(start, prev));
    ranges := ranges + [Range(start, prev)];
  }

  /** Python's sorted, for a set of slots. */
  method Sorted(slots: set<int>) returns (s: seq<int>)
    requires forall x :: x in slots ==> InRange(x)
    ensures Increasing(s) && forall x :: x in s <==> x in slots
  {
    s := [];
    for i := 0 to TOTAL_SLOTS
      invariant Increasing(s) && (forall x :: x in s <==> x in slots && x < i)
      invariant forall k :: 0 <= k < |s| ==> s[k] < i
    {
      if i in slots {
        s := s + [i];
      }
    }
  }

  // ---------------------------------------------------------------------------------------------
  // Nodes and owners
  // ---------------------------------------------------------------------------------------------

  class ClusterNodeInfo {
    const nodeId: string
    const host: string
    const port: int
    var slots: set<int>

    constructor (nodeId: string, host: string, port: int, slots: set<int>)
      ensures this.nodeId == nodeId && this.host == host && this.port == port && this.slots == slots
    {
      this.nodeId, this.host, this.port, this.slots := nodeId, host, port, slots;
    }
  }

  datatype Change = AssignSlots(nodeId: string, slots: seq<int>) | AddNode(nodeId: string, host: string, port: int)

  type Owners = seq<Option<string>>

  predicate InRange(s: int) { 0 <= s < TOTAL_SLOTS }

  function Assigned(owners: Owners, id: string, slots: seq<int>): (r: Owners)
    ensures |r| == |owners|
    decreases |slots|
  {
    if slots == [] then owners
    else Assigned(if 0 <= slots[0] < |owners| then owners[slots[0] := Some(id)] else owners, id, slots[1..])
  }

  lemma {:induction false} AssignedAt(owners: Owners, id: string, slots: seq<int>, s: int)
    requires 0 <= s < |owners|
    ensures Assigned(owners, id, slots)[s] == if s in slots then Some(id) else owners[s]
    decreases |slots|
  {
    if slots != [] {
      AssignedAt(if 0 <= slots[0] < |owners| then owners[slots[0] := Some(id)] else owners, id, slots[1..], s);
    }
  }

  /** An owner with the empty id is taken for no owner, and keeps the slot in its set. */
  predicate LeavesBehind(owners: Owners, id: string, slots: seq<int>) {
    id != "" && exists s :: s in slots && 0 <= s < |owners| && owners[s] == Some("")
  }

  datatype Routing = Here | Moved(slot: int, host: string, port: int) | CrossSlot

  datatype Row = Row(start: int, end: int, host: string, port: int, nodeId: string)

  predicate RowCovers(row: Row, s: int) { row.start <= s <= row.end }

  class ClusterManager {
    const enabled: bool
    const myselfId: string
    const host: string
    const port: int
    var nodes: map<string, ClusterNodeInfo>
    var slotOwners: Owners

    ghost predicate Valid()
      reads this, nodes.Values
    {
      && |slotOwners| == TOTAL_SLOTS
      && (forall id :: id in nodes ==> nodes[id].nodeId == id)
      && (forall id, s :: id in nodes && s in nodes[id].slots ==> InRange(s))
    }

    /** A slot's owner is a node exactly when the slot is in that node's set. */
    ghost predicate Agree()
      requires Valid()
      reads this, nodes.Values
    {
      && (forall s :: InRange(s) && slotOwners[s].Some? ==> slotOwners[s].value in nodes)
      && (forall id, s :: id in nodes && InRange(s) ==> (s in nodes[id].slots <==> slotOwners[s] == Some(id)))
    }

    constructor (nodeId: string, host: string, port: int, enabled: bool)
      ensures Valid() && Agree() && nodes.Keys == {nodeId} && fresh(nodes.Values)
      ensures slotOwners == seq(TOTAL_SLOTS, _ => if enabled then None else Some(nodeId))
      ensures this.enabled == enabled && this.myselfId == nodeId && this.host == host && this.port == port
    {
      this.enabled, this.myselfId, this.host, this.port := enabled, nodeId, host, port;
      var all := set s | 0 <= s < TOTAL_SLOTS && InRange(s);
      var myself := new ClusterNodeInfo(nodeId, host, port, if enabled then {} else all);
      nodes := map[nodeId := myself];
      slotOwners := seq(TOTAL_SLOTS, _ => if enabled then None else Some(nodeId));
    }

    /** One slot changes hands. */
    method MoveSlot(s: int, nodeId: string)
      requires Valid() && InRange(s) && nodeId in nodes
      modifies this`slotOwners, nodes.Values
      ensures Valid() && slotOwners == old(slotOwners)[s := Some(nodeId)]
      ensures forall id :: id in nodes ==>
                             nodes[id].slots == if id == nodeId then old(nodes[id].slots) + {s}
                                                else if old(slotOwners)[s] == Some(id) && id != "" then
                                                  old(nodes[id].slots) - {s}
                                                else old(nodes[id].slots)
    {
      var node, oldOwner := nodes[nodeId], slotOwners[s];
      if oldOwner.Some? && oldOwner.value != "" && oldOwner.value in nodes {
        nodes[oldOwner.value].slots := nodes[oldOwner.value].slots - {s};
      }
      slotOwners := slotOwners[s := Some(nodeId)];
      node.slots := node.slots + {s};
    }

    /** The sets after the slots of one assignment, where owners and sets agreed before it. */
    ghost predicate SetsFollow(owners: Owners, nodeId: string, slots: seq<int>)
      requires |owners| == TOTAL_SLOTS
      reads this, nodes.Values
    {
      forall id, s {:trigger s in nodes[id].slots} :: id in nodes && InRange(s) ==>
                        (s in nodes[id].slots <==>
                         || (s in slots && id == nodeId)
                         || (owners[s] == Some(id) && (s !in slots || id == "" || id == nodeId)))
    }

    /**
      * False is the source's ValueError. Agreement survives exactly when no slot is taken from an owner with the
      * empty id.
      */
    method AssignSlots(nodeId: string, slots: seq<int>) returns (known: bool)
      requires Valid()
      modifies this`slotOwners, nodes.Values
      ensures Valid() && known == (nodeId in nodes)
      ensures slotOwners == if known then Assigned(old(slotOwners), nodeId, slots) else old(slotOwners)
      ensures old(Agree()) ==> (Agree() <==> !known || !LeavesBehind(old(slotOwners), nodeId, slots))
      ensures !known ==> forall id :: id in nodes ==> nodes[id].slots == old(nodes[id].slots)
    {
      if nodeId !in nodes {
        return false;
      }
      known := true;
      for i := 0 to |slots|
        invariant Valid()
        invariant Assigned(old(slotOwners), nodeId, slots) == Assigned(slotOwners, nodeId, slots[i..])
        invariant forall s :: InRange(s) ==>
                    slotOwners[s] == if s in slots[..i] then Some(nodeId) else old(slotOwners)[s]
        invariant old(Agree()) ==> SetsFollow(old(slotOwners), nodeId, slots[..i])
      {
        assert slots[i..][0] == slots[i] && slots[i..][1..] == slots[i + 1..];
        assert slots[..i + 1] == slots[..i] + [slots[i]];
        if InRange(slots[i]) {
          MoveSlot(slots[i], nodeId);
        }
      }
      assert slots[..|slots|] == slots;
      if old(Agree()) {
        AgreeAfter(old(slotOwners), nodeId, slots);
      }
    }

    lemma AgreeAfter(owners: Owners, nodeId: string, slots: seq<int>)
      requires Valid() && |owners| == TOTAL_SLOTS && nodeId in nodes && SetsFollow(owners, nodeId, slots)
      requires forall s :: InRange(s) ==> slotOwners[s] == if s in slots then Some(nodeId) else owners[s]
      requires forall s :: InRange(s) && owners[s].Some? ==> owners[s].value in nodes
      ensures Agree() <==> !LeavesBehind(owners, nodeId, slots)
    {
      if LeavesBehind(owners, nodeId, slots) {
        var s :| s in slots && 0 <= s < |owners| && owners[s] == Some("");
        assert s in nodes[""].slots;
      }
    }

    /**
      * A node added over one that owns slots comes back with an empty set: agreement survives exactly when it owns
      * none.
      */
    method AddNode(nodeId: string, host: string, port: int)
      requires Valid()
      modifies this`nodes
      ensures Valid() && nodeId in nodes && fresh(nodes[nodeId]) && nodes == old(nodes)[nodeId := nodes[nodeId]]
      ensures nodes[nodeId].slots == {} && nodes[nodeId].host == host && nodes[nodeId].port == port
      ensures old(Agree()) ==> (Agree() <==> forall s :: InRange(s) ==> slotOwners[s] != Some(nodeId))
    {
      var node := new ClusterNodeInfo(nodeId, host, port, {});
      nodes := nodes[nodeId := node];
    }

    // -------------------------------------------------------------------------------------------
    // Routing
    // -------------------------------------------------------------------------------------------

    function Route(key: bytes): Routing
      requires Valid()
      reads this, nodes.Values
    {
      var slot := KeySlot(key);
      var owner := slotOwners[slot];
      if !enabled || owner == Some(myselfId) then Here
      else if owner.Some? && owner.value in nodes then Moved(slot, nodes[owner.value].host, nodes[owner.value].port)
      else Moved(slot, host, port)
    }

    predicate Holds(id: string, slot: int)
      reads this, nodes.Values
    {
      id in nodes && slot in nodes[id].slots
    }

    /**
      * While owners and sets agree, a key is served here exactly when its slot is in this node's own set (or nothing is
      * partitioned), a redirection names the address of the one node that holds the slot, and a slot that no node holds
      * is redirected to this node itself.
      */
    method VerifyKeyRoute(key: bytes) returns (r: Routing)
      requires Valid()
      ensures r == Route(key) && r != CrossSlot
      ensures Agree() ==> (r == Here <==> !enabled || Holds(myselfId, KeySlot(key)))
      ensures Agree() ==>
                forall id {:trigger Holds(id, KeySlot(key))} :: r.Moved? && Holds(id, KeySlot(key)) ==>
                    r == Moved(KeySlot(key), nodes[id].host, nodes[id].port)
      ensures Agree() ==> (r.Moved? && (forall id :: !Holds(id, KeySlot(key))) ==> r == Moved(KeySlot(key), host, port))
    {
      hide KeySlot;
      if !enabled {
        return Here;
      }
      var slot := KeyToSlot(key);
      var owner := slotOwners[slot];
      if owner == Some(myselfId) {
        return Here;
      }
      if owner.Some? && owner.value in nodes {
        assert Agree() ==> Holds(owner.value, slot);
        return Moved(slot, nodes[owner.value].host, nodes[owner.value].port);
      }
      r := Moved(slot, host, port);
    }

    static predicate ShareSlot(keys: seq<bytes>) {
      forall i, j :: 0 <= i < j < |keys| ==> KeySlot(keys[i]) == KeySlot(keys[j])
    }

    /** Cross-slot exactly when two keys differ in their slot; otherwise the keys go where the first one goes. */
    method VerifyMultiKeyRoute(keys: seq<bytes>) returns (r: Routing)
      requires Valid()
      ensures r == CrossSlot <==> enabled && !ShareSlot(keys)
      ensures r != CrossSlot ==> r == if keys == [] then Here else Route(keys[0])
    {
      hide KeySlot;
      if !enabled || keys == [] {
        return Here;
      }
      var first := KeyToSlot(keys[0]);
      for i := 1 to |keys|
        invariant forall j :: 0 <= j < i ==> KeySlot(keys[j]) == first
      {
        var slot := KeyToSlot(keys[i]);
        if slot != first {
          return CrossSlot;
        }
      }
      r := VerifyKeyRoute(keys[0]);
    }

    // -------------------------------------------------------------------------------------------
    // The slots table
    // -------------------------------------------------------------------------------------------

    /** Every row names slots of its own node, with that node's address. */
    ghost predicate RowOk(row: Row)
      requires Valid()
      reads this, nodes.Values
    {
      && row.nodeId in nodes && row.host == nodes[row.nodeId].host && row.port == nodes[row.nodeId].port
      && row.start <= row.end
      && forall s :: RowCovers(row, s) ==> s in nodes[row.nodeId].slots
    }

    /** The rows of one node: its slots, in the longest possible runs. */
    method NodeRows(id: string) returns (rows: seq<Row>)
      requires Valid() && id in nodes
      ensures forall i :: 0 <= i < |rows| ==> RowOk(rows[i]) && rows[i].nodeId == id
      ensures forall s :: s in nodes[id].slots ==> RowsCover(rows, s)
      ensures Separate(rows)
    {
      var node := nodes[id];
      if node.slots == {} {
        return [];
      }
      var sortedSlots := Sorted(node.slots);
      var ranges := GetContiguousRanges(sortedSlots);
      rows := [];
      for k := 0 to |ranges|
        invariant |rows| == k
        invariant forall i :: 0 <= i < k ==> rows[i] == Row(ranges[i].start, ranges[i].end, node.host, node.port, id)
      {
        rows := rows + [Row(ranges[k].start, ranges[k].end, node.host, node.port, id)];
      }
      hide Expand;
      forall i, s | 0 <= i < |rows| && RowCovers(rows[i], s)
        ensures s in node.slots
      {
        assert Within(ranges[i], s);
        ExpandMembers(ranges, s);
      }
      forall s | s in node.slots
        ensures RowsCover(rows, s)
      {
        ExpandMembers(ranges, s);
        var i :| 0 <= i < |ranges| && Within(ranges[i], s);
        assert RowCovers(rows[i], s);
      }
    }

    /** The rows name exactly the slots with an owner, each once and under its owner, in the longest possible runs. */
    method GetClusterSlotsOutput() returns (rows: seq<Row>)
      requires Valid()
      ensures forall i :: 0 <= i < |rows| ==> RowOk(rows[i])
      ensures Agree() ==> forall i, s :: 0 <= i < |rows| && RowCovers(rows[i], s) ==>
                InRange(s) && slotOwners[s] == Some(rows[i].nodeId)
      ensures Agree() ==> forall s :: InRange(s) && slotOwners[s].Some? ==> RowsCover(rows, s)
      ensures Agree() ==> forall i, j, s :: 0 <= i < j < |rows| && RowCovers(rows[i], s) ==> !RowCovers(rows[j], s)
      ensures Separate(rows)
    {
      rows := [];
      var left := nodes.Keys;
      while left != {}
        invariant left <= nodes.Keys
        invariant forall i :: 0 <= i < |rows| ==> RowOk(rows[i]) && rows[i].nodeId !in left
        invariant forall id, s {:trigger s in nodes[id].slots} :: id in nodes && id !in left && s in nodes[id].slots ==>
                    RowsCover(rows, s)
        invariant Separate(rows)
        decreases |left|
      {
        var id :| id in left;
        left := left - {id};
        var more := NodeRows(id);
        CoverMore(rows, more);
        rows := rows + more;
      }
      if Agree() {
        forall i, s | 0 <= i < |rows| && RowCovers(rows[i], s)
          ensures InRange(s) && slotOwners[s] == Some(rows[i].nodeId)
        {
          assert s in nodes[rows[i].nodeId].slots;
        }
        forall i, j, s | 0 <= i < j < |rows| && RowCovers(rows[i], s)
          ensures !RowCovers(rows[j], s)
        {
          assert InRange(s) && slotOwners[s] == Some(rows[i].nodeId);
        }
        forall s | InRange(s) && slotOwners[s].Some?
          ensures RowsCover(rows, s)
        {
          assert s in nodes[slotOwners[s].value].slots;
        }
      }
    }
  }

  /** Rows of one node never touch. */
  ghost predicate Separate(rows: seq<Row>) {
    forall i, j :: 0 <= i < j < |rows| && rows[i].nodeId == rows[j].nodeId ==> rows[i].end + 1 < rows[j].start
  }

  ghost predicate RowsCover(rows: seq<Row>, s: int) {
    exists i :: 0 <= i < |rows| && RowCovers(rows[i], s)
  }

  lemma CoverMore(rows: seq<Row>, more: seq<Row>)
    ensures forall s :: RowsCover(rows, s) || RowsCover(more, s) ==> RowsCover(rows + more, s)
  {
    forall i, s | 0 <= i < |rows| && RowCovers(rows[i], s)
      ensures RowsCover(rows + more, s)
    {
      assert RowCovers((rows + more)[i], s);
    }
    forall i, s | 0 <= i < |more| && RowCovers(more[i], s)
      ensures RowsCover(rows + more, s)
    {
      assert RowCovers((rows + more)[|rows| + i], s);
    }
  }

  ghost predicate Tagged(key: bytes, tag: bytes) {
    exists before, rest :: TagOf(key, before, tag, rest)
  }

  /** Keys that share a non-empty first tag can always be used together. */
  method RouteTagged(cluster: ClusterManager, keys: seq<bytes>, ghost tag: bytes) returns (r: Routing)
    requires cluster.Valid() && tag != [] && forall i :: 0 <= i < |keys| ==> Tagged(keys[i], tag)
    ensures r != CrossSlot
  {
    r := cluster.VerifyMultiKeyRoute(keys);
    forall i, j | 0 <= i < j < |keys|
      ensures KeySlot(keys[i]) == KeySlot(keys[j])
    {
      TaggedTogether(keys[i], keys[j], tag);
    }
  }

  lemma TaggedTogether(a: bytes, b: bytes, tag: bytes)
    requires Tagged(a, tag) && Tagged(b, tag) && tag != []
    ensures KeySlot(a) == KeySlot(b)
  {
    var before, rest :| TagOf(a, before, tag, rest);
    var before', rest' :| TagOf(b, before', tag, rest');
    SameTagSameSlot(a, before, rest, b, before', rest', tag);
  }

  // ---------------------------------------------------------------------------------------------
  // Reconfiguration
  // ---------------------------------------------------------------------------------------------

  /** No change of the sequence reuses the id of an owner, and none takes a slot from the empty id. */
  ghost predicate Careful(owners: Owners, known: set<string>, changes: seq<Change>)
    decreases |changes|
  {
    changes == [] ||
    match changes[0]
    case AddNode(id, _, _) =>
      (forall s :: 0 <= s < |owners| ==> owners[s] != Some(id)) && Careful(owners, known + {id}, changes[1..])
    case AssignSlots(id, slots) =>
      if id in known then !LeavesBehind(owners, id, slots) && Careful(Assigned(owners, id, slots), known, changes[1..])
      else Careful(owners, known, changes[1..])
  }

  /** Owners and slot sets agree after any careful sequence of changes. */
  method Reconfigure(cluster: ClusterManager, changes: seq<Change>)
    requires cluster.Valid() && cluster.Agree() && Careful(cluster.slotOwners, cluster.nodes.Keys, changes)
    modifies cluster, cluster.nodes.Values
    ensures cluster.Valid() && cluster.Agree()
  {
    for i := 0 to |changes|
      invariant cluster.Valid() && cluster.Agree()
      invariant forall n :: n in cluster.nodes.Values ==> n in old(cluster.nodes.Values) || fresh(n)
      invariant Careful(cluster.slotOwners, cluster.nodes.Keys, changes[i..])
    {
      assert changes[i..][0] == changes[i] && changes[i..][1..] == changes[i + 1..];
      match changes[i]
      case AddNode(id, host, port) =>
        ghost var known := cluster.nodes.Keys;
        cluster.AddNode(id, host, port);
        assert cluster.nodes.Keys == known + {id};
      case AssignSlots(id, slots) =>
        var _ := cluster.AssignSlots(id, slots);
    }
  }

  /** Taking a slot from an owner with the empty id does break the agreement. */
  method EmptyIdLeavesSlotBehind() returns (cluster: ClusterManager)
    ensures cluster.Valid() && !cluster.Agree()
  {
    cluster := new ClusterManager("a", "h", 6379, true);
    cluster.AddNode("", "h", 6380);
    var _ := cluster.AssignSlots("", [0]);
    assert cluster.slotOwners[0] == Some("") by {
      AssignedAt(seq(TOTAL_SLOTS, _ => None), "", [0], 0);
    }
    var _ := cluster.AssignSlots("a", [0]);
  }

  /** And so does adding a node again that owns slots. */
  method AddedOverAnOwner() returns (cluster: ClusterManager)
    ensures cluster.Valid() && !cluster.Agree()
  {
    cluster := new ClusterManager("a", "h", 6379, false);
    cluster.AddNode("a", "h", 6379);
    assert cluster.slotOwners[0] == Some("a");
  }
}
