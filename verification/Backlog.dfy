// The replication backlog of replication/backlog.py: a ring buffer that stands for the end of the write history.

module ReplicationBacklogs {
  import opened Basics
  import opened Bytes
  import opened Resp

  // ---------------------------------------------------------------------------------------------
  // Positions on a ring
  // ---------------------------------------------------------------------------------------------

  /** The index of an offset on a ring of n bytes. */
  function Index(offset: nat, n: nat): (i: nat)
    requires n > 0
    ensures i < n
  {
    offset % n
  }

  lemma IndexIs(offset: nat, q: int, r: nat, n: nat)
    requires r < n && offset == q * n + r
    ensures Index(offset, n) == r
  {
    var p, i := offset / n, offset % n;
    assert offset == p * n + i;
    if q > p {
      AtLeastOne(q, p, n);
    } else if q < p {
      AtLeastOne(p, q, n);
    }
  }

  /** How far p lies after idx, going round. */
  function Distance(idx: nat, p: nat, n: nat): int {
    if p >= idx then p - idx else p - idx + n
  }

  /** Offsets less than a round apart keep their distance on the ring. */
  lemma DistanceOfOffsets(a: nat, b: nat, n: nat)
    requires n > 0 && a - n <= b < a + n
    ensures Distance(Index(a, n), Index(b, n), n) == if b >= a then b - a else b - a + n
  {
    hide Index;
    if b >= a {
      Wrapped(a, b - a, n);
    } else if b == a - n {
      Wrapped(b, 0, n);
      RoundTrip(b, n);
    } else {
      Wrapped(b, a - b, n);
    }
  }

  lemma RoundTrip(a: nat, n: nat)
    requires n > 0
    ensures Index(a + n, n) == Index(a, n)
  {
    IndexIs(a + n, a / n + 1, a % n, n);
  }

  lemma Wrapped(a: nat, k: nat, n: nat)
    requires k < n
    ensures Index(a + k, n) == if Index(a, n) + k < n then Index(a, n) + k else Index(a, n) + k - n
  {
    var q, r := a / n, a % n;
    if r + k < n {
      IndexIs(a + k, q, r + k, n);
    } else {
      assert (q + 1) * n == q * n + n;
      IndexIs(a + k, q + 1, r + k - n, n);
    }
  }

  /** The ring after data was written from idx on, going round once at most. */
  function Written(ring: bytes, idx: nat, data: bytes): (r: bytes)
    requires idx < |ring| && |data| <= |ring|
    ensures |r| == |ring|
    ensures forall p :: 0 <= p < |ring| ==>
                          r[p] == var d := Distance(idx, p, |ring|); if d < |data| then data[d] else ring[p]
  {
    var part1 := Min(|data|, |ring| - idx);
    var one := ring[..idx] + data[..part1] + ring[idx + part1..];
    if part1 < |data| then data[part1..] + one[|data| - part1..] else one
  }

  /** The bytes of the ring from an offset on. */
  function ReadFrom(ring: bytes, offset: nat, needed: nat): (r: bytes)
    requires ring != [] && needed <= |ring|
    ensures |r| == needed
  {
    var idx := Index(offset, |ring|);
    var part1 := Min(needed, |ring| - idx);
    ring[idx..idx + part1] + ring[..needed - part1]
  }

  lemma ReadFromAt(ring: bytes, offset: nat, needed: nat, k: nat)
    requires ring != [] && k < needed <= |ring|
    ensures ReadFrom(ring, offset, needed)[k] == ring[Index(offset + k, |ring|)]
  {
    hide Index;
    Wrapped(offset, k, |ring|);
  }

  // ---------------------------------------------------------------------------------------------
  // The ring as the end of a history
  // ---------------------------------------------------------------------------------------------

  /** Every byte of the history from first on is where its offset puts it. */
  ghost predicate Holds(ring: bytes, first: nat, history: bytes)
    requires ring != []
  {
    forall j {:trigger history[j]} :: first <= j < |history| ==> ring[Index(j, |ring|)] == history[j]
  }

  lemma ReadsHistory(ring: bytes, first: nat, history: bytes, offset: nat)
    requires ring != [] && Holds(ring, first, history)
    requires first <= offset <= |history| && |history| - offset <= |ring|
    ensures ReadFrom(ring, offset, |history| - offset) == history[offset..]
  {
    hide Index, ReadFrom;
    var needed := |history| - offset;
    forall k | 0 <= k < needed
      ensures ReadFrom(ring, offset, needed)[k] == history[offset..][k]
    {
      ReadFromAt(ring, offset, needed, k);
      assert history[offset + k] == ring[Index(offset + k, |ring|)];
    }
  }

  lemma WrittenHolds(ring: bytes, first: nat, history: bytes, data: bytes, first': nat)
    requires ring != [] && Holds(ring, first, history) && |data| < |ring|
    requires first <= first' && |history| + |data| - first' <= |ring|
    ensures Holds(Written(ring, Index(|history|, |ring|), data), first', history + data)
  {
    hide Index, Written;
    var n, m, h := |ring|, |history|, history + data;
    forall j {:trigger h[j]} | first' <= j < |h|
      ensures Written(ring, Index(m, n), data)[Index(j, n)] == h[j]
    {
      DistanceOfOffsets(m, j, n);
    }
  }

  /** A piece as long as the ring and written from index 0, where its first byte belongs at offset m. */
  ghost predicate Aligned(data: bytes, m: nat)
    requires data != []
  {
    forall j {:trigger data[j]} :: 0 <= j < |data| ==> data[Index(m + j, |data|)] == data[j]
  }

  lemma AlignedHolds(history: bytes, data: bytes)
    requires data != []
    ensures Holds(data, |history|, history + data) <==> Aligned(data, |history|)
  {
    hide Index;
    var h, m := history + data, |history|;
    assert forall j {:trigger data[j]} :: 0 <= j < |data| ==> h[m + j] == data[j];
    if Holds(data, m, h) {
      forall j {:trigger data[j]} | 0 <= j < |data|
        ensures data[Index(m + j, |data|)] == data[j]
      {
        assert data[Index(m + j, |data|)] == h[m + j];
      }
    }
    if Aligned(data, m) {
      forall j {:trigger h[j]} | m <= j < |h|
        ensures data[Index(j, |data|)] == h[j]
      {
        assert data[j - m] == data[Index(m + (j - m), |data|)];
      }
    }
  }

  /** Whatever the piece: only a multiple of the ring's size is a safe offset for one of exactly that size. */
  lemma AlignedForAll(n: nat, m: nat)
    requires n > 0
    ensures (forall data: bytes :: |data| == n ==> Aligned(data, m)) <==> Index(m, n) == 0
  {
    hide Index;
    if Index(m, n) == 0 {
      forall data: bytes, j {:trigger data[j]} | |data| == n && 0 <= j < n
        ensures data[Index(m + j, n)] == data[j]
      {
        Wrapped(m, j, n);
      }
    } else {
      var data: bytes := seq(n, i => if i == 0 then 1 else 0);
      assert data[Index(m + 0, |data|)] != data[0];
      assert !Aligned(data, m);
    }
  }

  class ReplicationBacklog {
    const maxSize: nat
    const buffer: array<byte>
    var masterOffset: nat
    var firstByteOffset: nat
    ghost var history: bytes  // all the bytes ever fed

    ghost predicate Valid()
      reads this
    {
      && 0 < maxSize == buffer.Length
      && firstByteOffset <= masterOffset <= firstByteOffset + maxSize
    }

    /** The backlog is what it is meant to be: the last maxSize bytes of the history, under their true offsets. */
    ghost predicate Refines()
      requires Valid()
      reads this, buffer
    {
      && masterOffset == |history|
      && firstByteOffset == Max(0, |history| - maxSize)
      && Holds(buffer[..], firstByteOffset, history)
    }

    constructor (size: nat)
      requires size > 0
      ensures Valid() && Refines() && history == [] && maxSize == size && fresh(buffer)
    {
      maxSize := size;
      buffer := new byte[size](_ => 0);
      masterOffset, firstByteOffset, history := 0, 0, [];
    }

    /** Slice assignment of a piece that fits. */
    method Put(at: nat, piece: bytes)
      requires at + |piece| <= buffer.Length
      modifies buffer
      ensures buffer[..] == old(buffer[..at]) + piece + old(buffer[at + |piece|..])
    {
      forall i | 0 <= i < |piece| {
        buffer[at + i] := piece[i];
      }
    }

    /** The two halves of a piece that may go round the end. */
    method PutRound(idx: nat, data: bytes)
      requires idx < buffer.Length && |data| < buffer.Length
      modifies buffer
      ensures buffer[..] == Written(old(buffer[..]), idx, data)
    {
      var part1 := Min(|data|, buffer.Length - idx);
      var part2 := |data| - part1;
      Put(idx, data[..part1]);
      if part2 > 0 {
        Put(0, data[part1..]);
      }
    }

    /** Keeps the backlog true to the history exactly when the piece is short, or fills the ring and happens to fit. */
    method Feed(data: bytes)
      requires Valid()
      modifies this`masterOffset, this`firstByteOffset, this`history, buffer
      ensures Valid() && history == old(history) + data
      ensures old(Refines()) ==>
                (Refines() <==> |data| < maxSize || (|data| == maxSize && Aligned(data, old(masterOffset))))
      ensures |data| >= maxSize ==>
                && buffer[..] == data[|data| - maxSize..]
                && masterOffset == old(masterOffset) + maxSize && firstByteOffset == old(masterOffset)
    {
      hide Holds, Aligned, Written;
      history := history + data;
      if data == [] {
        assert history == old(history);
        return;
      }
      var dataLen := |data|;
      if dataLen >= maxSize {
        var last := data[|data| - maxSize..];
        dataLen := |last|;
        Put(0, last);
        assert buffer[..] == last;
        masterOffset := masterOffset + dataLen;
        firstByteOffset := masterOffset - dataLen;
        if |data| == maxSize {
          assert last == data;
          AlignedHolds(old(history), data);
        }
        return;
      }
      var idx := Index(masterOffset, maxSize);
      PutRound(idx, data);
      masterOffset := masterOffset + dataLen;
      if masterOffset - firstByteOffset > maxSize {
        firstByteOffset := masterOffset - maxSize;
      }
      if old(Refines()) {
        WrittenHolds(old(buffer[..]), old(firstByteOffset), old(history), data, firstByteOffset);
      }
    }

    predicate IsOffsetInBacklog(offset: int)
      reads this
    {
      (masterOffset == 0 && offset == 0) || firstByteOffset <= offset <= masterOffset
    }

    /** The one or two slices that hold a stretch. */
    method ReadRound(offset: nat, needed: nat) returns (res: bytes)
      requires 0 < needed <= buffer.Length
      ensures res == ReadFrom(buffer[..], offset, needed)
    {
      hide Index;
      var idx := Index(offset, buffer.Length);
      var part1 := Min(needed, buffer.Length - idx);
      var part2 := needed - part1;
      res := buffer[idx..idx + part1];
      if part2 > 0 {
        res := res + buffer[..part2];
      }
    }

    method GetDataSinceOffset(offset: int) returns (data: Option<bytes>)
      requires Valid()
      ensures data.Some? <==> firstByteOffset <= offset <= masterOffset
      ensures data.Some? ==> data.value == ReadFrom(buffer[..], offset, masterOffset - offset)
      ensures Refines() ==>
                data == if Max(0, |history| - maxSize) <= offset <= |history| then Some(history[offset..]) else None
    {
      hide Holds, ReadFrom;
      if !IsOffsetInBacklog(offset) {
        return None;
      }
      var needed := masterOffset - offset;
      if Refines() {
        ReadsHistory(buffer[..], firstByteOffset, history, offset);
      }
      if needed == 0 {
        return Some([]);
      }
      var res := ReadRound(offset, needed);
      data := Some(res);
    }
  }

  /** A piece longer than the ring does lose the history. */
  method OversizedPieceIsLost() returns (backlog: ReplicationBacklog)
    ensures backlog.Valid() && !backlog.Refines()
  {
    backlog := new ReplicationBacklog(2);
    backlog.Feed([1, 2, 3]);
  }

  /** And so does a piece that fills the ring from an offset in the middle of a round. */
  method MisalignedPieceIsLost() returns (backlog: ReplicationBacklog)
    ensures backlog.Valid() && !backlog.Refines()
  {
    backlog := new ReplicationBacklog(2);
    backlog.Feed([1]);
    assert backlog.history == [1];
    assert [2, 3][0] != [2, 3][Index(1, 2)];
    backlog.Feed([2, 3]);
  }
}
