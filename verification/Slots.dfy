// Hash tags and hash slots, cluster/slots.py.

module Slots {
  import opened Bytes
  import opened Resp
  import Crc16

  const TOTAL_SLOTS: int := 16384
  const LEFT_BRACE: byte := 123
  const RIGHT_BRACE: byte := 125

  function ExtractHashTag(key: bytes): bytes {
    var start := IndexOf(key, LEFT_BRACE, 0);
    if start == -1 then key
    else
      var end := IndexOf(key, RIGHT_BRACE, start + 1);
      if end != -1 && end > start + 1 then key[start + 1..end] else key
  }

  function KeySlot(key: bytes): (slot: int)
    ensures 0 <= slot < TOTAL_SLOTS
  {
    (Crc16.Division(ExtractHashTag(key)) as int) % TOTAL_SLOTS
  }

  method KeyToSlot(key: bytes) returns (slot: int)
    ensures slot == KeySlot(key) == Crc16.Division(ExtractHashTag(key)) as int % 16384
  {
    var crc := Crc16.Crc16(ExtractHashTag(key));
    slot := (crc as int) % TOTAL_SLOTS;
  }

  /** A key written as text, a first left brace, a tag, the next right brace, and anything. */
  ghost predicate TagOf(key: bytes, before: bytes, tag: bytes, rest: bytes) {
    key == before + [LEFT_BRACE] + tag + [RIGHT_BRACE] + rest && LEFT_BRACE !in before && RIGHT_BRACE !in tag
  }

  lemma IndexIs(s: bytes, b: byte, from: nat, at: nat)
    requires from <= at < |s| && s[at] == b && forall j :: from <= j < at ==> s[j] != b
    ensures IndexOf(s, b, from) == at
  {
  }

  /** A non-empty first tag stands for the key. */
  lemma TagIsExtracted(key: bytes, before: bytes, tag: bytes, rest: bytes)
    requires TagOf(key, before, tag, rest)
    ensures ExtractHashTag(key) == if tag == [] then key else tag
  {
    var start, end := |before|, |before| + 1 + |tag|;
    forall j | 0 <= j < start
      ensures key[j] != LEFT_BRACE
    {
      assert key[j] == before[j];
    }
    forall j | start + 1 <= j < end
      ensures key[j] != RIGHT_BRACE
    {
      assert key[j] == tag[j - start - 1];
    }
    IndexIs(key, LEFT_BRACE, 0, start);
    IndexIs(key, RIGHT_BRACE, start + 1, end);
    assert key[start + 1..end] == tag;
  }

  /** A key that cannot be written that way stands for itself. */
  lemma UntaggedIsWhole(key: bytes)
    requires forall before, tag, rest :: TagOf(key, before, tag, rest) ==> tag == []
    ensures ExtractHashTag(key) == key
  {
    var start := IndexOf(key, LEFT_BRACE, 0);
    if start != -1 {
      var end := IndexOf(key, RIGHT_BRACE, start + 1);
      if end != -1 {
        var before, tag, rest := key[..start], key[start + 1..end], key[end + 1..];
        assert key == before + [LEFT_BRACE] + tag + [RIGHT_BRACE] + rest;
        assert TagOf(key, before, tag, rest);
      }
    }
  }

  /** Keys with the same non-empty first tag share a slot, whatever surrounds the tag. */
  lemma SameTagSameSlot(a: bytes, before: bytes, rest: bytes, b: bytes, before': bytes, rest': bytes, tag: bytes)
    requires TagOf(a, before, tag, rest) && TagOf(b, before', tag, rest') && tag != []
    ensures KeySlot(a) == KeySlot(b)
  {
    TagIsExtracted(a, before, tag, rest);
    TagIsExtracted(b, before', tag, rest');
  }

  lemma NoBrace(key: bytes)
    requires LEFT_BRACE !in key
    ensures ExtractHashTag(key) == key
  {
  }

  /** The slot of "foo", and of every key that is tagged with it. */
  lemma KnownSlot(key: bytes, before: bytes, rest: bytes)
    requires key == [102, 111, 111] || TagOf(key, before, [102, 111, 111], rest)
    ensures KeySlot(key) == 12182
  {
    hide Crc16.Division, ExtractHashTag;
    Crc16.KnownChecksum();
    assert 0xAF96 as bv16 as int == 44950;
    if key == [102, 111, 111] {
      NoBrace(key);
    } else {
      TagIsExtracted(key, before, [102, 111, 111], rest);
    }
  }
}
