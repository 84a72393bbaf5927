/** Where a key lives: HASH_SLOT hashes the key, or the hash tag inside its first pair of
    braces, to one of 16384 slots (Redis Cluster Specification, sections "Key distribution
    model" and "Hash tags"). */
module HashSlot {
  import opened Words
  import Crc16
  import PlainCrc

  const OPEN: byte := 0x7B
  const CLOSE: byte := 0x7D
  const SLOTS := 16384

  /** `key` holds the hash tag `tag`: it stands between the first '{' and the first '}' after
      it, and is not empty. */
  ghost predicate HasTag(key: Bytes, tag: Bytes) {
    exists p: Bytes, s: Bytes :: TagAt(key, p, tag, s)
  }

  ghost predicate TagAt(key: Bytes, p: Bytes, tag: Bytes, s: Bytes) {
    && key == p + [OPEN] + tag + [CLOSE] + s
    && OPEN !in p && CLOSE !in tag && tag != []
  }

  /** First position from `from` on where `key` holds `c`, or its length. */
  function Find(key: Bytes, c: byte, from: nat): (i: nat)
    requires from <= |key|
    ensures from <= i <= |key|
    ensures i < |key| ==> key[i] == c
    ensures forall j :: from <= j < i ==> key[j] != c
    decreases |key| - from
  {
    if from == |key| || key[from] == c then from else Find(key, c, from + 1)
  }

  /** The part of a key that is hashed. */
  function Effective(key: Bytes): Bytes {
    var start := Find(key, OPEN, 0);
    if start == |key| then key
    else
      var end := Find(key, CLOSE, start + 1);
      if end == |key| || end == start + 1 then key else key[start + 1..end]
  }

  /** The low fourteen bits of a checksum. */
  function SlotOf(crc: Crc16.Word): (slot: nat)
    ensures slot < SLOTS
  {
    Powers();
    ToNat(crc[2..])
  }

  lemma Powers()
    ensures Power2(14) == SLOTS
  {
    assert Power2(7) == 128;
    assert Power2(11) == 2048;
  }

  /** The slot is the checksum modulo 16384. */
  lemma SlotOfIsRemainder(crc: Crc16.Word)
    ensures SlotOf(crc) == ToNat(crc) % 16384
  {
    var high, low := crc[..2], crc[2..];
    Powers();
    assert crc == high + low;
    ToNatAppend(high, low);
    assert ToNat(crc) == ToNat(high) * 16384 + ToNat(low);
  }

  function Slot(key: Bytes): (slot: nat)
    ensures slot < SLOTS
  {
    SlotOf(Crc16.Crc(Effective(key)))
  }

  /** The two scans and the three ways of hashing what they delimit. */
  method HashKey(key: Bytes) returns (slot: nat)
    ensures slot == Slot(key) < SLOTS
    ensures slot == ToNat(Crc16.Crc(Effective(key))) % 16384
  {
    SlotOfIsRemainder(Crc16.Crc(Effective(key)));
    var start := 0;
    while start < |key|
      invariant start <= |key| && Find(key, OPEN, 0) == Find(key, OPEN, start)
    {
      if key[start] == OPEN {
        break;
      }
      start := start + 1;
    }
    if start == |key| {
      var crc := Crc16.CRC16(key);
      return SlotOf(crc);
    }

    var end := start + 1;
    while end < |key|
      invariant start < end <= |key| && Find(key, CLOSE, start + 1) == Find(key, CLOSE, end)
    {
      if key[end] == CLOSE {
        break;
      }
      end := end + 1;
    }
    if end == |key| || end == start + 1 {
      var crc := Crc16.CRC16(key);
      return SlotOf(crc);
    }

    var crc := Crc16.CRC16(key[start + 1..][..end - start - 1]);
    assert key[start + 1..][..end - start - 1] == key[start + 1..end];
    slot := SlotOf(crc);
  }

  /** The hashed part of a key that has a tag is the tag, and only that; a key without one is
      hashed whole. */
  lemma EffectiveIsTag(key: Bytes)
    ensures forall tag: Bytes {:trigger HasTag(key, tag)} :: HasTag(key, tag) ==> Effective(key) == tag
    ensures HasTag(key, Effective(key)) || (Effective(key) == key && forall tag: Bytes :: !HasTag(key, tag))
  {
    forall tag: Bytes | HasTag(key, tag)
      ensures Effective(key) == tag
    {
      var p, s :| TagAt(key, p, tag, s);
      TagIsFound(key, p, tag, s);
    }
    var start := Find(key, OPEN, 0);
    if start < |key| {
      var end := Find(key, CLOSE, start + 1);
      if start + 1 < end < |key| {
        assert TagAt(key, key[..start], key[start + 1..end], key[end + 1..]);
      } else {
        forall tag: Bytes
          ensures !HasTag(key, tag)
        {
          NoTag(key, tag, start, end);
        }
      }
    } else {
      forall tag: Bytes
        ensures !HasTag(key, tag)
      {
        NoBrace(key, tag);
      }
    }
  }

  lemma TagIsFound(key: Bytes, p: Bytes, tag: Bytes, s: Bytes)
    requires TagAt(key, p, tag, s)
    ensures Find(key, OPEN, 0) == |p|
    ensures Find(key, CLOSE, |p| + 1) == |p| + 1 + |tag|
    ensures Effective(key) == tag
  {
    assert key[|p|] == OPEN;
    assert forall j :: 0 <= j < |p| ==> key[j] == p[j];
    var close := |p| + 1 + |tag|;
    assert key[close] == CLOSE;
    assert forall j :: |p| < j < close ==> key[j] == tag[j - |p| - 1];
    assert key[|p| + 1..close] == tag;
  }

  lemma NoTag(key: Bytes, tag: Bytes, start: nat, end: nat)
    requires start < |key| && start == Find(key, OPEN, 0) && end == Find(key, CLOSE, start + 1)
    requires end == |key| || end == start + 1
    ensures !HasTag(key, tag)
  {
    if HasTag(key, tag) {
      var p, s :| TagAt(key, p, tag, s);
      TagIsFound(key, p, tag, s);
    }
  }

  lemma NoBrace(key: Bytes, tag: Bytes)
    requires Find(key, OPEN, 0) == |key|
    ensures !HasTag(key, tag)
  {
    if HasTag(key, tag) {
      var p, s :| TagAt(key, p, tag, s);
      TagIsFound(key, p, tag, s);
    }
  }

  /** Hashing the hashed part again gives the same slot. */
  lemma EffectiveIsIdempotent(key: Bytes)
    ensures Effective(Effective(key)) == Effective(key)
    ensures Slot(Effective(key)) == Slot(key)
  {
    var start := Find(key, OPEN, 0);
    if start < |key| {
      var end := Find(key, CLOSE, start + 1);
      if start + 1 < end < |key| {
        var tag := key[start + 1..end];
        assert CLOSE !in tag;
      }
    }
  }

  /** Keys that share a hash tag share a slot, the slot of the tag itself. */
  lemma SameTagSameSlot(p: Bytes, tag: Bytes, s: Bytes)
    requires OPEN !in p && tag != [] && CLOSE !in tag
    ensures Slot(p + [OPEN] + tag + [CLOSE] + s) == Slot(tag)
  {
    var key := p + [OPEN] + tag + [CLOSE] + s;
    assert TagAt(key, p, tag, s);
    TagIsFound(key, p, tag, s);
    EffectiveIsIdempotent(key);
  }

  /** The key "1" has slot 9842. */
  lemma KnownSlot()
    ensures Slot([0x31]) == 9842
  {
    NoBraceIsWhole([0x31]);
    PlainCrc.KnownChecksum();
    SlotOfIsRemainder(Crc16.Crc([0x31]));
    hide Effective, SlotOf, Crc16.Crc, ToNat;
  }

  lemma NoBraceIsWhole(key: Bytes)
    requires OPEN !in key
    ensures Effective(key) == key
  {
    hide Find;
  }

  /** So has every key with the tag {1}. */
  lemma KnownTaggedSlot(p: Bytes, s: Bytes)
    requires OPEN !in p
    ensures Slot(p + [OPEN] + [0x31] + [CLOSE] + s) == 9842
  {
    hide Slot;
    KnownSlot();
    SameTagSameSlot(p, [0x31], s);
  }
}
