/** The wire format byte by byte: which field has which number, what is skipped, what is refused, and
    the four bytes before a message on a stream. */
module Layout {
  import opened Wrappers
  import opened Words
  import opened Wire
  import opened ChatMessages
  import opened Framing

  // ---- Fields ----

  /** Sender, receiver and content are the fields 2, 3 and 4; what is read replaces what was there, with
      the empty string too. */
  lemma StringFieldNumbers(m: Message, s: Bytes)
    requires |s| <= MAX_FIELD
    ensures Parse(m, [18] + Varint(|s|) + s) == Some(Message(m.messageType, s, m.receiver, m.content))
    ensures Parse(m, [26] + Varint(|s|) + s) == Some(Message(m.messageType, m.sender, s, m.content))
    ensures Parse(m, [34] + Varint(|s|) + s) == Some(Message(m.messageType, m.sender, m.receiver, s))
  {
    hide Parse, ParseField;
    OneString(m, 18, s);
    OneString(m, 26, s);
    OneString(m, 34, s);
  }

  lemma OneString(m: Message, tag: byte, s: Bytes)
    requires |s| <= MAX_FIELD && (tag == 18 || tag == 26 || tag == 34)
    ensures Parse(m, [tag] + Varint(|s|) + s) == Some(SetString(m, tag, s))
  {
    hide Parse, ReadTag, ReadString, ReadVarint, SkipField, Varint;
    var body := Varint(|s|) + s;
    var all := [tag] + Varint(|s|) + s;
    assert all == [tag] + body;
    ReadBackTag(tag, body);
    ReadBackString(s, []);
    assert Varint(|s|) + s + [] == body;
    assert all[1..] == body;
    assert ParseField(m, all) == Some((SetString(m, tag, s), |all|));
    ParseStep(m, all);
    assert all[|all|..] == [];
    ParseStep(SetString(m, tag, s), []);
  }

  /** The type is field 1: the low 32 bits, signed, of a varint of at most ten bytes. */
  lemma TypeFieldNumber(m: Message, n: nat)
    requires n < TWO_64
    ensures Parse(m, [8] + Varint(n)) ==
      Some(Message(if n % TWO_32 < 0x8000_0000 then n % TWO_32 else n % TWO_32 - TWO_32, m.sender, m.receiver, m.content))
  {
    hide Parse, ReadTag, ReadString, ReadVarint, SkipField, Varint;
    var all := [8] + Varint(n);
    ReadBackTag(8, Varint(n));
    Powers128();
    VarintLength(n, 10);
    ReadBackVarint(n, [], 10);
    assert Varint(n) + [] == Varint(n) && all[1..] == Varint(n);
    ParseStep(m, all);
    assert all[|all|..] == [];
    ParseStep(m.(messageType := ToInt32(n)), []);
  }

  /** What serialising writes, field by field, without the helpers that write it. */
  lemma SerializedLayout(m: Message)
    ensures Serialize(m) ==
      (if m.messageType == 0 then [] else [8] + Varint(if m.messageType < 0 then m.messageType + TWO_64 else m.messageType))
      + (if m.sender == [] then [] else [18] + Varint(|m.sender|) + m.sender)
      + (if m.receiver == [] then [] else [26] + Varint(|m.receiver|) + m.receiver)
      + (if m.content == [] then [] else [34] + Varint(|m.content|) + m.content)
  {
    hide Varint;
  }

  /** Small numbers are one byte, others come seven bits at a time, the lowest first. */
  lemma VarintBytes(n: nat)
    ensures n < 128 ==> Varint(n) == [n]
    ensures 128 <= n < 16384 ==> Varint(n) == [128 + n % 128, n / 128]
    ensures Varint(300) == [172, 2]
  {
  }

  /** A whisper from "A" to "B" saying "C". */
  lemma WhisperBytes()
    ensures Serialize(Message(3, [65], [66], [67])) == [8, 3, 18, 1, 65, 26, 1, 66, 34, 1, 67]
  {
    VarintBytes(3);
    VarintBytes(1);
    hide Varint;
    SerializedLayout(Message(3, [65], [66], [67]));
  }

  // ---- Fields that are skipped ----

  /** A tag of one byte that belongs to no field of a message. */
  predicate IsForeign(tag: byte) {
    8 <= tag < 128 && tag != 8 && tag != 18 && tag != 26 && tag != 34
  }

  /** A field that takes `n` bytes after its tag is passed over. */
  lemma PassedOver(m: Message, tag: byte, value: Bytes, rest: Bytes)
    requires IsForeign(tag) && tag % 8 != 4 && SkipField(tag, value + rest, MAX_DEPTH) == Some(|value|)
    ensures Parse(m, [tag] + value + rest) == Parse(m, rest)
  {
    hide Parse, ReadTag, ReadString, ReadVarint, SkipField;
    var all := [tag] + value + rest;
    assert all == [tag] + (value + rest);
    ReadBackTag(tag, value + rest);
    assert all[1..] == value + rest;
    assert ParseField(m, all) == Some((m, 1 + |value|));
    ParseStep(m, all);
    assert all[1 + |value|..] == rest;
  }

  /** Fields nobody knows leave no trace: numbers of eight and of four bytes, varints and strings. */
  lemma ForeignFieldsAreSkipped(m: Message, tag: byte, value: Bytes, rest: Bytes)
    requires IsForeign(tag)
    ensures tag % 8 == 1 && |value| == 8 ==> Parse(m, [tag] + value + rest) == Parse(m, rest)
    ensures tag % 8 == 5 && |value| == 4 ==> Parse(m, [tag] + value + rest) == Parse(m, rest)
    ensures tag % 8 == 2 && |value| <= MAX_FIELD ==>
      Parse(m, [tag] + (Varint(|value|) + value) + rest) == Parse(m, rest)
  {
    hide Parse, Varint;
    if (tag % 8 == 1 && |value| == 8) || (tag % 8 == 5 && |value| == 4) {
      PassedOver(m, tag, value, rest);
    }
    if tag % 8 == 2 && |value| <= MAX_FIELD {
      ReadBackString(value, rest);
      hide ReadString;
      PassedOver(m, tag, Varint(|value|) + value, rest);
    }
  }

  lemma ForeignVarintIsSkipped(m: Message, tag: byte, n: nat, rest: Bytes)
    requires IsForeign(tag) && tag % 8 == 0 && n < TWO_64
    ensures Parse(m, [tag] + Varint(n) + rest) == Parse(m, rest)
  {
    hide Parse, ReadVarint, Varint;
    Powers128();
    VarintLength(n, 10);
    ReadBackVarint(n, rest, 10);
    PassedOver(m, tag, Varint(n), rest);
  }

  /** Groups of field 5, one inside the other. */
  function Nested(depth: nat): Bytes {
    if depth == 0 then [] else [43] + Nested(depth - 1) + [44]
  }

  lemma GroupTag(x: Bytes, depth: nat)
    ensures SkipField(43, x, depth) == if depth == 0 then None else SkipGroup(5, x, depth - 1)
  {
  }

  lemma {:induction false} SkipNested(d: nat, rest: Bytes, depth: nat)
    ensures SkipGroup(5, Nested(d) + [44] + rest, depth) == if d <= depth then Some(|Nested(d)| + 1) else None
    decreases d
  {
    hide SkipGroup, SkipField, ReadTag;
    var all := Nested(d) + [44] + rest;
    SkipGroupStep(5, all, depth);
    if d == 0 {
      assert all == [44] + rest;
      ReadBackTag(44, rest);
    } else {
      var inner := Nested(d - 1) + [44] + ([44] + rest);
      assert all == [43] + inner;
      ReadBackTag(43, inner);
      assert all[1..] == inner;
      GroupTag(inner, depth);
      if depth > 0 {
        SkipNested(d - 1, [44] + rest, depth - 1);
        var k := |Nested(d - 1)| + 1;
        assert d <= depth ==> inner[k..] == [44] + rest && all[1 + k..] == [44] + rest;
        SkipGroupStep(5, [44] + rest, depth);
        ReadBackTag(44, rest);
      }
    }
  }

  /** Groups are skipped up to a depth of one hundred, and refused beyond it. */
  lemma GroupsNestToAHundred(m: Message, d: nat)
    ensures Parse(m, Nested(d)) == if d <= 100 then Some(m) else None
  {
    hide Parse, SkipGroup, ReadTag, ReadVarint, ReadString;
    ParseStep(m, []);
    if d > 0 {
      var all, inner := Nested(d), Nested(d - 1) + [44];
      assert all == [43] + inner;
      ReadBackTag(43, inner);
      assert all[1..] == inner;
      SkipNested(d - 1, [], MAX_DEPTH - 1);
      assert Nested(d - 1) + [44] + [] == inner;
      ParseStep(m, all);
      assert all[|all|..] == [];
    }
  }

  // ---- What is refused ----

  lemma {:induction false} TooManyBytes(bs: Bytes, most: nat)
    requires |bs| >= most && forall i :: 0 <= i < most ==> bs[i] >= 128
    ensures ReadVarint(bs, most) == None
    decreases most
  {
    if most > 0 {
      TooManyBytes(bs[1..], most - 1);
    }
  }

  /** A tag of more than five bytes, a length of more than five and a type of more than ten. */
  lemma OverlongIsRefused(m: Message, bs: Bytes)
    ensures |bs| >= 5 && (forall i :: 0 <= i < 5 ==> bs[i] >= 128) ==>
      && Parse(m, bs) == None && Parse(m, [18] + bs) == None && Parse(m, [26] + bs) == None && Parse(m, [34] + bs) == None
    ensures |bs| >= 10 && (forall i :: 0 <= i < 10 ==> bs[i] >= 128) ==> Parse(m, [8] + bs) == None
  {
    hide Parse, ReadVarint;
    if |bs| >= 5 && forall i :: 0 <= i < 5 ==> bs[i] >= 128 {
      TooManyBytes(bs, 5);
      ParseStep(m, bs);
      Unread(m, 18, bs);
      Unread(m, 26, bs);
      Unread(m, 34, bs);
    }
    if |bs| >= 10 && forall i :: 0 <= i < 10 ==> bs[i] >= 128 {
      TooManyBytes(bs, 10);
      Unread(m, 8, bs);
    }
  }

  lemma Unread(m: Message, tag: byte, bs: Bytes)
    requires tag == 8 ==> ReadVarint(bs, 10) == None
    requires tag == 18 || tag == 26 || tag == 34 ==> ReadString(bs) == None
    requires tag == 8 || tag == 18 || tag == 26 || tag == 34
    ensures Parse(m, [tag] + bs) == None
  {
    hide Parse, ReadVarint, ReadString, ReadTag;
    ReadBackTag(tag, bs);
    assert ([tag] + bs)[1..] == bs;
    ParseStep(m, [tag] + bs);
  }

  /** Field number 0, and the two kinds of fields that do not exist. */
  lemma NoSuchFields(m: Message, tag: byte, rest: Bytes)
    requires tag < 8 || (tag < 128 && tag % 8 >= 6)
    ensures Parse(m, [tag] + rest) == None
  {
    hide Parse, ReadTag, ReadVarint, ReadString;
    ReadBackTag(tag, rest);
    ParseStep(m, [tag] + rest);
  }

  /** The zero tag, the end of a group that did not begin, a string that breaks off. */
  lemma MisfitsAreRefused(m: Message, tag: byte, s: Bytes, n: nat, rest: Bytes)
    ensures Parse(m, [0] + rest) == None
    ensures tag < 128 && tag % 8 == 4 ==> Parse(m, [tag] + rest) == None
    ensures |s| < n <= MAX_FIELD && (tag == 18 || tag == 26 || tag == 34) ==> Parse(m, [tag] + (Varint(n) + s)) == None
  {
    hide Parse, ReadTag, ReadVarint, Varint, SkipField;
    ReadBackTag(0, rest);
    ParseStep(m, [0] + rest);
    if tag < 128 && tag % 8 == 4 {
      ReadBackTag(tag, rest);
      ParseStep(m, [tag] + rest);
    }
    if |s| < n <= MAX_FIELD && (tag == 18 || tag == 26 || tag == 34) {
      Powers128();
      VarintLength(n, 5);
      ReadBackVarint(n, s, 5);
      Unread(m, tag, Varint(n) + s);
    }
  }

  /** The longest string field is 2147483631 bytes long. */
  lemma LongestString()
    ensures MAX_FIELD == 2147483631
  {
  }

  // ---- Frames ----

  /** The four bytes of the length, the highest first, and then the message. */
  lemma FrameBytes(m: Message)
    ensures var n := |Serialize(m)|;
      Frame(m) == [n / 0x100_0000 % 256, n / 0x1_0000 % 256, n / 0x100 % 256, n % 256] + Serialize(m)
  {
    hide Serialize, BigEndian;
    var n := |Serialize(m)|;
    var header := BigEndian(n, 4);
    BigEndianAt(n, 4, 0);
    BigEndianAt(n, 4, 1);
    BigEndianAt(n, 4, 2);
    BigEndianAt(n, 4, 3);
    ShiftedQuotients(n);
    assert header == [header[0], header[1], header[2], header[3]];
  }

  lemma ShiftedQuotients(n: nat)
    ensures Shifted(n, 0) == n && Shifted(n, 1) == n / 0x100 && Shifted(n, 2) == n / 0x1_0000 && Shifted(n, 3) == n / 0x100_0000
  {
    assert Shifted(n, 2) == Shifted(n / 256, 1) == n / 256 / 256;
    assert Shifted(n, 3) == Shifted(n / 256, 2) == n / 256 / 256 / 256;
  }
}
