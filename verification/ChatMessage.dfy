/** The message object itself: its fields are cleared, merged, measured, written into a buffer and
    read back one after another, and each method is proved against the wire format. */
module ChatMessages {
  import opened Wrappers
  import opened Words
  import opened Wire

  // ---- Sizes, computed without writing anything ----

  /** The size of a 32-bit varint, by comparing it with the powers of 128. */
  function VarintSize32(n: nat): (size: nat) {
    if n < 0x80 then 1
    else if n < 0x4000 then 2
    else if n < 0x20_0000 then 3
    else if n < 0x1000_0000 then 4
    else 5
  }

  /** Negative enum values are sign-extended to 64 bits and always take ten bytes. */
  function EnumSize(v: int32): nat {
    if v < 0 then 10 else VarintSize32(v)
  }

  function BytesSize(s: Bytes): nat {
    VarintSize32(|s|) + |s|
  }

  lemma {:induction false} VarintAtLeast(n: nat, k: nat)
    requires n >= Power128(k)
    ensures |Varint(n)| > k
  {
    if k > 0 {
      assert Power128(k) == 128 * Power128(k - 1);
      VarintAtLeast(n / 128, k - 1);
    }
  }

  lemma SizeIsLength(n: nat)
    requires n < TWO_32
    ensures VarintSize32(n) == |Varint(n)|
  {
    Powers128();
    assert Power128(1) == 0x80 && Power128(2) == 0x4000 && Power128(3) == 0x20_0000 && Power128(4) == 0x1000_0000;
    var k := VarintSize32(n);
    VarintLength(n, k);
    if k > 1 {
      VarintAtLeast(n, k - 1);
    }
  }

  lemma EnumSizeIsLength(v: int32)
    ensures EnumSize(v) == |Varint(ToUnsigned(v))|
  {
    if v < 0 {
      Powers128();
      VarintLength(v + TWO_64, 10);
      VarintAtLeast(v + TWO_64, 9);
    } else {
      SizeIsLength(v);
    }
  }

  lemma ParseStep(m: Message, bs: Bytes)
    ensures bs == [] ==> Parse(m, bs) == Some(m)
    ensures bs != [] && ParseField(m, bs).None? ==> Parse(m, bs) == None
    ensures bs != [] && ParseField(m, bs).Some? ==>
      Parse(m, bs) == Parse(ParseField(m, bs).value.0, bs[ParseField(m, bs).value.1..])
    ensures bs == bs[0..]
  {
  }

  // ---- Lists of messages ----

  function MergeAll(m: Message, ms: seq<Message>): Message
    decreases ms
  {
    if ms == [] then m else MergeAll(Merge(m, ms[0]), ms[1..])
  }

  function SerializeAll(ms: seq<Message>): Bytes {
    if ms == [] then [] else Serialize(ms[0]) + SerializeAll(ms[1..])
  }

  /** Any number of messages laid end to end read back as their merge, the last one winning. */
  lemma {:induction false} ConcatenationIsMergeAll(m: Message, ms: seq<Message>)
    requires forall i :: 0 <= i < |ms| ==> Fits(ms[i])
    ensures Parse(m, SerializeAll(ms)) == Some(MergeAll(m, ms))
    decreases ms
  {
    hide Parse, Serialize, Merge;
    ParseStep(m, []);
    if ms != [] {
      ParseSerialized(m, ms[0]);
      ParseIsAnAction(m, Serialize(ms[0]), SerializeAll(ms[1..]));
      ConcatenationIsMergeAll(Merge(m, ms[0]), ms[1..]);
    }
  }

  lemma LongStringIsUnreadable(s: Bytes, rest: Bytes)
    requires MAX_FIELD < |s| < TWO_32
    ensures ReadString(Varint(|s|) + (s + rest)).None?
  {
    Powers128();
    VarintLength(|s|, 5);
    ReadBackVarint(|s|, s + rest, 5);
    hide ReadVarint, Varint;
  }

  /** A string too long for a parser makes the whole message unreadable. */
  lemma LongStringIsRejected(m: Message, tag: byte, s: Bytes, rest: Bytes)
    requires MAX_FIELD < |s| < TWO_32 && (tag == 18 || tag == 26 || tag == 34)
    ensures Parse(m, StringField(tag, s) + rest).None?
  {
    hide Parse, ReadTag, ReadString, ReadVarint, SkipField, Varint;
    var body := Varint(|s|) + (s + rest);
    var all := StringField(tag, s) + rest;
    LongStringIsUnreadable(s, rest);
    assert all == [tag] + body;
    ReadBackTag(tag, body);
    assert all[1..] == body;
    ParseStep(m, all);
  }

  lemma LongStringAfter(before: Message, tag: byte, s: Bytes, rest: Bytes)
    requires Fits(before) && MAX_FIELD < |s| < TWO_32 && (tag == 18 || tag == 26 || tag == 34)
    ensures Parse(DEFAULT, Serialize(before) + (StringField(tag, s) + rest)).None?
  {
    hide Parse, Serialize, StringField;
    RoundTrip(before);
    ParseIsAnAction(DEFAULT, Serialize(before), StringField(tag, s) + rest);
    LongStringIsRejected(before, tag, s, rest);
  }

  /** A serialised message can be read back exactly when its strings are not too long. */
  lemma ReadableIffFits(m: Message)
    requires |m.sender| < TWO_32 && |m.receiver| < TWO_32 && |m.content| < TWO_32
    ensures Parse(DEFAULT, Serialize(m)) == if Fits(m) then Some(m) else None
  {
    hide Parse, TypeField, Varint;
    var s, r, c := StringField(18, m.sender), StringField(26, m.receiver), StringField(34, m.content);
    if Fits(m) {
      RoundTrip(m);
    } else if |m.sender| > MAX_FIELD {
      var before := Message(m.messageType, [], [], []);
      LongStringAfter(before, 18, m.sender, r + c);
      assert Serialize(m) == Serialize(before) + (s + (r + c));
    } else if |m.receiver| > MAX_FIELD {
      var before := Message(m.messageType, m.sender, [], []);
      LongStringAfter(before, 26, m.receiver, c);
      assert Serialize(m) == Serialize(before) + (r + c);
    } else {
      var before := m.(content := []);
      LongStringAfter(before, 34, m.content, []);
      assert Serialize(m) == Serialize(before) + (c + []);
    }
  }

  // ---- Writing into a buffer ----

  method WriteVarint(n: nat, target: array<byte>, at: nat) returns (end: nat)
    requires at + |Varint(n)| <= target.Length
    modifies target
    ensures at < end <= target.Length
    ensures target[..end] == old(target[..at]) + Varint(n)
  {
    var value := n;
    end := at;
    while value >= 128
      invariant at <= end && end + |Varint(value)| <= target.Length
      invariant target[..end] + Varint(value) == old(target[..at]) + Varint(n)
    {
      ghost var written := target[..end];
      target[end] := 128 + value % 128;
      assert target[..end + 1] == written + [128 + value % 128];
      assert target[..end + 1] + Varint(value / 128) == written + Varint(value);
      value, end := value / 128, end + 1;
    }
    ghost var written := target[..end];
    target[end] := value;
    end := end + 1;
    assert target[..end] == written + [value];
  }

  method WriteBytes(s: Bytes, target: array<byte>, at: nat) returns (end: nat)
    requires at + |s| <= target.Length
    modifies target
    ensures at <= end <= target.Length
    ensures target[..end] == old(target[..at]) + s
  {
    forall i | 0 <= i < |s| {
      target[at + i] := s[i];
    }
    end := at + |s|;
  }

  /** A string field that is not empty: its tag, its length and its bytes. */
  method WriteStringField(tag: byte, s: Bytes, target: array<byte>, at: nat) returns (end: nat)
    requires at + |StringField(tag, s)| <= target.Length
    modifies target
    ensures at <= end <= target.Length
    ensures target[..end] == old(target[..at]) + StringField(tag, s)
  {
    hide Varint;
    end := at;
    if |s| > 0 {
      ghost var start, length := target[..at], Varint(|s|);
      assert start + [tag] + length + s == start + ([tag] + length + s);
      end := WriteBytes([tag], target, at);
      end := WriteVarint(|s|, target, end);
      end := WriteBytes(s, target, end);
    }
  }

  method WriteTypeField(v: int32, target: array<byte>, at: nat) returns (end: nat)
    requires at + |TypeField(v)| <= target.Length
    modifies target
    ensures at <= end <= target.Length
    ensures target[..end] == old(target[..at]) + TypeField(v)
  {
    hide Varint;
    end := at;
    if v != 0 {
      end := WriteBytes([8], target, at);
      end := WriteVarint(ToUnsigned(v), target, end);
    }
  }

  class ChatMessage {
    var messageType: int32
    var sender: Bytes
    var receiver: Bytes
    var content: Bytes

    function Value(): Message
      reads this
    {
      Message(messageType, sender, receiver, content)
    }

    constructor ()
      ensures Value() == DEFAULT
    {
      messageType, sender, receiver, content := 0, [], [], [];
    }

    method Clear()
      modifies this
      ensures Value() == DEFAULT
    {
      sender, receiver, content := [], [], [];
      messageType := 0;
    }

    /** Merging a message into itself is an error in the program. */
    method MergeFrom(from: ChatMessage)
      requires from != this
      modifies this
      ensures Value() == Merge(old(Value()), from.Value())
    {
      if |from.sender| > 0 {
        sender := from.sender;
      }
      if |from.receiver| > 0 {
        receiver := from.receiver;
      }
      if |from.content| > 0 {
        content := from.content;
      }
      if from.messageType != 0 {
        messageType := from.messageType;
      }
    }

    method CopyFrom(from: ChatMessage)
      modifies this
      ensures Value() == old(from.Value()) && from.Value() == old(from.Value())
    {
      if from == this {
        return;
      }
      Clear();
      MergeFrom(from);
    }

    /** The exact number of bytes that serialising will write. */
    method ByteSizeLong() returns (total: nat)
      requires |sender| < TWO_32 && |receiver| < TWO_32 && |content| < TWO_32
      ensures total == |Serialize(Value())|
    {
      total := 0;
      if |sender| > 0 {
        SizeIsLength(|sender|);
        total := total + 1 + BytesSize(sender);
      }
      if |receiver| > 0 {
        SizeIsLength(|receiver|);
        total := total + 1 + BytesSize(receiver);
      }
      if |content| > 0 {
        SizeIsLength(|content|);
        total := total + 1 + BytesSize(content);
      }
      if messageType != 0 {
        EnumSizeIsLength(messageType);
        total := total + 1 + EnumSize(messageType);
      }
    }

    /** Write the fields one after another; what the buffer held before `at` is kept. */
    method InternalSerialize(target: array<byte>, at: nat) returns (end: nat)
      requires at + |Serialize(Value())| <= target.Length
      modifies target
      ensures at <= end <= target.Length
      ensures target[..end] == old(target[..at]) + Serialize(Value())
    {
      hide TypeField, StringField;
      end := WriteTypeField(messageType, target, at);
      end := WriteStringField(18, sender, target, end);
      end := WriteStringField(26, receiver, target, end);
      end := WriteStringField(34, content, target, end);
    }

    /** Read fields into this message until the bytes are used up or one of them is malformed. */
    method InternalParse(bytes: Bytes) returns (ok: bool)
      modifies this
      ensures ok == Parse(old(Value()), bytes).Some?
      ensures ok ==> Value() == Parse(old(Value()), bytes).value
    {
      hide Parse, SkipField, ReadString, ReadVarint, ReadTag;
      var at := 0;
      ParseStep(Value(), bytes);
      while at < |bytes|
        invariant 0 <= at <= |bytes|
        invariant Parse(Value(), bytes[at..]) == Parse(old(Value()), bytes)
      {
        var rest := bytes[at..];
        ghost var before := Value();
        ParseStep(before, rest);
        match ReadTag(rest) {
          case None => return false;
          case Some((tag, n)) =>
            var body := rest[n..];
            var taken;
            if tag == 8 {
              match ReadVarint(body, 10) {
                case None => return false;
                case Some((v, k)) => messageType, taken := ToInt32(v % TWO_64), k;
              }
            } else if tag == 18 {
              match ReadString(body) {
                case None => return false;
                case Some((s, k)) => sender, taken := s, k;
              }
            } else if tag == 26 {
              match ReadString(body) {
                case None => return false;
                case Some((s, k)) => receiver, taken := s, k;
              }
            } else if tag == 34 {
              match ReadString(body) {
                case None => return false;
                case Some((s, k)) => content, taken := s, k;
              }
            } else if tag % 8 == 4 || tag == 0 {
              return false;
            } else {
              match SkipField(tag, body, MAX_DEPTH) {
                case None => return false;
                case Some(k) => taken := k;
              }
            }
            assert ParseField(before, rest) == Some((Value(), n + taken));
            assert rest[n + taken..] == bytes[at + n + taken..];
            at := at + n + taken;
        }
      }
      assert bytes[at..] == [];
      ParseStep(Value(), []);
      return true;
    }

    /** What a receiver does with the bytes of one message. */
    method ParseFromArray(bytes: Bytes) returns (ok: bool)
      modifies this
      ensures ok == Parse(DEFAULT, bytes).Some?
      ensures ok ==> Value() == Parse(DEFAULT, bytes).value
    {
      Clear();
      ok := InternalParse(bytes);
    }
  }
}
