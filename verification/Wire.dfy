/** The wire format of a chat message (Protocol Buffers Encoding specification, sections
    "Base 128 Varints", "Message Structure" and "Last One Wins"): writing it, reading it and
    merging what was read. */
module Wire {
  import opened Wrappers
  import opened Words

  type int32 = n: int | -0x8000_0000 <= n < 0x8000_0000

  const TWO_32 := 0x1_0000_0000
  const TWO_64 := 0x1_0000_0000_0000_0000

  /** The longest string field a parser accepts: INT_MAX less the 16 bytes of slop its buffers keep. */
  const MAX_FIELD := 0x7FFF_FFFF - 16

  /** How deep unknown groups may nest. */
  const MAX_DEPTH := 100

  datatype Message = Message(messageType: int32, sender: Bytes, receiver: Bytes, content: Bytes)

  const DEFAULT := Message(0, [], [], [])

  // ---- Varints ----

  function Varint(n: nat): (bs: Bytes)
    ensures |bs| > 0
  {
    if n < 128 then [n] else [128 + n % 128] + Varint(n / 128)
  }

  /** A varint of at most `most` bytes at the start of `bs`: its value and its length. */
  function ReadVarint(bs: Bytes, most: nat): (r: Option<(nat, nat)>)
    ensures r.Some? ==> 0 < r.value.1 <= |bs| && r.value.1 <= most
    decreases most
  {
    if bs == [] || most == 0 then None
    else if bs[0] < 128 then Some((bs[0], 1))
    else match ReadVarint(bs[1..], most - 1)
         case None => None
         case Some((v, n)) => Some((bs[0] - 128 + 128 * v, n + 1))
  }

  /** An int32 as the 64-bit value it is sent as, sign-extended. */
  function ToUnsigned(v: int32): (n: nat)
    ensures n < TWO_64
  {
    if v < 0 then v + TWO_64 else v
  }

  /** The low 32 bits of a number, as a signed value. */
  function ToInt32(n: nat): int32 {
    var low := n % TWO_32;
    if low < 0x8000_0000 then low else low - TWO_32
  }

  /** The length of a string field: at most five bytes, and not too large. */
  function ReadSize(bs: Bytes): (r: Option<(nat, nat)>)
    ensures r.Some? ==> 0 < r.value.1 <= |bs|
  {
    match ReadVarint(bs, 5)
    case None => None
    case Some((size, n)) => if size <= MAX_FIELD then Some((size, n)) else None
  }

  function ReadTag(bs: Bytes): (r: Option<(nat, nat)>)
    ensures r.Some? ==> 0 < r.value.1 <= |bs|
  {
    match ReadVarint(bs, 5)
    case None => None
    case Some((tag, n)) => Some((tag % TWO_32, n))
  }

  /** A length-delimited string: the string and the number of bytes it took. */
  function ReadString(bs: Bytes): (r: Option<(Bytes, nat)>)
    ensures r.Some? ==> 0 < r.value.1 <= |bs|
  {
    match ReadSize(bs)
    case None => None
    case Some((size, n)) => if n + size <= |bs| then Some((bs[n..n + size], n + size)) else None
  }

  // ---- Fields nobody knows ----

  /** Skip the value of an unknown field, whose tag has been read: the number of bytes it takes. */
  function SkipField(tag: nat, bs: Bytes, depth: nat): (r: Option<nat>)
    ensures r.Some? ==> r.value <= |bs|
    decreases |bs|, 1
  {
    if tag / 8 == 0 then None
    else if tag % 8 == 0 then
      match ReadVarint(bs, 10)
      case None => None
      case Some((v, n)) => Some(n)
    else if tag % 8 == 1 then if |bs| >= 8 then Some(8) else None
    else if tag % 8 == 2 then
      match ReadString(bs)
      case None => None
      case Some((s, n)) => Some(n)
    else if tag % 8 == 3 then if depth == 0 then None else SkipGroup(tag / 8, bs, depth - 1)
    else if tag % 8 == 5 then if |bs| >= 4 then Some(4) else None
    else None
  }

  /** Skip the fields of an unknown group, up to and with its end tag. */
  function SkipGroup(number: nat, bs: Bytes, depth: nat): (r: Option<nat>)
    ensures r.Some? ==> r.value <= |bs|
    decreases |bs|, 0
  {
    match ReadTag(bs)
    case None => None
    case Some((tag, n)) =>
      if tag % 8 == 4 then if tag / 8 == number then Some(n) else None
      else
        match SkipField(tag, bs[n..], depth)
        case None => None
        case Some(k) =>
          match SkipGroup(number, bs[n + k..], depth)
          case None => None
          case Some(rest) => Some(n + k + rest)
  }

  // ---- Messages ----

  /** Read one field into a message: the message and the number of bytes taken. A later value of a
      field replaces an earlier one; end-group tags and the zero tag do not belong in a message. */
  function ParseField(m: Message, bs: Bytes): (r: Option<(Message, nat)>)
    ensures r.Some? ==> 0 < r.value.1 <= |bs|
  {
    match ReadTag(bs)
    case None => None
    case Some((tag, n)) =>
      var rest := bs[n..];
      if tag == 8 then
        match ReadVarint(rest, 10)
        case None => None
        case Some((v, k)) => Some((m.(messageType := ToInt32(v % TWO_64)), n + k))
      else if tag == 18 || tag == 26 || tag == 34 then
        match ReadString(rest)
        case None => None
        case Some((s, k)) =>
          Some((if tag == 18 then m.(sender := s) else if tag == 26 then m.(receiver := s) else m.(content := s), n + k))
      else if tag % 8 == 4 || tag == 0 then None
      else
        match SkipField(tag, rest, MAX_DEPTH)
        case None => None
        case Some(k) => Some((m, n + k))
  }

  /** Read fields into a message until the bytes are used up. */
  function Parse(m: Message, bs: Bytes): Option<Message>
    decreases |bs|
  {
    if bs == [] then Some(m)
    else match ParseField(m, bs)
         case None => None
         case Some((next, n)) => Parse(next, bs[n..])
  }

  function TypeField(v: int32): Bytes {
    if v != 0 then [8] + Varint(ToUnsigned(v)) else []
  }

  function StringField(tag: byte, s: Bytes): Bytes {
    if s != [] then [tag] + Varint(|s|) + s else []
  }

  /** The fields of a message that are not at their defaults, in the order of their numbers. */
  function Serialize(m: Message): Bytes {
    TypeField(m.messageType) + StringField(18, m.sender) + StringField(26, m.receiver) + StringField(34, m.content)
  }

  /** The fields of `b` that are not at their defaults replace those of `a`. */
  function Merge(a: Message, b: Message): Message {
    Message(if b.messageType != 0 then b.messageType else a.messageType,
            if b.sender != [] then b.sender else a.sender,
            if b.receiver != [] then b.receiver else a.receiver,
            if b.content != [] then b.content else a.content)
  }

  predicate Fits(m: Message) {
    |m.sender| <= MAX_FIELD && |m.receiver| <= MAX_FIELD && |m.content| <= MAX_FIELD
  }

  // ---- Reading does not look beyond what it takes ----

  lemma {:induction false} VarintIsLocal(x: Bytes, y: Bytes, most: nat)
    requires ReadVarint(x, most).Some?
    ensures ReadVarint(x + y, most) == ReadVarint(x, most)
    decreases most
  {
    if x[0] >= 128 {
      VarintIsLocal(x[1..], y, most - 1);
      assert (x + y)[1..] == x[1..] + y;
    }
  }

  lemma TagIsLocal(x: Bytes, y: Bytes)
    requires ReadTag(x).Some?
    ensures ReadTag(x + y) == ReadTag(x)
  {
    VarintIsLocal(x, y, 5);
  }

  lemma StringIsLocal(x: Bytes, y: Bytes)
    requires ReadString(x).Some?
    ensures ReadString(x + y) == ReadString(x)
  {
    VarintIsLocal(x, y, 5);
    var (size, n) := ReadSize(x).value;
    assert (x + y)[n..n + size] == x[n..n + size];
  }

  lemma {:induction false} SkipFieldIsLocal(tag: nat, x: Bytes, y: Bytes, depth: nat)
    requires SkipField(tag, x, depth).Some?
    ensures SkipField(tag, x + y, depth) == SkipField(tag, x, depth)
    decreases |x|, 1
  {
    if tag % 8 == 0 {
      VarintIsLocal(x, y, 10);
    } else if tag % 8 == 2 {
      StringIsLocal(x, y);
    } else if tag % 8 == 3 {
      SkipGroupIsLocal(tag / 8, x, y, depth - 1);
    }
  }

  lemma SkipGroupStep(number: nat, x: Bytes, depth: nat)
    ensures ReadTag(x).None? ==> SkipGroup(number, x, depth) == None
    ensures ReadTag(x).Some? ==>
      var (tag, n) := ReadTag(x).value;
      && (tag % 8 == 4 ==> SkipGroup(number, x, depth) == if tag / 8 == number then Some(n) else None)
      && (tag % 8 != 4 && SkipField(tag, x[n..], depth).None? ==> SkipGroup(number, x, depth) == None)
      && (tag % 8 != 4 && SkipField(tag, x[n..], depth).Some? ==>
        var k := SkipField(tag, x[n..], depth).value;
        var rest := SkipGroup(number, x[n + k..], depth);
        SkipGroup(number, x, depth) == if rest.None? then None else Some(n + k + rest.value))
  {
    hide SkipField, ReadTag;
  }

  lemma {:induction false} SkipGroupIsLocal(number: nat, x: Bytes, y: Bytes, depth: nat)
    requires SkipGroup(number, x, depth).Some?
    ensures SkipGroup(number, x + y, depth) == SkipGroup(number, x, depth)
    decreases |x|, 0
  {
    hide SkipField, SkipGroup, ReadTag;
    SkipGroupStep(number, x, depth);
    SkipGroupStep(number, x + y, depth);
    TagIsLocal(x, y);
    var (tag, n) := ReadTag(x).value;
    if tag % 8 != 4 {
      SkipFieldIsLocal(tag, x[n..], y, depth);
      assert (x + y)[n..] == x[n..] + y;
      var k := SkipField(tag, x[n..], depth).value;
      var rest := x[n + k..];
      assert (x + y)[n + k..] == rest + y;
      SkipGroupIsLocal(number, rest, y, depth);
    }
  }

  lemma FieldIsLocal(m: Message, x: Bytes, y: Bytes)
    requires ParseField(m, x).Some?
    ensures ParseField(m, x + y) == ParseField(m, x)
  {
    hide ReadTag, ReadVarint, ReadString, SkipField;
    TagIsLocal(x, y);
    var (tag, n) := ReadTag(x).value;
    var rest := x[n..];
    assert (x + y)[n..] == rest + y;
    if tag == 8 {
      VarintIsLocal(rest, y, 10);
    } else if tag == 18 || tag == 26 || tag == 34 {
      StringIsLocal(rest, y);
    } else {
      SkipFieldIsLocal(tag, rest, y, MAX_DEPTH);
    }
  }

  /** Parsing one string of bytes after another is parsing their concatenation, for all bytes a
      parser accepts: fields in any order, repeated, spelled out at their defaults, or unknown. */
  lemma {:induction false} ParseIsAnAction(m: Message, x: Bytes, y: Bytes)
    requires Parse(m, x).Some?
    ensures Parse(m, x + y) == Parse(Parse(m, x).value, y)
    decreases |x|
  {
    if x == [] {
      assert x + y == y;
    } else {
      hide ParseField;
      FieldIsLocal(m, x, y);
      var (next, n) := ParseField(m, x).value;
      assert (x + y)[n..] == x[n..] + y;
      ParseIsAnAction(next, x[n..], y);
    }
  }

  // ---- Reading back what was written ----

  lemma {:induction false} ReadBackVarint(n: nat, rest: Bytes, most: nat)
    requires |Varint(n)| <= most
    ensures ReadVarint(Varint(n) + rest, most) == Some((n, |Varint(n)|))
  {
    if n < 128 {
    } else {
      ReadBackVarint(n / 128, rest, most - 1);
      assert (Varint(n) + rest)[1..] == Varint(n / 128) + rest;
    }
  }

  lemma {:induction false} VarintLength(n: nat, most: nat)
    requires most > 0 && n < Power128(most)
    ensures |Varint(n)| <= most
  {
    if n >= 128 {
      VarintLength(n / 128, most - 1);
    }
  }

  function Power128(k: nat): (p: nat)
    ensures p > 0
  {
    if k == 0 then 1 else 128 * Power128(k - 1)
  }

  lemma Powers128()
    ensures Power128(5) == 0x8_0000_0000 && Power128(9) == 0x8000_0000_0000_0000 && Power128(10) == 64 * TWO_64
  {
    assert Power128(3) == 0x20_0000;
    assert Power128(6) == 128 * 128 * 128 * Power128(3);
    assert Power128(9) == 128 * 128 * 128 * Power128(6);
  }

  lemma EnumSurvives(v: int32)
    ensures ToInt32(ToUnsigned(v) % TWO_64) == v
    ensures |Varint(ToUnsigned(v))| <= 10
  {
    Powers128();
    VarintLength(ToUnsigned(v), 10);
    assert TWO_64 == TWO_32 * TWO_32;
    if v < 0 {
      assert (v + TWO_64) % TWO_32 == v + TWO_32;
    }
  }

  lemma ReadBackTag(tag: byte, rest: Bytes)
    requires tag < 128
    ensures ReadTag([tag] + rest) == Some((tag as nat, 1))
  {
  }

  lemma ReadBackType(m: Message, v: int32, rest: Bytes)
    requires v != 0
    ensures ParseField(m, TypeField(v) + rest) == Some((m.(messageType := v), |TypeField(v)|))
  {
    var body := Varint(ToUnsigned(v));
    assert TypeField(v) + rest == [8] + (body + rest);
    ReadBackTag(8, body + rest);
    EnumSurvives(v);
    ReadBackVarint(ToUnsigned(v), rest, 10);
    assert ([8] + (body + rest))[1..] == body + rest;
  }

  lemma ReadBackString(s: Bytes, rest: Bytes)
    requires |s| <= MAX_FIELD
    ensures ReadString(Varint(|s|) + s + rest) == Some((s, |Varint(|s|)| + |s|))
  {
    Powers128();
    VarintLength(|s|, 5);
    ReadBackVarint(|s|, s + rest, 5);
    var all := Varint(|s|) + s + rest;
    assert all == Varint(|s|) + (s + rest);
    var n := |Varint(|s|)|;
    assert all[n..n + |s|] == s;
  }

  function SetString(m: Message, tag: byte, s: Bytes): Message {
    if tag == 18 then m.(sender := s) else if tag == 26 then m.(receiver := s) else m.(content := s)
  }

  lemma ReadBackStringField(m: Message, tag: byte, s: Bytes, rest: Bytes)
    requires s != [] && |s| <= MAX_FIELD && (tag == 18 || tag == 26 || tag == 34)
    ensures ParseField(m, StringField(tag, s) + rest) == Some((SetString(m, tag, s), |StringField(tag, s)|))
  {
    hide ReadTag, ReadString, ReadVarint, SkipField, Varint;
    var body := Varint(|s|) + s + rest;
    assert StringField(tag, s) + rest == [tag] + body;
    ReadBackTag(tag, body);
    ReadBackString(s, rest);
    assert ([tag] + body)[1..] == body;
  }

  lemma ParseOneField(m: Message, field: Bytes, next: Message)
    requires field != [] && ParseField(m, field + []) == Some((next, |field|))
    ensures Parse(m, field) == Some(next)
  {
    assert field + [] == field;
    assert field[|field|..] == [];
  }

  /** Reading what was written merges it in: for every message that a field read fits. */
  lemma ParseSerialized(m: Message, b: Message)
    requires Fits(b)
    ensures Parse(m, Serialize(b)) == Some(Merge(m, b))
  {
    hide Parse, ParseField;
    var m1 := if b.messageType != 0 then m.(messageType := b.messageType) else m;
    ParseTypeField(m, b.messageType);
    var m2 := if b.sender != [] then m1.(sender := b.sender) else m1;
    ParseStringField(m1, 18, b.sender);
    var m3 := if b.receiver != [] then m2.(receiver := b.receiver) else m2;
    ParseStringField(m2, 26, b.receiver);
    ParseStringField(m3, 34, b.content);
    var t, s, r, c := TypeField(b.messageType), StringField(18, b.sender), StringField(26, b.receiver), StringField(34, b.content);
    ParseIsAnAction(m, t, s);
    ParseIsAnAction(m, t + s, r);
    ParseIsAnAction(m, t + s + r, c);
  }

  lemma ParseTypeField(m: Message, v: int32)
    ensures Parse(m, TypeField(v)) == Some(if v != 0 then m.(messageType := v) else m)
  {
    if v != 0 {
      ReadBackType(m, v, []);
      ParseOneField(m, TypeField(v), m.(messageType := v));
    }
  }

  lemma ParseStringField(m: Message, tag: byte, s: Bytes)
    requires |s| <= MAX_FIELD && (tag == 18 || tag == 26 || tag == 34)
    ensures Parse(m, StringField(tag, s)) == Some(if s != [] then SetString(m, tag, s) else m)
  {
    if s != [] {
      ReadBackStringField(m, tag, s, []);
      ParseOneField(m, StringField(tag, s), SetString(m, tag, s));
    }
  }

  /** Parsing undoes serialising. */
  lemma RoundTrip(m: Message)
    requires Fits(m)
    ensures Parse(DEFAULT, Serialize(m)) == Some(m)
  {
    ParseSerialized(DEFAULT, m);
  }

  /** Concatenating two messages on the wire merges them. */
  lemma ConcatenationIsMerge(a: Message, b: Message)
    requires Fits(a) && Fits(b)
    ensures Parse(DEFAULT, Serialize(a) + Serialize(b)) == Some(Merge(a, b))
  {
    RoundTrip(a);
    ParseIsAnAction(DEFAULT, Serialize(a), Serialize(b));
    ParseSerialized(a, b);
  }
}
