/** Commands on hashes: how their arguments are laid out, what a server makes of them, and how a list of
    fields and values becomes a map again. */
module HashCommands {
  import opened Words
  import opened Reply

  const HMSET: Bytes := [104, 109, 115, 101, 116]
  const HMGET: Bytes := [104, 109, 103, 101, 116]
  const HGETALL: Bytes := [104, 103, 101, 116, 97, 108, 108]

  lemma CommandNames()
    ensures HMSET == Ascii("hmset") && HMGET == Ascii("hmget") && HGETALL == Ascii("hgetall") && OK == Ascii("OK")
  {
  }

  type Fields = map<Bytes, Bytes>

  // ---- Maps and lists ----

  /** The order in which a map is gone through: each of its keys once. */
  predicate IsOrder(order: seq<Bytes>, m: Fields) {
    && (forall i :: 0 <= i < |order| ==> order[i] in m)
    && (forall i, j :: 0 <= i < j < |order| ==> order[i] != order[j])
    && (forall k :: k in m ==> k in order)
  }

  lemma IsOrderMeans(order: seq<Bytes>, m: Fields)
    requires IsOrder(order, m)
    ensures IsDistinct(order) && forall i :: 0 <= i < |order| ==> order[i] in m
  {
  }


  /** Keys and values by turns. */
  function Pairs(order: seq<Bytes>, m: Fields): (ps: seq<Bytes>)
    requires forall i :: 0 <= i < |order| ==> order[i] in m
    ensures |ps| == 2 * |order|
  {
    if order == [] then []
    else
      var last := order[|order| - 1];
      Pairs(order[..|order| - 1], m) + [last, m[last]]
  }

  /** Each key is followed by its value. */
  lemma {:induction false} PairsAt(order: seq<Bytes>, m: Fields, i: nat)
    requires i < |order| && forall j :: 0 <= j < |order| ==> order[j] in m
    ensures Pairs(order, m)[2 * i] == order[i] && Pairs(order, m)[2 * i + 1] == m[order[i]]
  {
    if i < |order| - 1 {
      PairsAt(order[..|order| - 1], m, i);
    }
  }

  lemma PairsStep(order: seq<Bytes>, i: nat, m: Fields)
    requires i < |order| && forall j :: 0 <= j < |order| ==> order[j] in m
    ensures Pairs(order[..i + 1], m) == Pairs(order[..i], m) + [order[i], m[order[i]]]
  {
    assert order[..i + 1][..i] == order[..i];
  }

  lemma OneMore(start: seq<Bytes>, others: seq<Bytes>, i: nat)
    requires i < |others|
    ensures start + others[..i + 1] == start + others[..i] + [others[i]]
  {
  }

  lemma PairsAppended(start: seq<Bytes>, order: seq<Bytes>, i: nat, m: Fields)
    requires i < |order| && forall j :: 0 <= j < |order| ==> order[j] in m
    ensures start + Pairs(order[..i + 1], m) == start + Pairs(order[..i], m) + [order[i], m[order[i]]]
  {
    PairsStep(order, i, m);
    hide Pairs;
  }

  /** The part of a map that a list of keys covers. */
  function Part(order: seq<Bytes>, m: Fields): Fields {
    map k | k in order && k in m :: m[k]
  }

  lemma PartOfAll(order: seq<Bytes>, m: Fields)
    requires IsOrder(order, m)
    ensures Part(order, m) == m
  {
  }

  lemma PartStep(order: seq<Bytes>, m: Fields)
    requires order != [] && IsDistinct(order) && order[|order| - 1] in m
    ensures var before, last := order[..|order| - 1], order[|order| - 1];
      last !in Part(before, m) && Part(order, m) == Part(before, m)[last := m[last]]
  {
    var before, last := order[..|order| - 1], order[|order| - 1];
    assert order == before + [last];
    assert forall k :: k in order <==> k in before || k == last;
  }

  predicate IsDistinct(order: seq<Bytes>) {
    forall i, j :: 0 <= i < j < |order| ==> order[i] != order[j]
  }

  // ---- Arguments ----

  class RedisCommand {
    const cmd: Bytes
    var numArgs: nat
    var index: nat
    var args: array<Bytes>
    var lens: array<nat>

    ghost predicate Valid()
      reads this, args, lens
    {
      && args.Length == lens.Length == numArgs && index <= numArgs
      && forall i :: 0 <= i < index ==> lens[i] == |args[i]|
    }

    /** The arguments so far. */
    ghost function Written(): seq<Bytes>
      reads this, args
      requires index <= args.Length
    {
      args[..index]
    }

    constructor (cmd: Bytes)
      ensures Valid() && this.cmd == cmd && numArgs == 0 && fresh(args) && fresh(lens)
    {
      this.cmd, numArgs, index := cmd, 0, 0;
      args, lens := new Bytes[0], new nat[0];
    }

    method InitMemory(n: nat)
      modifies this`numArgs, this`index, this`args, this`lens
      ensures Valid() && numArgs == n && fresh(args) && fresh(lens)
      ensures Written() == if n > 0 then [cmd] else []
    {
      numArgs, index := n, 0;
      args, lens := new Bytes[n], new nat[n];
      AppendValue(cmd);
    }

    /** An argument for which there is no more room is dropped. */
    method AppendValue(val: Bytes)
      requires Valid()
      modifies this`index, args, lens
      ensures Valid()
      ensures Written() == if old(index) < numArgs then old(Written()) + [val] else old(Written())
    {
      if index >= numArgs {
        return;
      }
      lens[index] := |val|;
      args[index] := val;
      index := index + 1;
    }

    method AppendPair(first: Bytes, second: Bytes)
      requires Valid() && index + 2 <= numArgs
      modifies this`index, args, lens
      ensures Valid() && index == old(index) + 2
      ensures Written() == old(Written()) + [first, second]
    {
      AppendValue(first);
      AppendValue(second);
    }

    /** The pairs of a map, one after another. */
    method AppendPairs(m: Fields, order: seq<Bytes>)
      requires forall i :: 0 <= i < |order| ==> order[i] in m
      requires Valid() && index + 2 * |order| <= numArgs
      modifies this`index, args, lens
      ensures Valid() && index == old(index) + 2 * |order|
      ensures Written() == old(Written()) + Pairs(order, m)
    {
      ghost var start := Written();
      assert Pairs(order[..0], m) == [];
      hide Pairs;
      for i := 0 to |order|
        invariant Valid() && index == old(index) + 2 * i
        invariant Written() == start + Pairs(order[..i], m)
      {
        AppendPair(order[i], m[order[i]]);
        PairsAppended(start, order, i, m);
      }
      assert order[..|order|] == order;
    }

    /** A first argument and the pairs of a map: every slot is used, and none is missing. */
    method SetArgsMap(arg: Bytes, m: Fields, order: seq<Bytes>)
      requires IsOrder(order, m)
      modifies this`numArgs, this`index, this`args, this`lens
      ensures Valid() && index == numArgs == 2 * |m| + 2
      ensures args[..] == [cmd, arg] + Pairs(order, m)
      ensures forall i :: 0 <= i < lens.Length ==> lens[i] == |args[i]|
    {
      OrderLength(order, m);
      IsOrderMeans(order, m);
      hide Pairs, IsOrder;
      InitMemory(2 * |m| + 2);
      AppendValue(arg);
      AppendPairs(m, order);
      assert args[..] == Written();
    }

    /** A first argument and a list of others. */
    method SetArgsList(arg: Bytes, others: seq<Bytes>)
      modifies this`numArgs, this`index, this`args, this`lens
      ensures Valid() && index == numArgs == |others| + 2
      ensures args[..] == [cmd, arg] + others
    {
      InitMemory(|others| + 2);
      AppendValue(arg);
      ghost var start := [cmd, arg];
      assert others[..0] == [];
      for i := 0 to |others|
        modifies this`index, args, lens
        invariant Valid() && index == i + 2
        invariant Written() == start + others[..i]
      {
        AppendValue(others[i]);
        OneMore(start, others, i);
      }
      assert others[..|others|] == others;
      assert args[..] == Written();
    }
  }

  lemma {:induction false} OrderLength(order: seq<Bytes>, m: Fields)
    requires IsOrder(order, m)
    ensures |order| == |m|
  {
    KeysOfOrder(order);
    assert m.Keys == set k | k in order;
    assert |m| == |m.Keys|;
  }

  lemma {:induction false} KeysOfOrder(order: seq<Bytes>)
    requires IsDistinct(order)
    ensures |set k | k in order| == |order|
  {
    if order != [] {
      var before, last := order[..|order| - 1], order[|order| - 1];
      KeysOfOrder(before);
      assert order == before + [last];
      assert (set k | k in order) == (set k | k in before) + {last};
    }
  }

  // ---- Maps from replies ----

  predicate AllText(es: seq<RedisReply>) {
    forall i :: 0 <= i < |es| ==> IsStringLike(es[i])
  }

  /** Fields and values by turns as a map, in which the first of equal fields stays. */
  function Collected(es: seq<RedisReply>): Fields {
    if |es| < 2 then map[]
    else
      var before := Collected(es[..|es| - 2]);
      var field := Text(es[|es| - 2]);
      if field in before then before else before[field := Text(es[|es| - 1])]
  }

  /** How many pairs come before the first that is not two strings. */
  function GoodPairs(es: seq<RedisReply>): (n: nat)
    ensures 2 * n <= |es| && forall i :: 0 <= i < 2 * n ==> IsStringLike(es[i])
    ensures 2 * n + 1 < |es| ==> !(IsStringLike(es[2 * n]) && IsStringLike(es[2 * n + 1]))
  {
    if |es| < 2 || !(IsStringLike(es[0]) && IsStringLike(es[1])) then 0
    else
      var rest := es[2..];
      assert forall i :: 2 <= i < |es| ==> es[i] == rest[i - 2];
      1 + GoodPairs(rest)
  }

  lemma GoodPairsIs(es: seq<RedisReply>, n: nat)
    requires 2 * n <= |es| && |es| % 2 == 0
    requires forall i :: 0 <= i < 2 * n ==> IsStringLike(es[i])
    requires 2 * n + 1 < |es| ==> !(IsStringLike(es[2 * n]) && IsStringLike(es[2 * n + 1]))
    ensures GoodPairs(es) == n
  {
    hide GoodPairs;
    var g := GoodPairs(es);
    assert 2 * g + 1 < |es| ==> !(IsStringLike(es[2 * g]) && IsStringLike(es[2 * g + 1]));
  }

  lemma CollectedOneMore(es: seq<RedisReply>, i: nat)
    requires i + 2 <= |es|
    ensures var before, field := Collected(es[..i]), Text(es[i]);
      Collected(es[..i + 2]) == if field in before then before else before[field := Text(es[i + 1])]
  {
    assert es[..i + 2][..i] == es[..i];
  }

  /** The pairs before the first that is not two strings; it succeeds exactly if that is all of them. */
  method FetchMap(reply: RedisReply, was: Fields) returns (ret: int, m: Fields)
    ensures ret == RC_SUCCESS || ret == RC_REPLY_ERR
    ensures ret == RC_SUCCESS <==> reply.Array? && |reply.elements| % 2 == 0 && AllText(reply.elements)
    ensures ret == RC_SUCCESS ==> m == Collected(reply.elements)
    ensures !reply.Array? || |reply.elements| % 2 == 1 ==> m == was
    ensures reply.Array? && |reply.elements| % 2 == 0 ==>
              m == Collected(reply.elements[..2 * GoodPairs(reply.elements)])
  {
    hide Collected, GoodPairs;
    m := was;
    if !reply.Array? {
      return RC_REPLY_ERR, m;
    }
    var es := reply.elements;
    if |es| % 2 != 0 {
      return RC_REPLY_ERR, m;
    }
    m := map[];
    NothingCollected();
    var i := 0;
    while i < |es|
      invariant 0 <= i <= |es| && i % 2 == 0
      invariant m == Collected(es[..i]) && forall j :: 0 <= j < i ==> IsStringLike(es[j])
    {
      var (code, field) := FetchString(es[i]);
      var value := [];
      if code == RC_SUCCESS {
        var (c, v) := FetchString(es[i + 1]);
        code, value := c, v;
      }
      if code != RC_SUCCESS {
        GoodPairsIs(es, i / 2);
        return code, m;
      }
      CollectedOneMore(es, i);
      if field !in m {
        m := m[field := value];
      }
      i := i + 2;
    }
    assert es[..i] == es;
    GoodPairsIs(es, |es| / 2);
    ret := RC_SUCCESS;
  }

  lemma NothingCollected()
    ensures Collected([]) == map[]
  {
  }

  /** What is collected is what the fields say, and where a field comes again, what it said first. */
  lemma {:induction false} FirstWins(es: seq<RedisReply>, i: nat)
    requires 2 * i + 1 < |es| && |es| % 2 == 0
    requires forall j :: 0 <= j < i ==> Text(es[2 * j]) != Text(es[2 * i])
    ensures Text(es[2 * i]) in Collected(es) && Collected(es)[Text(es[2 * i])] == Text(es[2 * i + 1])
    decreases |es|
  {
    var before := es[..|es| - 2];
    if 2 * i + 2 == |es| {
      if Text(es[2 * i]) in Collected(before) {
        var j := CollectedFrom(before, Text(es[2 * i]));
      }
    } else {
      FirstWins(before, i);
    }
  }

  lemma {:induction false} CollectedFrom(es: seq<RedisReply>, field: Bytes) returns (i: nat)
    requires field in Collected(es) && |es| % 2 == 0
    ensures 2 * i + 1 < |es| && Text(es[2 * i]) == field
    decreases |es|
  {
    var before := es[..|es| - 2];
    if field in Collected(before) {
      i := CollectedFrom(before, field);
    } else {
      i := |es| / 2 - 1;
    }
  }

  function Strings(ps: seq<Bytes>): (es: seq<RedisReply>)
    ensures |es| == |ps| && forall i :: 0 <= i < |ps| ==> es[i] == String(ps[i])
  {
    seq(|ps|, i requires 0 <= i < |ps| => String(ps[i]))
  }

  lemma CollectedStep(ps: seq<Bytes>, field: Bytes, value: Bytes)
    ensures Collected(Strings(ps + [field, value])) ==
      var before := Collected(Strings(ps)); if field in before then before else before[field := value]
  {
    var es := Strings(ps + [field, value]);
    assert es[..|es| - 2] == Strings(ps);
  }

  lemma {:induction false} CollectedPairs(order: seq<Bytes>, m: Fields)
    requires IsDistinct(order) && forall i :: 0 <= i < |order| ==> order[i] in m
    ensures Collected(Strings(Pairs(order, m))) == Part(order, m)
  {
    if order != [] {
      var last := |order| - 1;
      CollectedPairs(order[..last], m);
      PairsStep(order, last, m);
      assert order[..last + 1] == order;
      hide Pairs, Collected, Strings, Part;
      PartStep(order, m);
      CollectedStep(Pairs(order[..last], m), order[last], m[order[last]]);
    }
  }

  /** The pairs of a map, in whatever order they come, are collected into the same map. */
  lemma PairsRebuildMap(order: seq<Bytes>, m: Fields)
    requires IsOrder(order, m)
    ensures Collected(Strings(Pairs(order, m))) == m
    ensures AllText(Strings(Pairs(order, m))) && |Strings(Pairs(order, m))| % 2 == 0
  {
    CollectedPairs(order, m);
    PartOfAll(order, m);
  }

  // ---- The server ----

  datatype Value = Hash(fields: Fields) | Other

  type Store = map<Bytes, Value>

  /** The hash under a key; a key that does not exist is as good as an empty one. */
  function FieldsAt(store: Store, key: Bytes): Fields {
    if key in store && store[key].Hash? then store[key].fields else map[]
  }

  predicate IsWrongType(store: Store, key: Bytes) {
    key in store && store[key].Other?
  }

  function SetPairs(h: Fields, ps: seq<Bytes>): Fields {
    if |ps| < 2 then h else SetPairs(h, ps[..|ps| - 2])[ps[|ps| - 2] := ps[|ps| - 1]]
  }

  function Asked(h: Fields, fields: seq<Bytes>): (es: seq<RedisReply>)
    ensures |es| == |fields|
    ensures forall i :: 0 <= i < |es| ==> es[i] == if fields[i] in h then String(h[fields[i]]) else Nil
  {
    seq(|fields|, i requires 0 <= i < |fields| => if fields[i] in h then String(h[fields[i]]) else Nil)
  }

  /** A server carries out a command on a key, listing a hash in some order of its own. */
  function CarryOut(store: Store, cmd: Bytes, key: Bytes, rest: seq<Bytes>, order: seq<Bytes>): (Store, RedisReply)
    requires IsOrder(order, FieldsAt(store, key))
  {
    if IsWrongType(store, key) then (store, Error([]))
    else if cmd == HMSET && rest != [] && |rest| % 2 == 0 then
      (store[key := Hash(SetPairs(FieldsAt(store, key), rest))], Status(OK))
    else if cmd == HMGET && rest != [] then (store, Array(Asked(FieldsAt(store, key), rest)))
    else if cmd == HGETALL && rest == [] then (store, Array(Strings(Pairs(order, FieldsAt(store, key)))))
    else (store, Error([]))
  }

  function Serve(store: Store, args: seq<Bytes>, order: seq<Bytes>): (Store, RedisReply)
    requires |args| >= 2 ==> IsOrder(order, FieldsAt(store, args[1]))
  {
    if |args| < 2 then (store, Error([])) else CarryOut(store, args[0], args[1], args[2..], order)
  }

  lemma ServeParts(store: Store, cmd: Bytes, key: Bytes, rest: seq<Bytes>, order: seq<Bytes>)
    requires IsOrder(order, FieldsAt(store, key))
    ensures ([cmd, key] + rest)[1] == key
    ensures Serve(store, [cmd, key] + rest, order) == CarryOut(store, cmd, key, rest, order)
  {
    hide CarryOut, IsOrder;
    assert ([cmd, key] + rest)[2..] == rest;
  }

  lemma SetPairsStep(h: Fields, ps: seq<Bytes>, field: Bytes, value: Bytes)
    ensures SetPairs(h, ps + [field, value]) == SetPairs(h, ps)[field := value]
  {
    var all := ps + [field, value];
    assert all[..|all| - 2] == ps;
  }

  lemma UpdateLater(h: Fields, part: Fields, field: Bytes, value: Bytes)
    ensures (h + part)[field := value] == h + part[field := value]
  {
  }

  lemma {:induction false} SetPairsIsUpdate(h: Fields, order: seq<Bytes>, m: Fields)
    requires IsDistinct(order) && forall i :: 0 <= i < |order| ==> order[i] in m
    ensures SetPairs(h, Pairs(order, m)) == h + Part(order, m)
  {
    if order == [] {
      assert h + Part(order, m) == h;
    } else {
      var last := |order| - 1;
      SetPairsIsUpdate(h, order[..last], m);
      PairsStep(order, last, m);
      assert order[..last + 1] == order;
      hide Pairs, SetPairs, Part;
      PartStep(order, m);
      SetPairsStep(h, Pairs(order[..last], m), order[last], m[order[last]]);
      UpdateLater(h, Part(order[..last], m), order[last], m[order[last]]);
    }
  }

  /** Setting all the pairs of a map lays it over what is stored. */
  lemma SetMap(store: Store, key: Bytes, m: Fields, order: seq<Bytes>, listing: seq<Bytes>)
    requires IsOrder(order, m) && IsOrder(listing, FieldsAt(store, key))
    ensures CarryOut(store, HMSET, key, Pairs(order, m), listing) ==
      if m == map[] || IsWrongType(store, key) then (store, Error([]))
      else (store[key := Hash(FieldsAt(store, key) + m)], Status(OK))
  {
    IsOrderMeans(order, m);
    PairsEmpty(order, m);
    hide Pairs, Part, IsOrder, SetPairs, Strings, Asked, FieldsAt;
    PartOfAll(order, m);
    SetPairsIsUpdate(FieldsAt(store, key), order, m);
  }

  lemma PairsEmpty(order: seq<Bytes>, m: Fields)
    requires IsOrder(order, m)
    ensures Pairs(order, m) == [] <==> m == map[]
  {
    OrderLength(order, m);
    assert m == map[] <==> |m| == 0;
  }

  // ---- The client ----

  /** What a request for some fields should bring: those that are stored with a value not empty. */
  function Restricted(h: Fields, fields: seq<Bytes>): Fields {
    map f | f in fields && f in h && h[f] != [] :: h[f]
  }

  /** Fields and the values that came for them, empty values left out. */
  function Zipped(fields: seq<Bytes>, vals: seq<Bytes>): Fields
    requires |fields| == |vals|
  {
    if fields == [] then map[]
    else
      var last := |fields| - 1;
      var before := Zipped(fields[..last], vals[..last]);
      if vals[last] == [] || fields[last] in before then before else before[fields[last] := vals[last]]
  }

  /** Elements that are no strings are left out, and make the success partial. */
  function StringsOf(es: seq<RedisReply>): (vals: seq<Bytes>)
    ensures |vals| <= |es|
  {
    if es == [] then []
    else
      var last := |es| - 1;
      StringsOf(es[..last]) + if IsStringLike(es[last]) then [Text(es[last])] else []
  }

  method FetchStringArray(reply: RedisReply) returns (ret: int, vals: seq<Bytes>)
    ensures reply.Array? ==> vals == StringsOf(reply.elements)
    ensures reply.Array? ==> ret == if AllText(reply.elements) then RC_SUCCESS else RC_PART_SUCCESS
    ensures !reply.Array? ==> vals == [] && ret == if reply.Nil? then RC_SUCCESS else RC_REPLY_ERR
  {
    vals := [];
    if reply.Array? {
      ret := RC_SUCCESS;
      var es := reply.elements;
      for i := 0 to |es|
        invariant vals == StringsOf(es[..i])
        invariant ret == if AllText(es[..i]) then RC_SUCCESS else RC_PART_SUCCESS
      {
        assert es[..i + 1][..i] == es[..i];
        var (code, val) := FetchString(es[i]);
        if code == RC_SUCCESS {
          vals := vals + [val];
        } else {
          assert !IsStringLike(es[..i + 1][i]);
          ret := RC_PART_SUCCESS;
        }
        assert AllText(es[..i + 1]) <==> AllText(es[..i]) && IsStringLike(es[i]);
      }
      assert es[..|es|] == es;
    } else {
      ret := if reply.Nil? then RC_SUCCESS else RC_REPLY_ERR;
    }
  }

  lemma StringsOfOne(e: RedisReply)
    ensures StringsOf([e]) == if e.String? || e.Status? then [e.str] else if e.Nil? then [[]] else []
  {
    assert [e][..0] == [] && StringsOf([]) == [];
  }

  /** The strings of an array are those of its parts, in order. */
  lemma {:induction false} StringsOfParts(a: seq<RedisReply>, b: seq<RedisReply>)
    ensures StringsOf(a + b) == StringsOf(a) + StringsOf(b)
  {
    if b == [] {
      assert a + b == a;
    } else {
      var init := b[..|b| - 1];
      StringsOfParts(a, init);
      assert (a + b)[..|a + b| - 1] == a + init;
    }
  }

  lemma {:induction false} StringsOfText(es: seq<RedisReply>)
    requires AllText(es)
    ensures |StringsOf(es)| == |es| && forall i :: 0 <= i < |es| ==> StringsOf(es)[i] == Text(es[i])
  {
    if es != [] {
      StringsOfText(es[..|es| - 1]);
    }
  }

  /** A field is there if one of its values is not empty, with the first such value. */
  lemma {:induction false} ZippedFirst(fields: seq<Bytes>, vals: seq<Bytes>, i: nat)
    requires i < |fields| == |vals| && vals[i] != []
    requires forall j :: 0 <= j < i && fields[j] == fields[i] ==> vals[j] == []
    ensures fields[i] in Zipped(fields, vals) && Zipped(fields, vals)[fields[i]] == vals[i]
  {
    var last := |fields| - 1;
    if i < last {
      ZippedFirst(fields[..last], vals[..last], i);
    } else if fields[i] in Zipped(fields[..last], vals[..last]) {
      var j := ZippedFrom(fields[..last], vals[..last], fields[i]);
    }
  }

  lemma {:induction false} ZippedFrom(fields: seq<Bytes>, vals: seq<Bytes>, f: Bytes) returns (i: nat)
    requires |fields| == |vals| && f in Zipped(fields, vals)
    ensures i < |fields| && fields[i] == f && vals[i] != []
  {
    var last := |fields| - 1;
    if f in Zipped(fields[..last], vals[..last]) {
      i := ZippedFrom(fields[..last], vals[..last], f);
    } else {
      i := last;
    }
  }

  /** Zipping the answers to a request gives what should be brought, fields asked for twice included. */
  lemma {:induction false} ZippedIsRestricted(h: Fields, fields: seq<Bytes>, vals: seq<Bytes>)
    requires |vals| == |fields|
    requires forall i :: 0 <= i < |fields| ==> vals[i] == if fields[i] in h then h[fields[i]] else []
    ensures Zipped(fields, vals) == Restricted(h, fields)
  {
    if fields != [] {
      var last := |fields| - 1;
      ZippedIsRestricted(h, fields[..last], vals[..last]);
      assert fields == fields[..last] + [fields[last]];
      assert forall f :: f in fields <==> f in fields[..last] || f == fields[last];
    }
  }

  lemma AnswersAreText(h: Fields, fields: seq<Bytes>)
    ensures AllText(Asked(h, fields)) && |StringsOf(Asked(h, fields))| == |fields|
    ensures Zipped(fields, StringsOf(Asked(h, fields))) == Restricted(h, fields)
  {
    StringsOfText(Asked(h, fields));
    ZippedIsRestricted(h, fields, StringsOf(Asked(h, fields)));
  }

  method Zip(fields: seq<Bytes>, vals: seq<Bytes>) returns (m: Fields)
    requires |fields| == |vals|
    ensures m == Zipped(fields, vals)
  {
    m := map[];
    for i := 0 to |fields|
      invariant m == Zipped(fields[..i], vals[..i])
    {
      assert fields[..i + 1][..i] == fields[..i] && vals[..i + 1][..i] == vals[..i];
      if vals[i] != [] && fields[i] !in m {
        m := m[fields[i] := vals[i]];
      }
    }
    assert fields[..|fields|] == fields && vals[..|fields|] == vals;
  }

  /** From a reply to the result, for a list of fields: a reply that is nil as a whole is taken for no
      values at all. */
  method TakeListed(fields: seq<Bytes>, reply: RedisReply, was: Fields) returns (ret: int, m: Fields)
    ensures (ret, m) == ListedResult(fields, reply, was)
  {
    m := was;
    var vals;
    ret, vals := FetchStringArray(reply);
    if ret == RC_SUCCESS {
      if vals != [] && |fields| != |vals| {
        ret := RC_RQST_ERR;
      } else {
        m := map[];
        if vals != [] {
          m := Zip(fields, vals);
        }
      }
    }
  }

  /** From a reply to the result, for a set of fields. */
  method TakeSet(fields: seq<Bytes>, reply: RedisReply, was: Fields) returns (ret: int, m: Fields)
    ensures (ret, m) == SetResult(fields, reply, was)
  {
    m := was;
    var vals;
    ret, vals := FetchStringArray(reply);
    if ret == RC_SUCCESS {
      if |vals| != |fields| {
        ret := RC_RQST_ERR;
      } else {
        m := Zip(fields, vals);
      }
    }
  }

  function ValuesOf(reply: RedisReply): (int, seq<Bytes>) {
    if reply.Array? then (if AllText(reply.elements) then RC_SUCCESS else RC_PART_SUCCESS, StringsOf(reply.elements))
    else (if reply.Nil? then RC_SUCCESS else RC_REPLY_ERR, [])
  }

  function ListedResult(fields: seq<Bytes>, reply: RedisReply, was: Fields): (int, Fields) {
    var (code, vals) := ValuesOf(reply);
    if code != RC_SUCCESS then (code, was)
    else if vals == [] then (RC_SUCCESS, map[])
    else if |fields| != |vals| then (RC_RQST_ERR, was)
    else (RC_SUCCESS, Zipped(fields, vals))
  }

  function SetResult(fields: seq<Bytes>, reply: RedisReply, was: Fields): (int, Fields) {
    var (code, vals) := ValuesOf(reply);
    if code != RC_SUCCESS then (code, was)
    else if |fields| != |vals| then (RC_RQST_ERR, was)
    else (RC_SUCCESS, Zipped(fields, vals))
  }

  /** Every case of the two results, with its code. */
  lemma ResultsRead(fields: seq<Bytes>, reply: RedisReply, was: Fields)
    ensures !reply.Array? && !reply.Nil? ==>
      ListedResult(fields, reply, was) == SetResult(fields, reply, was) == (-2, was)
    ensures reply.Nil? ==>
      && ListedResult(fields, reply, was) == (0, map[])
      && SetResult(fields, reply, was) == if fields == [] then (0, map[]) else (-3, was)
    ensures reply.Array? && !AllText(reply.elements) ==>
      ListedResult(fields, reply, was) == SetResult(fields, reply, was) == (1, was)
    ensures reply.Array? && AllText(reply.elements) && |reply.elements| != |fields| ==>
      && SetResult(fields, reply, was) == (-3, was)
      && ListedResult(fields, reply, was) == if reply.elements == [] then (0, map[]) else (-3, was)
    ensures reply.Array? && AllText(reply.elements) && |reply.elements| == |fields| ==>
      && |StringsOf(reply.elements)| == |fields|
      && (forall i :: 0 <= i < |fields| ==> StringsOf(reply.elements)[i] == Text(reply.elements[i]))
      && ListedResult(fields, reply, was) == SetResult(fields, reply, was) == (0, Zipped(fields, StringsOf(reply.elements)))
  {
    if reply.Array? && AllText(reply.elements) {
      StringsOfText(reply.elements);
    }
  }

  /** Given the same reply, the two forms differ exactly when there are fields but no values: a reply
      that is nil, or an empty array. */
  lemma FormsAgreeIff(fields: seq<Bytes>, reply: RedisReply, was: Fields)
    ensures ListedResult(fields, reply, was) == SetResult(fields, reply, was) <==>
      fields == [] || !(reply.Nil? || reply == Array([]))
  {
    if reply.Array? && AllText(reply.elements) {
      StringsOfText(reply.elements);
    }
  }

  /** What both forms of getting fields bring; asking for none is an error. */
  function Gotten(store: Store, key: Bytes, fields: seq<Bytes>, was: Fields): (int, Fields) {
    if fields == [] || IsWrongType(store, key) then (RC_REPLY_ERR, was)
    else (RC_SUCCESS, Restricted(FieldsAt(store, key), fields))
  }

  lemma GetFields(store: Store, key: Bytes, fields: seq<Bytes>, listing: seq<Bytes>, was: Fields)
    requires IsOrder(listing, FieldsAt(store, key))
    ensures var (after, reply) := CarryOut(store, HMGET, key, fields, listing);
      && after == store
      && ListedResult(fields, reply, was) == SetResult(fields, reply, was) == Gotten(store, key, fields, was)
  {
    AnswersAreText(FieldsAt(store, key), fields);
    hide Restricted, Zipped, StringsOf, Pairs, Strings, SetPairs, IsOrder;
  }

  class HashClient {
    var store: Store

    constructor (store: Store)
      ensures this.store == store
    {
      this.store := store;
    }

    /** A command goes out as the arguments it has written. */
    method Execute(command: RedisCommand, order: seq<Bytes>) returns (reply: RedisReply)
      requires command.Valid() && command.index == command.numArgs >= 2
      requires IsOrder(order, FieldsAt(store, command.args[1]))
      modifies this
      ensures (store, reply) == Serve(old(store), command.args[..], order)
    {
      var (s, r) := Serve(store, command.args[..], order);
      store, reply := s, r;
    }

    /** Setting the fields of a map changes exactly those fields of exactly that key. */
    method Hmset(key: Bytes, m: Fields, order: seq<Bytes>, listing: seq<Bytes>) returns (ret: int)
      requires IsOrder(order, m) && IsOrder(listing, FieldsAt(store, key))
      modifies this
      ensures ret == if m == map[] || IsWrongType(old(store), key) then RC_REPLY_ERR else RC_SUCCESS
      ensures store == if ret == RC_SUCCESS then old(store)[key := Hash(FieldsAt(old(store), key) + m)] else old(store)
    {
      IsOrderMeans(order, m);
      StatusCodeReads(Status(OK));
      StatusCodeReads(Error([]));
      hide IsOrder, Serve, CarryOut, Pairs, StatusCode;
      ServeParts(store, HMSET, key, Pairs(order, m), listing);
      SetMap(store, key, m, order, listing);
      var command := new RedisCommand(HMSET);
      command.SetArgsMap(key, m, order);
      var reply := Execute(command, listing);
      ret := StatusCode(reply);
    }

    /** Getting all fields brings the stored hash, in whatever order the server lists it. */
    method Hgetall(key: Bytes, listing: seq<Bytes>, was: Fields) returns (ret: int, m: Fields)
      requires IsOrder(listing, FieldsAt(store, key))
      modifies this
      ensures store == old(store)
      ensures (ret, m) == if IsWrongType(store, key) then (RC_REPLY_ERR, was) else (RC_SUCCESS, FieldsAt(store, key))
    {
      ServeParts(store, HGETALL, key, [], listing);
      PairsRebuildMap(listing, FieldsAt(store, key));
      hide IsOrder, Serve, Pairs, Strings, Collected;
      var command := new RedisCommand(HGETALL);
      command.SetArgsList(key, []);
      var reply := Execute(command, listing);
      ret, m := FetchMap(reply, was);
    }

    /** Getting a list of fields, with or without repetitions. */
    method HmgetListed(key: Bytes, fields: seq<Bytes>, listing: seq<Bytes>, was: Fields) returns (ret: int, m: Fields)
      requires IsOrder(listing, FieldsAt(store, key))
      modifies this
      ensures store == old(store)
      ensures (ret, m) == Gotten(store, key, fields, was)
    {
      hide IsOrder, Serve, CarryOut, ListedResult, SetResult, Gotten;
      ServeParts(store, HMGET, key, fields, listing);
      GetFields(store, key, fields, listing, was);
      var command := new RedisCommand(HMGET);
      command.SetArgsList(key, fields);
      var reply := Execute(command, listing);
      ret, m := TakeListed(fields, reply, was);
    }

    /** Getting a set of fields, gone through in its order. */
    method HmgetSet(key: Bytes, fields: set<Bytes>, order: seq<Bytes>, listing: seq<Bytes>, was: Fields)
      returns (ret: int, m: Fields)
      requires IsDistinct(order) && fields == set f | f in order
      requires IsOrder(listing, FieldsAt(store, key))
      modifies this
      ensures store == old(store)
      ensures (ret, m) == Gotten(store, key, order, was)
    {
      hide IsOrder, Serve, CarryOut, ListedResult, SetResult, Gotten;
      ServeParts(store, HMGET, key, order, listing);
      GetFields(store, key, order, listing, was);
      var command := new RedisCommand(HMGET);
      command.SetArgsList(key, order);
      var reply := Execute(command, listing);
      ret, m := TakeSet(order, reply, was);
    }
  }

  /** A list of fields and the set of them, in any order, bring the same. */
  lemma ListAndSetAgree(store: Store, key: Bytes, list: seq<Bytes>, order: seq<Bytes>, was: Fields)
    requires forall f :: f in list <==> f in order
    ensures Gotten(store, key, list, was) == Gotten(store, key, order, was)
  {
    var h := FieldsAt(store, key);
    assert Restricted(h, list) == Restricted(h, order);
    assert list == [] <==> order == [] by {
      assert list != [] ==> list[0] in order;
      assert order != [] ==> order[0] in list;
    }
  }
}
