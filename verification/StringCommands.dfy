/** MSET and MGET over a cluster: one pipeline of SET or GET commands, flushed and read back. */
module StringCommands {
  import opened Wrappers
  import opened Words
  import opened Reply
  import opened SlotTable
  import opened Schedule
  import opened Pipeline
  import HashSlot

  type Store = map<Bytes, Bytes>

  datatype Command = Get(key: Bytes) | Set(key: Bytes, value: Bytes)

  /** One server holding strings. */
  function Serve(store: Store, command: Command): (Store, RedisReply) {
    match command
    case Get(key) => (store, if key in store then String(store[key]) else Nil)
    case Set(key, value) => (store[key := value], Status(OK))
  }

  function SlotsOf(keys: seq<Bytes>): (slots: seq<int>)
    ensures |slots| == |keys| && forall i :: 0 <= i < |keys| ==> slots[i] == HashSlot.Slot(keys[i])
  {
    seq(|keys|, i requires 0 <= i < |keys| => HashSlot.Slot(keys[i]))
  }

  // ---- What a queue of SET commands leaves behind ----

  ghost predicate IsSets(q: Queue<Command>) {
    |q.route| == |q.commands| && forall i :: 0 <= i < |q.commands| ==> q.commands[i].Set?
  }

  ghost predicate IsGets(q: Queue<Command>) {
    forall i :: 0 <= i < |q.commands| ==> q.commands[i].Get?
  }

  /** Position of the last command of `order` that writes `key` on server `s`. */
  ghost function LastWrite(q: Queue<Command>, order: seq<nat>, s: ServerId, key: Bytes): (last: Option<nat>)
    requires IsSets(q) && q.Covers(order)
    ensures last.Some? ==> last.value in order && q.route[last.value] == s && q.commands[last.value].key == key
    ensures last.None? ==> forall k :: 0 <= k < |order| ==> q.route[order[k]] != s || q.commands[order[k]].key != key
  {
    if order == [] then None
    else
      var i := order[|order| - 1];
      if q.route[i] == s && q.commands[i].key == key then Some(i)
      else LastWrite(q, order[..|order| - 1], s, key)
  }

  ghost function ValueAt(store: Store, key: Bytes): Option<Bytes> {
    if key in store then Some(store[key]) else None
  }

  /** The last write decides; what is not written stays. */
  lemma {:induction false} SetsOverwrite(q: Queue<Command>, order: seq<nat>, s: ServerId, key: Bytes, from: Outcome<Store, RedisReply>)
    requires IsSets(q) && q.Fits(from.states) && q.Covers(order) && s in from.states
    ensures ValueAt(Run(Serve, q, order, from).states[s], key)
         == match LastWrite(q, order, s, key)
            case None => ValueAt(from.states[s], key)
            case Some(i) => Some(q.commands[i].value)
  {
    if order == [] {
    } else {
      SetsOverwrite(q, order[..|order| - 1], s, key, from);
    }
  }

  lemma SameValuesSameStore(a: Store, b: Store)
    requires forall key :: ValueAt(a, key) == ValueAt(b, key)
    ensures a == b
  {
    forall key
      ensures key in a <==> key in b
      ensures key in a ==> a[key] == b[key]
    {
      assert ValueAt(a, key) == ValueAt(b, key);
    }
  }

  /** Whatever part of the writes has already run, running all of them leaves exactly what one
      clean run leaves. */
  lemma RerunIsHarmless(q: Queue<Command>, ran: seq<nat>, states: map<ServerId, Store>)
    requires IsSets(q) && q.Fits(states) && q.Covers(ran)
    ensures var n := |q.commands|;
            var middle := Run(Serve, q, ran, Outcome(states, map[])).states;
            OneByOne(Serve, q, n, middle).0 == OneByOne(Serve, q, n, states).0
  {
    hide OneByOne, Run;
    var n := |q.commands|;
    var middle := Run(Serve, q, ran, Outcome(states, map[])).states;
    var twice, once := OneByOne(Serve, q, n, middle).0, OneByOne(Serve, q, n, states).0;
    forall s | s in states
      ensures twice[s] == once[s]
    {
      forall key
        ensures ValueAt(twice[s], key) == ValueAt(once[s], key)
      {
        QueueOverwrites(q, s, key, middle);
        QueueOverwrites(q, s, key, states);
        SetsOverwrite(q, ran, s, key, Outcome(states, map[]));
        if LastWrite(q, InOrder(n), s, key).None? {
          NeverWritten(q, ran, s, key);
        }
      }
      SameValuesSameStore(twice[s], once[s]);
    }
  }

  lemma QueueOverwrites(q: Queue<Command>, s: ServerId, key: Bytes, states: map<ServerId, Store>)
    requires IsSets(q) && q.Fits(states) && s in states
    ensures ValueAt(OneByOne(Serve, q, |q.commands|, states).0[s], key)
         == match LastWrite(q, InOrder(|q.commands|), s, key)
            case None => ValueAt(states[s], key)
            case Some(i) => Some(q.commands[i].value)
  {
    OneByOneIsQueueOrder(Serve, q, |q.commands|, states);
    SetsOverwrite(q, InOrder(|q.commands|), s, key, Outcome(states, map[]));
  }

  lemma NeverWritten(q: Queue<Command>, ran: seq<nat>, s: ServerId, key: Bytes)
    requires IsSets(q) && q.Covers(ran) && LastWrite(q, InOrder(|q.commands|), s, key).None?
    ensures LastWrite(q, ran, s, key).None?
  {
    var order := InOrder(|q.commands|);
    forall k | 0 <= k < |ran|
      ensures q.route[ran[k]] != s || q.commands[ran[k]].key != key
    {
      assert order[ran[k]] == ran[k];
    }
  }

  /** The value `key` ends up with among parallel lists of keys and values: its last one. */
  ghost function LastValue(keys: seq<Bytes>, vals: seq<Bytes>, key: Bytes): (value: Option<Bytes>)
    requires |keys| <= |vals|
    ensures value.None? <==> key !in keys
  {
    if keys == [] then None
    else if keys[|keys| - 1] == key then Some(vals[|keys| - 1])
    else LastValue(keys[..|keys| - 1], vals, key)
  }

  /** `q` writes `vals` under `keys`, and all writes of one key go to one server. */
  ghost predicate Writes(q: Queue<Command>, keys: seq<Bytes>, vals: seq<Bytes>) {
    && IsSets(q) && |q.commands| == |keys| <= |vals|
    && (forall i :: 0 <= i < |keys| ==> q.commands[i] == Set(keys[i], vals[i]))
    && (forall i, j :: 0 <= i < |keys| && 0 <= j < |keys| && keys[i] == keys[j] ==> q.route[i] == q.route[j])
  }

  lemma LastWriteStep(q: Queue<Command>, n: nat, s: ServerId, key: Bytes)
    requires IsSets(q) && |q.route| == |q.commands| && 0 < n <= |q.commands|
    ensures LastWrite(q, InOrder(n), s, key)
         == if q.route[n - 1] == s && q.commands[n - 1].key == key then Some(n - 1) else LastWrite(q, InOrder(n - 1), s, key)
  {
    assert InOrder(n)[..n - 1] == InOrder(n - 1);
  }

  lemma {:induction false} LastWriteIsLastValue(q: Queue<Command>, keys: seq<Bytes>, vals: seq<Bytes>, n: nat, s: ServerId, key: Bytes)
    requires Writes(q, keys, vals) && n <= |keys|
    requires forall i :: 0 <= i < |keys| && keys[i] == key ==> q.route[i] == s
    ensures LastValue(keys[..n], vals, key)
         == match LastWrite(q, InOrder(n), s, key)
            case None => None
            case Some(i) => Some(q.commands[i].value)
  {
    if n == 0 {
    } else {
      LastWriteIsLastValue(q, keys, vals, n - 1, s, key);
      LastWriteStep(q, n, s, key);
      assert keys[..n][..n - 1] == keys[..n - 1];
      hide LastWrite;
    }
  }

  /** After the writes, a written key has its last value at its server; every other key is as it
      was, everywhere. */
  lemma WritesTakeEffect(q: Queue<Command>, keys: seq<Bytes>, vals: seq<Bytes>, states: map<ServerId, Store>)
    requires Writes(q, keys, vals) && q.Fits(states)
    ensures var after := OneByOne(Serve, q, |keys|, states).0;
            && (forall i :: 0 <= i < |keys| ==> ValueAt(after[q.route[i]], keys[i]) == LastValue(keys, vals, keys[i]))
            && (forall s, key :: s in states && key !in keys ==> ValueAt(after[s], key) == ValueAt(states[s], key))
  {
    hide OneByOne;
    var after := OneByOne(Serve, q, |keys|, states).0;
    forall i | 0 <= i < |keys|
      ensures ValueAt(after[q.route[i]], keys[i]) == LastValue(keys, vals, keys[i])
    {
      QueueOverwrites(q, q.route[i], keys[i], states);
      LastWriteIsLastValue(q, keys, vals, |keys|, q.route[i], keys[i]);
      assert keys[..|keys|] == keys;
    }
    forall s, key | s in states && key !in keys
      ensures ValueAt(after[s], key) == ValueAt(states[s], key)
    {
      QueueOverwrites(q, s, key, states);
    }
  }

  lemma PartLeavesOthers(q: Queue<Command>, keys: seq<Bytes>, vals: seq<Bytes>, ran: seq<nat>, states: map<ServerId, Store>)
    requires Writes(q, keys, vals) && q.Fits(states) && q.Covers(ran)
    ensures var after := Run(Serve, q, ran, Outcome(states, map[])).states;
            forall s, key :: s in states && key !in keys ==> ValueAt(after[s], key) == ValueAt(states[s], key)
  {
    hide Run;
    var after := Run(Serve, q, ran, Outcome(states, map[])).states;
    forall s, key | s in states && key !in keys
      ensures ValueAt(after[s], key) == ValueAt(states[s], key)
    {
      SetsOverwrite(q, ran, s, key, Outcome(states, map[]));
    }
  }

  /** A SET queue replies OK to every command. */
  lemma {:induction false} SetsReplyOk(q: Queue<Command>, n: nat, states: map<ServerId, Store>)
    requires IsSets(q) && q.Fits(states) && n <= |q.commands|
    ensures forall i :: 0 <= i < n ==> OneByOne(Serve, q, n, states).1[i] == Status(OK)
  {
    if n > 0 {
      SetsReplyOk(q, n - 1, states);
    }
  }

  lemma GetChangesNothing(q: Queue<Command>, i: nat, states: map<ServerId, Store>)
    requires q.Fits(states) && IsGets(q) && i < |q.commands|
    ensures Serve(states[q.route[i]], q.commands[i]).0 == states[q.route[i]]
    ensures states[q.route[i] := states[q.route[i]]] == states
  {
  }

  /** A GET queue changes nothing and replies with what each key's server holds. */
  lemma {:induction false} GetsReadStores(q: Queue<Command>, n: nat, states: map<ServerId, Store>)
    requires q.Fits(states) && n <= |q.commands| && IsGets(q)
    ensures OneByOne(Serve, q, n, states).0 == states
    ensures forall i :: 0 <= i < n ==>
              OneByOne(Serve, q, n, states).1[i] == Serve(states[q.route[i]], q.commands[i]).1
  {
    if n > 0 {
      hide OneByOne, Serve, IsGets;
      GetsReadStores(q, n - 1, states);
      OneByOneStep(Serve, q, n, states);
      GetChangesNothing(q, n - 1, states);
    }
  }

  // ---- The two commands ----

  ghost predicate Fair(weather: Weather) {
    forall s :: weather(s).Served?
  }

  /** The flush goes through, or its failure is one that a retry through a refreshed table cures. */
  ghost predicate FlushSucceeds(first: Weather, refreshed: Option<seq<Region<ServerId>>>, second: Weather) {
    && ErrorsAreErrors(first) && ErrorsAreErrors(second)
    && (Fair(first) || (refreshed.Some? && Fair(second) && forall s :: first(s).Broken? ==> first(s).code == RC_RQST_ERR))
  }

  /** A key's value where the table routes the key. */
  ghost function Lookup(table: seq<Region<ServerId>>, states: map<ServerId, Store>, key: Bytes): Option<Bytes> {
    match LinearScan(table, HashSlot.Slot(key))
    case None => None
    case Some(s) => if s in states then ValueAt(states[s], key) else None
  }

  /** Queue one command for each key, in the order of the keys. */
  method QueueAll(commands: seq<Command>) returns (pipeline: RedisPipeline<Store, Command, RedisReply>)
    ensures fresh(pipeline) && pipeline.Valid() && pipeline.cursor == 0
    ensures pipeline.commands == commands && pipeline.slots == SlotsOf(KeysOf(commands))
  {
    hide HashSlot.Slot;
    pipeline := new RedisPipeline<Store, Command, RedisReply>();
    for i := 0 to |commands|
      invariant fresh(pipeline) && pipeline.Valid() && pipeline.cursor == 0
      invariant pipeline.commands == commands[..i] && pipeline.slots == SlotsOf(KeysOf(commands))[..i]
    {
      var slot := HashSlot.HashKey(commands[i].key);
      pipeline.QueueCommand(commands[i], slot);
    }
  }

  function KeysOf(commands: seq<Command>): (keys: seq<Bytes>)
    ensures |keys| == |commands| && forall i :: 0 <= i < |keys| ==> keys[i] == commands[i].key
  {
    seq(|commands|, i requires 0 <= i < |commands| => commands[i].key)
  }

  function Sets(keys: seq<Bytes>, vals: seq<Bytes>): (commands: seq<Command>)
    requires |keys| <= |vals|
    ensures KeysOf(commands) == keys
    ensures |commands| == |keys| && forall i :: 0 <= i < |keys| ==> commands[i] == Set(keys[i], vals[i])
  {
    seq(|keys|, i requires 0 <= i < |keys| => Set(keys[i], vals[i]))
  }

  function Gets(keys: seq<Bytes>): (commands: seq<Command>)
    ensures KeysOf(commands) == keys
    ensures |commands| == |keys| && forall i :: 0 <= i < |keys| ==> commands[i] == Get(keys[i])
  {
    seq(|keys|, i requires 0 <= i < |keys| => Get(keys[i]))
  }

  /** The queue of `commands` through `table`. */
  ghost function Routed(commands: seq<Command>, table: seq<Region<ServerId>>, nodes: set<ServerId>): (q: Queue<Command>)
    requires TableServes(table, SlotsOf(KeysOf(commands)), nodes)
    ensures q.commands == commands && |q.route| == |commands|
    ensures forall i :: 0 <= i < |commands| ==>
              LinearScan(table, HashSlot.Slot(commands[i].key)) == Some(q.route[i]) && q.route[i] in nodes
  {
    Queue(commands, RouteThrough(table, SlotsOf(KeysOf(commands)), nodes))
  }

  /** Writes that were run in part through one table, and then in full through another. */
  lemma RerunTakesEffect(keys: seq<Bytes>, vals: seq<Bytes>, q: Queue<Command>, again: Queue<Command>, ran: seq<nat>,
      states: map<ServerId, Store>)
    requires Writes(q, keys, vals) && Writes(again, keys, vals)
    requires q.Fits(states) && again.Fits(states) && q.Covers(ran)
    ensures var middle := Run(Serve, q, ran, Outcome(states, map[])).states;
            var after := OneByOne(Serve, again, |keys|, middle).0;
            && (forall i :: 0 <= i < |keys| ==> ValueAt(after[again.route[i]], keys[i]) == LastValue(keys, vals, keys[i]))
            && (forall s, key :: s in states && key !in keys ==> ValueAt(after[s], key) == ValueAt(states[s], key))
            && (again == q ==> after == OneByOne(Serve, q, |keys|, states).0)
  {
    hide Run, OneByOne;
    var middle := Run(Serve, q, ran, Outcome(states, map[])).states;
    WritesTakeEffect(again, keys, vals, middle);
    PartLeavesOthers(q, keys, vals, ran, states);
    if again == q {
      RerunIsHarmless(q, ran, states);
    }
  }

  /** What MSET leaves: written keys have their last value where the table now routes them, other
      keys are as before on every server. */
  ghost predicate IsStored(table: seq<Region<ServerId>>, keys: seq<Bytes>, vals: seq<Bytes>,
      before: map<ServerId, Store>, after: map<ServerId, Store>)
    requires |keys| <= |vals| && before.Keys == after.Keys
  {
    && (forall key :: key in keys ==> Lookup(table, after, key) == LastValue(keys, vals, key))
    && (forall s, key :: s in after && key !in keys ==> ValueAt(after[s], key) == ValueAt(before[s], key))
  }

  /** The servers after one clean flush of the writes. */
  ghost function CleanFlush(table: seq<Region<ServerId>>, keys: seq<Bytes>, vals: seq<Bytes>,
      before: map<ServerId, Store>): map<ServerId, Store>
    requires |keys| <= |vals| && TableServes(table, SlotsOf(keys), before.Keys)
  {
    OneByOne(Serve, Routed(Sets(keys, vals), table, before.Keys), |keys|, before).0
  }

  lemma RoutedWrites(table: seq<Region<ServerId>>, keys: seq<Bytes>, vals: seq<Bytes>, nodes: set<ServerId>)
    requires |keys| <= |vals| && TableServes(table, SlotsOf(keys), nodes)
    ensures Writes(Routed(Sets(keys, vals), table, nodes), keys, vals)
  {
    hide HashSlot.Slot;
    var q := Routed(Sets(keys, vals), table, nodes);
    forall i, j | 0 <= i < |keys| && 0 <= j < |keys| && keys[i] == keys[j]
      ensures q.route[i] == q.route[j]
    {
      assert LinearScan(table, HashSlot.Slot(keys[i])) == Some(q.route[i]);
      assert LinearScan(table, HashSlot.Slot(keys[j])) == Some(q.route[j]);
    }
  }

  lemma MsetEffect(earlier: seq<Region<ServerId>>, table: seq<Region<ServerId>>, keys: seq<Bytes>, vals: seq<Bytes>,
      ran: seq<nat>, before: map<ServerId, Store>, start: map<ServerId, Store>)
    requires |keys| <= |vals|
    requires TableServes(earlier, SlotsOf(keys), before.Keys) && TableServes(table, SlotsOf(keys), before.Keys)
    requires start.Keys == before.Keys
    requires Ran(Serve, Routed(Sets(keys, vals), earlier, before.Keys), ran, before, start)
    ensures IsStored(table, keys, vals, before, CleanFlush(table, keys, vals, start))
    ensures table == earlier ==> CleanFlush(table, keys, vals, start) == CleanFlush(table, keys, vals, before)
  {
    hide HashSlot.Slot, Run, OneByOne, Writes, LastValue, Lookup, ValueAt, TableServes, Routed, LinearScan;
    RoutedWrites(earlier, keys, vals, before.Keys);
    RoutedWrites(table, keys, vals, before.Keys);
    RerunTakesEffect(keys, vals, Routed(Sets(keys, vals), earlier, before.Keys), Routed(Sets(keys, vals), table, before.Keys),
                     ran, before);
    LookupWritten(table, keys, vals, before.Keys, CleanFlush(table, keys, vals, start));
  }

  lemma NothingStored(table: seq<Region<ServerId>>, vals: seq<Bytes>, states: map<ServerId, Store>)
    requires TableServes(table, SlotsOf([]), states.Keys)
    ensures IsStored(table, [], vals, states, states) && CleanFlush(table, [], vals, states) == states
  {
    hide HashSlot.Slot;
  }

  lemma LookupWritten(table: seq<Region<ServerId>>, keys: seq<Bytes>, vals: seq<Bytes>, nodes: set<ServerId>,
      after: map<ServerId, Store>)
    requires |keys| <= |vals| && TableServes(table, SlotsOf(keys), nodes) && after.Keys == nodes
    requires var q := Routed(Sets(keys, vals), table, nodes);
             forall i :: 0 <= i < |keys| ==> ValueAt(after[q.route[i]], keys[i]) == LastValue(keys, vals, keys[i])
    ensures forall key :: key in keys ==> Lookup(table, after, key) == LastValue(keys, vals, key)
  {
    hide HashSlot.Slot, LastValue, ValueAt;
    var q := Routed(Sets(keys, vals), table, nodes);
    forall key | key in keys
      ensures Lookup(table, after, key) == LastValue(keys, vals, key)
    {
      var i :| 0 <= i < |keys| && keys[i] == key;
      assert LinearScan(table, HashSlot.Slot(key)) == Some(q.route[i]);
    }
  }

  /** The code for the replies to a queue of writes. */
  method CheckStatuses(replies: seq<RedisReply>) returns (code: int)
    ensures code == RC_SUCCESS || code == RC_PART_SUCCESS
    ensures code == RC_SUCCESS <==> forall i :: 0 <= i < |replies| ==> FetchString(replies[i]) == (RC_SUCCESS, OK)
    ensures code == RC_SUCCESS <==>
              forall i :: 0 <= i < |replies| ==>
                (replies[i].String? || replies[i].Status?) && replies[i].str == [0x4F, 0x4B]
  {
    code := RC_SUCCESS;
    for i := 0 to |replies|
      invariant code == RC_SUCCESS || code == RC_PART_SUCCESS
      invariant code == RC_SUCCESS <==> forall k :: 0 <= k < i ==> FetchString(replies[k]) == (RC_SUCCESS, OK)
    {
      if FetchString(replies[i]) != (RC_SUCCESS, OK) {
        code := RC_PART_SUCCESS;
      }
    }
  }

  /** Store each value under its key. Written keys end with their last value; other keys are left
      alone; and where the routing did not change, a failed first flush leaves no trace. */
  method Mset(cluster: Cluster<Store, Command, RedisReply>, keys: seq<Bytes>, vals: seq<Bytes>,
      first: Weather, refreshed: Option<seq<Region<ServerId>>>, second: Weather)
    returns (code: int)
    requires |keys| <= |vals| && cluster.machine == Serve && cluster.Serves(SlotsOf(keys))
    requires refreshed.Some? ==> TableServes(refreshed.value, SlotsOf(keys), cluster.states.Keys)
    requires FlushSucceeds(first, refreshed, second)
    modifies cluster`states, cluster`table
    ensures code == RC_SUCCESS && cluster.states.Keys == old(cluster.states.Keys)
    ensures IsStored(cluster.table, keys, vals, old(cluster.states), cluster.states)
    ensures cluster.table == old(cluster.table) ==>
              cluster.states == old(CleanFlush(cluster.table, keys, vals, cluster.states))
  {
    hide HashSlot.Slot, IsStored, CleanFlush, IsPartial, IsFlushed, Ran, TableServes, FlushSucceeds;
    if keys == [] {
      NothingStored(cluster.table, vals, cluster.states);
      return RC_SUCCESS;
    }
    ghost var before, table := cluster.states, cluster.table;
    var pipeline, ran, start := FlushSets(cluster, keys, vals, first, refreshed, second);
    MsetEffect(table, cluster.table, keys, vals, ran, before, start);
    var replies := pipeline.FetchRest();
    assert forall i :: 0 <= i < |replies| ==> Some(replies[i]) == pipeline.replies[i];
    code := CheckStatuses(replies);
  }

  method FlushSets(cluster: Cluster<Store, Command, RedisReply>, keys: seq<Bytes>, vals: seq<Bytes>,
      first: Weather, refreshed: Option<seq<Region<ServerId>>>, second: Weather)
    returns (pipeline: RedisPipeline<Store, Command, RedisReply>, ghost ran: seq<nat>, ghost start: map<ServerId, Store>)
    requires |keys| <= |vals| && cluster.machine == Serve && cluster.Serves(SlotsOf(keys))
    requires refreshed.Some? ==> TableServes(refreshed.value, SlotsOf(keys), cluster.states.Keys)
    requires FlushSucceeds(first, refreshed, second)
    modifies cluster`states, cluster`table
    ensures fresh(pipeline) && pipeline.Valid() && pipeline.cursor == 0
    ensures cluster.Serves(SlotsOf(keys)) && cluster.states.Keys == old(cluster.states.Keys)
    ensures Ran(Serve, old(Routed(Sets(keys, vals), cluster.table, cluster.states.Keys)), ran, old(cluster.states), start)
    ensures start.Keys == old(cluster.states.Keys)
    ensures cluster.states == CleanFlush(cluster.table, keys, vals, start)
    ensures forall i :: 0 <= i < |pipeline.replies| ==> pipeline.replies[i] == Some(Status(OK))
  {
    hide HashSlot.Slot, IsPartial, Run, OneByOne;
    pipeline := QueueAll(Sets(keys, vals));
    ghost var before := cluster.states;
    ghost var q := Routed(Sets(keys, vals), cluster.table, cluster.states.Keys);
    assert pipeline.QueueOn(cluster) == q;
    var code, retried; ghost var flushed, last;
    code, retried, flushed, ran, start, last := pipeline.FlushPipeline(cluster, first, refreshed, second);
    if !retried {
      ran := [];
      RanNothing(Serve, q, before);
    }
    ghost var again := Routed(Sets(keys, vals), cluster.table, cluster.states.Keys);
    assert pipeline.QueueOn(cluster) == again;
    SetsReplyOk(again, |keys|, start);
  }

  /** Fetch the values of all keys, in the order of the keys; an absent key reads as the empty
      string. Nothing is changed, even by a flush that had to be repeated. */
  method Mget(cluster: Cluster<Store, Command, RedisReply>, keys: seq<Bytes>,
      first: Weather, refreshed: Option<seq<Region<ServerId>>>, second: Weather)
    returns (code: int, vals: seq<Bytes>)
    requires cluster.machine == Serve && cluster.Serves(SlotsOf(keys))
    requires refreshed.Some? ==> TableServes(refreshed.value, SlotsOf(keys), cluster.states.Keys)
    requires FlushSucceeds(first, refreshed, second)
    modifies cluster`states, cluster`table
    ensures code == RC_SUCCESS && cluster.states == old(cluster.states)
    ensures |vals| == |keys|
    ensures forall i :: 0 <= i < |keys| ==>
              vals[i] == match Lookup(cluster.table, cluster.states, keys[i]) case Some(v) => v case None => []
  {
    hide HashSlot.Slot;
    if keys == [] {
      return RC_SUCCESS, [];
    }
    var replies := FlushGets(cluster, keys, first, refreshed, second);
    vals, code := CollectValues(replies);
  }

  /** One value for each reply, whatever it is; what is no string counts as an empty one. */
  method CollectValues(replies: seq<RedisReply>) returns (vals: seq<Bytes>, code: int)
    ensures code == RC_SUCCESS && |vals| == |replies|
    ensures forall i :: 0 <= i < |replies| ==>
              vals[i] == if replies[i].String? || replies[i].Status? then replies[i].str else []
  {
    vals, code := [], RC_SUCCESS;
    for i := 0 to |replies|
      invariant code == RC_SUCCESS && |vals| == i
      invariant forall k :: 0 <= k < i ==>
                  vals[k] == if replies[k].String? || replies[k].Status? then replies[k].str else []
    {
      var (fetched, value) := FetchString(replies[i]);
      if fetched == RC_SUCCESS {
        vals := vals + [value];
      } else if fetched == RC_REPLY_ERR {
        vals := vals + [[]];
      } else {
        code := fetched;
        break;
      }
    }
  }

  method FlushGets(cluster: Cluster<Store, Command, RedisReply>, keys: seq<Bytes>,
      first: Weather, refreshed: Option<seq<Region<ServerId>>>, second: Weather)
    returns (replies: seq<RedisReply>)
    requires cluster.machine == Serve && cluster.Serves(SlotsOf(keys))
    requires refreshed.Some? ==> TableServes(refreshed.value, SlotsOf(keys), cluster.states.Keys)
    requires FlushSucceeds(first, refreshed, second)
    modifies cluster`states, cluster`table
    ensures cluster.states == old(cluster.states) && |replies| == |keys|
    ensures forall i :: 0 <= i < |keys| ==>
              replies[i] == ReplyTo(Lookup(cluster.table, cluster.states, keys[i]))
  {
    hide HashSlot.Slot, IsPartial, Run, OneByOne, Lookup, ReplyTo, IsGets, LinearScan, TableServes, Serve;
    var pipeline := QueueAll(Gets(keys));
    ghost var before := cluster.states;
    ghost var q := Routed(Gets(keys), cluster.table, cluster.states.Keys);
    RoutedGets(cluster.table, keys, cluster.states.Keys);
    assert pipeline.QueueOn(cluster) == q;
    var code, retried; ghost var flushed, ran, start, last;
    code, retried, flushed, ran, start, last := pipeline.FlushPipeline(cluster, first, refreshed, second);
    if retried {
      PartOfGetsChangesNothing(q, ran, Outcome(before, map[]));
    }
    ghost var again := Routed(Gets(keys), cluster.table, cluster.states.Keys);
    assert pipeline.QueueOn(cluster) == again;
    FlushedGets(cluster.table, keys, start, cluster.states, pipeline.replies);
    hide IsFlushed, Ran, Routed;
    replies := pipeline.FetchRest();
    assert forall i :: 0 <= i < |keys| ==> Some(replies[i]) == pipeline.replies[i];
  }

  /** What a flushed queue of reads leaves and holds. */
  lemma FlushedGets(table: seq<Region<ServerId>>, keys: seq<Bytes>, before: map<ServerId, Store>,
      after: map<ServerId, Store>, replies: seq<Option<RedisReply>>)
    requires TableServes(table, SlotsOf(keys), before.Keys)
    requires IsFlushed(Serve, Routed(Gets(keys), table, before.Keys), before, after, replies)
    ensures after == before && |replies| == |keys|
    ensures forall i :: 0 <= i < |keys| ==> replies[i] == Some(ReplyTo(Lookup(table, after, keys[i])))
  {
    hide HashSlot.Slot, OneByOne, Lookup, ReplyTo, IsGets, LinearScan, TableServes, Serve;
    RoutedGets(table, keys, before.Keys);
    GetsReadStores(Routed(Gets(keys), table, before.Keys), |keys|, before);
    forall i | 0 <= i < |keys|
      ensures replies[i] == Some(ReplyTo(Lookup(table, before, keys[i])))
    {
      GetsLookUp(table, keys, before, i);
    }
  }

  function ReplyTo(value: Option<Bytes>): RedisReply {
    match value
    case Some(v) => String(v)
    case None => Nil
  }

  lemma GetsLookUp(table: seq<Region<ServerId>>, keys: seq<Bytes>, states: map<ServerId, Store>, i: nat)
    requires TableServes(table, SlotsOf(keys), states.Keys) && i < |keys|
    ensures var q := Routed(Gets(keys), table, states.Keys);
            OneByOne(Serve, q, |keys|, states).1[i] == ReplyTo(Lookup(table, states, keys[i]))
  {
    hide HashSlot.Slot, OneByOne, TableServes, LinearScan, ReplyTo, Lookup, Serve, IsGets;
    var q := Routed(Gets(keys), table, states.Keys);
    RoutedGets(table, keys, states.Keys);
    GetsReadStores(q, |keys|, states);
    GetLooksUp(table, keys[i], q.route[i], states);
  }

  lemma RoutedGets(table: seq<Region<ServerId>>, keys: seq<Bytes>, nodes: set<ServerId>)
    requires TableServes(table, SlotsOf(keys), nodes)
    ensures IsGets(Routed(Gets(keys), table, nodes))
  {
    hide HashSlot.Slot, LinearScan;
  }

  lemma GetLooksUp(table: seq<Region<ServerId>>, key: Bytes, s: ServerId, states: map<ServerId, Store>)
    requires LinearScan(table, HashSlot.Slot(key)) == Some(s) && s in states
    ensures Serve(states[s], Get(key)).1 == ReplyTo(Lookup(table, states, key))
  {
    hide HashSlot.Slot;
  }

  lemma {:induction false} PartOfGetsChangesNothing(q: Queue<Command>, ran: seq<nat>, from: Outcome<Store, RedisReply>)
    requires q.Fits(from.states) && q.Covers(ran) && IsGets(q)
    ensures Run(Serve, q, ran, from).states == from.states
  {
    if ran == [] {
    } else {
      PartOfGetsChangesNothing(q, ran[..|ran| - 1], from);
    }
  }
}
