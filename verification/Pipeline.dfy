/** Pipelines: a queue of commands is split into one batch for each server, the batches are sent
    in whatever order the map of batches has, and the replies are handed out in queue order. */
module Pipeline {
  import opened Wrappers
  import opened Reply
  import opened SlotTable
  import opened Schedule
  import Routing

  /** How a batch fares: it is served, or it stops with an error after the server has run some
      first part of it, of which the client has read some first part of the replies. */
  datatype Fate = Served | Broken(code: int, executed: nat, answered: nat)

  /** What the environment decides for one flush: the fate of each server's batch. */
  type Weather = ServerId -> Fate

  ghost predicate ErrorsAreErrors(weather: Weather) {
    forall s :: weather(s).Broken? ==> weather(s).code < RC_SUCCESS
  }

  /** Every slot of interest has a server, which exists. */
  ghost predicate TableServes(table: seq<Region<ServerId>>, slots: seq<int>, nodes: set<ServerId>) {
    forall i :: 0 <= i < |slots| ==>
      && Partitioned(table, slots[i])
      && LinearScan(table, slots[i]).Some?
      && LinearScan(table, slots[i]).value in nodes
  }

  /** Where the table sends commands with these slots. */
  ghost function RouteThrough(table: seq<Region<ServerId>>, slots: seq<int>, nodes: set<ServerId>): (route: seq<ServerId>)
    requires TableServes(table, slots, nodes)
    ensures |route| == |slots|
    ensures forall i :: 0 <= i < |slots| ==> route[i] in nodes && LinearScan(table, slots[i]) == Some(route[i])
  {
    seq(|slots|, i requires 0 <= i < |slots| => LinearScan(table, slots[i]).value)
  }

  /** The slot lies in one of the ranges. */
  ghost predicate Covered(ranges: seq<Range>, slot: int) {
    exists r :: r in ranges && r.start <= slot <= r.end
  }

  /** A sorted table of disjoint ranges, all of whose servers exist, serves exactly the slots that lie
      in a range. */
  lemma TableServesIff(table: seq<Region<ServerId>>, ranges: seq<Range>, slots: seq<int>, nodes: set<ServerId>)
    requires SortedByStart(table) && multiset(RangesOf(table)) == multiset(ranges) && Disjoint(ranges)
    requires forall r :: r in table ==> r.server in nodes
    ensures TableServes(table, slots, nodes) <==>
              forall i :: 0 <= i < |slots| ==> Covered(ranges, slots[i])
  {
    DisjointIsUnordered(ranges, RangesOf(table));
    hide Partitioned, LinearScan, Disjoint, SortedByStart;
    forall i | 0 <= i < |slots|
      ensures Partitioned(table, slots[i])
      ensures LinearScan(table, slots[i]).Some? <==> Covered(ranges, slots[i])
      ensures LinearScan(table, slots[i]).Some? ==> LinearScan(table, slots[i]).value in nodes
    {
      SortedIsPartitioned(table, slots[i]);
      ScanFollowsRanges(table, ranges, slots[i]);
    }
  }

  ghost function PlaceOf(servers: seq<Routing.RedisServer>, s: Routing.RedisServer): (id: ServerId)
    requires s in servers
    ensures id < |servers| && servers[id] == s
  {
    var id :| 0 <= id < |servers| && servers[id] == s;
    id
  }

  /** A table with its servers numbered. */
  ghost function Numbered(table: seq<Region<Routing.RedisServer>>, servers: seq<Routing.RedisServer>): (n: seq<Region<ServerId>>)
    requires forall k :: 0 <= k < |table| ==> table[k].server in servers
    ensures |n| == |table|
    ensures forall k :: 0 <= k < |n| ==> n[k] == Region(table[k].range, PlaceOf(servers, table[k].server))
  {
    seq(|table|, k requires 0 <= k < |table| => Region(table[k].range, PlaceOf(servers, table[k].server)))
  }

  /** What a load of disjoint ranges leaves serves a pipeline exactly if each of its slots lies in one
      of the ranges. */
  lemma LoadedTableServes(table: seq<Region<Routing.RedisServer>>, servers: seq<Routing.RedisServer>, ranges: seq<Range>,
      slots: seq<int>, nodes: set<ServerId>)
    requires forall id: nat :: id < |servers| ==> id in nodes
    requires Routing.IsTable(table, servers, ranges) && Disjoint(ranges)
    requires forall k :: 0 <= k < |table| ==> table[k].server in servers
    ensures TableServes(Numbered(table, servers), slots, nodes) <==>
              forall i :: 0 <= i < |slots| ==> Covered(ranges, slots[i])
  {
    var n := Numbered(table, servers);
    assert RangesOf(n) == RangesOf(table);
    TableServesIff(n, ranges, slots, nodes);
  }

  // ---- Batches ----

  /** A batch of commands for `s`, all different and none of them sent before. */
  ghost predicate IsBatch(route: seq<ServerId>, s: ServerId, batch: seq<nat>, sent: seq<nat>) {
    && (forall k :: 0 <= k < |batch| ==> batch[k] < |route| && route[batch[k]] == s && batch[k] !in sent)
    && (forall k, l :: 0 <= k < l < |batch| ==> batch[k] != batch[l])
  }

  /** The batches of the first `n` commands. */
  ghost predicate Groups<C>(batches: map<ServerId, seq<nat>>, q: Queue<C>, n: nat) {
    && q.Covers(InOrder(n)) && n <= |q.commands|
    && (forall s :: s in batches <==> s in q.route[..n])
    && (forall s :: (if s in batches then batches[s] else []) == OnServer(q, InOrder(n), s))
  }

  lemma GroupStart<C>(q: Queue<C>)
    requires |q.route| == |q.commands|
    ensures Groups(map[], q, 0)
  {
    assert InOrder(0) == [];
  }

  lemma GroupEnd<C>(batches: map<ServerId, seq<nat>>, q: Queue<C>)
    requires |q.route| == |q.commands| && Groups(batches, q, |q.commands|)
    ensures AreBatches(q, batches)
  {
    assert q.route[..|q.commands|] == q.route;
  }

  lemma GroupNext<C>(batches: map<ServerId, seq<nat>>, q: Queue<C>, i: nat)
    requires i < |q.commands| && Groups(batches, q, i)
    ensures var s := q.route[i];
            Groups(if s in batches then batches[s := batches[s] + [i]] else batches[s := [i]], q, i + 1)
  {
    hide OnServer;
    NextInOrder(q, i);
    assert q.route[..i + 1] == q.route[..i] + [q.route[i]];
  }

  /** The commands of `sent` have been run, in that order, from the states `before`. */
  ghost predicate Ran<S, C, R>(machine: Machine<S, C, R>, q: Queue<C>, sent: seq<nat>,
      before: map<ServerId, S>, states: map<ServerId, S>)
  {
    q.Fits(before) && q.Covers(sent) && states == Run(machine, q, sent, Outcome(before, map[])).states
  }

  /** Every command of `sent` holds the reply it got. */
  ghost predicate Collected<S, C, R>(machine: Machine<S, C, R>, q: Queue<C>, sent: seq<nat>,
      before: map<ServerId, S>, replies: seq<Option<R>>)
  {
    && q.Fits(before) && q.Covers(sent) && |replies| == |q.commands|
    && forall k :: 0 <= k < |sent| ==>
         replies[sent[k]] == Some(Run(machine, q, sent, Outcome(before, map[])).replies[sent[k]])
  }

  lemma RanNothing<S, C, R>(machine: Machine<S, C, R>, q: Queue<C>, states: map<ServerId, S>)
    requires q.Fits(states)
    ensures Ran(machine, q, [], states, states)
  {
  }

  lemma SendOne<S, C, R>(machine: Machine<S, C, R>, q: Queue<C>, sent: seq<nat>, i: nat,
      before: map<ServerId, S>, states: map<ServerId, S>, replies: seq<Option<R>>)
    requires Ran(machine, q, sent, before, states) && i < |q.commands| == |replies| && i !in sent
    requires q.route[i] in states
    ensures var (state, reply) := machine(states[q.route[i]], q.commands[i]);
            && Ran(machine, q, sent + [i], before, states[q.route[i] := state])
            && (Collected(machine, q, sent, before, replies) ==>
                  Collected(machine, q, sent + [i], before, replies[i := Some(reply)]))
  {
    hide Run;
    RunPush(machine, q, sent, i, Outcome(before, map[]));
  }

  lemma NextInOrder<C>(q: Queue<C>, i: nat)
    requires q.Covers(InOrder(i)) && i < |q.commands|
    ensures q.Covers(InOrder(i + 1))
    ensures forall t :: OnServer(q, InOrder(i + 1), t) == OnServer(q, InOrder(i), t) + (if t == q.route[i] then [i] else [])
  {
    assert InOrder(i + 1) == InOrder(i) + [i];
    forall t
      ensures OnServer(q, InOrder(i + 1), t) == OnServer(q, InOrder(i), t) + (if t == q.route[i] then [i] else [])
    {
      OnServerPush(q, InOrder(i), i, t);
    }
  }

  /** Every server has been sent, in queue order, some first part of its commands. */
  ghost predicate IsPartial<C>(q: Queue<C>, ran: seq<nat>) {
    q.Covers(ran) && forall s :: OnServer(q, ran, s) <= OnServer(q, InOrder(|q.commands|), s)
  }

  /** Servers and replies are as after issuing the commands of the queue one at a time. */
  ghost predicate IsFlushed<S, C, R>(machine: Machine<S, C, R>, q: Queue<C>,
      before: map<ServerId, S>, after: map<ServerId, S>, replies: seq<Option<R>>)
  {
    && q.Fits(before) && |replies| == |q.commands|
    && var (states, answers) := OneByOne(machine, q, |q.commands|, before);
       after == states && forall i :: 0 <= i < |replies| ==> replies[i] == Some(answers[i])
  }

  /** How many commands of a batch its server runs. */
  function Executed(fate: Fate, size: nat): (n: nat)
    ensures n <= size && (fate.Served? ==> n == size)
    ensures fate.Broken? ==> n == size <= fate.executed || n == fate.executed <= size
  {
    if fate.Served? || fate.executed > size then size else fate.executed
  }

  /** A flush stopped at the batch of `s`, which failed with `code` after its server had run the first
      part of it; every other server has run its whole batch, which was served, or nothing. */
  ghost predicate StoppedAt<C>(weather: Weather, q: Queue<C>, ran: seq<nat>, s: ServerId, code: int) {
    && q.Covers(ran) && |q.route| == |q.commands| && s in q.route && weather(s).Broken? && weather(s).code == code
    && (var part := OnServer(q, InOrder(|q.commands|), s);
        OnServer(q, ran, s) == part[..Executed(weather(s), |part|)])
    && forall t :: t != s ==>
         OnServer(q, ran, t) == [] || (weather(t).Served? && OnServer(q, ran, t) == OnServer(q, InOrder(|q.commands|), t))
  }

  ghost predicate AllServed(weather: Weather, route: seq<ServerId>) {
    forall i :: 0 <= i < |route| ==> weather(route[i]).Served?
  }

  ghost predicate AreBatches<C>(q: Queue<C>, batches: map<ServerId, seq<nat>>) {
    && |q.route| == |q.commands|
    && (forall s :: s in batches <==> s in q.route)
    && (forall s :: s in batches ==> batches[s] == OnServer(q, InOrder(|q.commands|), s))
  }

  /** What has been sent is exactly the batches that are no longer pending. */
  ghost predicate IsSent<C>(q: Queue<C>, batches: map<ServerId, seq<nat>>, pending: set<ServerId>, ran: seq<nat>) {
    && AreBatches(q, batches) && q.Covers(ran)
    && forall s :: OnServer(q, ran, s) == if s in batches && s !in pending then batches[s] else []
  }

  lemma NothingSent<S, C, R>(machine: Machine<S, C, R>, q: Queue<C>, before: map<ServerId, S>,
      replies: seq<Option<R>>, batches: map<ServerId, seq<nat>>)
    requires q.Fits(before) && |replies| == |q.commands| && AreBatches(q, batches)
    ensures Ran(machine, q, [], before, before) && Collected(machine, q, [], before, replies)
    ensures IsSent(q, batches, batches.Keys, [])
  {
  }

  lemma NextBatch<C>(q: Queue<C>, batches: map<ServerId, seq<nat>>, pending: set<ServerId>, ran: seq<nat>, s: ServerId)
    requires IsSent(q, batches, pending, ran) && s in pending && s in batches
    ensures IsBatch(q.route, s, batches[s], ran) && q.Covers(batches[s]) && s in q.route
  {
    PartIsDistinct(q, |q.commands|, s);
    var batch := batches[s];
    forall k | 0 <= k < |batch|
      ensures batch[k] < |q.route| && q.route[batch[k]] == s && batch[k] !in ran
    {
      assert batch[k] in OnServer(q, InOrder(|q.commands|), s);
      assert batch[k] !in OnServer(q, ran, s);
    }
  }

  lemma BatchSent<C>(q: Queue<C>, batches: map<ServerId, seq<nat>>, pending: set<ServerId>, ran: seq<nat>,
      s: ServerId, part: seq<nat>)
    requires IsSent(q, batches, pending, ran) && s in pending && s in batches && part <= batches[s]
    ensures IsPartial(q, ran + part)
    ensures part == batches[s] ==> IsSent(q, batches, pending - {s}, ran + part)
    ensures s in q.route && q.Covers(ran + part)
    ensures forall t :: OnServer(q, ran + part, t) == if t == s then part else OnServer(q, ran, t)
  {
    hide OnServer;
    var whole := OnServer(q, InOrder(|q.commands|), s);
    forall k | 0 <= k < |part|
      ensures part[k] < |q.route| && q.route[part[k]] == s
    {
      assert part[k] == whole[k] && whole[k] in whole;
    }
    forall t
      ensures q.Covers(ran + part)
      ensures OnServer(q, ran + part, t) == if t == s then part else OnServer(q, ran, t)
      ensures OnServer(q, ran + part, t) <= OnServer(q, InOrder(|q.commands|), t)
    {
      OnServerConcat(q, ran, part, t);
      PartStaysOnServer(q, part, s, t);
    }
  }

  /** The batches that are no longer pending were served. */
  ghost predicate PastServed(weather: Weather, batches: map<ServerId, seq<nat>>, pending: set<ServerId>) {
    forall t :: t in batches && t !in pending ==> weather(t).Served?
  }

  lemma EveryoneServed<C>(weather: Weather, q: Queue<C>, batches: map<ServerId, seq<nat>>, ran: seq<nat>)
    requires IsSent(q, batches, {}, ran) && PastServed(weather, batches, {})
    ensures AllServed(weather, q.route)
  {
    assert forall i :: 0 <= i < |q.route| ==> q.route[i] in batches;
  }

  lemma BatchFailed<C>(weather: Weather, q: Queue<C>, batches: map<ServerId, seq<nat>>, pending: set<ServerId>,
      ran: seq<nat>, s: ServerId, code: int)
    requires IsSent(q, batches, pending, ran) && s in pending && s in batches
    requires PastServed(weather, batches, pending)
    requires weather(s).Broken? && weather(s).code == code
    ensures StoppedAt(weather, q, ran + batches[s][..Executed(weather(s), |batches[s]|)], s, code)
    ensures !AllServed(weather, q.route)
  {
    hide OnServer;
    BatchSent(q, batches, pending, ran, s, batches[s][..Executed(weather(s), |batches[s]|)]);
  }

  lemma AllSent<S, C, R>(machine: Machine<S, C, R>, q: Queue<C>, batches: map<ServerId, seq<nat>>, ran: seq<nat>,
      before: map<ServerId, S>, after: map<ServerId, S>, replies: seq<Option<R>>)
    requires IsSent(q, batches, {}, ran)
    requires Ran(machine, q, ran, before, after) && Collected(machine, q, ran, before, replies)
    ensures IsPartial(q, ran) && IsFlushed(machine, q, before, after, replies)
  {
    forall s
      ensures OnServer(q, ran, s) == OnServer(q, InOrder(|q.commands|), s)
    {
      if s !in batches {
        NoPart(q, InOrder(|q.commands|), s);
      }
    }
    hide OnServer, Run;
    BatchesAreOneByOne(machine, q, ran, before);
    forall i | 0 <= i < |replies|
      ensures i in ran
    {
      assert InOrder(|q.commands|)[i] == i;
      assert i in OnServer(q, InOrder(|q.commands|), q.route[i]);
      assert i in OnServer(q, ran, q.route[i]);
    }
  }

  // ---- Servers and pipelines ----

  /** The servers behind a routing table. */
  class Cluster<S, C, R> {
    const machine: Machine<S, C, R>
    var table: seq<Region<ServerId>>
    var states: map<ServerId, S>

    constructor (machine: Machine<S, C, R>, table: seq<Region<ServerId>>, states: map<ServerId, S>)
      ensures this.machine == machine && this.table == table && this.states == states
    {
      this.machine := machine;
      this.table := table;
      this.states := states;
    }

    ghost predicate Serves(slots: seq<int>)
      reads this
    {
      TableServes(table, slots, states.Keys)
    }
  }

  /** Split a queue: each server's batch is its part of the queue, in queue order. */
  method GroupByServer<C>(table: seq<Region<ServerId>>, slots: seq<int>, ghost q: Queue<C>)
    returns (batches: map<ServerId, seq<nat>>)
    requires |slots| == |q.commands| == |q.route|
    requires forall i :: 0 <= i < |slots| ==> Partitioned(table, slots[i]) && LinearScan(table, slots[i]) == Some(q.route[i])
    ensures AreBatches(q, batches)
  {
    hide Groups, LinearScan, Partitioned, AreBatches;
    batches := map[];
    GroupStart(q);
    for i := 0 to |slots|
      invariant Groups(batches, q, i)
    {
      var server := FindServer(table, slots[i]);
      var s := server.value;
      GroupNext(batches, q, i);
      if s in batches {
        batches := batches[s := batches[s] + [i]];
      } else {
        batches := batches[s := [i]];
      }
    }
    GroupEnd(batches, q);
  }

  class RedisPipeline<S, C, R> {
    var commands: seq<C>
    var slots: seq<int>
    var replies: seq<Option<R>>
    var cursor: nat

    constructor ()
      ensures commands == [] && Valid() && cursor == 0
    {
      commands, slots, replies, cursor := [], [], [], 0;
    }

    ghost predicate Valid()
      reads this
    {
      |commands| == |slots| == |replies|
    }

    ghost function QueueOn(cluster: Cluster<S, C, R>): (q: Queue<C>)
      requires Valid() && cluster.Serves(slots)
      reads this, cluster
      ensures q.Fits(cluster.states) && q.commands == commands
    {
      Queue(commands, RouteThrough(cluster.table, slots, cluster.states.Keys))
    }

    method QueueCommand(command: C, slot: int)
      requires Valid()
      modifies this
      ensures Valid() && commands == old(commands) + [command] && slots == old(slots) + [slot]
      ensures replies == old(replies) + [None] && cursor == old(cursor)
    {
      commands := commands + [command];
      slots := slots + [slot];
      replies := replies + [None];
    }

    /** One command of a batch: its server runs it, and the client may still read the reply. */
    method SendCommand(cluster: Cluster<S, C, R>, s: ServerId, i: nat, read: bool,
        ghost q: Queue<C>, ghost sent: seq<nat>, ghost before: map<ServerId, S>)
      requires Valid() && q.commands == commands && i < |commands| && i !in sent
      requires Ran(cluster.machine, q, sent, before, cluster.states) && q.route[i] == s && s in cluster.states
      modifies cluster`states, this`replies
      ensures Valid() && cluster.states.Keys == old(cluster.states.Keys)
      ensures Ran(cluster.machine, q, sent + [i], before, cluster.states)
      ensures read && old(Collected(cluster.machine, q, sent, before, replies)) ==>
                Collected(cluster.machine, q, sent + [i], before, replies)
    {
      var (state, reply) := cluster.machine(cluster.states[s], commands[i]);
      SendOne(cluster.machine, q, sent, i, before, cluster.states, replies);
      hide Ran, Collected;
      cluster.states := cluster.states[s := state];
      if read {
        replies := replies[i := Some(reply)];
      }
    }

    /** Append a server's batch to its connection, then read the replies one by one. */
    method SendBatch(cluster: Cluster<S, C, R>, s: ServerId, batch: seq<nat>, fate: Fate,
        ghost q: Queue<C>, ghost sent: seq<nat>, ghost before: map<ServerId, S>)
      returns (code: int, ghost ran: seq<nat>)
      requires Valid() && q.commands == commands && s in cluster.states
      requires Ran(cluster.machine, q, sent, before, cluster.states)
      requires Collected(cluster.machine, q, sent, before, replies)
      requires q.Covers(batch) && IsBatch(q.route, s, batch, sent)
      modifies cluster`states, this`replies
      ensures Valid() && cluster.states.Keys == old(cluster.states.Keys)
      ensures ran == batch[..Executed(fate, |batch|)] && Ran(cluster.machine, q, sent + ran, before, cluster.states)
      ensures code == if fate.Served? then RC_SUCCESS else fate.code
      ensures fate.Served? ==> ran == batch && Collected(cluster.machine, q, sent + batch, before, replies)
    {
      hide Ran, Collected;
      var count := Executed(fate, |batch|);
      assert sent + batch[..0] == sent;
      for k := 0 to count
        invariant Valid() && cluster.states.Keys == old(cluster.states.Keys)
        invariant Ran(cluster.machine, q, sent + batch[..k], before, cluster.states)
        invariant fate.Served? ==> Collected(cluster.machine, q, sent + batch[..k], before, replies)
      {
        SendCommand(cluster, s, batch[k], fate.Served? || k < fate.answered, q, sent + batch[..k], before);
        assert sent + batch[..k + 1] == sent + batch[..k] + [batch[k]];
      }
      ran := batch[..count];
      assert batch[..|batch|] == batch;
      code := if fate.Served? then RC_SUCCESS else fate.code;
    }

    /** Send every server its batch, in any order, and stop at the first batch that fails. If none
        does, servers and replies are as if the commands had been issued one at a time. */
    method FlushCommand(cluster: Cluster<S, C, R>, weather: Weather) returns (code: int, ghost ran: seq<nat>)
      requires Valid() && cluster.Serves(slots) && ErrorsAreErrors(weather)
      modifies cluster`states, this`replies
      ensures Valid() && cluster.states.Keys == old(cluster.states.Keys)
      ensures var q := old(QueueOn(cluster));
              && Ran(cluster.machine, q, ran, old(cluster.states), cluster.states)
              && IsPartial(q, ran)
              && (code == RC_SUCCESS ==> IsFlushed(cluster.machine, q, old(cluster.states), cluster.states, replies))
      ensures code == RC_SUCCESS <==> AllServed(weather, old(QueueOn(cluster)).route)
      ensures code != RC_SUCCESS ==> exists s :: StoppedAt(weather, old(QueueOn(cluster)), ran, s, code)
    {
      hide Ran, Collected, IsPartial, IsBatch, IsFlushed, StoppedAt, IsSent, AllServed, AreBatches;
      ghost var q, before := QueueOn(cluster), cluster.states;
      var batches := GroupByServer(cluster.table, slots, q);
      var pending := batches.Keys;
      ran := [];
      NothingSent(cluster.machine, q, before, replies, batches);
      while pending != {}
        invariant Valid() && pending <= batches.Keys && cluster.states.Keys == before.Keys
        invariant Ran(cluster.machine, q, ran, before, cluster.states)
        invariant Collected(cluster.machine, q, ran, before, replies)
        invariant IsSent(q, batches, pending, ran)
        invariant PastServed(weather, batches, pending)
      {
        var s :| s in pending;
        NextBatch(q, batches, pending, ran, s);
        ghost var part;
        code, part := SendBatch(cluster, s, batches[s], weather(s), q, ran, before);
        BatchSent(q, batches, pending, ran, s, part);
        if code != RC_SUCCESS {
          BatchFailed(weather, q, batches, pending, ran, s, code);
          ran := ran + part;
          return;
        }
        ran := ran + part;
        pending := pending - {s};
      }
      code := RC_SUCCESS;
      EveryoneServed(weather, q, batches, ran);
      AllSent(cluster.machine, q, batches, ran, before, cluster.states, replies);
    }

    /** Flush; if and only if the flush ended in a request error and a refreshed table comes in time,
        flush the whole queue once more through that table. `flushed` is how the first flush ended;
        `start` is where the last flush started from: a retried flush starts from what the first one
        had already changed. Whether or not the last flush succeeds, it has run a first part of each
        server's commands from there. */
    method FlushPipeline(cluster: Cluster<S, C, R>, first: Weather, refreshed: Option<seq<Region<ServerId>>>, second: Weather)
      returns (code: int, retried: bool, ghost flushed: int, ghost ran: seq<nat>, ghost start: map<ServerId, S>, ghost last: seq<nat>)
      requires Valid() && cluster.Serves(slots) && ErrorsAreErrors(first) && ErrorsAreErrors(second)
      requires refreshed.Some? ==> TableServes(refreshed.value, slots, cluster.states.Keys)
      modifies cluster`states, cluster`table, this`replies
      ensures Valid() && cluster.states.Keys == old(cluster.states.Keys) && cluster.Serves(slots)
      ensures retried <==> flushed == RC_RQST_ERR && refreshed.Some?
      ensures flushed == RC_SUCCESS <==> AllServed(first, old(QueueOn(cluster)).route)
      ensures flushed != RC_SUCCESS ==> exists s :: StoppedAt(first, old(QueueOn(cluster)), ran, s, flushed)
      ensures IsPartial(QueueOn(cluster), last) && Ran(cluster.machine, QueueOn(cluster), last, start, cluster.states)
      ensures code == RC_SUCCESS ==>
                IsFlushed(cluster.machine, QueueOn(cluster), start, cluster.states, replies)
      ensures !retried ==>
                && code == flushed && ran == last
                && start == old(cluster.states) && cluster.table == old(cluster.table)
      ensures retried ==>
                && cluster.table == refreshed.value
                && IsPartial(old(QueueOn(cluster)), ran)
                && Ran(cluster.machine, old(QueueOn(cluster)), ran, old(cluster.states), start)
                && (code == RC_SUCCESS <==> AllServed(second, QueueOn(cluster).route))
                && (code != RC_SUCCESS ==> exists s :: StoppedAt(second, QueueOn(cluster), last, s, code))
    {
      hide IsPartial, Ran, IsFlushed, StoppedAt, AllServed;
      retried, start := false, cluster.states;
      ghost var q := QueueOn(cluster);
      code, ran := FlushCommand(cluster, first);
      assert QueueOn(cluster) == q;
      last, flushed := ran, code;
      if code == RC_RQST_ERR && refreshed.Some? {
        retried, start := true, cluster.states;
        cluster.table := refreshed.value;
        ghost var again := QueueOn(cluster);
        code, last := FlushCommand(cluster, second);
        assert QueueOn(cluster) == again;
      }
    }

    /** The next reply in queue order, or None at the end of the queue. */
    method FetchNext() returns (reply: Option<R>)
      requires Valid() && (cursor < |commands| ==> replies[cursor].Some?)
      modifies this`cursor
      ensures Valid()
      ensures reply == if old(cursor) < |commands| then replies[old(cursor)] else None
      ensures cursor == if old(cursor) < |commands| then old(cursor) + 1 else old(cursor)
    {
      if cursor >= |commands| {
        return None;
      }
      reply := replies[cursor];
      cursor := cursor + 1;
    }

    /** Fetch until the end: all replies that were still to be fetched, in queue order. */
    method FetchRest() returns (all: seq<R>)
      requires Valid() && cursor <= |commands|
      requires forall i :: 0 <= i < |replies| ==> replies[i].Some?
      modifies this`cursor
      ensures Valid() && cursor == |commands|
      ensures |all| == |commands| - old(cursor)
      ensures forall i :: 0 <= i < |all| ==> Some(all[i]) == replies[old(cursor) + i]
    {
      all := [];
      var reply := FetchNext();
      while reply.Some?
        invariant Valid() && old(cursor) <= cursor <= |commands|
        invariant reply.Some? ==> cursor == old(cursor) + |all| + 1 && reply == replies[cursor - 1]
        invariant reply.None? ==> cursor == |commands| == old(cursor) + |all|
        invariant forall i :: 0 <= i < |all| ==> Some(all[i]) == replies[old(cursor) + i]
        decreases |commands| - cursor, reply.Some?
      {
        all := all + [reply.value];
        reply := FetchNext();
      }
    }
  }
}
