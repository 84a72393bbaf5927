/** Building the routing table from a CLUSTER SLOTS reply and routing keys through it. */
module Routing {
  import opened Wrappers
  import opened Words
  import opened Reply
  import opened SlotTable
  import opened Creations
  import HashSlot

  /** What an existing server answers to CLUSTER SLOTS. */
  datatype Answer = NoAnswer | Answered(reply: RedisReply)

  class RedisServer {
    var host: Bytes
    var port: int
    var hosts: seq<(Bytes, int)>
    var idle: nat

    constructor (host: Bytes, port: int, outcome: Connectivity)
      ensures this.host == (if outcome.hostKept then host else [])
      ensures this.port == port && hosts == [(host, port)] && idle == outcome.idle
    {
      this.host := if outcome.hostKept then host else [];
      this.port := port;
      this.hosts := [(host, port)];
      this.idle := outcome.idle;
    }

    predicate IsValid()
      reads this
    {
      idle != 0
    }

    /** The server was created for the address of `range`. */
    predicate ServesAddress(range: Range)
      reads this
    {
      hosts == [(range.host, range.port)]
    }

    /** The server is as it was created. */
    predicate IsCreated(c: Creation)
      reads this
    {
      hosts == [(c.host, c.port)] && host == c.HostNow() && port == c.port && idle == c.outcome.idle
    }
  }

  // ---- Reading the reply ----

  /** A row the client can read without leaving the reply: it takes the first two elements for
      integers and the third for an array that starts with a host and a port. */
  predicate RowIsReadable(row: RedisReply) {
    row.Array? && |row.elements| >= 3 ==>
      && row.elements[0].Integer? && row.elements[1].Integer?
      && row.elements[2].Array? && |row.elements[2].elements| >= 2
      && row.elements[2].elements[0].String? && row.elements[2].elements[1].Integer?
  }

  ghost predicate IsReadable(answer: Answer) {
    answer.Answered? && answer.reply.Array? ==>
      forall i :: 0 <= i < |answer.reply.elements| ==> RowIsReadable(answer.reply.elements[i])
  }

  predicate IsRow(row: RedisReply) {
    row.Array? && |row.elements| >= 3
  }

  function RangeOfRow(row: RedisReply): Range
    requires IsRow(row) && RowIsReadable(row)
  {
    Range(row.elements[0].integer, row.elements[1].integer,
          row.elements[2].elements[0].str, row.elements[2].elements[1].integer)
  }

  /** The ranges a reply lists, or None where the client reports an error. */
  ghost function RangesOfReply(reply: RedisReply): Option<seq<Range>>
    requires IsReadable(Answered(reply))
  {
    if reply.Array? && (forall i :: 0 <= i < |reply.elements| ==> IsRow(reply.elements[i]))
    then Some(seq(|reply.elements|, i requires 0 <= i < |reply.elements| => RangeOfRow(reply.elements[i])))
    else None
  }

  method FetchSlot(reply: RedisReply) returns (code: int, ranges: seq<Range>)
    requires IsReadable(Answered(reply))
    ensures code == RC_SUCCESS <==> RangesOfReply(reply).Some?
    ensures code == RC_SUCCESS ==> RangesOfReply(reply) == Some(ranges)
    ensures code == RC_SUCCESS || code == RC_REPLY_ERR
    ensures code == RC_SUCCESS <==>
              (reply.Array? &&
               forall i :: 0 <= i < |reply.elements| ==> reply.elements[i].Array? && |reply.elements[i].elements| >= 3)
    ensures code == RC_SUCCESS ==> |ranges| == |reply.elements|
    ensures code == RC_SUCCESS ==> forall i :: 0 <= i < |ranges| ==>
              && ranges[i].start == reply.elements[i].elements[0].integer
              && ranges[i].end == reply.elements[i].elements[1].integer
              && ranges[i].host == reply.elements[i].elements[2].elements[0].str
              && ranges[i].port == reply.elements[i].elements[2].elements[1].integer
  {
    ranges := [];
    if !reply.Array? {
      return RC_REPLY_ERR, ranges;
    }
    for i := 0 to |reply.elements|
      invariant |ranges| == i
      invariant forall k :: 0 <= k < i ==> IsRow(reply.elements[k]) && ranges[k] == RangeOfRow(reply.elements[k])
    {
      var row := reply.elements[i];
      if !IsRow(row) {
        return RC_REPLY_ERR, ranges;
      }
      ranges := ranges + [RangeOfRow(row)];
    }
    assert ranges == RangesOfReply(reply).value;
    return RC_SUCCESS, ranges;
  }

  /** The rows the load works with: those of the first existing server that answers usably. The
      search gives up at a server without connections. */
  ghost function ChosenRanges(valid: seq<bool>, answers: seq<Answer>): Option<seq<Range>>
    requires |valid| == |answers| && forall i :: 0 <= i < |answers| ==> IsReadable(answers[i])
  {
    if answers == [] || !valid[0] then None
    else if answers[0].Answered? && RangesOfReply(answers[0].reply).Some? then RangesOfReply(answers[0].reply)
    else ChosenRanges(valid[1..], answers[1..])
  }

  /** The ranges a reply lists, element by element. */
  ghost predicate ListsRanges(reply: RedisReply, ranges: seq<Range>)
    requires IsReadable(Answered(reply))
  {
    && reply.Array? && |ranges| == |reply.elements|
    && forall i :: 0 <= i < |ranges| ==>
         && reply.elements[i].Array? && |reply.elements[i].elements| >= 3
         && ranges[i].start == reply.elements[i].elements[0].integer
         && ranges[i].end == reply.elements[i].elements[1].integer
         && ranges[i].host == reply.elements[i].elements[2].elements[0].str
         && ranges[i].port == reply.elements[i].elements[2].elements[1].integer
  }

  lemma ListsRangesIff(reply: RedisReply, ranges: seq<Range>)
    requires IsReadable(Answered(reply))
    ensures RangesOfReply(reply) == Some(ranges) <==> ListsRanges(reply, ranges)
    ensures RangesOfReply(reply).None? <==>
              !(reply.Array? && forall i :: 0 <= i < |reply.elements| ==>
                  reply.elements[i].Array? && |reply.elements[i].elements| >= 3)
  {
    if ListsRanges(reply, ranges) {
      assert forall i :: 0 <= i < |ranges| ==> ranges[i] == RangeOfRow(reply.elements[i]);
      assert RangesOfReply(reply).value == ranges;
    }
  }

  /** The answer of server `i` is the first usable one, and every server up to it has a connection. */
  ghost predicate IsFirstUsable(valid: seq<bool>, answers: seq<Answer>, i: nat, ranges: seq<Range>)
    requires |valid| == |answers| && forall k :: 0 <= k < |answers| ==> IsReadable(answers[k])
  {
    && i < |answers| && (forall k :: 0 <= k <= i ==> valid[k])
    && answers[i].Answered? && ListsRanges(answers[i].reply, ranges)
    && forall k :: 0 <= k < i && answers[k].Answered? ==> !exists other :: ListsRanges(answers[k].reply, other)
  }

  lemma {:induction false} ChosenIsFirst(valid: seq<bool>, answers: seq<Answer>) returns (i: nat)
    requires |valid| == |answers| && forall k :: 0 <= k < |answers| ==> IsReadable(answers[k])
    requires ChosenRanges(valid, answers).Some?
    ensures IsFirstUsable(valid, answers, i, ChosenRanges(valid, answers).value)
  {
    hide RangesOfReply, ListsRanges;
    if answers[0].Answered? && RangesOfReply(answers[0].reply).Some? {
      i := 0;
      ListsRangesIff(answers[0].reply, ChosenRanges(valid, answers).value);
    } else {
      var j := ChosenIsFirst(valid[1..], answers[1..]);
      i := j + 1;
      if answers[0].Answered? {
        Unlisted(answers[0].reply);
      }
      assert forall k :: 0 < k <= i ==> valid[k] == valid[1..][k - 1] && answers[k] == answers[1..][k - 1];
    }
  }

  lemma Unlisted(reply: RedisReply)
    requires IsReadable(Answered(reply)) && RangesOfReply(reply).None?
    ensures !exists other :: ListsRanges(reply, other)
  {
    forall other ensures !ListsRanges(reply, other) {
      ListsRangesIff(reply, other);
    }
  }

  /** The ranges that are chosen are those of the first usable answer, read literally; none are if
      and only if there is no such answer. */
  lemma ChosenRangesIff(valid: seq<bool>, answers: seq<Answer>, ranges: seq<Range>)
    requires |valid| == |answers| && forall k :: 0 <= k < |answers| ==> IsReadable(answers[k])
    ensures ChosenRanges(valid, answers) == Some(ranges) <==> exists i :: IsFirstUsable(valid, answers, i, ranges)
  {
    if ChosenRanges(valid, answers) == Some(ranges) {
      var i := ChosenIsFirst(valid, answers);
    }
    if i :| IsFirstUsable(valid, answers, i, ranges) {
      FirstIsChosen(valid, answers, i, ranges);
    }
  }

  lemma {:induction false} FirstIsChosen(valid: seq<bool>, answers: seq<Answer>, i: nat, ranges: seq<Range>)
    requires |valid| == |answers| && forall k :: 0 <= k < |answers| ==> IsReadable(answers[k])
    requires IsFirstUsable(valid, answers, i, ranges)
    ensures ChosenRanges(valid, answers) == Some(ranges)
  {
    hide RangesOfReply, ListsRanges;
    ListsRangesIff(answers[i].reply, ranges);
    if i > 0 {
      if answers[0].Answered? && RangesOfReply(answers[0].reply).Some? {
        ListsRangesIff(answers[0].reply, RangesOfReply(answers[0].reply).value);
      }
      FirstIsChosen(valid[1..], answers[1..], i - 1, ranges);
    }
  }

  lemma {:induction false} ChosenSkips(valid: seq<bool>, answers: seq<Answer>, i: nat)
    requires |valid| == |answers| && i <= |answers|
    requires forall k :: 0 <= k < |answers| ==> IsReadable(answers[k])
    requires forall k :: 0 <= k < i ==> valid[k] && !(answers[k].Answered? && RangesOfReply(answers[k].reply).Some?)
    ensures ChosenRanges(valid, answers) == ChosenRanges(valid[i..], answers[i..])
  {
    if i > 0 {
      ChosenSkips(valid[1..], answers[1..], i - 1);
      assert valid[1..][i - 1..] == valid[i..] && answers[1..][i - 1..] == answers[i..];
    }
  }

  // ---- The client ----

  method FindByAddress(servers: seq<RedisServer>, host: Bytes, port: int) returns (found: nat)
    ensures found <= |servers|
    ensures found < |servers| ==> servers[found].host == host && servers[found].port == port
    ensures forall i :: 0 <= i < found ==> servers[i].host != host || servers[i].port != port
  {
    for i := 0 to |servers|
      invariant forall k :: 0 <= k < i ==> servers[k].host != host || servers[k].port != port
    {
      if host == servers[i].host && port == servers[i].port {
        return i;
      }
    }
    return |servers|;
  }

  ghost predicate AreCreated(servers: seq<RedisServer>, cs: seq<Creation>)
    reads servers
  {
    |servers| == |cs| && forall i :: 0 <= i < |cs| ==> servers[i].IsCreated(cs[i])
  }

  /** The server of a row: the first already created that answers to its address, or a new one. */
  method FindOrCreate(servers: seq<RedisServer>, range: Range, net: Network, ghost cs: seq<Creation>, ghost row: nat)
    returns (found: nat, more: seq<RedisServer>)
    requires AreCreated(servers, cs)
    ensures found == FirstAnswering(cs, range.host, range.port)
    ensures found < |servers| ==> more == servers
    ensures found == |servers| ==>
              |more| == |servers| + 1 && more[..|servers|] == servers && fresh(more[found])
    ensures AreCreated(more, if found < |cs| then cs
                             else cs + [Creation(row, range.host, range.port, net(range.host, range.port, |cs|))])
  {
    found := FindByAddress(servers, range.host, range.port);
    FirstIs(cs, range.host, range.port, found);
    more := servers;
    if found == |servers| {
      var server := new RedisServer(range.host, range.port, net(range.host, range.port, |servers|));
      more := servers + [server];
    }
  }

  lemma FirstIs(cs: seq<Creation>, host: Bytes, port: int, i: nat)
    requires i <= |cs| && (i < |cs| ==> cs[i].Answers(host, port))
    requires forall j :: 0 <= j < i ==> !cs[j].Answers(host, port)
    ensures FirstAnswering(cs, host, port) == i
  {
  }

  /** Each row has its server. */
  ghost predicate AreAssigned(regions: seq<Region<RedisServer>>, servers: seq<RedisServer>, ranges: seq<Range>, net: Network)
  {
    |regions| == |ranges| && forall k :: 0 <= k < |ranges| ==>
      ServerAt(ranges, net, k) < |servers| && regions[k] == Region(ranges[k], servers[ServerAt(ranges, net, k)])
  }

  /** Give every range a server, creating one where none answers to its address. It works out exactly
      if every server that is created has a connection. */
  method AssignServers(ranges: seq<Range>, net: Network)
    returns (ok: bool, servers: seq<RedisServer>, regions: seq<Region<RedisServer>>)
    ensures ok <==> AllConnect(CreatedFor(ranges, net))
    ensures fresh(set s | s in servers)
    ensures ok ==> AreCreated(servers, CreatedFor(ranges, net)) && AreAssigned(regions, servers, ranges, net)
  {
    hide CreatedFor, FirstAnswering, ServerAt, AllConnect, AreAssigned, AreCreated;
    servers, regions := [], [];
    NoneCreated(ranges, net);
    for i := 0 to |ranges|
      invariant fresh(set s | s in servers)
      invariant AreCreated(servers, CreatedFor(ranges[..i], net)) && AllConnect(CreatedFor(ranges[..i], net))
      invariant AreAssigned(regions, servers, ranges[..i], net)
    {
      var found, more := FindOrCreate(servers, ranges[i], net, CreatedFor(ranges[..i], net), i);
      RowAssigned(servers, more, ranges, net, i, found);
      if !more[found].IsValid() {
        return false, more, regions;
      }
      AssignedStep(regions, servers, more, ranges, net, i);
      regions := regions + [Region(ranges[i], more[found])];
      servers := more;
    }
    assert ranges[..|ranges|] == ranges;
    ok := true;
  }

  /** What the next row adds to the servers, and whether the load can go on. */
  lemma RowAssigned(servers: seq<RedisServer>, more: seq<RedisServer>, ranges: seq<Range>, net: Network, i: nat, found: nat)
    requires i < |ranges| && AreCreated(servers, CreatedFor(ranges[..i], net)) && AllConnect(CreatedFor(ranges[..i], net))
    requires found == FirstAnswering(CreatedFor(ranges[..i], net), ranges[i].host, ranges[i].port)
    requires var cs, r := CreatedFor(ranges[..i], net), ranges[i];
      AreCreated(more, if found < |cs| then cs else cs + [Creation(i, r.host, r.port, net(r.host, r.port, |cs|))])
    ensures found == ServerAt(ranges, net, i) < |more| && AreCreated(more, CreatedFor(ranges[..i + 1], net))
    ensures |servers| == |CreatedFor(ranges[..i], net)|
    ensures more[found].IsValid() ==> AllConnect(CreatedFor(ranges[..i + 1], net))
    ensures !more[found].IsValid() ==> !AllConnect(CreatedFor(ranges, net))
  {
    hide CreatedFor, FirstAnswering;
    CreatedStep(ranges, net, i);
    var now := CreatedFor(ranges[..i + 1], net);
    assert more[found].IsCreated(now[found]);
    CreatedGrows(ranges, net, i + 1, |ranges|);
    assert ranges[..|ranges|] == ranges;
    assert now[found] == CreatedFor(ranges, net)[found];
  }

  lemma NoneCreated(ranges: seq<Range>, net: Network)
    ensures AreCreated([], CreatedFor(ranges[..0], net)) && AllConnect(CreatedFor(ranges[..0], net))
    ensures AreAssigned([], [], ranges[..0], net)
  {
  }

  lemma AssignedStep(regions: seq<Region<RedisServer>>, servers: seq<RedisServer>, more: seq<RedisServer>,
      ranges: seq<Range>, net: Network, i: nat)
    requires i < |ranges| && AreAssigned(regions, servers, ranges[..i], net)
    requires servers <= more && ServerAt(ranges, net, i) < |more|
    ensures AreAssigned(regions + [Region(ranges[i], more[ServerAt(ranges, net, i)])], more, ranges[..i + 1], net)
  {
    hide CreatedFor, FirstAnswering;
    forall k | 0 <= k <= i ensures ServerAt(ranges[..i + 1], net, k) == ServerAt(ranges, net, k) {
      assert ranges[..i + 1][..k] == ranges[..k];
    }
    forall k | 0 <= k < i ensures ServerAt(ranges[..i], net, k) == ServerAt(ranges, net, k) {
      assert ranges[..i][..k] == ranges[..k];
    }
  }

  /** No server is without a row. */
  lemma ServersHaveRows(regions: seq<Region<RedisServer>>, servers: seq<RedisServer>, ranges: seq<Range>, net: Network)
    requires |servers| == |CreatedFor(ranges, net)| && AreAssigned(regions, servers, ranges, net)
    ensures forall k :: 0 <= k < |regions| ==> regions[k].server in servers
    ensures forall s :: s in servers ==> exists k :: 0 <= k < |regions| && regions[k].server == s
  {
    hide CreatedFor, ServerAt;
    forall s | s in servers
      ensures exists k :: 0 <= k < |regions| && regions[k].server == s
    {
      var i :| 0 <= i < |servers| && servers[i] == s;
      CreatedBecause(ranges, net, i);
      assert regions[CreatedFor(ranges, net)[i].row].server == s;
    }
  }

  /** A table of exactly `ranges`, in order of their first slots, each with a server, and no
      server without a range. */
  ghost predicate IsTable(slots: seq<Region<RedisServer>>, servers: seq<RedisServer>, ranges: seq<Range>) {
    && multiset(RangesOf(slots)) == multiset(ranges)
    && SortedByStart(slots)
    && (forall r :: r in slots ==> r.server in servers)
    && (forall s :: s in servers ==> exists r :: r in slots && r.server == s)
  }

  /** A sorted table of the rows. */
  ghost predicate IsSorted(regions: seq<Region<RedisServer>>, sorted: seq<Region<RedisServer>>) {
    && SortedByStart(sorted) && (forall r :: r in sorted ==> r in regions) && (forall r :: r in regions ==> r in sorted)
    && multiset(RangesOf(sorted)) == multiset(RangesOf(regions))
  }

  lemma SortedRowsAreTable(regions: seq<Region<RedisServer>>, sorted: seq<Region<RedisServer>>,
      servers: seq<RedisServer>, ranges: seq<Range>, net: Network)
    requires AreCreated(servers, CreatedFor(ranges, net)) && AreAssigned(regions, servers, ranges, net)
    requires IsSorted(regions, sorted)
    ensures IsTable(sorted, servers, ranges)
  {
    hide CreatedFor, ServerAt;
    ServersHaveRows(regions, servers, ranges, net);
    assert RangesOf(regions) == ranges;
    forall s | s in servers
      ensures exists r :: r in sorted && r.server == s
    {
      var k :| 0 <= k < |regions| && regions[k].server == s;
      assert regions[k] in sorted;
    }
  }

  lemma ServersDiffer(servers: seq<RedisServer>, ranges: seq<Range>, net: Network)
    requires AreCreated(servers, CreatedFor(ranges, net))
    ensures (forall i, j :: 0 <= i < j < |servers| ==> servers[i].hosts != servers[j].hosts) <==>
      !ForgetsAddress(ranges, net)
  {
    hide CreatedFor, ForgetsAddress;
    AddressesDifferIff(ranges, net);
    var cs := CreatedFor(ranges, net);
    forall i, j | 0 <= i < j < |servers|
      ensures servers[i].hosts == servers[j].hosts <==> (cs[i].host, cs[i].port) == (cs[j].host, cs[j].port)
    {
      assert servers[i].IsCreated(cs[i]) && servers[j].IsCreated(cs[j]);
      assert servers[i].hosts[0] == (cs[i].host, cs[i].port) && servers[j].hosts[0] == (cs[j].host, cs[j].port);
    }
  }

  /** No row gets the server of another address. */
  predicate NoneMisled(ranges: seq<Range>, net: Network) {
    forall k :: 0 <= k < |ranges| ==> !Misled(ranges, net, k)
  }

  lemma RowsAreServed(regions: seq<Region<RedisServer>>, sorted: seq<Region<RedisServer>>,
      servers: seq<RedisServer>, ranges: seq<Range>, net: Network)
    requires AreCreated(servers, CreatedFor(ranges, net)) && AreAssigned(regions, servers, ranges, net)
    requires IsSorted(regions, sorted)
    ensures (forall r :: r in sorted ==> r.server.ServesAddress(r.range)) <==> NoneMisled(ranges, net)
  {
    hide CreatedFor, ServerAt, Misled;
    var cs := CreatedFor(ranges, net);
    forall k | 0 <= k < |ranges|
      ensures regions[k].server.ServesAddress(regions[k].range) <==> !Misled(ranges, net, k)
    {
      ServedRightIff(ranges, net, k);
      var i := ServerAt(ranges, net, k);
      assert servers[i].IsCreated(cs[i]);
      assert servers[i].hosts[0] == (cs[i].host, cs[i].port);
    }
    assert forall k :: 0 <= k < |regions| ==> regions[k] in sorted;
  }

  class RedisClient {
    var cluster: bool
    var slots: seq<Region<RedisServer>>
    var servers: seq<RedisServer>

    constructor (seed: RedisServer, cluster: bool)
      ensures slots == [] && servers == [seed] && this.cluster == cluster
    {
      this.cluster := cluster;
      this.slots := [];
      this.servers := [seed];
    }

    /** Which servers have a connection left. */
    ghost function Validity(): (valid: seq<bool>)
      reads this, servers
      ensures |valid| == |servers| && forall i :: 0 <= i < |servers| ==> valid[i] == servers[i].IsValid()
    {
      seq(|servers|, i requires 0 <= i < |servers| reads this, servers => servers[i].IsValid())
    }

    /** The table holds exactly `ranges`. */
    ghost predicate Holds(ranges: seq<Range>)
      reads this
    {
      IsTable(slots, servers, ranges)
    }

    /** Every server in the table was created for the address of each range it stands for. */
    ghost predicate RoutesToAddresses()
      reads this, servers, set r | r in slots :: r.server
    {
      forall r :: r in slots ==> r.server.ServesAddress(r.range)
    }

    ghost predicate OneServerPerAddress()
      reads this, servers
    {
      forall i, j :: 0 <= i < j < |servers| ==> servers[i].hosts != servers[j].hosts
    }

    /** Create the servers of `ranges` and put them, in order, in the place of the old table. */
    method Install(ranges: seq<Range>, net: Network) returns (ok: bool)
      modifies this`slots, this`servers
      ensures !ok ==> slots == old(slots) && servers == old(servers)
      ensures ok <==> AllConnect(CreatedFor(ranges, net))
      ensures ok ==> Holds(ranges)
      ensures ok ==> (OneServerPerAddress() <==> !ForgetsAddress(ranges, net))
      ensures ok ==> (RoutesToAddresses() <==> NoneMisled(ranges, net))
    {
      hide CreatedFor, AllConnect, ForgetsAddress, NoneMisled, AreCreated, AreAssigned, IsTable;
      var complete, created, regions := AssignServers(ranges, net);
      if !complete {
        return false;
      }
      var sorted := SortByStart(regions);
      slots, servers := sorted, created;
      SortedRowsAreTable(regions, sorted, created, ranges, net);
      ServersDiffer(created, ranges, net);
      RowsAreServed(regions, sorted, created, ranges, net);
      ok := true;
    }

    /** Replace the table by what the first usable answer says. It works out exactly if there is such
        an answer and every server that has to be created for it connects; a load that fails leaves
        the old table and the old servers in place. Servers are distinct by address, and rows served
        by servers of their address, exactly where no host that was cleared gets in the way. */
    method LoadClusterSlots(answers: seq<Answer>, net: Network) returns (ok: bool)
      requires |answers| == |servers| && forall i :: 0 <= i < |answers| ==> IsReadable(answers[i])
      modifies this`slots, this`servers
      ensures !ok ==> slots == old(slots) && servers == old(servers)
      ensures var chosen := old(ChosenRanges(Validity(), answers));
              && (ok <==> chosen.Some? && AllConnect(CreatedFor(chosen.value, net)))
              && (ok ==> Holds(chosen.value))
              && (ok ==> (OneServerPerAddress() <==> !ForgetsAddress(chosen.value, net)))
              && (ok ==> (RoutesToAddresses() <==> NoneMisled(chosen.value, net)))
              && (ok ==> exists i :: old(IsFirstUsable(Validity(), answers, i, chosen.value)))
              && (chosen.None? ==> forall i, ranges :: old(!IsFirstUsable(Validity(), answers, i, ranges)))
    {
      hide CreatedFor, AllConnect, ForgetsAddress, NoneMisled, IsTable;
      ghost var valid := Validity();
      ghost var chosen := ChosenRanges(valid, answers);
      if chosen.Some? {
        ChosenRangesIff(valid, answers, chosen.value);
      } else {
        forall i, ranges ensures !IsFirstUsable(valid, answers, i, ranges) {
          ChosenRangesIff(valid, answers, ranges);
        }
      }
      hide IsFirstUsable;
      for i := 0 to |servers|
        invariant slots == old(slots) && servers == old(servers)
        invariant forall k :: 0 <= k < i ==> valid[k] && !(answers[k].Answered? && RangesOfReply(answers[k].reply).Some?)
      {
        ChosenSkips(valid, answers, i);
        if !servers[i].IsValid() {
          return false;
        }
        if answers[i].Answered? {
          var code, ranges := FetchSlot(answers[i].reply);
          if code == RC_SUCCESS {
            ok := Install(ranges, net);
            return ok;
          }
        }
      }
      ChosenSkips(valid, answers, |servers|);
      ok := false;
    }

    // ---- Routing ----

    /** The server a command with this slot goes to; slot -1 marks a command without a key. */
    method GetMatchedServer(slot: int) returns (server: Option<RedisServer>)
      requires cluster && slot != -1 ==> Partitioned(slots, slot)
      ensures !cluster ==> server == (if servers == [] then None else Some(servers[0]))
      ensures cluster && slot != -1 ==> server == LinearScan(slots, slot)
      ensures cluster && slot == -1 ==>
                if server.Some?
                then exists i :: 0 <= i < |servers| && servers[i] == server.value && servers[i].IsValid()
                                 && forall k :: 0 <= k < i ==> !servers[k].IsValid()
                else forall s :: s in servers ==> !s.IsValid()
    {
      if !cluster {
        return if servers == [] then None else Some(servers[0]);
      } else if slot != -1 {
        server := FindServer(slots, slot);
      } else {
        for i := 0 to |servers|
          invariant forall k :: 0 <= k < i ==> !servers[k].IsValid()
        {
          if servers[i].IsValid() {
            return Some(servers[i]);
          }
        }
        server := None;
      }
    }

    /** Routing from the key to the server: with the table of a load of disjoint ranges, every
        key reaches a server created for the address of the one range that owns its slot, and
        no server exactly when no range does. */
    method ServerOfKey(key: Bytes, ghost ranges: seq<Range>) returns (server: Option<RedisServer>)
      requires cluster && Holds(ranges) && RoutesToAddresses() && Disjoint(ranges)
      ensures server.None? <==> forall r :: r in ranges ==> !(r.start <= HashSlot.Slot(key) <= r.end)
      ensures server.Some? ==>
                exists r :: r in ranges && r.start <= HashSlot.Slot(key) <= r.end && server.value.hosts == [(r.host, r.port)]
      ensures server.Some? ==> server.value in servers
    {
      var slot := HashSlot.HashKey(key);
      DisjointIsUnordered(ranges, RangesOf(slots));
      SortedIsPartitioned(slots, slot);
      server := GetMatchedServer(slot);
      ScanFollowsRanges(slots, ranges, slot);
    }
  }
}
