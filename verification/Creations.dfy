/** Which servers a load of the slot table creates. Rows are taken in order; a row whose address some
    server answers to gets that server, another has a server created for it. A server answers to the
    host it was created for, unless its last attempt to connect failed, which clears its host. */
module Creations {
  import opened Words
  import opened SlotTable

  /** How opening the connections of a new server went: how many are usable, and whether the
      last attempt left the server's current host in place (a failed attempt clears it). */
  datatype Connectivity = Connectivity(idle: nat, hostKept: bool)

  /** How connecting goes, for an address and the number of servers created before in this load. */
  type Network = (Bytes, int, nat) -> Connectivity

  /** A server as it was created: by a row, for its address. */
  datatype Creation = Creation(row: nat, host: Bytes, port: int, outcome: Connectivity) {

    function HostNow(): Bytes {
      if outcome.hostKept then host else []
    }

    predicate Answers(host: Bytes, port: int) {
      HostNow() == host && this.port == port
    }
  }

  /** The first server that answers to an address, or the number of servers if none does. */
  function FirstAnswering(cs: seq<Creation>, host: Bytes, port: int): (i: nat)
    ensures i <= |cs| && (i < |cs| ==> cs[i].Answers(host, port))
    ensures forall j :: 0 <= j < i ==> !cs[j].Answers(host, port)
  {
    if cs == [] || cs[0].Answers(host, port) then 0 else 1 + FirstAnswering(cs[1..], host, port)
  }

  /** The servers created for the rows. */
  function CreatedFor(ranges: seq<Range>, net: Network): (cs: seq<Creation>)
    ensures |cs| <= |ranges|
  {
    if ranges == [] then []
    else
      var last := |ranges| - 1;
      var before, r := CreatedFor(ranges[..last], net), ranges[last];
      if FirstAnswering(before, r.host, r.port) < |before| then before
      else before + [Creation(last, r.host, r.port, net(r.host, r.port, |before|))]
  }

  /** The number of the server that row `k` gets. */
  function ServerAt(ranges: seq<Range>, net: Network, k: nat): nat
    requires k < |ranges|
  {
    FirstAnswering(CreatedFor(ranges[..k], net), ranges[k].host, ranges[k].port)
  }

  predicate AllConnect(cs: seq<Creation>) {
    forall i :: 0 <= i < |cs| ==> cs[i].outcome.idle > 0
  }

  // ---- Facts about the servers created ----

  lemma CreatedStep(ranges: seq<Range>, net: Network, k: nat)
    requires k < |ranges|
    ensures var before, r := CreatedFor(ranges[..k], net), ranges[k];
      CreatedFor(ranges[..k + 1], net) ==
      if ServerAt(ranges, net, k) < |before| then before
      else before + [Creation(k, r.host, r.port, net(r.host, r.port, |before|))]
  {
    assert ranges[..k + 1][..k] == ranges[..k];
  }

  /** Later rows only add servers. */
  lemma {:induction false} CreatedGrows(ranges: seq<Range>, net: Network, k: nat, n: nat)
    requires k <= n <= |ranges|
    ensures CreatedFor(ranges[..k], net) <= CreatedFor(ranges[..n], net)
    ensures var cs := CreatedFor(ranges[..n], net);
      forall i :: 0 <= i < |cs| ==> (i < |CreatedFor(ranges[..k], net)| <==> cs[i].row < k)
    decreases n
  {
    hide CreatedFor, ServerAt;
    if k < n {
      CreatedGrows(ranges, net, k, n - 1);
      CreatedStep(ranges, net, n - 1);
    } else {
      RowsAreBefore(ranges, net, n);
    }
  }

  predicate Listed(ranges: seq<Range>, c: Creation, n: nat) {
    c.row < n && c.row < |ranges| && c.host == ranges[c.row].host && c.port == ranges[c.row].port
  }

  lemma {:induction false} RowsAreBefore(ranges: seq<Range>, net: Network, n: nat)
    requires n <= |ranges|
    ensures var cs := CreatedFor(ranges[..n], net); forall i :: 0 <= i < |cs| ==> Listed(ranges, cs[i], n)
  {
    if n > 0 {
      hide CreatedFor, ServerAt;
      RowsAreBefore(ranges, net, n - 1);
      CreatedStep(ranges, net, n - 1);
      assert forall c :: Listed(ranges, c, n - 1) ==> Listed(ranges, c, n);
    } else {
      assert CreatedFor(ranges[..0], net) == [];
    }
  }

  /** A server is created by its row because no server created before answers to the address. */
  lemma CreatedBecause(ranges: seq<Range>, net: Network, i: nat)
    requires i < |CreatedFor(ranges, net)|
    ensures var cs := CreatedFor(ranges, net); var c := cs[i];
      && c.row < |ranges| && c.host == ranges[c.row].host && c.port == ranges[c.row].port
      && ServerAt(ranges, net, c.row) == i
      && (forall j :: 0 <= j < i ==> !cs[j].Answers(c.host, c.port) && cs[j].row < c.row)
  {
    var cs := CreatedFor(ranges, net);
    var n, k := |ranges|, cs[i].row;
    assert ranges[..n] == ranges;
    RowsAreBefore(ranges, net, n);
    CreatedGrows(ranges, net, k, n);
    CreatedGrows(ranges, net, k + 1, n);
    CreatedStep(ranges, net, k);
    hide CreatedFor;
    var before := CreatedFor(ranges[..k], net);
    assert |before| <= i < |CreatedFor(ranges[..k + 1], net)|;
    assert i == |before|;
    assert forall j :: 0 <= j < i ==> cs[j] == before[j];
  }

  lemma ServerAtPrefix(ranges: seq<Range>, net: Network, k: nat)
    requires k < |ranges|
    ensures var before, now := CreatedFor(ranges[..k], net), CreatedFor(ranges[..k + 1], net);
      var i := ServerAt(ranges, net, k);
      && i < |now| && i <= |before| && before <= now
      && (i < |before| ==> before[i].Answers(ranges[k].host, ranges[k].port))
      && (i == |before| ==> Listed(ranges, now[i], k + 1) && now[i].row == k)
      && (forall j :: 0 <= j < i ==> !now[j].Answers(ranges[k].host, ranges[k].port))
  {
    CreatedStep(ranges, net, k);
    hide CreatedFor, FirstAnswering;
  }

  /** The server of a row answers to the row's address, or was created by the row. */
  lemma ServerAtRow(ranges: seq<Range>, net: Network, k: nat)
    requires k < |ranges|
    ensures var cs, i := CreatedFor(ranges, net), ServerAt(ranges, net, k);
      && i < |cs| && (cs[i].row < k ==> cs[i].Answers(ranges[k].host, ranges[k].port))
      && cs[i].row <= k && (cs[i].row == k ==> cs[i].host == ranges[k].host && cs[i].port == ranges[k].port)
      && (forall j :: 0 <= j < i ==> !cs[j].Answers(ranges[k].host, ranges[k].port))
  {
    hide CreatedFor, ServerAt;
    var n := |ranges|;
    assert ranges[..n] == ranges;
    CreatedGrows(ranges, net, k, n);
    CreatedGrows(ranges, net, k + 1, n);
    ServerAtPrefix(ranges, net, k);
    RowsAreBefore(ranges, net, k);
  }

  // ---- One server for each address ----

  predicate AddressesDiffer(cs: seq<Creation>) {
    forall i, j :: 0 <= i < j < |cs| ==> (cs[i].host, cs[i].port) != (cs[j].host, cs[j].port)
  }

  predicate ListedAgain(ranges: seq<Range>, c: Creation) {
    exists k :: c.row < k < |ranges| && ranges[k].host == c.host && ranges[k].port == c.port
  }

  /** A server whose host was cleared stands for an address that is listed again. */
  predicate ForgetsAddress(ranges: seq<Range>, net: Network) {
    var cs := CreatedFor(ranges, net);
    exists i :: 0 <= i < |cs| && cs[i].host != [] && !cs[i].outcome.hostKept && ListedAgain(ranges, cs[i])
  }

  /** Servers are distinct by address exactly if no address that is listed again is that of a server
      whose host was cleared when it was created. */
  lemma AddressesDifferIff(ranges: seq<Range>, net: Network)
    ensures AddressesDiffer(CreatedFor(ranges, net)) <==> !ForgetsAddress(ranges, net)
  {
    hide CreatedFor;
    var cs := CreatedFor(ranges, net);
    forall i, j | 0 <= i < j < |cs| && (cs[i].host, cs[i].port) == (cs[j].host, cs[j].port)
      ensures ForgetsAddress(ranges, net)
    {
      CreatedBecause(ranges, net, j);
      assert ListedAgain(ranges, cs[i]);
    }
    if ForgetsAddress(ranges, net) {
      var i :| 0 <= i < |cs| && cs[i].host != [] && !cs[i].outcome.hostKept && ListedAgain(ranges, cs[i]);
      ForgottenIsDoubled(ranges, net, i);
    }
  }

  lemma ForgottenIsDoubled(ranges: seq<Range>, net: Network, i: nat)
    requires i < |CreatedFor(ranges, net)|
    requires var c := CreatedFor(ranges, net)[i]; c.host != [] && !c.outcome.hostKept && ListedAgain(ranges, c)
    ensures !AddressesDiffer(CreatedFor(ranges, net))
  {
    hide CreatedFor;
    var cs := CreatedFor(ranges, net);
    var k :| cs[i].row < k < |ranges| && ranges[k].host == cs[i].host && ranges[k].port == cs[i].port;
    ServerAtRow(ranges, net, k);
    var j := ServerAt(ranges, net, k);
    assert j != i && cs[j].host == cs[i].host && cs[j].port == cs[i].port;
  }

  // ---- The right server for each row ----

  /** The row gets a server that was created for its address. */
  predicate ServedRight(ranges: seq<Range>, net: Network, k: nat)
    requires k < |ranges|
  {
    var cs, i := CreatedFor(ranges, net), ServerAt(ranges, net, k);
    i < |cs| && cs[i].host == ranges[k].host && cs[i].port == ranges[k].port
  }

  predicate ListedBefore(ranges: seq<Range>, n: nat, port: int) {
    exists j :: 0 <= j < n && j < |ranges| && ranges[j].host == [] && ranges[j].port == port
  }

  /** A row without a host comes after a server at its port whose host was cleared, and no row without
      a host at that port came before that server. */
  predicate Misled(ranges: seq<Range>, net: Network, k: nat)
    requires k < |ranges|
  {
    var cs := CreatedFor(ranges, net);
    ranges[k].host == [] &&
    exists i :: 0 <= i < |cs| && cs[i].row < k && cs[i].port == ranges[k].port && cs[i].host != []
      && !cs[i].outcome.hostKept && !ListedBefore(ranges, cs[i].row, cs[i].port)
  }

  /** A row gets a server of another address exactly if it is misled. */
  lemma ServedRightIff(ranges: seq<Range>, net: Network, k: nat)
    requires k < |ranges|
    ensures ServedRight(ranges, net, k) <==> !Misled(ranges, net, k)
  {
    hide CreatedFor, ServerAt;
    var cs, x := CreatedFor(ranges, net), ServerAt(ranges, net, k);
    ServerAtRow(ranges, net, k);
    if !ServedRight(ranges, net, k) && ListedBefore(ranges, cs[x].row, cs[x].port) {
      var j :| 0 <= j < cs[x].row && j < |ranges| && ranges[j].host == [] && ranges[j].port == cs[x].port;
      EarlierAnswer(ranges, net, j);
      CreatedBecause(ranges, net, ServerAt(ranges, net, j));
    }
    if Misled(ranges, net, k) {
      var i :| 0 <= i < |cs| && cs[i].row < k && cs[i].port == ranges[k].port && cs[i].host != []
        && !cs[i].outcome.hostKept && !ListedBefore(ranges, cs[i].row, cs[i].port);
      assert cs[i].Answers([], ranges[k].port);
      assert x <= i;
      CreatedBecause(ranges, net, i);
      CreatedBecause(ranges, net, x);
    }
  }

  /** Once a row without a host is listed, some server of a row up to it answers at that port. */
  lemma EarlierAnswer(ranges: seq<Range>, net: Network, j: nat)
    requires j < |ranges| && ranges[j].host == []
    ensures var cs, i := CreatedFor(ranges, net), ServerAt(ranges, net, j);
      i < |cs| && cs[i].row <= j && cs[i].Answers([], ranges[j].port)
  {
    hide CreatedFor, ServerAt;
    ServerAtRow(ranges, net, j);
  }

  // ---- Where it goes wrong ----

  /** A server all of whose connections but the last could be made. */
  function LastFails(host: Bytes, port: int, n: nat): Connectivity {
    Connectivity(1, false)
  }

  lemma CreatedForOne(r: Range, net: Network)
    ensures CreatedFor([r], net) == [Creation(0, r.host, r.port, net(r.host, r.port, 0))]
  {
    assert [r][..0] == [];
    assert CreatedFor([], net) == [];
  }

  lemma CreatedForTwo(r: Range, q: Range, net: Network)
    ensures var c := Creation(0, r.host, r.port, net(r.host, r.port, 0));
      CreatedFor([r, q], net) ==
      if c.Answers(q.host, q.port) then [c] else [c, Creation(1, q.host, q.port, net(q.host, q.port, 1))]
  {
    CreatedForOne(r, net);
    assert [r, q][..1] == [r];
    var c := Creation(0, r.host, r.port, net(r.host, r.port, 0));
    assert FirstAnswering([c], q.host, q.port) == if c.Answers(q.host, q.port) then 0 else 1;
  }

  /** One address in two rows, and two servers for it. */
  lemma AddressIsDoubled(host: Bytes, port: int)
    requires host != []
    ensures var ranges := [Range(0, 8191, host, port), Range(8192, 16383, host, port)];
      && AllConnect(CreatedFor(ranges, LastFails)) && ForgetsAddress(ranges, LastFails)
      && !AddressesDiffer(CreatedFor(ranges, LastFails))
  {
    var ranges := [Range(0, 8191, host, port), Range(8192, 16383, host, port)];
    CreatedForTwo(ranges[0], ranges[1], LastFails);
    hide CreatedFor;
    var cs := CreatedFor(ranges, LastFails);
    assert cs == [Creation(0, host, port, Connectivity(1, false)), Creation(1, host, port, Connectivity(1, false))];
    assert ranges[1].host == host && ranges[1].port == port;
    assert ListedAgain(ranges, cs[0]);
    assert (cs[0].host, cs[0].port) == (cs[1].host, cs[1].port);
  }

  /** A row without a host, and the server of another address for it. */
  lemma RowIsMisled(host: Bytes, port: int)
    requires host != []
    ensures var ranges := [Range(0, 8191, host, port), Range(8192, 16383, [], port)];
      AllConnect(CreatedFor(ranges, LastFails)) && Misled(ranges, LastFails, 1) && !ServedRight(ranges, LastFails, 1)
  {
    var ranges := [Range(0, 8191, host, port), Range(8192, 16383, [], port)];
    CreatedForTwo(ranges[0], ranges[1], LastFails);
    hide CreatedFor;
    var cs := CreatedFor(ranges, LastFails);
    assert cs == [Creation(0, host, port, Connectivity(1, false))];
    assert cs[0].row == 0 && !ListedBefore(ranges, 0, port);
    ServedRightIff(ranges, LastFails, 1);
  }
}
