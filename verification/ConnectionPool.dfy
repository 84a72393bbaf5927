/** The connections of a client, shared by its callers and by the thread that refreshes them: where
    each connection is, and what moves it. */
module ConnectionPool {
  import opened Wrappers
  import opened Reply

  const RQST_RETRY_TIMES := 3

  /** A connection knows the server it was made for. */
  datatype Connection = Connection(server: nat, id: nat)

  /** A server's queue of idle connections, and the connections its last initialisation made. */
  datatype Server = Server(idle: seq<Connection>, made: set<Connection>)

  /** The servers that exist, the connection in the hands of each thread, those that have been
      deleted, and the number of the next one to be made. */
  datatype Pools = Pools(servers: map<nat, Server>, held: seq<Option<Connection>>, freed: set<Connection>, next: nat)

  type Bag = multiset<Connection>

  function Own(x: Option<Connection>, k: nat): Bag {
    if x.Some? && x.value.server == k then multiset{x.value} else multiset{}
  }

  /** The connections of a server that threads hold. */
  function Held(held: seq<Option<Connection>>, k: nat): Bag {
    if held == [] then multiset{} else Held(held[..|held| - 1], k) + Own(held[|held| - 1], k)
  }

  function Idle(q: seq<Connection>): Bag {
    multiset(q)
  }

  /** Idle and held connections together are the ones that were made, each of them once. */
  ghost predicate Balanced(s: Server, held: Bag) {
    forall c :: Idle(s.idle)[c] + held[c] == if c in s.made then 1 else 0
  }

  /** The connections that were made for a server are its own, and not deleted. */
  ghost predicate Owned(s: Server, k: nat, freed: set<Connection>, next: nat) {
    forall c :: c in s.made ==> c.server == k && c.id < next && c !in freed
  }

  ghost predicate Settled(p: Pools, k: nat)
    requires k in p.servers
  {
    Balanced(p.servers[k], Held(p.held, k)) && Owned(p.servers[k], k, p.freed, p.next)
  }

  ghost predicate Accounted(p: Pools) {
    && (forall k :: k in p.servers ==> Settled(p, k))
    && (forall h :: 0 <= h < |p.held| && p.held[h].Some? ==> p.held[h].value.server in p.servers)
    && (forall c :: c in p.freed ==> c.id < p.next)
  }

  // ---- What moves a connection ----

  predicate CanTake(p: Pools, h: nat, k: nat) {
    h < |p.held| && p.held[h] == None && k in p.servers && p.servers[k].idle != []
  }

  /** A thread fetches the connection at the front of a queue. */
  function Take(p: Pools, h: nat, k: nat): Pools
    requires CanTake(p, h, k)
  {
    var s := p.servers[k];
    p.(servers := p.servers[k := s.(idle := s.idle[1..])], held := p.held[h := Some(s.idle[0])])
  }

  predicate CanGive(p: Pools, h: nat) {
    h < |p.held| && p.held[h].Some? && p.held[h].value.server in p.servers
  }

  /** A thread returns its connection to the back of the queue. */
  function Give(p: Pools, h: nat): Pools
    requires CanGive(p, h)
  {
    var c := p.held[h].value;
    var s := p.servers[c.server];
    p.(servers := p.servers[c.server := s.(idle := s.idle + [c])], held := p.held[h := None])
  }

  /** The connection at the front of a queue is deleted. */
  function Free(p: Pools, k: nat): Pools
    requires k in p.servers && p.servers[k].idle != []
  {
    var Server(idle, made) := p.servers[k];
    p.(servers := p.servers[k := Server(idle[1..], made - {idle[0]})], freed := p.freed + {idle[0]})
  }

  /** A connection is made. */
  function Create(p: Pools, k: nat): Pools
    requires k in p.servers
  {
    var Server(idle, made) := p.servers[k];
    var c := Connection(k, p.next);
    p.(servers := p.servers[k := Server(idle + [c], made + {c})], next := p.next + 1)
  }

  function AddServer(p: Pools, k: nat): Pools {
    p.(servers := p.servers[k := Server([], {})])
  }

  /** A server is deleted, and with it the connections in its queue. */
  function RemoveServer(p: Pools, k: nat): Pools
    requires k in p.servers
  {
    p.(servers := p.servers - {k}, freed := p.freed + set c | c in p.servers[k].idle)
  }

  predicate Unheld(p: Pools, k: nat) {
    forall h :: 0 <= h < |p.held| && p.held[h].Some? ==> p.held[h].value.server != k
  }

  lemma HeldStep(held: seq<Option<Connection>>, k: nat)
    requires held != []
    ensures Held(held, k) == Held(held[..|held| - 1], k) + Own(held[|held| - 1], k)
  {
  }

  lemma {:induction false} HeldUpdate(held: seq<Option<Connection>>, h: nat, x: Option<Connection>, k: nat)
    requires h < |held|
    ensures forall c :: Held(held[h := x], k)[c] + Own(held[h], k)[c] == Held(held, k)[c] + Own(x, k)[c]
    decreases |held|
  {
    hide Held, Own;
    var last := |held| - 1;
    HeldStep(held, k);
    HeldStep(held[h := x], k);
    if h == last {
      assert held[h := x][..last] == held[..last];
    } else {
      HeldUpdate(held[..last], h, x, k);
      assert held[h := x][..last] == held[..last][h := x];
    }
  }

  lemma HeldHas(held: seq<Option<Connection>>, h: nat)
    requires h < |held| && held[h].Some?
    ensures Held(held, held[h].value.server)[held[h].value] > 0
  {
    hide Held;
    HeldUpdate(held, h, None, held[h].value.server);
  }

  lemma {:induction false} HeldNone(held: seq<Option<Connection>>, k: nat)
    requires forall h :: 0 <= h < |held| && held[h].Some? ==> held[h].value.server != k
    ensures Held(held, k) == multiset{}
  {
    if held != [] {
      var last := |held| - 1;
      HeldStep(held, k);
      assert forall h :: 0 <= h < last ==> held[..last][h] == held[h];
      HeldNone(held[..last], k);
      assert Own(held[last], k) == multiset{};
    }
  }

  lemma QueueSplits(q: seq<Connection>)
    requires q != []
    ensures forall c :: Idle(q)[c] == Idle(q[1..])[c] + if c == q[0] then 1 else 0
  {
    assert q == [q[0]] + q[1..];
  }

  lemma QueueGrows(q: seq<Connection>, x: Connection)
    ensures forall c :: Idle(q + [x])[c] == Idle(q)[c] + if c == x then 1 else 0
  {
  }

  lemma IdleIsMade(s: Server, held: Bag)
    requires Balanced(s, held)
    ensures forall c :: c in s.idle ==> c in s.made
    ensures forall i :: 0 <= i < |s.idle| ==> s.idle[i] in s.made
  {
    forall c | c in s.idle ensures c in s.made {
      assert c in Idle(s.idle);
    }
  }

  lemma TakeBalances(p: Pools, h: nat, k: nat, l: nat)
    requires CanTake(p, h, k) && l in p.servers && Balanced(p.servers[l], Held(p.held, l))
    requires p.servers[k].idle[0].server == k
    ensures Balanced(Take(p, h, k).servers[l], Held(Take(p, h, k).held, l))
  {
    hide Held, Idle;
    HeldUpdate(p.held, h, Some(p.servers[k].idle[0]), l);
    QueueSplits(p.servers[k].idle);
  }

  lemma TakeSettles(p: Pools, h: nat, k: nat, l: nat)
    requires CanTake(p, h, k) && Settled(p, k) && l in p.servers && Settled(p, l)
    ensures Settled(Take(p, h, k), l)
  {
    IdleIsMade(p.servers[k], Held(p.held, k));
    assert p.servers[k].idle[0].server == k;
    hide Held, Idle, Owned, Balanced;
    TakeBalances(p, h, k, l);
    OwnedAgain(p, Take(p, h, k), l);
  }

  lemma TakeKeeps(p: Pools, h: nat, k: nat)
    requires Accounted(p) && CanTake(p, h, k)
    ensures Accounted(Take(p, h, k))
  {
    IdleIsMade(p.servers[k], Held(p.held, k));
    assert p.servers[k].idle[0].server == k;
    hide Settled;
    var n := Take(p, h, k);
    forall l | l in n.servers ensures Settled(n, l) {
      TakeSettles(p, h, k, l);
    }
  }

  lemma OwnedAgain(p: Pools, n: Pools, k: nat)
    requires k in p.servers && Owned(p.servers[k], k, p.freed, p.next)
    requires k in n.servers && n.servers[k].made == p.servers[k].made && n.freed == p.freed && n.next == p.next
    ensures Owned(n.servers[k], k, n.freed, n.next)
  {
  }

  lemma GiveBalances(p: Pools, h: nat, l: nat)
    requires CanGive(p, h) && l in p.servers && Balanced(p.servers[l], Held(p.held, l))
    ensures Balanced(Give(p, h).servers[l], Held(Give(p, h).held, l))
  {
    hide Held, Idle;
    HeldUpdate(p.held, h, None, l);
    QueueGrows(p.servers[p.held[h].value.server].idle, p.held[h].value);
  }

  lemma GiveSettles(p: Pools, h: nat, l: nat)
    requires CanGive(p, h) && l in p.servers && Settled(p, l)
    ensures Settled(Give(p, h), l)
  {
    hide Held, Idle, Owned, Balanced;
    GiveBalances(p, h, l);
    OwnedAgain(p, Give(p, h), l);
  }

  lemma GiveKeeps(p: Pools, h: nat)
    requires Accounted(p) && CanGive(p, h)
    ensures Accounted(Give(p, h))
  {
    hide Settled;
    var n := Give(p, h);
    forall l | l in n.servers ensures Settled(n, l) {
      GiveSettles(p, h, l);
    }
  }

  lemma FreeSettles(p: Pools, k: nat, l: nat)
    requires k in p.servers && p.servers[k].idle != [] && Settled(p, k) && l in p.servers && Settled(p, l)
    ensures Settled(Free(p, k), l)
  {
    hide Held, Idle;
    IdleIsMade(p.servers[k], Held(p.held, k));
    QueueSplits(p.servers[k].idle);
    assert p.servers[k].idle[0] in p.servers[k].made;
  }

  lemma FreeKeeps(p: Pools, k: nat)
    requires Accounted(p) && k in p.servers && p.servers[k].idle != []
    ensures Accounted(Free(p, k))
  {
    IdleIsMade(p.servers[k], Held(p.held, k));
    assert p.servers[k].idle[0].id < p.next;
    hide Settled;
    var n := Free(p, k);
    forall l | l in n.servers ensures Settled(n, l) {
      FreeSettles(p, k, l);
    }
  }

  lemma CreateBalances(s: Server, held: Bag, c: Connection)
    requires Balanced(s, held) && c !in s.made
    ensures Balanced(Server(s.idle + [c], s.made + {c}), held)
  {
    hide Idle;
    QueueGrows(s.idle, c);
  }

  lemma CreateOwned(s: Server, k: nat, freed: set<Connection>, next: nat)
    requires Owned(s, k, freed, next) && forall c :: c in freed ==> c.id < next
    ensures Owned(s, k, freed, next + 1)
    ensures Connection(k, next) !in s.made
    ensures Owned(Server(s.idle + [Connection(k, next)], s.made + {Connection(k, next)}), k, freed, next + 1)
  {
  }

  lemma CreateSettles(p: Pools, k: nat, l: nat)
    requires k in p.servers && l in p.servers && Settled(p, k) && Settled(p, l)
    requires forall c :: c in p.freed ==> c.id < p.next
    ensures Settled(Create(p, k), l)
  {
    hide Held, Balanced, Owned;
    CreateOwned(p.servers[k], k, p.freed, p.next);
    CreateOwned(p.servers[l], l, p.freed, p.next);
    CreateBalances(p.servers[k], Held(p.held, k), Connection(k, p.next));
  }

  lemma CreateKeeps(p: Pools, k: nat)
    requires Accounted(p) && k in p.servers
    ensures Accounted(Create(p, k))
  {
    hide Settled;
    var n := Create(p, k);
    forall l | l in n.servers ensures Settled(n, l) {
      CreateSettles(p, k, l);
    }
  }

  lemma NothingBalances(held: seq<Option<Connection>>, k: nat)
    requires forall h :: 0 <= h < |held| && held[h].Some? ==> held[h].value.server != k
    ensures Balanced(Server([], {}), Held(held, k))
  {
    HeldNone(held, k);
    hide Held;
  }

  lemma AddServerKeeps(p: Pools, k: nat)
    requires Accounted(p) && k !in p.servers
    ensures Accounted(AddServer(p, k))
  {
    NothingBalances(p.held, k);
    assert Owned(Server([], {}), k, p.freed, p.next);
    hide Held, Balanced, Owned;
    assert forall l :: l in p.servers ==> Settled(p, l);
  }

  lemma RemoveServerKeeps(p: Pools, k: nat)
    requires Accounted(p) && k in p.servers && Unheld(p, k)
    ensures Accounted(RemoveServer(p, k))
  {
    hide Held, Balanced;
    IdleIsMade(p.servers[k], Held(p.held, k));
    var n := RemoveServer(p, k);
    assert forall c :: c in p.servers[k].idle ==> c.server == k && c.id < p.next;
    forall l | l in n.servers ensures Settled(n, l) {
      assert Settled(p, l);
    }
  }

  // ---- What the accounts say ----

  /** The threads that hold a connection of a server. */
  ghost function Holders(held: seq<Option<Connection>>, k: nat): set<nat> {
    set h: nat | h < |held| && held[h].Some? && held[h].value.server == k
  }

  lemma {:induction false} HeldCounts(held: seq<Option<Connection>>, k: nat)
    ensures |Held(held, k)| == |Holders(held, k)|
  {
    if held == [] {
      assert Holders(held, k) == {};
    } else {
      var last := |held| - 1;
      HeldCounts(held[..last], k);
      HeldStep(held, k);
      hide Held, Own;
      HoldersStep(held, k);
    }
  }

  lemma HoldersStep(held: seq<Option<Connection>>, k: nat)
    requires held != []
    ensures var last := |held| - 1;
      |Holders(held, k)| == |Holders(held[..last], k)| + |Own(held[last], k)|
  {
    var last := |held| - 1;
    var before := Holders(held[..last], k);
    assert last !in before;
    assert Holders(held, k) == if held[last].Some? && held[last].value.server == k then before + {last} else before;
  }

  lemma {:induction false} SizeAsMultiset(s: set<Connection>)
    ensures |multiset(s)| == |s|
  {
    if s != {} {
      var c :| c in s;
      SizeAsMultiset(s - {c});
      assert multiset(s) == multiset(s - {c}) + multiset{c};
    }
  }

  /** As many connections of a server are idle or held as its last initialisation made. */
  lemma IdleAndHeldAreMade(p: Pools, k: nat)
    requires Accounted(p) && k in p.servers
    ensures |p.servers[k].idle| + |Holders(p.held, k)| == |p.servers[k].made|
  {
    hide Held;
    assert Idle(p.servers[k].idle) + Held(p.held, k) == multiset(p.servers[k].made);
    HeldCounts(p.held, k);
    SizeAsMultiset(p.servers[k].made);
  }

  lemma HeldIsMade(p: Pools, h: nat)
    requires Accounted(p) && h < |p.held| && p.held[h].Some?
    ensures p.held[h].value in p.servers[p.held[h].value.server].made
  {
    hide Held;
    HeldHas(p.held, h);
  }

  /** What a thread holds belongs to a server that exists, has not been deleted, is not in any queue
      and is held by no other thread. */
  lemma HeldByOne(p: Pools, h: nat)
    requires Accounted(p) && h < |p.held| && p.held[h].Some?
    ensures var c := p.held[h].value;
      && c.server in p.servers && c in p.servers[c.server].made && c !in p.freed
      && (forall l :: l in p.servers ==> c !in p.servers[l].idle)
      && (forall g :: 0 <= g < |p.held| && g != h ==> p.held[g] != Some(c))
  {
    hide Held;
    var c := p.held[h].value;
    HeldHas(p.held, h);
    HeldIsMade(p, h);
    forall l | l in p.servers ensures c !in p.servers[l].idle {
      IdleIsMade(p.servers[l], Held(p.held, l));
      assert c in p.servers[l].made ==> l == c.server;
      assert c in Idle(p.servers[l].idle) <==> c in p.servers[l].idle;
    }
    forall g | 0 <= g < |p.held| && g != h ensures p.held[g] != Some(c) {
      HeldOnce(p, h, g);
    }
  }

  lemma HeldOnce(p: Pools, h: nat, g: nat)
    requires Accounted(p) && h < |p.held| && g < |p.held| && g != h && p.held[h].Some?
    ensures p.held[g] != p.held[h]
  {
    hide Held;
    var c := p.held[h].value;
    var without := p.held[h := None];
    HeldUpdate(p.held, h, None, c.server);
    if p.held[g] == p.held[h] {
      HeldHas(without, g);
    }
  }

  // ---- No connection is forgotten ----

  /** The connection with this number has been deleted, or is one of those of a server that exists. */
  ghost predicate Somewhere(p: Pools, id: nat) {
    exists c: Connection :: c.id == id && IsSomewhere(p, c)
  }

  predicate IsSomewhere(p: Pools, c: Connection) {
    c in p.freed || (c.server in p.servers && c in p.servers[c.server].made)
  }

  /** Every connection that was ever made is somewhere. */
  ghost predicate Complete(p: Pools) {
    forall id: nat :: id < p.next ==> Somewhere(p, id)
  }

  /** Nothing that was somewhere is nowhere. */
  lemma StillComplete(p: Pools, n: Pools)
    requires Complete(p) && n.next == p.next && forall c :: IsSomewhere(p, c) ==> IsSomewhere(n, c)
    ensures Complete(n)
  {
    forall id: nat | id < n.next ensures Somewhere(n, id) {
      assert Somewhere(p, id);
      var c: Connection :| c.id == id && IsSomewhere(p, c);
      assert IsSomewhere(n, c);
    }
  }

  lemma MovesKeepComplete(p: Pools, h: nat, k: nat)
    requires Complete(p)
    ensures CanTake(p, h, k) ==> Complete(Take(p, h, k))
    ensures CanGive(p, h) ==> Complete(Give(p, h))
    ensures k !in p.servers ==> Complete(AddServer(p, k))
    ensures k in p.servers && p.servers[k].idle != [] ==> Complete(Free(p, k))
  {
    hide Complete;
    if CanTake(p, h, k) {
      StillComplete(p, Take(p, h, k));
    }
    if CanGive(p, h) {
      StillComplete(p, Give(p, h));
    }
    if k !in p.servers {
      StillComplete(p, AddServer(p, k));
    }
    if k in p.servers && p.servers[k].idle != [] {
      StillComplete(p, Free(p, k));
    }
  }

  lemma CreateKeepsComplete(p: Pools, k: nat)
    requires Complete(p) && k in p.servers
    ensures Complete(Create(p, k))
  {
    var n := Create(p, k);
    forall id: nat | id < n.next ensures Somewhere(n, id) {
      if id == p.next {
        assert IsSomewhere(n, Connection(k, id));
      } else {
        assert Somewhere(p, id);
        var c: Connection :| c.id == id && IsSomewhere(p, c);
        assert IsSomewhere(n, c);
      }
    }
  }

  lemma AllAreIdle(s: Server)
    requires Balanced(s, multiset{})
    ensures forall c :: c in s.made ==> c in s.idle
  {
    forall c | c in s.made ensures c in s.idle {
      assert Idle(s.idle)[c] == 1;
    }
  }

  lemma UnheldAreIdle(p: Pools, k: nat)
    requires Accounted(p) && k in p.servers && Unheld(p, k)
    ensures forall c :: c in p.servers[k].made ==> c in p.servers[k].idle
  {
    hide Balanced, Held, Owned;
    assert Settled(p, k);
    HeldNone(p.held, k);
    AllAreIdle(p.servers[k]);
  }

  lemma RemovedAreFreed(p: Pools, k: nat)
    requires k in p.servers && forall c :: c in p.servers[k].made ==> c in p.servers[k].idle
    ensures forall c :: IsSomewhere(p, c) ==> IsSomewhere(RemoveServer(p, k), c)
  {
  }

  /** When a server is deleted whose connections nobody holds, all of them are. */
  lemma RemoveKeepsComplete(p: Pools, k: nat)
    requires Complete(p) && Accounted(p) && k in p.servers && Unheld(p, k)
    ensures Complete(RemoveServer(p, k))
  {
    hide Accounted, Complete, Unheld, IsSomewhere;
    UnheldAreIdle(p, k);
    RemovedAreFreed(p, k);
    StillComplete(p, RemoveServer(p, k));
  }

  // ---- One server's queue ----

  /** After a request the connection that served it is last in the queue. */
  function Rotated(q: seq<Connection>): seq<Connection> {
    if q == [] then [] else q[1..] + [q[0]]
  }

  /** Fetching a connection and returning it moves it to the back and changes nothing else. */
  lemma RequestRotates(p: Pools, h: nat, k: nat)
    requires CanTake(p, h, k) && p.servers[k].idle[0].server == k
    ensures CanGive(Take(p, h, k), h)
    ensures Give(Take(p, h, k), h) == p.(servers := p.servers[k := p.servers[k].(idle := Rotated(p.servers[k].idle))])
  {
    var s, n := p.servers[k], Give(Take(p, h, k), h);
    assert n.servers[k] == s.(idle := Rotated(s.idle));
    assert n.held == p.held;
    assert n.servers == p.servers[k := s.(idle := Rotated(s.idle))];
  }

  /** The connections made by a round of attempts, numbered as they succeed. */
  function Made(number: nat, next: nat, connects: seq<bool>): seq<Connection> {
    if connects == [] then []
    else
      var before := Made(number, next, connects[..|connects| - 1]);
      if connects[|connects| - 1] then before + [Connection(number, next + |before|)] else before
  }

  /** The attempts that succeeded. */
  ghost function Successes(connects: seq<bool>): set<nat> {
    set i: nat | i < |connects| && connects[i]
  }

  /** As many connections are kept as attempts succeeded, numbered on from the last, all the server's
      own. */
  lemma {:induction false} MadeAreSuccesses(number: nat, next: nat, connects: seq<bool>)
    ensures |Made(number, next, connects)| == |Successes(connects)|
    ensures forall k :: 0 <= k < |Made(number, next, connects)| ==>
              Made(number, next, connects)[k] == Connection(number, next + k)
  {
    if connects == [] {
      assert Successes(connects) == {};
    } else {
      var last := |connects| - 1;
      MadeAreSuccesses(number, next, connects[..last]);
      var before := Successes(connects[..last]);
      assert last !in before;
      assert Successes(connects) == if connects[last] then before + {last} else before;
    }
  }

  /** With the first and third of three attempts successful there are two connections, turned by one. */
  lemma TwoOfThree(number: nat, next: nat)
    ensures Rotated(Made(number, next, [true, false, true])) == [Connection(number, next + 1), Connection(number, next)]
  {
    assert [true, false, true][..2] == [true, false] && [true, false][..1] == [true] && [true][..0] == [];
    assert Made(number, next, [true]) == [Connection(number, next)];
    assert Made(number, next, [true, false]) == [Connection(number, next)];
  }

  class RedisServer {
    const number: nat
    const connNum: nat
    var idle: seq<Connection>
    /** The number of the next connection to be made. */
    var next: nat

    constructor (number: nat, connNum: nat, next: nat)
      ensures this.number == number && this.connNum == connNum && this.next == next && idle == []
    {
      this.number, this.connNum, this.next, idle := number, connNum, next, [];
    }

    method FetchConnection() returns (conn: Option<Connection>)
      modifies this`idle
      ensures old(idle) == [] ==> conn == None && idle == []
      ensures old(idle) != [] ==> conn.Some? && [conn.value] + idle == old(idle)
    {
      conn := None;
      if idle != [] {
        conn := Some(idle[0]);
        idle := idle[1..];
      }
    }

    method ReturnConnection(conn: Connection)
      modifies this`idle
      ensures idle == old(idle) + [conn]
    {
      idle := idle + [conn];
    }

    /** Every idle connection is deleted, front to back. */
    method CleanConn() returns (deleted: seq<Connection>)
      modifies this`idle
      ensures idle == [] && deleted == old(idle)
    {
      deleted := [];
      while idle != []
        invariant deleted + idle == old(idle)
        decreases |idle|
      {
        deleted := deleted + [idle[0]];
        idle := idle[1..];
      }
    }

    /** Clean the queue and make the connections anew; those that fail are not kept. The server is then
        asked for its timeout, if there is a connection to ask with. */
    method Initialize(connects: seq<bool>, answer: int) returns (ok: bool, deleted: seq<Connection>)
      requires |connects| == connNum
      modifies this
      ensures deleted == old(idle)
      ensures idle == Rotated(Made(number, old(next), connects))
      ensures next == old(next) + |Made(number, old(next), connects)|
      ensures ok <==> idle != []
      ensures |idle| == |Successes(connects)| && (ok <==> exists i :: 0 <= i < |connects| && connects[i])
    {
      MadeAreSuccesses(number, next, connects);
      assert Successes(connects) != {} <==> exists i :: 0 <= i < |connects| && connects[i] by {
        assert forall i: nat :: i in Successes(connects) <==> i < |connects| && connects[i];
      }
      deleted := CleanConn();
      ghost var start := next;
      for i := 0 to connNum
        invariant idle == Made(number, start, connects[..i])
        invariant next == start + |idle|
        invariant start == old(next)
      {
        assert connects[..i + 1][..i] == connects[..i];
        if connects[i] {
          idle := idle + [Connection(number, next)];
          next := next + 1;
        }
      }
      assert connects[..connNum] == connects;
      if idle != [] {
        var ret := ServRequest(answer);
      }
      return idle != [], deleted;
    }

    /** A blocking request is served by the connection at the front, if one turns up in three tries. */
    method ServRequest(answer: int) returns (ret: int)
      modifies this`idle
      ensures ret == if old(idle) == [] then RC_NO_RESOURCE else answer
      ensures idle == Rotated(old(idle))
    {
      var conn: Option<Connection> := None;
      var tries := RQST_RETRY_TIMES;
      while tries > 0
        invariant tries >= 0 && conn == None && idle == old(idle)
        invariant tries < RQST_RETRY_TIMES ==> idle == []
      {
        tries := tries - 1;
        conn := FetchConnection();
        if conn.Some? {
          break;
        }
      }
      if conn.None? {
        return RC_NO_RESOURCE;
      }
      ReturnConnection(conn.value);
      ret := answer;
    }
  }
}
