/** A run of the client that ends with a server nobody knows: a load creates a server for an address,
    none of its connections can be made, and the load gives up on it without deleting it. */
module LostServers {
  import opened Wrappers
  import opened ConnectionPool
  import opened PoolSafety

  /** A client without callers, each of whose servers has one connection; it has one server, `k`. */
  predicate Lone(s: State, k: nat) {
    && s.cluster && s.connNum == 1 && s.callers == [] && s.readers == {} && s.table == [k] && s.built == []
    && s.pools.held == [None] && k in s.pools.servers && k < s.nextServer
    && |s.pools.servers[k].idle| == 1 && s.pools.servers[k].idle[0].server == k
  }

  lemma OneRotates(p: Pools, k: nat)
    requires p.held == [None] && k in p.servers && |p.servers[k].idle| == 1 && p.servers[k].idle[0].server == k
    ensures CanTake(p, 0, k) && Take(p, 0, k).held == [Some(p.servers[k].idle[0])]
    ensures CanGive(Take(p, 0, k), 0) && Give(Take(p, 0, k), 0) == p
  {
    RequestRotates(p, 0, k);
    assert Rotated(p.servers[k].idle) == p.servers[k].idle;
    assert p.servers[k := p.servers[k]] == p.servers;
  }

  /** The server answers, and a new one is created. */
  lemma LoadOpens(s: State, k: nat)
    requires Lone(s, k) && s.refresher.Loading?
    ensures After(s, [Ask(k), Answer(true)]) == s.(refresher := Building)
  {
    OneRotates(s.pools, k);
    hide Take, Give, CanTake, CanGive;
    var s1 := s.(refresher := Asking, pools := Take(s.pools, 0, k));
    assert Apply(s, Ask(k)) == s1;
    assert Apply(s1, Answer(true)) == s.(refresher := Building);
    TwoSteps(s, Ask(k), Answer(true));
  }

  lemma TwoSteps(s: State, a: Step, b: Step)
    requires Shaped(s)
    ensures After(s, [a, b]) == Apply(Apply(s, a), b)
  {
    hide Apply;
    assert [a, b][1..] == [b] && [b][1..] == [];
    assert After(Apply(s, a), [b]) == After(Apply(Apply(s, a), b), []);
  }

  lemma NewServerOpens(s: State)
    requires Shaped(s) && s.refresher.Building? && s.connNum == 1
    ensures After(s, [NewServer, Clean]) ==
      s.(refresher := Making(s.nextServer, 1), nextServer := s.nextServer + 1, pools := AddServer(s.pools, s.nextServer))
  {
    var p := AddServer(s.pools, s.nextServer);
    assert s.nextServer in p.servers && p.servers[s.nextServer].idle == [];
    hide AddServer;
    var s1 := s.(refresher := Cleaning(s.nextServer), nextServer := s.nextServer + 1, pools := p);
    assert Apply(s, NewServer) == s1;
    assert Apply(s1, Clean) == s1.(refresher := Making(s.nextServer, 1));
    hide Apply, After;
    TwoSteps(s, NewServer, Clean);
  }

  /** A server without a queue, about to make its only connection. */
  predicate Bare(s: State, x: nat) {
    && Shaped(s) && s.cluster && s.refresher == Making(x, 1)
    && x in s.pools.servers && s.pools.servers[x].idle == []
  }

  lemma InTurn(s: State, step: Step)
    requires Shaped(s) && (step.Judge? || step.Replace? || step.Delete?)
    ensures Apply(s, step) == RefreshServers(s, step)
  {
    hide RefreshServers;
  }

  /** The new server's one connection cannot be made, and the server is lost. */
  lemma NewServerFails(s: State, x: nat)
    requires Bare(s, x)
    ensures After(s, [Make(false), Probe]) == s.(refresher := Judging(x))
    ensures Apply(s.(refresher := Judging(x)), Judge) ==
      s.(refresher := Deleting(s.built, false), built := [], lost := s.lost + [x])
  {
    InTurn(s.(refresher := Judging(x)), Judge);
    JudgeStep(s.(refresher := Judging(x)));
    var s1 := s.(refresher := Making(x, 0));
    MakeStep(s, x, false);
    NothingToProbe(s1, x);
    hide Apply, RefreshServers;
    TwoSteps(s, Make(false), Probe);
  }

  lemma MakeStep(s: State, x: nat, connected: bool)
    requires Bare(s, x)
    ensures Apply(s, Make(connected)) ==
      s.(refresher := Making(x, 0), pools := if connected then Create(s.pools, x) else s.pools)
  {
    hide Create;
  }

  lemma NothingToProbe(s: State, x: nat)
    requires Shaped(s) && s.refresher == Making(x, 0) && x in s.pools.servers && s.pools.servers[x].idle == []
    ensures Apply(s, Probe) == s.(refresher := Judging(x))
  {
    assert !CanTake(s.pools, Self(s), x);
    hide CanTake, CanGive, Take, Give, Free, Create, AddServer, RemoveServer;
  }

  /** It can be made. */
  lemma NewServerConnects(s: State, x: nat)
    requires Bare(s, x) && s.callers == [] && s.pools.held == [None]
    ensures Apply(s, Make(true)) == s.(refresher := Making(x, 0), pools := Create(s.pools, x))
    ensures After(s.(refresher := Making(x, 0), pools := Create(s.pools, x)), [Probe, Probe]) ==
      s.(refresher := Judging(x), pools := Create(s.pools, x))
    ensures Apply(s.(refresher := Judging(x), pools := Create(s.pools, x)), Judge) ==
      s.(refresher := Building, built := s.built + [x], pools := Create(s.pools, x))
  {
    var p := Create(s.pools, x);
    OneRotates(p, x);
    assert x in p.servers && p.servers[x].idle != [];
    hide Take, Give, CanTake, CanGive, Create;
    var s1 := s.(refresher := Making(x, 0), pools := p);
    assert Apply(s, Make(true)) == s1;
    var s2 := s.(refresher := Probing(x), pools := Take(p, 0, x));
    assert Apply(s1, Probe) == s2;
    assert Apply(s2, Probe) == s.(refresher := Judging(x), pools := p);
    TwoSteps(s1, Probe, Probe);
  }

  lemma {:induction false} AfterConcat(s: State, a: seq<Step>, b: seq<Step>)
    requires Shaped(s)
    ensures Shaped(After(s, a)) && After(s, a + b) == After(After(s, a), b)
    decreases a
  {
    if a == [] {
      assert a + b == b;
    } else {
      assert (a + b)[1..] == a[1..] + b;
      hide Apply;
      AfterConcat(Apply(s, a[0]), a[1..], b);
    }
  }

  const OPEN := [NewServer, Clean]

  /** A load that replaces the one server by a new one. */
  function GoodLoad(k: nat): seq<Step> {
    [Ask(k), Answer(true)] + OPEN + [Make(true)] + [Probe, Probe] + [Judge] + [Replace, Delete] + [Delete, UnlockExclusive]
  }

  /** A load whose new server gets no connection. */
  function BadLoad(k: nat): seq<Step> {
    [Ask(k), Answer(true)] + OPEN + [Make(false), Probe] + [Judge] + [Delete, UnlockExclusive]
  }

  lemma OneStep(s: State, a: Step)
    requires Shaped(s)
    ensures After(s, [a]) == Apply(s, a)
  {
    hide Apply;
    assert [a][1..] == [];
    assert After(Apply(s, a), []) == Apply(s, a);
  }

  lemma LoadBegins(s: State, k: nat)
    requires Lone(s, k) && s.refresher.Loading?
    ensures var n := After(s, [Ask(k), Answer(true)] + OPEN);
      && n == s.(refresher := Making(s.nextServer, 1), nextServer := s.nextServer + 1,
                 pools := AddServer(s.pools, s.nextServer))
      && Lone(n, k) && Bare(n, s.nextServer)
  {
    LoadOpens(s, k);
    AfterConcat(s, [Ask(k), Answer(true)], OPEN);
    NewServerOpens(s.(refresher := Building));
    hide After;
  }

  lemma DeleteStep(s: State)
    requires Shaped(s) && s.refresher.Deleting?
    ensures var Deleting(doomed, success) := s.refresher;
      && (doomed == [] ==> RefreshServers(s, Delete) == s.(refresher := Done, valid := success))
      && (doomed != [] && doomed[0] in s.pools.servers ==>
        RefreshServers(s, Delete) ==
        s.(refresher := Deleting(doomed[1..], success), pools := RemoveServer(s.pools, doomed[0])))
  {
    hide RemoveServer;
  }

  lemma UnlockStep(s: State)
    requires Shaped(s) && s.refresher.Done?
    ensures Apply(s, UnlockExclusive) == s.(refresher := Outside, writer := false)
  {
  }

  lemma LoadEnds(s: State, success: bool)
    requires Shaped(s) && s.refresher == Deleting([], success)
    ensures After(s, [Delete, UnlockExclusive]) == s.(refresher := Outside, writer := false, valid := success)
  {
    hide Apply, After, RefreshServers;
    DeleteStep(s);
    InTurn(s, Delete);
    UnlockStep(s.(refresher := Done, valid := success));
    TwoSteps(s, Delete, UnlockExclusive);
  }

  lemma NewServerIsLost(s: State, x: nat)
    requires Bare(s, x)
    ensures After(s, [Make(false), Probe] + [Judge]) ==
      s.(refresher := Deleting(s.built, false), built := [], lost := s.lost + [x])
  {
    hide Apply, After;
    NewServerFails(s, x);
    AfterConcat(s, [Make(false), Probe], [Judge]);
    OneStep(s.(refresher := Judging(x)), Judge);
  }

  lemma BadLoadLoses(s: State, k: nat)
    requires Lone(s, k) && s.refresher.Loading?
    ensures var n := After(s, BadLoad(k));
      && Lone(n, k) && n.refresher.Outside? && !n.writer && !n.valid && n.lost == s.lost + [s.nextServer]
  {
    hide Apply, After;
    var opening := [Ask(k), Answer(true)] + OPEN;
    var losing := [Make(false), Probe] + [Judge];
    LoadBegins(s, k);
    var s4 := After(s, opening);
    NewServerIsLost(s4, s.nextServer);
    LoadEnds(s4.(refresher := Deleting([], false), lost := s.lost + [s.nextServer]), false);
    AfterConcat(s, opening, losing);
    AfterConcat(s, opening + losing, [Delete, UnlockExclusive]);
    hide OPEN, AddServer;
    assert BadLoad(k) == opening + losing + [Delete, UnlockExclusive];
  }

  lemma NewServerIsBuilt(s: State, x: nat)
    requires Bare(s, x) && s.callers == [] && s.pools.held == [None]
    ensures After(s, [Make(true)] + [Probe, Probe] + [Judge]) ==
      s.(refresher := Building, built := s.built + [x], pools := Create(s.pools, x))
  {
    hide Apply, After, Create;
    NewServerConnects(s, x);
    var s1 := s.(refresher := Making(x, 0), pools := Create(s.pools, x));
    OneStep(s, Make(true));
    AfterConcat(s, [Make(true)], [Probe, Probe]);
    OneStep(s1.(refresher := Judging(x)), Judge);
    AfterConcat(s, [Make(true)] + [Probe, Probe], [Judge]);
  }

  lemma ReplaceStep(s: State)
    requires Shaped(s) && s.refresher.Building?
    ensures RefreshServers(s, Replace) == s.(refresher := Deleting(s.table, true), table := s.built, built := [])
  {
  }

  lemma OldServerGoes(s: State, k: nat, x: nat)
    requires Shaped(s) && s.table == [k] && k in s.pools.servers && s.refresher.Building? && s.built == [x]
    ensures After(s, [Replace, Delete]) ==
      s.(refresher := Deleting([], true), table := [x], built := [], pools := RemoveServer(s.pools, k))
  {
    hide Apply, After, RefreshServers, RemoveServer;
    var s1 := s.(refresher := Deleting([k], true), table := [x], built := []);
    ReplaceStep(s);
    InTurn(s, Replace);
    assert [k][1..] == [];
    DeleteStep(s1);
    InTurn(s1, Delete);
    TwoSteps(s, Replace, Delete);
  }

  lemma OneConnection(p: Pools, k: nat, x: nat)
    requires k in p.servers && x != k
    ensures var q := Create(AddServer(p, x), x);
      && k in q.servers && q.held == p.held && RemoveServer(q, k).held == p.held
      && x in RemoveServer(q, k).servers && RemoveServer(q, k).servers[x].idle == [Connection(x, p.next)]
  {
  }

  lemma GoodLoadReplaces(s: State, k: nat)
    requires Lone(s, k) && s.refresher.Loading?
    ensures var n := After(s, GoodLoad(k));
      && Lone(n, s.nextServer) && n.refresher.Outside? && !n.writer && n.valid && n.lost == s.lost
  {
    hide Apply, After;
    var x := s.nextServer;
    OneConnection(s.pools, k, x);
    var opening := [Ask(k), Answer(true)] + OPEN;
    var building := [Make(true)] + [Probe, Probe] + [Judge];
    LoadBegins(s, k);
    var s4 := After(s, opening);
    NewServerIsBuilt(s4, x);
    AfterConcat(s, opening, building);
    assert s4.built + [x] == [x];
    var s8 := s4.(refresher := Building, built := [x], pools := Create(s4.pools, x));
    OldServerGoes(s8, k, x);
    AfterConcat(s, opening + building, [Replace, Delete]);
    LoadEnds(s8.(refresher := Deleting([], true), table := [x], built := [], pools := RemoveServer(s8.pools, k)), true);
    AfterConcat(s, opening + building + [Replace, Delete], [Delete, UnlockExclusive]);
    hide OPEN, Create, AddServer, RemoveServer;
    assert GoodLoad(k) == opening + building + [Replace, Delete] + [Delete, UnlockExclusive];
  }

  /** The refresher comes back, is woken if the client is valid, and loads. */
  lemma RefresherReturns(s: State)
    requires Shaped(s) && s.refresher.Outside? && !s.writer && s.readers == {}
    ensures s.valid ==> After(s, [LockExclusive, Check] + [Wake]) == s.(refresher := Loading, writer := true)
    ensures !s.valid ==> After(s, [LockExclusive, Check]) == s.(refresher := Loading, writer := true)
  {
    var s1 := s.(refresher := Checking, writer := true);
    assert Apply(s, LockExclusive) == s1;
    var s2 := if s.valid then s.(refresher := Waiting) else s.(refresher := Loading, writer := true);
    assert Apply(s1, Check) == s2;
    assert s.valid ==> Apply(s2, Wake) == s.(refresher := Loading, writer := true);
    hide Apply, After;
    TwoSteps(s, LockExclusive, Check);
    OneStep(s2, Wake);
    AfterConcat(s, [LockExclusive, Check], [Wake]);
  }

  /** A load that loses a server and a later one that succeeds: the client is valid, and a server it
      does not know exists. */
  lemma LostServerIsReachable() returns (u: Setup, steps: seq<Step>)
    ensures IsSetup(u)
    ensures var s := After(Start(u), steps);
      && !s.writer && s.valid && s.lost != [] && exists k :: k in s.pools.servers && k !in s.table
  {
    u := Setup(true, 1, 1, 0);
    var s0 := Start(u);
    StartIsLone(u);
    var first := GoodLoad(0);
    GoodLoadReplaces(s0, 0);
    var s1 := After(s0, first);
    var again := [LockExclusive, Check] + [Wake];
    RefresherReturns(s1);
    var s2 := After(s1, again);
    var bad := BadLoad(1);
    assert s0.nextServer == 1;
    hide Start, After, Apply, GoodLoad, BadLoad;
    BadLoadLoses(s2, 1);
    var s3 := After(s2, bad);
    RefresherReturns(s3);
    var s4 := After(s3, [LockExclusive, Check]);
    var good := GoodLoad(1);
    GoodLoadReplaces(s4, 1);
    AfterConcat(s0, first, again);
    AfterConcat(s0, first + again, bad);
    AfterConcat(s0, first + again + bad, [LockExclusive, Check]);
    AfterConcat(s0, first + again + bad + [LockExclusive, Check], good);
    steps := first + again + bad + [LockExclusive, Check] + good;
    ValidClientIsStocked(u, steps);
    var lost := After(s0, steps).lost[0];
    assert lost in After(s0, steps).lost;
  }

  lemma StartIsLone(u: Setup)
    requires u == Setup(true, 1, 1, 0)
    ensures Lone(Start(u), 0) && Start(u).refresher.Loading? && Start(u).nextServer == 1 && Start(u).lost == []
  {
    assert FirstServer(1, 1) == Create(FirstServer(0, 1), 0);
    assert FirstServer(0, 1).held == [None];
    assert FirstServer(0, 1).servers[0].idle == [];
  }
}
