/** Every interleaving of callers, who make blocking requests under the shared lock, with the thread
    that refreshes the client under the exclusive one: initialising its one server again, or loading
    the cluster's servers anew and deleting the old ones. */
module PoolSafety {
  import opened Wrappers
  import opened ConnectionPool

  /** Where a caller is in a request; the server is the one it found for its command. */
  datatype Caller =
    | Away
    | Locked
    | Trying(server: nat, left: nat)
    | Requesting(server: nat)
    | Leaving

  /** Where the refreshing thread is. Initialising a server cleans its queue, makes its connections one
      by one and asks it for its timeout; loading asks an old server for the slots, initialises a
      server for each address, and deletes the old servers, or the new ones if that fails. */
  datatype Refresher =
    | Outside
    | Checking
    | Waiting
    | Loading
    | Asking
    | Building
    | Cleaning(server: nat)
    | Making(server: nat, left: nat)
    | Probing(server: nat)
    | Judging(server: nat)
    | Deleting(doomed: seq<nat>, success: bool)
    | Done

  /** The client: `table` are its servers, `built` those a load has made so far, and `lost` those that
      were made without a connection, which the load that made them gave up on and nobody deletes. The
      shared lock is held by the `readers`, the exclusive one by the refresher if there is a `writer`. */
  datatype State = State(
    cluster: bool, connNum: nat, table: seq<nat>, built: seq<nat>, lost: seq<nat>, nextServer: nat, valid: bool,
    readers: set<nat>, writer: bool, callers: seq<Caller>, refresher: Refresher, pools: Pools)

  datatype Step =
    | LockShared(t: nat)
    | Find(t: nat, found: Option<nat>)
    | Fetch(t: nat)
    | Finish(t: nat)
    | UnlockShared(t: nat)
    | LockExclusive
    | Check
    | Wake
    | Ask(server: nat)
    | Answer(useful: bool)
    | GiveUp
    | NewServer
    | Reinitialize
    | Clean
    | Make(connected: bool)
    | Probe
    | Judge
    | Replace
    | Delete
    | UnlockExclusive

  /** There is a place for a connection for each caller and for the refresher. */
  predicate Shaped(s: State) {
    |s.pools.held| == |s.callers| + 1
  }

  // ---- Steps of a caller ----

  function At(s: State, t: nat, caller: Caller): State
    requires t < |s.callers|
  {
    s.(callers := s.callers[t := caller])
  }

  function Call(s: State, step: Step): (n: State)
    requires Shaped(s)
    ensures Shaped(n) && |n.callers| == |s.callers|
  {
    match step
    case LockShared(t) =>
      if t < |s.callers| && s.callers[t].Away? && !s.writer
      then At(s, t, Locked).(readers := s.readers + {t}) else s
    case Find(t, found) =>
      if t < |s.callers| && s.callers[t].Locked? && (found.Some? ==> found.value in s.table)
      then At(s, t, if s.valid && found.Some? then Trying(found.value, RQST_RETRY_TIMES) else Leaving) else s
    case Fetch(t) =>
      if t < |s.callers| && s.callers[t].Trying?
      then
        var Trying(k, left) := s.callers[t];
        if left == 0 then At(s, t, Leaving)
        else if CanTake(s.pools, t, k) then At(s, t, Requesting(k)).(pools := Take(s.pools, t, k))
        else At(s, t, Trying(k, left - 1))
      else s
    case Finish(t) =>
      if t < |s.callers| && s.callers[t].Requesting? && CanGive(s.pools, t)
      then At(s, t, Leaving).(pools := Give(s.pools, t)) else s
    case UnlockShared(t) =>
      if t < |s.callers| && s.callers[t].Leaving?
      then At(s, t, Away).(readers := s.readers - {t}) else s
    case _ => s
  }

  // ---- Steps of the refresher ----

  /** Its place among the threads. */
  function Self(s: State): nat {
    |s.callers|
  }

  function Refresh(s: State, step: Step): (n: State)
    requires Shaped(s)
    ensures Shaped(n) && |n.callers| == |s.callers|
  {
    match step
    case LockExclusive =>
      if s.refresher.Outside? && !s.writer && s.readers == {} then s.(refresher := Checking, writer := true) else s
    case Check =>
      if s.refresher.Checking?
      then if s.valid then s.(refresher := Waiting, writer := false) else s.(refresher := Loading)
      else s
    case Wake =>
      if s.refresher.Waiting? && !s.writer && s.readers == {} then s.(refresher := Loading, writer := true) else s
    case UnlockExclusive =>
      if s.refresher.Done? then s.(refresher := Outside, writer := false) else s
    case Ask(k) =>
      if s.refresher.Loading? && s.cluster && k in s.table && CanTake(s.pools, Self(s), k)
      then s.(refresher := Asking, pools := Take(s.pools, Self(s), k)) else s
    case Answer(useful) =>
      if s.refresher.Asking? && CanGive(s.pools, Self(s))
      then s.(refresher := if useful then Building else Loading, pools := Give(s.pools, Self(s))) else s
    case GiveUp =>
      if s.refresher.Loading? && s.cluster then s.(refresher := Done, valid := false) else s
    case _ => RefreshServers(s, step)
  }

  function RefreshServers(s: State, step: Step): (n: State)
    requires Shaped(s)
    ensures Shaped(n) && |n.callers| == |s.callers|
  {
    match step
    case NewServer =>
      if s.refresher.Building?
      then s.(refresher := Cleaning(s.nextServer), nextServer := s.nextServer + 1, pools := AddServer(s.pools, s.nextServer))
      else s
    case Reinitialize =>
      if s.refresher.Loading? && !s.cluster && s.table != [] then s.(refresher := Cleaning(s.table[0])) else s
    case Clean =>
      if s.refresher.Cleaning? && s.refresher.server in s.pools.servers
      then
        var k := s.refresher.server;
        if s.pools.servers[k].idle == [] then s.(refresher := Making(k, s.connNum))
        else s.(pools := Free(s.pools, k))
      else s
    case Make(connected) =>
      if s.refresher.Making? && s.refresher.left > 0 && s.refresher.server in s.pools.servers
      then
        var Making(k, left) := s.refresher;
        s.(refresher := Making(k, left - 1), pools := if connected then Create(s.pools, k) else s.pools)
      else s
    case Probe =>
      if s.refresher.Making? && s.refresher.left == 0
      then
        var k := s.refresher.server;
        if CanTake(s.pools, Self(s), k) then s.(refresher := Probing(k), pools := Take(s.pools, Self(s), k))
        else s.(refresher := Judging(k))
      else if s.refresher.Probing? && CanGive(s.pools, Self(s))
      then s.(refresher := Judging(s.refresher.server), pools := Give(s.pools, Self(s)))
      else s
    case Judge =>
      if s.refresher.Judging? && s.refresher.server in s.pools.servers
      then
        var k := s.refresher.server;
        var good := s.pools.servers[k].idle != [];
        if !s.cluster then s.(refresher := Done, valid := good)
        else if good then s.(refresher := Building, built := s.built + [k])
        else s.(refresher := Deleting(s.built, false), built := [], lost := s.lost + [k])
      else s
    case Replace =>
      if s.refresher.Building?
      then s.(refresher := Deleting(s.table, true), table := s.built, built := []) else s
    case Delete =>
      if s.refresher.Deleting?
      then
        var Deleting(doomed, success) := s.refresher;
        if doomed == [] then s.(refresher := Done, valid := success)
        else if doomed[0] in s.pools.servers
        then s.(refresher := Deleting(doomed[1..], success), pools := RemoveServer(s.pools, doomed[0]))
        else s
      else s
    case _ => s
  }

  /** A step of one thread; one that is not possible changes nothing. */
  function Apply(s: State, step: Step): (n: State)
    requires Shaped(s)
    ensures Shaped(n) && |n.callers| == |s.callers|
  {
    if step.LockShared? || step.Find? || step.Fetch? || step.Finish? || step.UnlockShared? then Call(s, step)
    else Refresh(s, step)
  }

  function After(s: State, steps: seq<Step>): State
    requires Shaped(s)
    decreases steps
  {
    if steps == [] then s else After(Apply(s, steps[0]), steps[1..])
  }

  // ---- What holds at every moment ----

  predicate Exclusive(r: Refresher) {
    !r.Outside? && !r.Waiting?
  }

  /** The locks are held by those who are in between taking and releasing them, and the exclusive one
      shuts out all others. */
  predicate LocksHeld(s: State) {
    && (forall t :: 0 <= t < |s.callers| ==> (t in s.readers <==> !s.callers[t].Away?))
    && (forall t :: t in s.readers ==> t < |s.callers|)
    && (s.writer <==> Exclusive(s.refresher))
    && (s.writer ==> s.readers == {})
  }

  /** A caller holds a connection exactly while it makes its request, of the server it found, and that
      server is one of the client's. */
  predicate HandFull(caller: Caller, hand: Option<Connection>, table: seq<nat>) {
    && (hand.Some? <==> caller.Requesting?)
    && (caller.Requesting? ==> hand.value.server == caller.server)
    && (caller.Requesting? || caller.Trying? ==> caller.server in table)
  }

  predicate HandsFull(s: State)
    requires Shaped(s)
  {
    && (forall t :: 0 <= t < |s.callers| ==> HandFull(s.callers[t], s.pools.held[t], s.table))
    && OwnHandFull(s)
  }

  predicate OwnHandFull(s: State)
    requires Shaped(s)
  {
    s.pools.held[Self(s)].Some? <==> s.refresher.Asking? || s.refresher.Probing?
  }

  predicate Initialising(r: Refresher) {
    r.Cleaning? || r.Making? || r.Probing? || r.Judging?
  }

  /** How often a server is in a list. */
  function Count(q: seq<nat>, k: nat): nat {
    multiset(q)[k]
  }

  /** A load is initialising the server. */
  function Current(s: State, k: nat): nat {
    if s.cluster && Initialising(s.refresher) && s.refresher.server == k then 1 else 0
  }

  /** A load is about to delete the server. */
  function Doomed(s: State, k: nat): nat {
    if s.refresher.Deleting? then Count(s.refresher.doomed, k) else 0
  }

  /** In how many places a server is: with the client, in the hands of a load, or lost. */
  function Places(s: State, k: nat): nat {
    Count(s.table, k) + Count(s.built, k) + Current(s, k) + Doomed(s, k) + Count(s.lost, k)
  }

  /** Each server that exists is in one place, and no other server is anywhere. */
  ghost predicate ServersKnown(s: State) {
    && (forall k :: Places(s, k) == if k in s.pools.servers then 1 else 0)
    && (forall k :: k in s.pools.servers ==> k < s.nextServer)
  }

  predicate PhasesMatch(s: State) {
    && (s.built != [] ==> s.refresher.Building? || Initialising(s.refresher))
    && (!s.cluster ==>
        && |s.table| == 1 && s.built == []
        && !s.refresher.Asking? && !s.refresher.Building? && !s.refresher.Deleting?
        && (Initialising(s.refresher) ==> s.refresher.server == s.table[0]))
  }

  predicate HasMade(s: State, k: nat) {
    k in s.pools.servers && s.pools.servers[k].made != {}
  }

  predicate HasNone(s: State, k: nat) {
    k in s.pools.servers && s.pools.servers[k].made == {}
  }

  /** No server has more connections than it should, while the client is valid each of its servers has
      one, and lost servers have none. */
  predicate Stocked(s: State) {
    && (forall k :: k in s.pools.servers ==> |s.pools.servers[k].made| <= s.connNum)
    && (s.refresher.Making? && s.refresher.server in s.pools.servers ==>
        |s.pools.servers[s.refresher.server].made| + s.refresher.left <= s.connNum)
    && (forall i :: 0 <= i < |s.built| ==> HasMade(s, s.built[i]))
    && (s.valid && (!s.writer || s.refresher.Checking? || s.refresher.Done?) ==>
        forall i :: 0 <= i < |s.table| ==> HasMade(s, s.table[i]))
    && (s.refresher.Deleting? && s.refresher.success ==> forall i :: 0 <= i < |s.table| ==> HasMade(s, s.table[i]))
    && (forall i :: 0 <= i < |s.lost| ==> HasNone(s, s.lost[i]))
  }

  ghost predicate Invariant(s: State) {
    Shaped(s) && LocksHeld(s) && HandsFull(s) && ServersKnown(s) && PhasesMatch(s) && Stocked(s) && Accounted(s.pools)
  }

  // ---- Every step keeps it ----

  /** Queues and hands may change, but servers come and go, and connections are made, only elsewhere. */
  predicate SameStock(p: Pools, n: Pools) {
    p.servers.Keys == n.servers.Keys && forall k :: k in p.servers ==> n.servers[k].made == p.servers[k].made
  }

  lemma TakeStock(p: Pools, h: nat, k: nat)
    requires CanTake(p, h, k)
    ensures SameStock(p, Take(p, h, k))
    ensures Take(p, h, k).held == p.held[h := Some(p.servers[k].idle[0])]
  {
  }

  lemma GiveStock(p: Pools, h: nat)
    requires CanGive(p, h)
    ensures SameStock(p, Give(p, h))
    ensures Give(p, h).held == p.held[h := None]
  {
  }

  predicate OnlyHandsMoved(s: State, n: State) {
    n == s.(callers := n.callers, readers := n.readers, pools := n.pools) && SameStock(s.pools, n.pools)
  }

  lemma FetchFrame(s: State, t: nat)
    requires Shaped(s)
    ensures OnlyHandsMoved(s, Call(s, Fetch(t))) && Call(s, Fetch(t)).pools.held[Self(s)] == s.pools.held[Self(s)]
  {
    hide Take, CanTake;
    if t < |s.callers| && s.callers[t].Trying? && CanTake(s.pools, t, s.callers[t].server) {
      TakeStock(s.pools, t, s.callers[t].server);
    }
  }

  lemma FinishFrame(s: State, t: nat)
    requires Shaped(s)
    ensures OnlyHandsMoved(s, Call(s, Finish(t))) && Call(s, Finish(t)).pools.held[Self(s)] == s.pools.held[Self(s)]
  {
    hide Give, CanGive;
    if t < |s.callers| && CanGive(s.pools, t) {
      GiveStock(s.pools, t);
    }
  }

  /** A caller changes only its own place, its lock and its connection. */
  lemma CallFrame(s: State, step: Step)
    requires Shaped(s)
    ensures OnlyHandsMoved(s, Call(s, step)) && Call(s, step).pools.held[Self(s)] == s.pools.held[Self(s)]
  {
    if step.Fetch? {
      FetchFrame(s, step.t);
    } else if step.Finish? {
      FinishFrame(s, step.t);
    }
    hide Take, Give, CanTake, CanGive;
  }

  // By a caller

  lemma LocksKeptByCall(s: State, step: Step)
    requires Shaped(s) && LocksHeld(s)
    ensures LocksHeld(Call(s, step))
  {
    hide Take, Give, CanTake, CanGive;
  }

  lemma HandsKeptByCall(s: State, step: Step)
    requires Shaped(s) && HandsFull(s) && Accounted(s.pools)
    ensures HandsFull(Call(s, step))
  {
    hide Take, Give, CanGive, Accounted;
    if step.Fetch? && step.t < |s.callers| && s.callers[step.t].Trying? {
      HandKeptByFetch(s, step.t);
    } else if step.Finish? && step.t < |s.callers| && CanGive(s.pools, step.t) {
      GiveStock(s.pools, step.t);
    }
  }

  lemma HandKeptByFetch(s: State, t: nat)
    requires Shaped(s) && HandsFull(s) && Accounted(s.pools)
    requires t < |s.callers| && s.callers[t].Trying?
    ensures HandsFull(Call(s, Fetch(t)))
  {
    hide Take, CanTake, Accounted;
    var Trying(k, left) := s.callers[t];
    assert HandFull(s.callers[t], s.pools.held[t], s.table);
    if left > 0 && CanTake(s.pools, t, k) {
      TakeStock(s.pools, t, k);
      FrontBelongs(s.pools, t, k);
      var n := At(s, t, Requesting(k)).(pools := Take(s.pools, t, k));
      assert Call(s, Fetch(t)) == n;
      hide Call;
    }
  }

  lemma FrontBelongs(p: Pools, h: nat, k: nat)
    requires Accounted(p) && CanTake(p, h, k)
    ensures p.servers[k].idle[0].server == k
  {
    IdleIsMade(p.servers[k], Held(p.held, k));
  }

  lemma ServersKeptByHands(s: State, n: State)
    requires ServersKnown(s) && OnlyHandsMoved(s, n)
    ensures ServersKnown(n)
  {
    hide Count;
    assert forall k :: Places(n, k) == Places(s, k);
    SameServersKnown(s, n);
  }

  lemma StockKeptByHands(s: State, n: State)
    requires Stocked(s) && OnlyHandsMoved(s, n)
    ensures Stocked(n)
  {
    assert forall k :: k in n.pools.servers <==> k in s.pools.servers.Keys;
    assert forall k :: HasMade(s, k) ==> HasMade(n, k);
    assert forall k :: HasNone(s, k) ==> HasNone(n, k);
  }

  lemma OthersKeptByCall(s: State, step: Step)
    requires Shaped(s) && ServersKnown(s) && PhasesMatch(s) && Stocked(s)
    ensures ServersKnown(Call(s, step)) && PhasesMatch(Call(s, step)) && Stocked(Call(s, step))
  {
    CallFrame(s, step);
    hide Call, ServersKnown, Stocked;
    ServersKeptByHands(s, Call(s, step));
    StockKeptByHands(s, Call(s, step));
  }

  lemma AccountsKeptByCall(s: State, step: Step)
    requires Shaped(s) && Accounted(s.pools)
    ensures Accounted(Call(s, step).pools)
  {
    hide Accounted, Take, Give, CanTake, CanGive;
    if step.Fetch? && step.t < |s.callers| && s.callers[step.t].Trying? {
      var k := s.callers[step.t].server;
      if CanTake(s.pools, step.t, k) {
        TakeKeeps(s.pools, step.t, k);
      }
    }
    if step.Finish? && step.t < |s.callers| && CanGive(s.pools, step.t) {
      GiveKeeps(s.pools, step.t);
    }
  }

  lemma CallKeeps(s: State, step: Step)
    requires Invariant(s)
    ensures Invariant(Call(s, step))
  {
    LocksKeptByCall(s, step);
    HandsKeptByCall(s, step);
    OthersKeptByCall(s, step);
    AccountsKeptByCall(s, step);
    hide Call, LocksHeld, HandsFull, ServersKnown, PhasesMatch, Stocked, Accounted;
  }

  // By the refresher

  predicate SameThreads(s: State, n: State)
    requires Shaped(s) && Shaped(n) && |s.callers| == |n.callers|
  {
    && n.callers == s.callers && n.readers == s.readers && n.cluster == s.cluster && n.connNum == s.connNum
    && n.pools.held == s.pools.held[Self(s) := n.pools.held[Self(s)]]
  }

  lemma ProbeThreads(s: State)
    requires Shaped(s)
    ensures SameThreads(s, RefreshServers(s, Probe))
  {
    hide CanGive, Free, Create, AddServer, RemoveServer;
  }

  lemma OtherThreads(s: State, step: Step)
    requires Shaped(s) && !step.Probe?
    ensures var n := RefreshServers(s, step);
      && n.callers == s.callers && n.readers == s.readers && n.cluster == s.cluster && n.connNum == s.connNum
      && n.pools.held == s.pools.held
  {
    hide CanTake, CanGive, Take, Give;
  }

  lemma ServersFrame(s: State, step: Step)
    requires Shaped(s)
    ensures SameThreads(s, RefreshServers(s, step))
  {
    if step.Probe? {
      ProbeThreads(s);
    } else {
      OtherThreads(s, step);
      hide RefreshServers;
    }
  }

  /** The refresher changes no caller, and no hand but its own. */
  lemma RefreshFrame(s: State, step: Step)
    requires Shaped(s)
    ensures SameThreads(s, Refresh(s, step))
  {
    ServersFrame(s, step);
    hide RefreshServers, CanTake, CanGive;
  }

  lemma LocksKeptByRefresh(s: State, step: Step)
    requires Shaped(s) && LocksHeld(s)
    ensures LocksHeld(Refresh(s, step))
  {
    RefreshFrame(s, step);
    WriterFollows(s, step);
    hide Refresh;
  }

  lemma WriterFollows(s: State, step: Step)
    requires Shaped(s) && (s.writer <==> Exclusive(s.refresher)) && (s.writer ==> s.readers == {})
    ensures var n := Refresh(s, step); (n.writer <==> Exclusive(n.refresher)) && (n.writer ==> n.readers == {})
  {
    hide CanTake, CanGive, Take, Give, Free, Create, AddServer, RemoveServer;
  }

  /** Under the exclusive lock the callers' hands are empty, and nothing else is in a hand than what the
      refresher itself asks for. */
  lemma HandsEmpty(s: State, k: nat)
    requires Shaped(s) && LocksHeld(s) && HandsFull(s) && s.writer && !s.refresher.Asking? && !s.refresher.Probing?
    ensures Unheld(s.pools, k)
  {
    assert forall t :: 0 <= t < |s.callers| ==> HandFull(s.callers[t], s.pools.held[t], s.table);
  }

  lemma HandsKeptByRefresh(s: State, step: Step)
    requires Shaped(s) && LocksHeld(s) && HandsFull(s)
    ensures HandsFull(Refresh(s, step))
  {
    RefreshFrame(s, step);
    OwnHandFollows(s, step);
    TableKept(s, step);
    hide Refresh;
    var n := Refresh(s, step);
    forall t | 0 <= t < |n.callers| ensures HandFull(n.callers[t], n.pools.held[t], n.table) {
      assert HandFull(s.callers[t], s.pools.held[t], s.table);
    }
  }

  lemma OwnHandFollowsServers(s: State, step: Step)
    requires Shaped(s) && OwnHandFull(s)
    ensures OwnHandFull(RefreshServers(s, step))
  {
    hide CanGive;
  }

  lemma OwnHandFollows(s: State, step: Step)
    requires Shaped(s) && OwnHandFull(s)
    ensures OwnHandFull(Refresh(s, step))
  {
    OwnHandFollowsServers(s, step);
    hide CanGive, RefreshServers;
  }

  lemma TableKept(s: State, step: Step)
    requires Shaped(s)
    ensures Refresh(s, step).table == s.table || Exclusive(s.refresher)
  {
    hide CanTake, CanGive, Take, Give, Free, Create, AddServer, RemoveServer;
  }

  lemma PhasesKeptByRefresh(s: State, step: Step)
    requires Shaped(s) && PhasesMatch(s)
    ensures PhasesMatch(Refresh(s, step))
  {
    hide CanTake, CanGive, Take, Give, Free, Create, AddServer, RemoveServer;
  }

  lemma AccountsKeptByRefresh(s: State, step: Step)
    requires Invariant(s)
    ensures Accounted(Refresh(s, step).pools)
  {
    hide Accounted, Take, Give, Free, Create, AddServer, RemoveServer, Stocked, PhasesMatch, ServersKnown;
    var p, h := s.pools, Self(s);
    match step
    case Ask(k) =>
      if CanTake(p, h, k) {
        TakeKeeps(p, h, k);
      }
    case Answer(useful) =>
      if CanGive(p, h) {
        GiveKeeps(p, h);
      }
    case _ => AccountsKeptByServers(s, step);
  }

  lemma AccountsKeptByServers(s: State, step: Step)
    requires Invariant(s)
    ensures Accounted(RefreshServers(s, step).pools)
  {
    assert s.nextServer !in s.pools.servers;
    if s.refresher.Deleting? && s.refresher.doomed != [] {
      HandsEmpty(s, s.refresher.doomed[0]);
    }
    hide Invariant, Unheld, RefreshServers;
    AccountsKept(s, step);
  }

  lemma AccountsKept(s: State, step: Step)
    requires Shaped(s) && Accounted(s.pools) && s.nextServer !in s.pools.servers
    requires s.refresher.Deleting? && s.refresher.doomed != [] ==> Unheld(s.pools, s.refresher.doomed[0])
    ensures Accounted(RefreshServers(s, step).pools)
  {
    hide Accounted, Take, Give, Free, Create, AddServer, RemoveServer, Unheld;
    var p, h, r := s.pools, Self(s), s.refresher;
    match step
    case NewServer => AddServerKeeps(p, s.nextServer);
    case Clean =>
      if r.Cleaning? && r.server in p.servers && p.servers[r.server].idle != [] {
        FreeKeeps(p, r.server);
      }
    case Make(connected) =>
      if r.Making? && r.server in p.servers {
        CreateKeeps(p, r.server);
      }
    case Probe =>
      if r.Making? && CanTake(p, h, r.server) {
        TakeKeeps(p, h, r.server);
      } else if r.Probing? && CanGive(p, h) {
        GiveKeeps(p, h);
      }
    case Delete =>
      if r.Deleting? && r.doomed != [] && r.doomed[0] in p.servers {
        RemoveServerKeeps(p, r.doomed[0]);
      }
    case _ =>
  }

  lemma CountElement(q: seq<nat>)
    ensures forall k :: k in q <==> Count(q, k) > 0
    ensures forall i :: 0 <= i < |q| ==> Count(q, q[i]) > 0
  {
    assert forall k :: k in q <==> k in multiset(q);
  }

  lemma CountAppend(q: seq<nat>, x: nat, k: nat)
    ensures Count(q + [x], k) == Count(q, k) + if k == x then 1 else 0
    ensures Count([], k) == 0
  {
  }

  lemma CountFront(q: seq<nat>, k: nat)
    requires q != []
    ensures Count(q, k) == Count(q[1..], k) + if k == q[0] then 1 else 0
  {
    assert q == [q[0]] + q[1..];
  }

  lemma SameServersKnown(s: State, n: State)
    requires ServersKnown(s) && n.nextServer == s.nextServer
    requires n.pools.servers.Keys == s.pools.servers.Keys && forall k :: Places(n, k) == Places(s, k)
    ensures ServersKnown(n)
  {
    hide Places;
    assert forall k :: k in n.pools.servers <==> k in n.pools.servers.Keys;
    assert forall k :: k in s.pools.servers <==> k in s.pools.servers.Keys;
  }

  /** Steps that make or delete no server. */
  predicate InPlace(s: State, step: Step) {
    && !step.NewServer? && !step.Replace?
    && (step.Judge? ==> !(s.refresher.Judging? && s.cluster))
    && (step.Delete? ==> !(s.refresher.Deleting? && s.refresher.doomed != []))
  }

  predicate SameKeys(s: State, n: State) {
    && n.nextServer == s.nextServer && n.table == s.table && n.cluster == s.cluster
    && n.pools.servers.Keys == s.pools.servers.Keys
  }

  lemma KeysKeptByServers(s: State, step: Step)
    requires Shaped(s) && InPlace(s, step)
    ensures SameKeys(s, RefreshServers(s, step))
  {
  }

  lemma KeysKeptInPlace(s: State, step: Step)
    requires Shaped(s) && InPlace(s, step)
    ensures SameKeys(s, Refresh(s, step))
  {
    KeysKeptByServers(s, step);
    hide RefreshServers;
  }

  lemma ListsKeptByServers(s: State, step: Step)
    requires Shaped(s) && PhasesMatch(s) && InPlace(s, step)
    ensures var n := RefreshServers(s, step);
      && n.table == s.table && n.built == s.built && n.lost == s.lost && n.cluster == s.cluster
      && (s.cluster && Initialising(s.refresher) <==> n.cluster && Initialising(n.refresher))
      && (s.cluster && Initialising(s.refresher) ==> n.refresher.server == s.refresher.server)
      && (if n.refresher.Deleting? then n.refresher.doomed else []) == (if s.refresher.Deleting? then s.refresher.doomed else [])
  {
    hide CanTake, CanGive, Take, Give, Free, Create, AddServer, RemoveServer;
  }

  lemma PlacesKeptByServers(s: State, step: Step)
    requires Shaped(s) && PhasesMatch(s) && InPlace(s, step)
    ensures forall k :: Places(RefreshServers(s, step), k) == Places(s, k)
  {
    ListsKeptByServers(s, step);
    assert forall k :: Count([], k) == 0;
    hide Count, RefreshServers;
  }

  lemma PlacesKeptInPlace(s: State, step: Step)
    requires Shaped(s) && PhasesMatch(s) && InPlace(s, step)
    ensures forall k :: Places(Refresh(s, step), k) == Places(s, k)
  {
    PlacesKeptByServers(s, step);
    hide RefreshServers, CanTake, CanGive, Take, Give;
  }

  lemma ServersKeptInPlace(s: State, step: Step)
    requires Shaped(s) && ServersKnown(s) && PhasesMatch(s) && InPlace(s, step)
    ensures ServersKnown(Refresh(s, step))
  {
    KeysKeptInPlace(s, step);
    PlacesKeptInPlace(s, step);
    hide Refresh;
    SameServersKnown(s, Refresh(s, step));
  }

  lemma ServersKeptByNew(s: State)
    requires Shaped(s) && ServersKnown(s) && PhasesMatch(s)
    ensures ServersKnown(RefreshServers(s, NewServer))
  {
    hide Count;
    if s.refresher.Building? {
      var n := RefreshServers(s, NewServer);
      assert s.cluster;
      assert s.nextServer !in s.pools.servers;
      forall k ensures Places(n, k) == if k in n.pools.servers then 1 else 0 {
        assert Places(n, k) == Places(s, k) + if k == s.nextServer then 1 else 0;
      }
    }
  }

  lemma JudgeStep(s: State)
    requires Shaped(s) && s.refresher.Judging? && s.cluster && s.refresher.server in s.pools.servers
    ensures s.pools.servers[s.refresher.server].idle != [] ==>
      RefreshServers(s, Judge) == s.(refresher := Building, built := s.built + [s.refresher.server])
    ensures s.pools.servers[s.refresher.server].idle == [] ==>
      RefreshServers(s, Judge) ==
      s.(refresher := Deleting(s.built, false), built := [], lost := s.lost + [s.refresher.server])
  {
  }

  /** A server that is refused moves among the lost ones. */
  lemma ServersKeptByJudge(s: State)
    requires Shaped(s) && ServersKnown(s) && s.refresher.Judging? && s.cluster
    ensures ServersKnown(RefreshServers(s, Judge))
  {
    hide Count, RefreshServers;
    var n, x := RefreshServers(s, Judge), s.refresher.server;
    assert Places(s, x) == 1;
    JudgeStep(s);
    hide ServersKnown;
    forall k ensures Places(n, k) == Places(s, k) {
      CountAppend(s.built, x, k);
      CountAppend(s.lost, x, k);
    }
    SameServersKnown(s, n);
  }

  lemma ServersKeptByReplace(s: State)
    requires Shaped(s) && ServersKnown(s) && PhasesMatch(s)
    ensures ServersKnown(RefreshServers(s, Replace))
  {
    hide ServersKnown, Count;
    if s.refresher.Building? {
      var n := RefreshServers(s, Replace);
      forall k ensures Places(n, k) == Places(s, k) {
        CountAppend([], 0, k);
      }
      SameServersKnown(s, n);
    }
  }

  lemma ServersKeptByDelete(s: State)
    requires Shaped(s) && ServersKnown(s) && s.refresher.Deleting? && s.refresher.doomed != []
    ensures ServersKnown(RefreshServers(s, Delete))
  {
    hide Count;
    var d := s.refresher.doomed;
    var n := s.(refresher := Deleting(d[1..], s.refresher.success));
    CountFront(d, d[0]);
    assert Places(s, d[0]) == 1;
    var m := n.(pools := RemoveServer(s.pools, d[0]));
    assert RefreshServers(s, Delete) == m;
    forall k ensures Places(m, k) == if k in m.pools.servers then 1 else 0 {
      CountFront(d, k);
      assert Places(s, k) == Places(m, k) + if k == d[0] then 1 else 0;
    }
  }

  lemma ServersKeptByRefresh(s: State, step: Step)
    requires Shaped(s) && ServersKnown(s) && PhasesMatch(s)
    ensures ServersKnown(Refresh(s, step))
  {
    hide ServersKnown, PhasesMatch, RefreshServers;
    if InPlace(s, step) {
      ServersKeptInPlace(s, step);
    } else {
      match step
      case NewServer => ServersKeptByNew(s);
      case Judge => ServersKeptByJudge(s);
      case Replace => ServersKeptByReplace(s);
      case Delete => ServersKeptByDelete(s);
    }
  }

  lemma EmptyServer(s: State, k: nat)
    requires Shaped(s) && LocksHeld(s) && HandsFull(s) && Accounted(s.pools)
    requires s.refresher.Cleaning? || s.refresher.Judging?
    requires k in s.pools.servers && s.pools.servers[k].idle == []
    ensures s.pools.servers[k].made == {}
  {
    HandsEmpty(s, k);
    IdleAndHeldAreMade(s.pools, k);
    assert Holders(s.pools.held, k) == {};
  }

  lemma StockKeptByLocks(s: State, step: Step)
    requires Shaped(s) && LocksHeld(s) && Stocked(s)
    requires step.LockExclusive? || step.Check? || step.Wake? || step.UnlockExclusive? || step.GiveUp? || step.Reinitialize?
      || step.Replace?
    ensures Stocked(Refresh(s, step))
  {
  }

  /** A request of the refresher moves a connection, and nothing that stock depends on. */
  lemma RequestFrame(s: State, step: Step)
    requires Shaped(s) && (step.Ask? || step.Answer?)
    ensures var n := Refresh(s, step);
      n == s.(refresher := n.refresher, pools := n.pools) && SameStock(s.pools, n.pools)
      && (n == s || n.refresher.Asking? || n.refresher.Building? || n.refresher.Loading?)
  {
    hide Take, Give, CanTake, CanGive, RefreshServers;
    var h := Self(s);
    if step.Ask? {
      if CanTake(s.pools, h, step.server) {
        TakeStock(s.pools, h, step.server);
      }
    } else if CanGive(s.pools, h) {
      GiveStock(s.pools, h);
    }
  }

  lemma ProbeFrame(s: State)
    requires Shaped(s)
    ensures var n := RefreshServers(s, Probe);
      n == s.(refresher := n.refresher, pools := n.pools) && SameStock(s.pools, n.pools)
      && (n == s || n.refresher.Probing? || n.refresher.Judging?)
  {
    var h := Self(s);
    if s.refresher.Making? && CanTake(s.pools, h, s.refresher.server) {
      TakeStock(s.pools, h, s.refresher.server);
    } else if s.refresher.Probing? && CanGive(s.pools, h) {
      GiveStock(s.pools, h);
    }
    hide Take, Give, CanTake, CanGive;
  }

  lemma StockKeptByRequests(s: State, step: Step)
    requires Shaped(s) && Stocked(s) && (s.writer <==> Exclusive(s.refresher))
    requires step.Ask? || step.Answer? || step.Probe?
    ensures Stocked(Refresh(s, step))
  {
    var n := Refresh(s, step);
    if step.Probe? {
      assert n == RefreshServers(s, Probe);
      ProbeFrame(s);
    } else {
      RequestFrame(s, step);
    }
    WriterOutside(s, step);
    hide Refresh, RefreshServers;
    if n != s {
      assert forall k :: k in n.pools.servers <==> k in s.pools.servers.Keys;
      assert forall k :: HasMade(s, k) ==> HasMade(n, k);
      assert forall k :: HasNone(s, k) ==> HasNone(n, k);
    }
  }

  /** The refresher makes requests only under its lock. */
  lemma WriterOutside(s: State, step: Step)
    requires Shaped(s) && (s.writer <==> Exclusive(s.refresher)) && (step.Ask? || step.Answer? || step.Probe?)
    ensures Refresh(s, step) == s || s.writer
  {
    hide Take, Give, CanTake, CanGive;
  }

  lemma MadeBounded(p: Pools, k: nat)
    requires k in p.servers
    ensures k in Create(p, k).servers && 0 < |Create(p, k).servers[k].made| <= |p.servers[k].made| + 1
    ensures p.servers[k].idle != [] ==> |Free(p, k).servers[k].made| <= |p.servers[k].made|
  {
    var made := p.servers[k].made;
    var c := Connection(k, p.next);
    assert c in made + {c};
    assert |made + {c}| <= |made| + 1 by {
      if c in made {
        assert made + {c} == made;
      }
    }
    if p.servers[k].idle != [] {
      var d := p.servers[k].idle[0];
      if d !in made {
        assert made - {d} == made;
      }
    }
  }

  /** A server that is neither built already nor lost. */
  predicate Apart(s: State, k: nat) {
    (forall i :: 0 <= i < |s.built| ==> s.built[i] != k) && (forall i :: 0 <= i < |s.lost| ==> s.lost[i] != k)
  }

  /** The server that is being initialised stands apart. */
  lemma InitialisedApart(s: State)
    requires ServersKnown(s) && PhasesMatch(s) && Initialising(s.refresher)
    ensures Apart(s, s.refresher.server)
  {
    assert Places(s, s.refresher.server) <= 1;
    CountElement(s.table);
    CountElement(s.built);
    CountElement(s.lost);
    hide ServersKnown, Count;
  }

  /** So do the servers that a load is deleting, also from the client's own. */
  lemma DoomedApart(s: State)
    requires ServersKnown(s) && s.refresher.Deleting? && s.refresher.doomed != []
    ensures Apart(s, s.refresher.doomed[0])
    ensures forall i :: 0 <= i < |s.table| ==> s.table[i] != s.refresher.doomed[0]
  {
    assert Places(s, s.refresher.doomed[0]) <= 1;
    CountElement(s.table);
    CountElement(s.built);
    CountElement(s.lost);
    CountElement(s.refresher.doomed);
    hide ServersKnown, Count;
  }

  /** Connections of one server come and go under the lock, and the server stands apart. */
  lemma StockKeptElsewhere(s: State, n: State, k: nat)
    requires Stocked(s) && n.connNum == s.connNum && n.built == s.built && n.lost == s.lost && n.writer
    requires Initialising(n.refresher) && n.refresher.server == k
    requires k in n.pools.servers && |n.pools.servers[k].made| <= n.connNum
    requires n.refresher.Making? ==> |n.pools.servers[k].made| + n.refresher.left <= n.connNum
    requires forall l :: l in n.pools.servers && l != k ==> l in s.pools.servers
    requires forall l :: l in s.pools.servers && l != k ==>
      l in n.pools.servers && n.pools.servers[l].made == s.pools.servers[l].made
    requires Apart(s, k)
    ensures Stocked(n)
  {
    forall i | 0 <= i < |n.built| ensures HasMade(n, n.built[i]) {
      assert HasMade(s, s.built[i]);
    }
    forall i | 0 <= i < |n.lost| ensures HasNone(n, n.lost[i]) {
      assert HasNone(s, s.lost[i]);
    }
  }

  lemma StockKeptByClean(s: State)
    requires Invariant(s)
    ensures Stocked(RefreshServers(s, Clean))
  {
    if s.refresher.Cleaning? && s.refresher.server in s.pools.servers {
      InitialisedApart(s);
      assert s.writer;
      if s.pools.servers[s.refresher.server].idle == [] {
        EmptyServer(s, s.refresher.server);
      }
      hide Invariant, Stocked, RefreshServers;
      StockKeptByCleaning(s);
    } else {
      assert RefreshServers(s, Clean) == s;
    }
  }

  lemma StockKeptByCleaning(s: State)
    requires Shaped(s) && Stocked(s) && s.writer && s.refresher.Cleaning? && s.refresher.server in s.pools.servers
    requires Apart(s, s.refresher.server)
    requires s.pools.servers[s.refresher.server].idle == [] ==> s.pools.servers[s.refresher.server].made == {}
    ensures Stocked(RefreshServers(s, Clean))
  {
    var k := s.refresher.server;
    MadeBounded(s.pools, k);
    assert |s.pools.servers[k].made| <= s.connNum;
    hide Stocked;
    StockKeptElsewhere(s, RefreshServers(s, Clean), k);
  }

  lemma StockKeptByMake(s: State, connected: bool)
    requires Invariant(s)
    ensures Stocked(RefreshServers(s, Make(connected)))
  {
    hide Accounted, HandsFull, Stocked, ServersKnown, PhasesMatch;
    if s.refresher.Making? && s.refresher.left > 0 && s.refresher.server in s.pools.servers {
      InitialisedApart(s);
      assert s.writer;
      hide RefreshServers;
      StockKeptByMaking(s, connected);
    } else {
      assert RefreshServers(s, Make(connected)) == s;
    }
  }

  lemma StockKeptByMaking(s: State, connected: bool)
    requires Shaped(s) && Stocked(s) && s.writer && s.refresher.Making? && s.refresher.left > 0
    requires s.refresher.server in s.pools.servers
    requires Apart(s, s.refresher.server)
    ensures Stocked(RefreshServers(s, Make(connected)))
  {
    var k := s.refresher.server;
    MadeBounded(s.pools, k);
    assert |s.pools.servers[k].made| + s.refresher.left <= s.connNum;
    hide Stocked;
    StockKeptElsewhere(s, RefreshServers(s, Make(connected)), k);
  }

  lemma StockKeptByJudge(s: State)
    requires Invariant(s)
    ensures Stocked(RefreshServers(s, Judge))
  {
    var p, r := s.pools, s.refresher;
    if r.Judging? && r.server in p.servers {
      IdleIsMade(p.servers[r.server], Held(p.held, r.server));
      assert p.servers[r.server].idle != [] ==> p.servers[r.server].idle[0] in p.servers[r.server].made;
      if p.servers[r.server].idle == [] {
        EmptyServer(s, r.server);
      }
      assert s.writer;
      hide ServersKnown, HandsFull, Accounted, LocksHeld;
      StockKeptByJudgement(s);
    }
  }

  lemma StockKeptByJudgement(s: State)
    requires Shaped(s) && PhasesMatch(s) && Stocked(s) && s.writer && s.refresher.Judging?
    requires s.refresher.server in s.pools.servers
    requires s.pools.servers[s.refresher.server].idle != [] <==> s.pools.servers[s.refresher.server].made != {}
    ensures Stocked(RefreshServers(s, Judge))
  {
    var n, k := RefreshServers(s, Judge), s.refresher.server;
    assert n.pools == s.pools;
    assert if s.pools.servers[k].idle != [] then HasMade(s, k) else HasNone(s, k);
    assert forall i :: 0 <= i < |s.built| ==> HasMade(s, s.built[i]);
    assert forall i :: 0 <= i < |s.lost| ==> HasNone(s, s.lost[i]);
  }

  lemma StockKeptByNew(s: State)
    requires Invariant(s)
    ensures Stocked(RefreshServers(s, NewServer))
  {
    if s.refresher.Building? {
      assert s.nextServer !in s.pools.servers && s.writer;
      hide Invariant;
      StockKeptByAddition(s);
    } else {
      assert RefreshServers(s, NewServer) == s;
    }
  }

  lemma StockKeptByAddition(s: State)
    requires Shaped(s) && Stocked(s) && s.refresher.Building? && s.writer && s.nextServer !in s.pools.servers
    ensures Stocked(RefreshServers(s, NewServer))
  {
    var n := RefreshServers(s, NewServer);
    assert forall k :: HasMade(s, k) ==> HasMade(n, k);
    assert forall k :: HasNone(s, k) ==> HasNone(n, k);
  }

  lemma StockKeptByDelete(s: State)
    requires Invariant(s)
    ensures Stocked(RefreshServers(s, Delete))
  {
    assert s.refresher.Deleting? ==> s.built == [] && s.writer;
    if s.refresher.Deleting? && s.refresher.doomed != [] {
      DoomedApart(s);
    }
    hide ServersKnown, HandsFull, Accounted, LocksHeld, PhasesMatch;
    StockKeptByDeletion(s);
  }

  lemma StockKeptByDeletion(s: State)
    requires Shaped(s) && Stocked(s)
    requires s.refresher.Deleting? ==> s.built == [] && s.writer
    requires s.refresher.Deleting? && s.refresher.doomed != [] ==>
      Apart(s, s.refresher.doomed[0]) && forall i :: 0 <= i < |s.table| ==> s.table[i] != s.refresher.doomed[0]
    ensures Stocked(RefreshServers(s, Delete))
  {
    var n := RefreshServers(s, Delete);
    if s.refresher.Deleting? && s.refresher.success {
      forall i | 0 <= i < |s.table| ensures HasMade(n, n.table[i]) {
        assert HasMade(s, s.table[i]);
      }
    }
    forall i | 0 <= i < |s.lost| ensures HasNone(n, n.lost[i]) {
      assert HasNone(s, s.lost[i]);
    }
  }

  lemma StockKeptByRefresh(s: State, step: Step)
    requires Invariant(s)
    ensures Stocked(Refresh(s, step))
  {
    match step
    case Ask(_) => StockKeptByRequests(s, step);
    case Answer(_) => StockKeptByRequests(s, step);
    case Probe => StockKeptByRequests(s, step);
    case NewServer => StockKeptByNew(s);
    case Clean => StockKeptByClean(s);
    case Make(connected) => StockKeptByMake(s, connected);
    case Judge => StockKeptByJudge(s);
    case Delete => StockKeptByDelete(s);
    case LockExclusive => StockKeptByLocks(s, step);
    case Check => StockKeptByLocks(s, step);
    case Wake => StockKeptByLocks(s, step);
    case UnlockExclusive => StockKeptByLocks(s, step);
    case GiveUp => StockKeptByLocks(s, step);
    case Reinitialize => StockKeptByLocks(s, step);
    case Replace => StockKeptByLocks(s, step);
    case _ =>
  }

  lemma RefreshKeeps(s: State, step: Step)
    requires Invariant(s)
    ensures Invariant(Refresh(s, step))
  {
    LocksKeptByRefresh(s, step);
    HandsKeptByRefresh(s, step);
    ServersKeptByRefresh(s, step);
    PhasesKeptByRefresh(s, step);
    StockKeptByRefresh(s, step);
    AccountsKeptByRefresh(s, step);
    hide Refresh, LocksHeld, HandsFull, ServersKnown, PhasesMatch, Stocked, Accounted;
  }

  lemma StepKeepsInvariant(s: State, step: Step)
    requires Invariant(s)
    ensures Invariant(Apply(s, step))
  {
    CallKeeps(s, step);
    RefreshKeeps(s, step);
    hide Call, Refresh, Invariant;
  }

  // ---- Main results ----

  lemma {:induction false} RunKeepsInvariant(s: State, steps: seq<Step>)
    requires Invariant(s)
    ensures Invariant(After(s, steps))
    decreases steps
  {
    if steps != [] {
      StepKeepsInvariant(s, steps[0]);
      hide Invariant, Apply;
      RunKeepsInvariant(Apply(s, steps[0]), steps[1..]);
    }
  }

  /** A server whose initialisation has made some connections, and threads that hold none. */
  function FirstServer(made: nat, threads: nat): (p: Pools)
    ensures p.servers.Keys == {0} && p.held == seq(threads, _ => None)
  {
    if made == 0 then AddServer(Pools(map[], seq(threads, _ => None), {}, 0), 0)
    else Create(FirstServer(made - 1, threads), 0)
  }

  lemma NoServersHold(threads: nat)
    ensures Accounted(AddServer(Pools(map[], seq(threads, _ => None), {}, 0), 0))
  {
    AddServerKeeps(Pools(map[], seq(threads, _ => None), {}, 0), 0);
  }

  lemma {:induction false} FirstServerHolds(made: nat, threads: nat)
    ensures Accounted(FirstServer(made, threads))
    ensures |FirstServer(made, threads).servers[0].made| <= made
    ensures made > 0 ==> |FirstServer(made, threads).servers[0].made| > 0
    decreases made
  {
    hide Accounted, Create;
    if made == 0 {
      NoServersHold(threads);
    } else {
      FirstServerHolds(made - 1, threads);
      CreateKeeps(FirstServer(made - 1, threads), 0);
      MadeBounded(FirstServer(made - 1, threads), 0);
    }
  }

  datatype Setup = Setup(cluster: bool, connNum: nat, first: nat, callers: nat)

  /** The first connection attempts made at least one connection, or the client would not exist. */
  predicate IsSetup(u: Setup) {
    0 < u.first <= u.connNum
  }

  /** A client just connected to its first server: not in a cluster, it is ready; in one, it loads the
      slots before anybody else can use it, which is as good as holding the lock. */
  function Start(u: Setup): (s: State)
    ensures Shaped(s) && |s.callers| == u.callers
  {
    State(u.cluster, u.connNum, [0], [], [], 1, true, {}, u.cluster, seq(u.callers, _ => Away),
          if u.cluster then Loading else Outside, FirstServer(u.first, u.callers + 1))
  }

  lemma StartHolds(u: Setup)
    requires IsSetup(u)
    ensures Invariant(Start(u))
  {
    StartIdle(u);
    StartStocked(u);
    FirstServerHolds(u.first, u.callers + 1);
    assert Start(u).pools == FirstServer(u.first, u.callers + 1);
    hide Start, LocksHeld, HandsFull, ServersKnown, PhasesMatch, Stocked, Accounted, FirstServer;
  }

  lemma StartIdle(u: Setup)
    ensures var s := Start(u); LocksHeld(s) && HandsFull(s) && ServersKnown(s) && PhasesMatch(s)
  {
    hide FirstServer;
    var s := Start(u);
    assert forall k :: Places(s, k) == if k == 0 then 1 else 0;
    assert s.pools.servers.Keys == {0};
    assert forall k :: k in s.pools.servers <==> k in s.pools.servers.Keys;
  }

  lemma StockedAlone(s: State)
    requires s.table == [0] && s.built == s.lost == [] && (s.refresher.Loading? || s.refresher.Outside?)
    requires s.pools.servers.Keys == {0} && 0 < |s.pools.servers[0].made| <= s.connNum
    ensures Stocked(s)
  {
    assert forall k :: k in s.pools.servers <==> k in s.pools.servers.Keys;
    assert HasMade(s, 0);
  }

  lemma StartStocked(u: Setup)
    requires IsSetup(u)
    ensures Stocked(Start(u))
  {
    hide FirstServer, Accounted, Stocked;
    var s := Start(u);
    assert s.pools == FirstServer(u.first, u.callers + 1) && s.connNum == u.connNum && s.table == [0];
    assert s.built == s.lost == [] && (s.refresher.Loading? || s.refresher.Outside?);
    hide Start;
    FirstServerHolds(u.first, u.callers + 1);
    StockedAlone(s);
  }

  /** Whatever the callers and the refreshing thread do, in any order, every connection in use belongs
      to a server the client still has, was made by its last initialisation, has not been deleted, is
      in no queue and in no other hand. */
  lemma HeldConnectionsAreSafe(u: Setup, steps: seq<Step>, h: nat)
    requires IsSetup(u) && h <= u.callers
    ensures var s := After(Start(u), steps);
      |s.callers| == u.callers && |s.pools.held| == u.callers + 1 &&
      (s.pools.held[h].Some? ==>
        var c := s.pools.held[h].value;
        && c.server in s.pools.servers && c in s.pools.servers[c.server].made && c !in s.pools.freed
        && (forall k :: k in s.pools.servers ==> c !in s.pools.servers[k].idle)
        && (forall g :: 0 <= g <= u.callers && g != h ==> s.pools.held[g] != Some(c)))
  {
    StartHolds(u);
    RunKeepsInvariant(Start(u), steps);
    RunKeepsThreads(Start(u), steps);
    hide Start, After;
    var s := After(Start(u), steps);
    if s.pools.held[h].Some? {
      HeldByOne(s.pools, h);
    }
  }

  lemma {:induction false} RunKeepsThreads(s: State, steps: seq<Step>)
    requires Shaped(s)
    ensures Shaped(After(s, steps)) && |After(s, steps).callers| == |s.callers|
    decreases steps
  {
    if steps != [] {
      RunKeepsThreads(Apply(s, steps[0]), steps[1..]);
    }
  }

  /** At every moment of every run, the idle connections of a server and the threads that hold one of
      its connections are together as many as its last initialisation made, and never too many. */
  lemma ConnectionsAreConserved(u: Setup, steps: seq<Step>, k: nat)
    requires IsSetup(u)
    requires k in After(Start(u), steps).pools.servers
    ensures var p := After(Start(u), steps).pools;
      |p.servers[k].idle| + |Holders(p.held, k)| == |p.servers[k].made| <= u.connNum
  {
    StartHolds(u);
    RunKeepsInvariant(Start(u), steps);
    RunKeepsNumber(Start(u), steps);
    hide Start, After;
    IdleAndHeldAreMade(After(Start(u), steps).pools, k);
  }

  lemma {:induction false} RunKeepsNumber(s: State, steps: seq<Step>)
    requires Shaped(s)
    ensures After(s, steps).connNum == s.connNum
    decreases steps
  {
    if steps != [] {
      CallFrame(s, steps[0]);
      RefreshFrame(s, steps[0]);
      hide Call, Refresh;
      RunKeepsNumber(Apply(s, steps[0]), steps[1..]);
    }
  }

  /** A server a caller is using, for as long as it uses it, is one of the client's and has not been
      deleted; and while a caller is inside a request the refresher is outside or waiting. */
  lemma ServersInUseAreKept(u: Setup, steps: seq<Step>, t: nat)
    requires IsSetup(u) && t < u.callers
    ensures var s := After(Start(u), steps);
      |s.callers| == u.callers && (!s.callers[t].Away? ==>
        && (s.refresher.Outside? || s.refresher.Waiting?)
        && (s.callers[t].Trying? || s.callers[t].Requesting? ==>
            s.callers[t].server in s.table && s.callers[t].server in s.pools.servers))
  {
    hide Invariant;
    StartHolds(u);
    RunKeepsInvariant(Start(u), steps);
    RunKeepsThreads(Start(u), steps);
    hide Start, After;
    UsedServer(After(Start(u), steps), t);
  }

  lemma UsedServer(s: State, t: nat)
    requires Invariant(s) && t < |s.callers|
    ensures !s.callers[t].Away? ==> s.refresher.Outside? || s.refresher.Waiting?
    ensures s.callers[t].Trying? || s.callers[t].Requesting? ==>
      s.callers[t].server in s.table && s.callers[t].server in s.pools.servers
  {
    assert HandFull(s.callers[t], s.pools.held[t], s.table);
    CountElement(s.table);
    hide Count, Accounted, Stocked, PhasesMatch;
    assert s.callers[t].Trying? || s.callers[t].Requesting? ==> Places(s, s.callers[t].server) > 0;
  }

  // ---- Requests and validity ----

  /** Callers inside a request found the client valid, and it still is. */
  predicate ValidInUse(s: State) {
    forall t :: 0 <= t < |s.callers| ==> (s.callers[t].Trying? || s.callers[t].Requesting? ==> s.valid)
  }

  lemma ValidityKept(s: State, step: Step)
    requires Shaped(s)
    ensures Refresh(s, step).valid == s.valid || Exclusive(s.refresher)
    ensures Call(s, step).valid == s.valid
  {
    hide CanTake, CanGive, Take, Give, Free, Create, AddServer, RemoveServer;
  }

  lemma ValidInUseByCall(s: State, step: Step)
    requires Shaped(s) && ValidInUse(s)
    ensures ValidInUse(Call(s, step))
  {
    hide CanTake, CanGive, Take, Give;
  }

  lemma ValidInUseKept(s: State, step: Step)
    requires Shaped(s) && LocksHeld(s) && ValidInUse(s)
    ensures ValidInUse(Apply(s, step))
  {
    ValidityKept(s, step);
    ValidInUseByCall(s, step);
    RefreshFrame(s, step);
    hide Call, Refresh;
  }

  lemma {:induction false} RunKeepsValidInUse(s: State, steps: seq<Step>)
    requires Invariant(s) && ValidInUse(s)
    ensures ValidInUse(After(s, steps))
    decreases steps
  {
    if steps != [] {
      StepKeepsInvariant(s, steps[0]);
      ValidInUseKept(s, steps[0]);
      hide Invariant, Apply, ValidInUse;
      RunKeepsValidInUse(Apply(s, steps[0]), steps[1..]);
    }
  }

  /** In every run, whenever a caller looks for a connection or makes a request, the client is valid:
      it was when the caller looked, and nobody has changed that since. */
  lemma RequestsNeedValidity(u: Setup, steps: seq<Step>, t: nat)
    requires IsSetup(u) && t < u.callers
    ensures var s := After(Start(u), steps);
      |s.callers| == u.callers && (s.callers[t].Trying? || s.callers[t].Requesting? ==> s.valid)
  {
    hide Invariant;
    StartHolds(u);
    RunKeepsThreads(Start(u), steps);
    RunKeepsValidInUse(Start(u), steps);
    hide Start, After;
  }

  /** A caller whose server's queue stays empty gives up at its fourth look, with nothing changed. */
  lemma GivesUpAfterThree(s: State, t: nat, k: nat)
    requires Shaped(s) && t < |s.callers| && s.callers[t].Locked? && s.valid && k in s.table
    requires k in s.pools.servers && s.pools.servers[k].idle == []
    ensures
      var looked := Call(Call(Call(Call(s, Find(t, Some(k))), Fetch(t)), Fetch(t)), Fetch(t));
      looked.callers[t] == Trying(k, 0) && Call(looked, Fetch(t)) == At(s, t, Leaving)
  {
    LooksInVain(s, t, k, 3);
    assert Call(s, Find(t, Some(k))) == At(s, t, Trying(k, 3));
    LooksInVain(s, t, k, 2);
    LooksInVain(s, t, k, 1);
    LooksInVain(s, t, k, 0);
    hide Call;
  }

  lemma LooksInVain(s: State, t: nat, k: nat, left: nat)
    requires Shaped(s) && t < |s.callers| && k in s.pools.servers && s.pools.servers[k].idle == []
    ensures Call(At(s, t, Trying(k, left)), Fetch(t)) == At(s, t, if left == 0 then Leaving else Trying(k, left - 1))
  {
    assert !CanTake(s.pools, t, k);
    hide CanTake, Take, Give, CanGive;
    assert s.callers[t := Trying(k, left)][t := Leaving] == s.callers[t := Leaving];
    assert left > 0 ==> s.callers[t := Trying(k, left)][t := Trying(k, left - 1)] == s.callers[t := Trying(k, left - 1)];
  }

  /** Outside a cluster the client is valid after its server has been initialised again if and only if
      that made a connection. */
  lemma ReinitializedIsValidIff(s: State)
    requires Shaped(s) && !s.cluster && s.refresher.Judging? && s.refresher.server in s.pools.servers
    ensures Refresh(s, Judge) == s.(refresher := Done, valid := s.pools.servers[s.refresher.server].idle != [])
  {
    hide CanTake, CanGive, Take, Give, Free, Create, AddServer, RemoveServer;
  }

  // ---- No connection is forgotten ----

  lemma CompleteKeptByCall(s: State, step: Step)
    requires Shaped(s) && Complete(s.pools)
    ensures Complete(Call(s, step).pools)
  {
    hide Complete, Take, Give, CanTake, CanGive;
    if step.Fetch? && step.t < |s.callers| && s.callers[step.t].Trying? {
      MovesKeepComplete(s.pools, step.t, s.callers[step.t].server);
    }
    if step.Finish? {
      MovesKeepComplete(s.pools, step.t, 0);
    }
  }

  lemma CompleteKeptByServers(s: State, step: Step)
    requires Shaped(s) && Accounted(s.pools) && Complete(s.pools) && s.nextServer !in s.pools.servers
    requires s.refresher.Deleting? && s.refresher.doomed != [] ==> Unheld(s.pools, s.refresher.doomed[0])
    ensures Complete(RefreshServers(s, step).pools)
  {
    hide Complete, Accounted, Take, Give, Free, Create, AddServer, RemoveServer, Unheld, CanTake, CanGive;
    var p, h, r := s.pools, Self(s), s.refresher;
    match step
    case NewServer => MovesKeepComplete(p, h, s.nextServer);
    case Clean =>
      if r.Cleaning? {
        MovesKeepComplete(p, h, r.server);
      }
    case Make(connected) =>
      if r.Making? && r.server in p.servers {
        CreateKeepsComplete(p, r.server);
      }
    case Probe => MovesKeepComplete(p, h, if r.Making? then r.server else 0);
    case Delete =>
      if r.Deleting? && r.doomed != [] && r.doomed[0] in p.servers {
        RemoveKeepsComplete(p, r.doomed[0]);
      }
    case _ =>
  }

  lemma CompleteKeptByRequests(s: State, step: Step)
    requires Shaped(s) && Complete(s.pools) && Complete(RefreshServers(s, step).pools)
    ensures Complete(Refresh(s, step).pools)
  {
    hide Complete, Take, Give, CanTake, CanGive, RefreshServers;
    if step.Ask? {
      MovesKeepComplete(s.pools, Self(s), step.server);
    }
    if step.Answer? {
      MovesKeepComplete(s.pools, Self(s), 0);
    }
  }

  lemma CompleteKeptByRefresh(s: State, step: Step)
    requires Invariant(s) && Complete(s.pools)
    ensures Complete(Refresh(s, step).pools)
  {
    assert s.nextServer !in s.pools.servers;
    if s.refresher.Deleting? && s.refresher.doomed != [] {
      HandsEmpty(s, s.refresher.doomed[0]);
    }
    assert Accounted(s.pools);
    hide Complete, Invariant, Unheld, Refresh, RefreshServers;
    CompleteKeptByServers(s, step);
    CompleteKeptByRequests(s, step);
  }

  lemma {:induction false} RunKeepsComplete(s: State, steps: seq<Step>)
    requires Invariant(s) && Complete(s.pools)
    ensures Complete(After(s, steps).pools)
    decreases steps
  {
    if steps != [] {
      StepKeepsInvariant(s, steps[0]);
      CompleteKeptByCall(s, steps[0]);
      CompleteKeptByRefresh(s, steps[0]);
      assert Complete(Apply(s, steps[0]).pools) by {
        hide Call, Refresh, Complete, Invariant;
      }
      hide Invariant, Apply, Complete;
      RunKeepsComplete(Apply(s, steps[0]), steps[1..]);
    }
  }

  lemma {:induction false} FirstServerComplete(made: nat, threads: nat)
    ensures Complete(FirstServer(made, threads))
    ensures FirstServer(made, threads).next == made
    decreases made
  {
    if made > 0 {
      FirstServerComplete(made - 1, threads);
      CreateKeepsComplete(FirstServer(made - 1, threads), 0);
      hide Complete;
    }
  }

  /** In every run, each connection that was ever made has been deleted or is one of those the last
      initialisation of a server that exists made, and no connection is both. */
  lemma NoConnectionIsForgotten(u: Setup, steps: seq<Step>, id: nat)
    requires IsSetup(u)
    ensures var p := After(Start(u), steps).pools;
      && p.next >= u.first
      && (id < p.next ==>
            exists c: Connection :: c.id == id &&
              (c in p.freed <==> !(c.server in p.servers && c in p.servers[c.server].made)))
  {
    hide Invariant;
    StartHolds(u);
    FirstServerComplete(u.first, u.callers + 1);
    assert Start(u).pools == FirstServer(u.first, u.callers + 1);
    RunKeepsInvariant(Start(u), steps);
    RunKeepsComplete(Start(u), steps);
    RunOnlyMakes(Start(u), steps);
    hide Start, After;
    var s := After(Start(u), steps);
    AccountsApart(s);
    if id < s.pools.next {
      assert Somewhere(s.pools, id);
      var c: Connection :| c.id == id && IsSomewhere(s.pools, c);
    }
  }

  lemma AccountsApart(s: State)
    requires Invariant(s)
    ensures forall k, c :: k in s.pools.servers && c in s.pools.servers[k].made ==> c !in s.pools.freed
  {
    hide LocksHeld, HandsFull, ServersKnown, PhasesMatch, Stocked;
    forall k | k in s.pools.servers ensures forall c :: c in s.pools.servers[k].made ==> c !in s.pools.freed {
      assert Settled(s.pools, k);
    }
  }

  lemma NextGrowsByServers(s: State, step: Step)
    requires Shaped(s)
    ensures RefreshServers(s, step).pools.next >= s.pools.next
  {
    hide CanTake, CanGive;
  }

  lemma NextGrows(s: State, step: Step)
    requires Shaped(s)
    ensures Apply(s, step).pools.next >= s.pools.next
  {
    NextGrowsByServers(s, step);
    hide RefreshServers, CanTake, CanGive;
  }

  lemma {:induction false} RunOnlyMakes(s: State, steps: seq<Step>)
    requires Shaped(s)
    ensures After(s, steps).pools.next >= s.pools.next
    decreases steps
  {
    if steps != [] {
      NextGrows(s, steps[0]);
      hide Apply;
      RunOnlyMakes(Apply(s, steps[0]), steps[1..]);
    }
  }

  // ---- Servers that are lost ----

  /** A load finds that a server it has just made has no connection, and gives up. */
  predicate Refuses(s: State, step: Step) {
    step.Judge? && s.cluster && s.refresher.Judging? && s.refresher.server in s.pools.servers
    && s.pools.servers[s.refresher.server].idle == []
  }

  function Refusals(s: State, steps: seq<Step>): nat
    requires Shaped(s)
    decreases steps
  {
    if steps == [] then 0 else (if Refuses(s, steps[0]) then 1 else 0) + Refusals(Apply(s, steps[0]), steps[1..])
  }

  lemma LostByRefusal(s: State, step: Step)
    requires Shaped(s)
    ensures |Apply(s, step).lost| == |s.lost| + if Refuses(s, step) then 1 else 0
  {
    CallFrame(s, step);
    hide Call, CanTake, CanGive, Take, Give, Free, Create, AddServer, RemoveServer;
  }

  lemma {:induction false} RunLoses(s: State, steps: seq<Step>)
    requires Shaped(s)
    ensures |After(s, steps).lost| == |s.lost| + Refusals(s, steps)
    decreases steps
  {
    if steps != [] {
      LostByRefusal(s, steps[0]);
      hide Apply, Refuses;
      RunLoses(Apply(s, steps[0]), steps[1..]);
    }
  }

  lemma StockedTable(s: State)
    requires Invariant(s) && !s.writer
    ensures forall k :: k in s.pools.servers <==> k in s.table || k in s.lost
    ensures forall k :: k in s.table ==> k !in s.lost
    ensures forall k :: k in s.lost ==> HasNone(s, k)
    ensures s.valid ==> forall k :: k in s.table ==> HasMade(s, k)
    ensures Accounted(s.pools)
  {
    hide HandsFull, Accounted;
    CountElement(s.table);
    CountElement(s.lost);
    assert forall k :: Count([], k) == 0;
    hide Count;
    assert forall k :: Places(s, k) == Count(s.table, k) + Count(s.lost, k);
  }

  /** When the refresher is out of the way, a valid client has, for each of its servers, a connection
      that is idle or in use. The other servers that exist are the lost ones: as many as new servers
      were refused, and without a connection. */
  lemma ValidClientIsStocked(u: Setup, steps: seq<Step>)
    requires IsSetup(u)
    requires !After(Start(u), steps).writer
    ensures var s := After(Start(u), steps);
      && (forall k :: k in s.pools.servers <==> k in s.table || k in s.lost)
      && (forall k :: k in s.table ==> k !in s.lost)
      && (forall k :: k in s.lost ==> s.pools.servers[k].idle == [] && Holders(s.pools.held, k) == {})
      && |s.lost| == Refusals(Start(u), steps)
      && (s.valid ==> forall k :: k in s.table ==> s.pools.servers[k].idle != [] || Holders(s.pools.held, k) != {})
  {
    hide Invariant;
    StartHolds(u);
    RunKeepsInvariant(Start(u), steps);
    RunLoses(Start(u), steps);
    assert Start(u).lost == [];
    hide Start, After, Refusals;
    var s := After(Start(u), steps);
    StockedTable(s);
    hide Accounted;
    forall k | k in s.pools.servers
      ensures |s.pools.servers[k].idle| + |Holders(s.pools.held, k)| == |s.pools.servers[k].made|
    {
      IdleAndHeldAreMade(s.pools, k);
    }
  }

  /** The client's own servers are all that exist exactly if no load of the run refused a new server. */
  lemma NoServerIsLostIff(u: Setup, steps: seq<Step>)
    requires IsSetup(u)
    requires !After(Start(u), steps).writer
    ensures var s := After(Start(u), steps);
      (forall k :: k in s.pools.servers ==> k in s.table) <==> Refusals(Start(u), steps) == 0
  {
    ValidClientIsStocked(u, steps);
    hide Start, After, Refusals;
    var s := After(Start(u), steps);
    if s.lost != [] {
      assert s.lost[0] in s.lost;
    }
  }
}
