/** Running a queue of commands against several servers. Each server is an arbitrary
    deterministic machine; a schedule says in which order the queued commands reach them. */
module Schedule {

  /** A server is identified by the node behind its address. */
  type ServerId = nat

  /** One command at one server: its new state and its reply. */
  type Machine<!S, !C, !R> = (S, C) -> (S, R)

  /** What a queue of commands has done so far: the state of every server, and the replies by
      position in the queue. */
  datatype Outcome<S, R> = Outcome(states: map<ServerId, S>, replies: map<nat, R>)

  datatype Queue<C> = Queue(commands: seq<C>, route: seq<ServerId>) {
    /** Each command has a server, and that server exists. */
    ghost predicate Fits<S>(states: map<ServerId, S>) {
      |route| == |commands| && forall i :: 0 <= i < |route| ==> route[i] in states
    }

    ghost predicate Covers(order: seq<nat>) {
      |route| == |commands| && forall k :: 0 <= k < |order| ==> order[k] < |commands|
    }
  }

  function Advance<S, C, R>(machine: Machine<S, C, R>, q: Queue<C>, i: nat, from: Outcome<S, R>): (o: Outcome<S, R>)
    requires q.Fits(from.states) && i < |q.commands|
    ensures o.states.Keys == from.states.Keys
    ensures forall j :: j in o.replies <==> j in from.replies || j == i
  {
    var (state, reply) := machine(from.states[q.route[i]], q.commands[i]);
    Outcome(from.states[q.route[i] := state], from.replies[i := reply])
  }

  /** Run the commands at the positions of `order`, one after the other. */
  function Run<S, C, R>(machine: Machine<S, C, R>, q: Queue<C>, order: seq<nat>, from: Outcome<S, R>): (o: Outcome<S, R>)
    requires q.Fits(from.states) && q.Covers(order)
    ensures o.states.Keys == from.states.Keys
    ensures forall i :: i in o.replies <==> i in from.replies || i in order
  {
    if order == [] then from
    else Advance(machine, q, order[|order| - 1], Run(machine, q, order[..|order| - 1], from))
  }

  /** The part of a schedule that goes to one server. */
  function OnServer<C>(q: Queue<C>, order: seq<nat>, s: ServerId): (part: seq<nat>)
    requires q.Covers(order)
    ensures q.Covers(part)
    ensures forall i :: i in part <==> i in order && q.route[i] == s
  {
    if order == [] then []
    else
      var i := order[|order| - 1];
      var part := OnServer(q, order[..|order| - 1], s);
      if q.route[i] == s then part + [i] else part
  }

  /** Queue order. */
  function InOrder(n: nat): (order: seq<nat>)
    ensures |order| == n && forall i :: 0 <= i < n ==> order[i] == i
  {
    seq(n, i => i)
  }

  lemma OnServerPush<C>(q: Queue<C>, order: seq<nat>, i: nat, s: ServerId)
    requires q.Covers(order) && i < |q.commands|
    ensures q.Covers(order + [i])
    ensures OnServer(q, order + [i], s) == OnServer(q, order, s) + (if q.route[i] == s then [i] else [])
  {
    assert (order + [i])[..|order|] == order;
  }

  lemma RunPush<S, C, R>(machine: Machine<S, C, R>, q: Queue<C>, order: seq<nat>, i: nat, from: Outcome<S, R>)
    requires q.Fits(from.states) && q.Covers(order) && i < |q.commands|
    ensures q.Covers(order + [i])
    ensures Run(machine, q, order + [i], from) == Advance(machine, q, i, Run(machine, q, order, from))
  {
    assert (order + [i])[..|order|] == order;
  }

  lemma {:induction false} RunConcat<S, C, R>(machine: Machine<S, C, R>, q: Queue<C>, a: seq<nat>, b: seq<nat>, from: Outcome<S, R>)
    requires q.Fits(from.states) && q.Covers(a) && q.Covers(b)
    ensures q.Covers(a + b)
    ensures Run(machine, q, a + b, from) == Run(machine, q, b, Run(machine, q, a, from))
  {
    if b == [] {
      assert a + b == a;
    } else {
      hide Run, Advance;
      var p, i := b[..|b| - 1], b[|b| - 1];
      var ap := a + p;
      assert b == p + [i] && a + b == ap + [i];
      RunConcat(machine, q, a, p, from);
      RunPush(machine, q, ap, i, from);
      RunPush(machine, q, p, i, Run(machine, q, a, from));
    }
  }

  lemma {:induction false} OnServerConcat<C>(q: Queue<C>, a: seq<nat>, b: seq<nat>, s: ServerId)
    requires q.Covers(a) && q.Covers(b)
    ensures q.Covers(a + b)
    ensures OnServer(q, a + b, s) == OnServer(q, a, s) + OnServer(q, b, s)
  {
    if b == [] {
      assert a + b == a;
    } else {
      hide OnServer;
      var p, i := b[..|b| - 1], b[|b| - 1];
      var ap := a + p;
      assert b == p + [i] && a + b == ap + [i];
      OnServerConcat(q, a, p, s);
      OnServerPush(q, ap, i, s);
      OnServerPush(q, p, i, s);
    }
  }

  /** The part of one server, or any first piece of it, goes to that server alone. */
  lemma {:induction false} PartStaysOnServer<C>(q: Queue<C>, part: seq<nat>, s: ServerId, t: ServerId)
    requires q.Covers(part) && forall k :: 0 <= k < |part| ==> q.route[part[k]] == s
    ensures OnServer(q, part, t) == if s == t then part else []
  {
    if part == [] {
    } else {
      var p, i := part[..|part| - 1], part[|part| - 1];
      assert part == p + [i];
      PartStaysOnServer(q, p, s, t);
    }
  }

  /** A server only notices the commands sent to it: its state, and the replies it gave, are
      those of its own part of the schedule run alone. */
  lemma {:induction false} OnlyOwnCommandsMatter<S, C, R>(machine: Machine<S, C, R>, q: Queue<C>, order: seq<nat>,
      s: ServerId, from: Outcome<S, R>)
    requires q.Fits(from.states) && q.Covers(order) && s in from.states
    ensures var all, own := Run(machine, q, order, from), Run(machine, q, OnServer(q, order, s), from);
            && all.states[s] == own.states[s]
            && forall i :: i in order && q.route[i] == s ==> all.replies[i] == own.replies[i]
  {
    if order == [] {
    } else {
      hide Run, OnServer;
      var n := |order| - 1;
      var i := order[n];
      OnlyOwnCommandsMatter(machine, q, order[..n], s, from);
      assert order == order[..n] + [i];
      RunPush(machine, q, order[..n], i, from);
      OnServerPush(q, order[..n], i, s);
      if q.route[i] == s {
        RunPush(machine, q, OnServer(q, order[..n], s), i, from);
      }
    }
  }

  /** Two schedules that send every server the same commands in the same order have the same
      effect on all servers and collect the same replies. */
  lemma SchedulesAgree<S, C, R>(machine: Machine<S, C, R>, q: Queue<C>, a: seq<nat>, b: seq<nat>, from: Outcome<S, R>)
    requires q.Fits(from.states) && q.Covers(a) && q.Covers(b)
    requires forall s :: OnServer(q, a, s) == OnServer(q, b, s)
    ensures Run(machine, q, a, from) == Run(machine, q, b, from)
  {
    var x, y := Run(machine, q, a, from), Run(machine, q, b, from);
    forall s | s in from.states
      ensures x.states[s] == y.states[s]
    {
      OnlyOwnCommandsMatter(machine, q, a, s, from);
      OnlyOwnCommandsMatter(machine, q, b, s, from);
    }
    assert x.states == y.states;
    forall i: nat
      ensures i in a <==> i in b
      ensures i in a ==> x.replies[i] == y.replies[i]
    {
      if i in a || i in b {
        var s := q.route[i];
        assert i in OnServer(q, a, s) && i in OnServer(q, b, s);
        OnlyOwnCommandsMatter(machine, q, a, s, from);
        OnlyOwnCommandsMatter(machine, q, b, s, from);
      }
    }
    forall i: nat | i in x.replies && i !in a
      ensures x.replies[i] == y.replies[i]
    {
      Untouched(machine, q, a, i, from);
      Untouched(machine, q, b, i, from);
    }
    assert x.replies == y.replies;
  }

  lemma {:induction false} Untouched<S, C, R>(machine: Machine<S, C, R>, q: Queue<C>, order: seq<nat>, i: nat, from: Outcome<S, R>)
    requires q.Fits(from.states) && q.Covers(order) && i !in order && i in from.replies
    ensures Run(machine, q, order, from).replies[i] == from.replies[i]
  {
    if order == [] {
    } else {
      Untouched(machine, q, order[..|order| - 1], i, from);
    }
  }

  /** A server that no command is routed to gets nothing. */
  lemma NoPart<C>(q: Queue<C>, order: seq<nat>, s: ServerId)
    requires q.Covers(order) && s !in q.route
    ensures OnServer(q, order, s) == []
  {
    var part := OnServer(q, order, s);
    assert forall k :: 0 <= k < |part| ==> part[k] in part;
  }

  ghost predicate Increasing(part: seq<nat>, below: nat) {
    && (forall k :: 0 <= k < |part| ==> part[k] < below)
    && (forall k, l :: 0 <= k < l < |part| ==> part[k] < part[l])
  }

  /** In queue order, a server's part holds no position twice. */
  lemma {:induction false} PartIsDistinct<C>(q: Queue<C>, n: nat, s: ServerId)
    requires |q.route| == |q.commands| && n <= |q.commands|
    ensures Increasing(OnServer(q, InOrder(n), s), n)
  {
    if n == 0 {
    } else {
      hide OnServer;
      PartIsDistinct(q, n - 1, s);
      assert InOrder(n) == InOrder(n - 1) + [n - 1];
      OnServerPush(q, InOrder(n - 1), n - 1, s);
    }
  }

  // ---- One command at a time ----

  /** Issue the commands of the queue one at a time, each waiting for its reply: the final states
      and the replies in queue order. */
  function OneByOne<S, C, R>(machine: Machine<S, C, R>, q: Queue<C>, n: nat, states: map<ServerId, S>): (r: (map<ServerId, S>, seq<R>))
    requires q.Fits(states) && n <= |q.commands|
    ensures r.0.Keys == states.Keys && |r.1| == n
  {
    if n == 0 then (states, [])
    else
      var (before, replies) := OneByOne(machine, q, n - 1, states);
      var (state, reply) := machine(before[q.route[n - 1]], q.commands[n - 1]);
      (before[q.route[n - 1] := state], replies + [reply])
  }

  lemma OneByOneStep<S, C, R>(machine: Machine<S, C, R>, q: Queue<C>, n: nat, states: map<ServerId, S>)
    requires q.Fits(states) && 0 < n <= |q.commands|
    ensures var s := q.route[n - 1];
            var (before, replies) := OneByOne(machine, q, n - 1, states);
            var (state, reply) := machine(before[s], q.commands[n - 1]);
            OneByOne(machine, q, n, states) == (before[s := state], replies + [reply])
  {
  }

  lemma {:induction false} OneByOneIsQueueOrder<S, C, R>(machine: Machine<S, C, R>, q: Queue<C>, n: nat, states: map<ServerId, S>)
    requires q.Fits(states) && n <= |q.commands|
    ensures var o := Run(machine, q, InOrder(n), Outcome(states, map[]));
            var (after, replies) := OneByOne(machine, q, n, states);
            && o.states == after
            && (forall i: nat :: i in o.replies <==> i < n)
            && forall i: nat :: i < n ==> o.replies[i] == replies[i]
  {
    if n == 0 {
    } else {
      OneByOneIsQueueOrder(machine, q, n - 1, states);
      assert InOrder(n) == InOrder(n - 1) + [n - 1];
      hide Run, InOrder, OneByOne;
      RunPush(machine, q, InOrder(n - 1), n - 1, Outcome(states, map[]));
      OneByOneStep(machine, q, n, states);
    }
  }

  /** Commands sent in batches, whatever the order of the batches, have the effect of commands
      issued one by one as long as each server gets its own in queue order. */
  lemma BatchesAreOneByOne<S, C, R>(machine: Machine<S, C, R>, q: Queue<C>, schedule: seq<nat>, states: map<ServerId, S>)
    requires q.Fits(states) && q.Covers(schedule)
    requires forall s :: OnServer(q, schedule, s) == OnServer(q, InOrder(|q.commands|), s)
    ensures var o := Run(machine, q, schedule, Outcome(states, map[]));
            var (after, replies) := OneByOne(machine, q, |q.commands|, states);
            && o.states == after
            && (forall i: nat :: i in o.replies <==> i < |q.commands|)
            && forall i: nat :: i < |q.commands| ==> o.replies[i] == replies[i]
  {
    SchedulesAgree(machine, q, schedule, InOrder(|q.commands|), Outcome(states, map[]));
    OneByOneIsQueueOrder(machine, q, |q.commands|, states);
  }

  // ---- Running part of a queue before the whole ----

  /** A machine that counts the commands it is given. */
  function Counting<C>(count: int, command: C): (int, int) {
    (count + 1, count + 1)
  }

  lemma {:induction false} CountingCounts<C>(q: Queue<C>, order: seq<nat>, s: ServerId, from: Outcome<int, int>)
    requires q.Fits(from.states) && q.Covers(order) && s in from.states
    ensures Run(Counting, q, order, from).states[s] == from.states[s] + |OnServer(q, order, s)|
  {
    if order == [] {
    } else {
      CountingCounts(q, order[..|order| - 1], s, from);
    }
  }

  /** Running the queue after a part of it has already run is the same as running it once, on
      every machine, exactly when that part is empty: nothing changes if it is, and counting
      machines see the difference if it is not. */
  lemma RerunIsVisible<C>(q: Queue<C>, ran: seq<nat>, states: map<ServerId, int>)
    requires q.Fits(states) && q.Covers(ran)
    ensures var n := |q.commands|;
            var middle := Run(Counting, q, ran, Outcome(states, map[])).states;
            OneByOne(Counting, q, n, middle).0 == OneByOne(Counting, q, n, states).0 <==> ran == []
  {
    var n := |q.commands|;
    var middle := Run(Counting, q, ran, Outcome(states, map[])).states;
    if ran != [] {
      var s := q.route[ran[0]];
      OneByOneIsQueueOrder(Counting, q, n, middle);
      OneByOneIsQueueOrder(Counting, q, n, states);
      CountingCounts(q, InOrder(n), s, Outcome(middle, map[]));
      CountingCounts(q, InOrder(n), s, Outcome(states, map[]));
      CountingCounts(q, ran, s, Outcome(states, map[]));
      assert ran[0] in OnServer(q, ran, s);
    }
  }
}
