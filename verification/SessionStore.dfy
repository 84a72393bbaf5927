/** Sessions in a shared key-value store. Creating one is a protocol of two round trips: read the
    account's current session, then write both keys in one transaction. Any number of calls may
    be between the two, and keys expire meanwhile. */
module SessionStore {
  import opened Wrappers

  type AccountId = int
  type SessionId = string
  type CallId = nat

  /** Both keys are written with a life of three minutes. */
  const LIFETIME := 180

  datatype Entry<T> = Entry(value: T, expires: int)

  /** The keys "Account:<id>" and "Session:<id>", and the store's clock in seconds. A key whose
      time has come counts as absent. */
  datatype Store = Store(now: int, accounts: map<AccountId, Entry<SessionId>>, sessions: map<SessionId, Entry<AccountId>>) {
    predicate AccountLives(a: AccountId) {
      a in accounts && now < accounts[a].expires
    }

    predicate SessionLives(s: SessionId) {
      s in sessions && now < sessions[s].expires
    }

    /** What reading an account key returns. */
    function Current(a: AccountId): Option<SessionId> {
      if AccountLives(a) then Some(accounts[a].value) else None
    }
  }

  /** A call between its read and its transaction. */
  datatype Call = Call(session: SessionId, account: AccountId, seen: Option<SessionId>)

  /** The transaction: over an existing session it replaces both keys unconditionally; otherwise
      it requires that neither key exists. */
  function Commit(store: Store, call: Call): (Store, bool) {
    var expires := store.now + LIFETIME;
    var accounts := store.accounts[call.account := Entry(call.session, expires)];
    match call.seen
    case Some(earlier) =>
      (Store(store.now, accounts, (store.sessions - {earlier})[call.session := Entry(call.account, expires)]), true)
    case None =>
      if store.SessionLives(call.session) || store.AccountLives(call.account) then (store, false)
      else (Store(store.now, accounts, store.sessions[call.session := Entry(call.account, expires)]), true)
  }

  // ---- The store under interleaved calls ----

  /** The store, the calls under way, and two histories: the session ids handed to calls, with
      their accounts, and those that have reached the store. */
  datatype System = System(store: Store, calls: map<CallId, Call>, issued: map<SessionId, AccountId>, used: set<SessionId>)

  datatype Step =
    | Read(id: CallId, session: SessionId, account: AccountId)
    | Execute(id: CallId)
    | LoseReply(id: CallId)  // the transaction runs, but the caller does not hear of it
    | Abort(id: CallId)      // the transaction does not run
    | Pass(seconds: nat)

  function Apply(sys: System, step: Step): Option<System> {
    match step
    case Read(id, session, account) =>
      if id in sys.calls || session in sys.issued then None
      else Some(sys.(calls := sys.calls[id := Call(session, account, sys.store.Current(account))],
                     issued := sys.issued[session := account]))
    case Execute(id) => Finish(sys, id)
    case LoseReply(id) => Finish(sys, id)
    case Abort(id) =>
      if id in sys.calls then Some(sys.(calls := sys.calls - {id})) else None
    case Pass(seconds) => Some(sys.(store := sys.store.(now := sys.store.now + seconds)))
  }

  function Finish(sys: System, id: CallId): Option<System> {
    if id in sys.calls then
      var call := sys.calls[id];
      var (store, committed) := Commit(sys.store, call);
      Some(System(store, sys.calls - {id}, sys.issued, if committed then sys.used + {call.session} else sys.used))
    else None
  }

  const EMPTY := System(Store(0, map[], map[]), map[], map[], {})

  /** The state after a run, if each step was possible where it was taken. */
  function After(steps: seq<Step>): Option<System> {
    if steps == [] then Some(EMPTY)
    else match After(steps[..|steps| - 1])
         case None => None
         case Some(sys) => Apply(sys, steps[|steps| - 1])
  }

  // ---- The two keys point at each other ----

  /** Each account key names a session key that names the account and expires with it. */
  ghost predicate Paired(store: Store) {
    forall a :: a in store.accounts ==>
      && store.accounts[a].value in store.sessions
      && store.sessions[store.accounts[a].value] == Entry(a, store.accounts[a].expires)
  }

  ghost predicate Invariant(sys: System) {
    && Paired(sys.store)
    && (forall s :: s in sys.store.sessions ==>
          s in sys.used && s in sys.issued && sys.issued[s] == sys.store.sessions[s].value)
    && (forall s :: s in sys.used ==> s in sys.issued)
    && (forall id :: id in sys.calls ==> CallIsSound(sys, sys.calls[id]))
    && (forall id, jd :: id in sys.calls && jd in sys.calls && id != jd ==> sys.calls[id].session != sys.calls[jd].session)
  }

  /** A call's own session id is fresh, and the session it saw is one of its account's. */
  ghost predicate CallIsSound(sys: System, call: Call) {
    && call.session in sys.issued && sys.issued[call.session] == call.account && call.session !in sys.used
    && (call.seen.Some? ==>
          call.seen.value in sys.used && call.seen.value in sys.issued && sys.issued[call.seen.value] == call.account)
  }

  lemma StepKeepsInvariant(sys: System, step: Step)
    requires Invariant(sys) && Apply(sys, step).Some?
    ensures Invariant(Apply(sys, step).value)
  {
    var next := Apply(sys, step).value;
    match step
    case Read(id, session, account) =>
    case Execute(id) => FinishKeepsInvariant(sys, id);
    case LoseReply(id) => FinishKeepsInvariant(sys, id);
    case Abort(id) =>
    case Pass(seconds) =>
  }

  lemma FinishKeepsInvariant(sys: System, id: CallId)
    requires Invariant(sys) && id in sys.calls
    ensures Invariant(Finish(sys, id).value)
  {
    var call := sys.calls[id];
    var next := Finish(sys, id).value;
    forall a | a in next.store.accounts
      ensures next.store.accounts[a].value in next.store.sessions
      ensures next.store.sessions[next.store.accounts[a].value] == Entry(a, next.store.accounts[a].expires)
    {
      if a != call.account {
        var s := sys.store.accounts[a].value;
        assert sys.store.sessions[s].value == a;
        assert call.seen != Some(s) && s != call.session;
      }
    }
  }

  lemma {:induction false} RunKeepsInvariant(steps: seq<Step>)
    requires After(steps).Some?
    ensures Invariant(After(steps).value)
  {
    if steps == [] {
    } else {
      RunKeepsInvariant(steps[..|steps| - 1]);
      StepKeepsInvariant(After(steps[..|steps| - 1]).value, steps[|steps| - 1]);
    }
  }

  /** After any interleaving of calls, losses, failures and waiting: a live account key leads to a
      live session key, which leads back and expires at the same moment, and to no other
      account. */
  lemma LiveKeysAreLinked(steps: seq<Step>, a: AccountId)
    requires After(steps).Some? && After(steps).value.store.AccountLives(a)
    ensures var store := After(steps).value.store;
            var s := store.accounts[a].value;
            && store.SessionLives(s) && store.sessions[s] == Entry(a, store.accounts[a].expires)
            && forall b :: store.AccountLives(b) && store.accounts[b].value == s ==> b == a
  {
    RunKeepsInvariant(steps);
  }

  // ---- One session an account ----

  /** Every live session of the account is the one its account key names. */
  ghost predicate Single(store: Store, a: AccountId) {
    forall s :: store.SessionLives(s) && store.sessions[s].value == a ==> store.Current(a) == Some(s)
  }

  /** No two calls for the account are under way at once, all along the run. */
  ghost predicate NoOverlap(steps: seq<Step>, a: AccountId) {
    steps == [] ||
    (var before := steps[..|steps| - 1];
     && NoOverlap(before, a)
     && (steps[|steps| - 1].Read? && steps[|steps| - 1].account == a && After(before).Some? ==>
           forall id :: id in After(before).value.calls ==> After(before).value.calls[id].account != a))
  }

  /** What a call saw of its account is still so, unless it has expired since. */
  ghost predicate SeenIsCurrent(sys: System, a: AccountId) {
    && (forall id :: id in sys.calls && sys.calls[id].account == a ==>
          sys.store.Current(a) == None || sys.store.Current(a) == sys.calls[id].seen)
    && (forall id, jd :: id in sys.calls && jd in sys.calls && sys.calls[id].account == sys.calls[jd].account == a ==> id == jd)
  }

  /** A transaction keeps the account down to one live session exactly if what the call saw is
      still the live session, or none is live any more, or the transaction was refused. */
  lemma CommitKeepsSingle(sys: System, id: CallId)
    requires Invariant(sys) && id in sys.calls && Single(sys.store, sys.calls[id].account)
    ensures var call := sys.calls[id];
            var (store, committed) := Commit(sys.store, call);
            Single(store, call.account) <==>
              (!committed || sys.store.Current(call.account) == None || sys.store.Current(call.account) == call.seen)
  {
    var call := sys.calls[id];
    var (store, committed) := Commit(sys.store, call);
    var current := sys.store.Current(call.account);
    if committed && current.Some? && current != call.seen {
      var s := current.value;
      assert store.SessionLives(s) && store.sessions[s].value == call.account;
      assert store.Current(call.account) == Some(call.session);
    }
  }

  lemma {:induction false} RunKeepsSingle(steps: seq<Step>, a: AccountId)
    requires After(steps).Some? && NoOverlap(steps, a)
    ensures Single(After(steps).value.store, a) && SeenIsCurrent(After(steps).value, a)
  {
    if steps == [] {
    } else {
      var before := steps[..|steps| - 1];
      RunKeepsSingle(before, a);
      RunKeepsInvariant(before);
      StepKeepsSingle(After(before).value, steps[|steps| - 1], a);
    }
  }

  lemma StepKeepsSingle(sys: System, step: Step, a: AccountId)
    requires Invariant(sys) && Apply(sys, step).Some? && Single(sys.store, a) && SeenIsCurrent(sys, a)
    requires step.Read? && step.account == a ==> forall id :: id in sys.calls ==> sys.calls[id].account != a
    ensures Single(Apply(sys, step).value.store, a) && SeenIsCurrent(Apply(sys, step).value, a)
  {
    match step
    case Read(id, session, account) =>
    case Execute(id) => FinishKeepsSingle(sys, id, a);
    case LoseReply(id) => FinishKeepsSingle(sys, id, a);
    case Abort(id) =>
    case Pass(seconds) =>
  }

  lemma FinishKeepsSingle(sys: System, id: CallId, a: AccountId)
    requires Invariant(sys) && id in sys.calls && Single(sys.store, a) && SeenIsCurrent(sys, a)
    ensures Single(Finish(sys, id).value.store, a) && SeenIsCurrent(Finish(sys, id).value, a)
  {
    var call := sys.calls[id];
    if call.account == a {
      CommitKeepsSingle(sys, id);
    }
  }

  /** If calls for an account never overlap, it has at most one live session at any time. */
  lemma AtMostOneSession(steps: seq<Step>, a: AccountId, s: SessionId, t: SessionId)
    requires After(steps).Some? && NoOverlap(steps, a)
    requires var store := After(steps).value.store;
             && store.SessionLives(s) && store.sessions[s].value == a
             && store.SessionLives(t) && store.sessions[t].value == a
    ensures s == t
  {
    RunKeepsSingle(steps, a);
  }

  /** Two calls that saw the same session both replace that one: whatever else is going on, both
      new sessions are live afterwards. */
  lemma OverlapLeavesTwo(sys: System, id: CallId, jd: CallId)
    requires Invariant(sys) && id in sys.calls && jd in sys.calls && id != jd
    requires sys.calls[id].account == sys.calls[jd].account && sys.calls[id].seen.Some? && sys.calls[jd].seen.Some?
    ensures var a := sys.calls[id].account;
            var middle := Apply(sys, Execute(id));
            && middle.Some? && Apply(middle.value, Execute(jd)).Some?
            && var store := Apply(middle.value, Execute(jd)).value.store;
               && store.SessionLives(sys.calls[id].session) && store.sessions[sys.calls[id].session].value == a
               && store.SessionLives(sys.calls[jd].session) && store.sessions[sys.calls[jd].session].value == a
  {
    assert sys.calls[id].session != sys.calls[jd].seen.value;
  }

  lemma FirstSession()
    ensures var sys := After([Read(0, "a", 7), Execute(0)]);
      && sys.Some? && sys.value.calls == map[] && sys.value.store.Current(7) == Some("a")
      && sys.value == Apply(Apply(After([]).value, Read(0, "a", 7)).value, Execute(0)).value
  {
    AfterPush([], Read(0, "a", 7));
    AfterPush([Read(0, "a", 7)], Execute(0));
    assert [] + [Read(0, "a", 7)] == [Read(0, "a", 7)];
    assert [Read(0, "a", 7)] + [Execute(0)] == [Read(0, "a", 7), Execute(0)];
  }

  /** A run reaches such a pair of calls: the second starts before the first has finished. */
  lemma OverlapIsReachable()
    ensures var steps := [Read(0, "a", 7), Execute(0), Read(1, "b", 7), Read(2, "c", 7)];
            && After(steps).Some?
            && After(steps).value.calls == map[1 := Call("b", 7, Some("a")), 2 := Call("c", 7, Some("a"))]
  {
    FirstSession();
    AfterPush([Read(0, "a", 7), Execute(0)], Read(1, "b", 7));
    AfterPush([Read(0, "a", 7), Execute(0), Read(1, "b", 7)], Read(2, "c", 7));
    hide After;
    assert [Read(0, "a", 7), Execute(0)] + [Read(1, "b", 7)] == [Read(0, "a", 7), Execute(0), Read(1, "b", 7)];
    assert [Read(0, "a", 7), Execute(0), Read(1, "b", 7)] + [Read(2, "c", 7)]
        == [Read(0, "a", 7), Execute(0), Read(1, "b", 7), Read(2, "c", 7)];
  }

  lemma AfterPush(steps: seq<Step>, step: Step)
    ensures After(steps + [step]) == match After(steps) case None => None case Some(sys) => Apply(sys, step)
  {
    assert (steps + [step])[..|steps|] == steps;
  }

  datatype Status = Success | NoSuccess

  /** A call reports success exactly if its transaction ran and it heard so; without success the
      store has changed exactly if the reply was lost on a transaction that ran. */
  ghost predicate Reports(sys: System, step: Step, status: Status) {
    (step.Execute? || step.LoseReply? || step.Abort?) && step.id in sys.calls &&
    (status == Success <==> step.Execute? && Commit(sys.store, sys.calls[step.id]).1)
  }

  // ---- Calls that saw no session ----

  /** What a call sees is the session its account's key names, if that key has not expired. */
  lemma ReadSees(sys: System, id: CallId, session: SessionId, account: AccountId)
    requires id !in sys.calls && session !in sys.issued
    ensures
      var next := Apply(sys, Read(id, session, account));
      && next.Some? && next.value.store == sys.store && next.value.used == sys.used
      && next.value.calls.Keys == sys.calls.Keys + {id}
      && next.value.calls[id].session == session && next.value.calls[id].account == account
      && (next.value.calls[id].seen.Some? <==>
            account in sys.store.accounts && sys.store.now < sys.store.accounts[account].expires)
      && (next.value.calls[id].seen.Some? ==> next.value.calls[id].seen.value == sys.store.accounts[account].value)
  {
  }

  /** A call that saw no session is refused, and changes nothing, if and only if one of its two keys
      lives when its transaction comes; otherwise it writes both, for three minutes. */
  lemma FirstLoginRefusedIff(sys: System, id: CallId)
    requires id in sys.calls && sys.calls[id].seen == None
    ensures
      var call, next := sys.calls[id], Apply(sys, Execute(id)).value;
      var refused := (call.session in sys.store.sessions && sys.store.now < sys.store.sessions[call.session].expires)
                  || (call.account in sys.store.accounts && sys.store.now < sys.store.accounts[call.account].expires);
      && next.calls == sys.calls - {id} && next.issued == sys.issued
      && (refused ==> next.store == sys.store && next.used == sys.used)
      && (!refused ==>
            && next.used == sys.used + {call.session} && next.store.now == sys.store.now
            && next.store.accounts == sys.store.accounts[call.account := Entry(call.session, sys.store.now + 180)]
            && next.store.sessions == sys.store.sessions[call.session := Entry(call.account, sys.store.now + 180)])
  {
  }

  /** A call that saw a session is never refused: that session goes, whether or not it is still the
      account's, and both keys are written for three minutes. */
  lemma LaterLoginReplaces(sys: System, id: CallId)
    requires id in sys.calls && sys.calls[id].seen.Some?
    ensures
      var call, next := sys.calls[id], Apply(sys, Execute(id)).value;
      && next.calls == sys.calls - {id} && next.issued == sys.issued
      && next.used == sys.used + {call.session} && next.store.now == sys.store.now
      && next.store.accounts == sys.store.accounts[call.account := Entry(call.session, sys.store.now + 180)]
      && next.store.sessions ==
           (sys.store.sessions - {call.seen.value})[call.session := Entry(call.account, sys.store.now + 180)]
  {
  }

  /** Of two overlapping calls for one account that saw no session, the one whose transaction comes
      second changes nothing, and does not report success, as long as the account's key lives,
      whatever happens in between. */
  lemma SecondFirstLoginIsRefused(steps: seq<Step>, id: CallId, jd: CallId, more: seq<Step>)
    requires After(steps).Some? && id != jd && id in After(steps).value.calls && jd in After(steps).value.calls
    requires After(steps).value.calls[id].account == After(steps).value.calls[jd].account
    requires After(steps).value.calls[id].seen == After(steps).value.calls[jd].seen == None
    requires After(steps + [Execute(id)] + more).Some? && jd in After(steps + [Execute(id)] + more).value.calls
    requires forall k :: 0 <= k < |more| ==> more[k] != Abort(jd) && more[k] != Execute(jd) && more[k] != LoseReply(jd)
    requires After(steps + [Execute(id)] + more).value.store.AccountLives(After(steps).value.calls[jd].account)
    ensures var sys := After(steps + [Execute(id)] + more).value;
      && sys.calls[jd] == After(steps).value.calls[jd]
      && Apply(sys, Execute(jd)).value.store == sys.store
      && sys.calls[jd].session !in Apply(sys, Execute(jd)).value.used
      && forall status :: Reports(sys, Execute(jd), status) ==> status == NoSuccess
  {
    var begun := steps + [Execute(id)];
    AfterPush(steps, Execute(id));
    CallStays(begun, more, jd);
    RunKeepsInvariant(begun + more);
    FirstLoginRefusedIff(After(begun + more).value, jd);
  }

  /** A call stays as it was until its transaction comes or is given up. */
  lemma {:induction false} CallStays(steps: seq<Step>, more: seq<Step>, jd: CallId)
    requires After(steps + more).Some? && After(steps).Some? && jd in After(steps).value.calls
    requires forall k :: 0 <= k < |more| ==> more[k] != Abort(jd) && more[k] != Execute(jd) && more[k] != LoseReply(jd)
    ensures jd in After(steps + more).value.calls
    ensures After(steps + more).value.calls[jd] == After(steps).value.calls[jd]
  {
    if more == [] {
      assert steps + more == steps;
    } else {
      var n := |more| - 1;
      assert steps + more == (steps + more[..n]) + [more[n]];
      AfterPush(steps + more[..n], more[n]);
      CallStays(steps, more[..n], jd);
    }
  }

  /** Two first logins that overlap: the first stays, the second leaves no trace. */
  lemma FirstLoginStays()
    ensures var sys := After([Read(0, "a", 7), Read(1, "b", 7), Execute(0), Execute(1)]);
      && sys.Some? && sys.value.store.Current(7) == Some("a")
      && "b" !in sys.value.store.sessions && sys.value.used == {"a"}
  {
    AfterPush([], Read(0, "a", 7));
    AfterPush([Read(0, "a", 7)], Read(1, "b", 7));
    hide After;
    assert [] + [Read(0, "a", 7)] == [Read(0, "a", 7)];
    assert [Read(0, "a", 7)] + [Read(1, "b", 7)] == [Read(0, "a", 7), Read(1, "b", 7)];
    var begun := [Read(0, "a", 7), Read(1, "b", 7)];
    AfterPush(begun, Execute(0));
    assert begun + [Execute(0)] == [Read(0, "a", 7), Read(1, "b", 7), Execute(0)];
    AfterPush(begun + [Execute(0)], Execute(1));
    assert begun + [Execute(0)] + [Execute(1)] == [Read(0, "a", 7), Read(1, "b", 7), Execute(0), Execute(1)];
  }

  /** The transaction of a call that saw a session comes when another one lives. */
  ghost predicate Doubles(sys: System, step: Step, a: AccountId) {
    && (step.Execute? || step.LoseReply?) && step.id in sys.calls && sys.calls[step.id].account == a
    && sys.calls[step.id].seen.Some? && sys.store.Current(a).Some? && sys.store.Current(a) != sys.calls[step.id].seen
  }

  /** An account is left with a second live session only by such a transaction. */
  lemma SecondSessionNeedsSeen(sys: System, step: Step, a: AccountId)
    requires Invariant(sys) && Apply(sys, step).Some? && Single(sys.store, a)
    ensures !Single(Apply(sys, step).value.store, a) <==> Doubles(sys, step, a)
  {
    if (step.Execute? || step.LoseReply?) && step.id in sys.calls {
      if sys.calls[step.id].account == a {
        CommitKeepsSingle(sys, step.id);
      } else {
        OthersKeepSingle(sys, step.id, a);
      }
    }
  }

  lemma OthersKeepSingle(sys: System, id: CallId, a: AccountId)
    requires Invariant(sys) && id in sys.calls && sys.calls[id].account != a && Single(sys.store, a)
    ensures Single(Finish(sys, id).value.store, a)
  {
  }

  lemma {:induction false} RunDoubles(steps: seq<Step>, a: AccountId)
    requires After(steps).Some? && !Single(After(steps).value.store, a)
    ensures exists k :: 0 <= k < |steps| && After(steps[..k]).Some? && Doubles(After(steps[..k]).value, steps[k], a)
  {
    if steps != [] {
      var n := |steps| - 1;
      if Single(After(steps[..n]).value.store, a) {
        RunKeepsInvariant(steps[..n]);
        SecondSessionNeedsSeen(After(steps[..n]).value, steps[n], a);
      } else {
        RunDoubles(steps[..n], a);
        var k :| 0 <= k < n && After(steps[..n][..k]).Some? && Doubles(After(steps[..n][..k]).value, steps[..n][k], a);
        assert steps[..n][..k] == steps[..k];
      }
    }
  }

  // ---- The outcome a caller sees ----

  lemma NoSuccessChangesNothing(sys: System, step: Step, status: Status)
    requires Invariant(sys) && Apply(sys, step).Some? && Reports(sys, step, status)
    ensures status == NoSuccess ==>
              (Apply(sys, step).value.store == sys.store <==>
                 !(step.LoseReply? && Commit(sys.store, sys.calls[step.id]).1))
    ensures status == Success ==>
              var call := sys.calls[step.id];
              Apply(sys, step).value.store.Current(call.account) == Some(call.session)
  {
    var call := sys.calls[step.id];
    assert call.session !in sys.store.sessions;
    var (store, committed) := Commit(sys.store, call);
    assert committed ==> call.session in store.sessions;
  }

  // ---- The repository ----

  class CacheRepository {
    var store: Store

    constructor ()
      ensures store == Store(0, map[], map[])
    {
      store := Store(0, map[], map[]);
    }

    method StringGetAccount(account: AccountId) returns (session: Option<SessionId>)
      ensures session == store.Current(account)
    {
      session := if store.AccountLives(account) then Some(store.accounts[account].value) else None;
    }

    method KeyDeleteSession(session: SessionId)
      modifies this
      ensures store == old(store).(sessions := old(store).sessions - {session})
    {
      store := store.(sessions := store.sessions - {session});
    }

    method StringSetSession(session: SessionId, account: AccountId, life: int)
      modifies this
      ensures store == old(store).(sessions := old(store).sessions[session := Entry(account, old(store).now + life)])
    {
      store := store.(sessions := store.sessions[session := Entry(account, store.now + life)]);
    }

    method StringSetAccount(account: AccountId, session: SessionId, life: int)
      modifies this
      ensures store == old(store).(accounts := old(store).accounts[account := Entry(session, old(store).now + life)])
    {
      store := store.(accounts := store.accounts[account := Entry(session, store.now + life)]);
    }

    /** The second half of a call: the queued operations of its transaction, executed together. */
    method ExecuteTransaction(call: Call) returns (committed: bool)
      modifies this
      ensures (store, committed) == Commit(old(store), call)
      ensures committed <==>
                (call.seen.Some? ||
                 (!(call.session in old(store).sessions && old(store).now < old(store).sessions[call.session].expires) &&
                  !(call.account in old(store).accounts && old(store).now < old(store).accounts[call.account].expires)))
      ensures !committed ==> store == old(store)
      ensures committed ==>
                && store.now == old(store).now
                && store.accounts == old(store).accounts[call.account := Entry(call.session, old(store).now + 180)]
                && store.sessions == (if call.seen.Some? then old(store).sessions - {call.seen.value} else old(store).sessions)
                                       [call.session := Entry(call.account, old(store).now + 180)]
    {
      if call.seen.Some? {
        KeyDeleteSession(call.seen.value);
        StringSetSession(call.session, call.account, LIFETIME);
        StringSetAccount(call.account, call.session, LIFETIME);
        return true;
      } else {
        if store.SessionLives(call.session) || store.AccountLives(call.account) {
          return false;
        }
        StringSetSession(call.session, call.account, LIFETIME);
        StringSetAccount(call.account, call.session, LIFETIME);
        return true;
      }
    }

    /** A call that nothing interleaves with. It succeeds whenever its session id is new, and then
        the account's only live session is the new one. */
    method CreateSession(session: SessionId, account: AccountId) returns (committed: bool)
      requires Paired(store) && session !in store.sessions && Single(store, account)
      modifies this
      ensures committed && Paired(store) && Single(store, account)
      ensures store.Current(account) == Some(session) && store.SessionLives(session)
      ensures store.sessions[session] == Entry(account, old(store).now + 180)
      ensures forall b :: b != account ==> store.Current(b) == old(store).Current(b)
    {
      var seen := StringGetAccount(account);
      committed := ExecuteTransaction(Call(session, account, seen));
    }
  }
}
