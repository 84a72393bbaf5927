/** Renaming a key whose new name belongs to another server: the value is dumped, restored under the
    new name and deleted under the old one, by calls each of which can be late, run without an
    answer, run again, or be refused. */
module Rename {
  import opened Wrappers
  import opened Words
  import opened Reply
  import opened SlotTable
  import HashSlot

  /** What DUMP returns for a key that exists is never empty. */
  type Payload = p: Bytes | p != [] witness [0]

  /** A value, and the last millisecond at which it exists. */
  datatype Entry = Entry(payload: Payload, expiry: Option<int>)

  type Store = map<Bytes, Entry>

  /** The keys on all servers, and the time. */
  datatype State = State(store: Store, now: int)

  datatype Command =
    | Dump(key: Bytes)
    | Pttl(key: Bytes)
    | Del(key: Bytes)
    | Restore(key: Bytes, ttl: int, payload: Payload)
    | RenameKey(key: Bytes, newKey: Bytes)

  // ---- The servers ----

  predicate Alive(store: Store, now: int, key: Bytes) {
    key in store && (store[key].expiry.None? || now <= store[key].expiry.value)
  }

  function Serve(store: Store, now: int, c: Command): (Store, RedisReply) {
    match c
    case Dump(key) => (store, if Alive(store, now, key) then String(store[key].payload) else Nil)
    case Pttl(key) =>
      (store, if !Alive(store, now, key) then Integer(-2)
              else if store[key].expiry.None? then Integer(-1)
              else Integer(store[key].expiry.value - now))
    case Del(key) => (store - {key}, Integer(if Alive(store, now, key) then 1 else 0))
    case Restore(key, ttl, payload) =>
      if ttl < 0 || Alive(store, now, key) then (store, Error([]))
      else (store[key := Entry(payload, if ttl == 0 then None else Some(now + ttl))], Status(OK))
    case RenameKey(key, newKey) =>
      if !Alive(store, now, key) then (store, Error([]))
      else ((store - {key})[newKey := store[key]], Status(OK))
  }

  // ---- One call ----

  /** How a call ends: with the answer of a last run, with a refusal by the server, or with nothing. */
  datatype End = Answered | Rejected | Silent

  /** What happens to a call: it is late, it runs some number of times without its answer arriving,
      which the client hides by sending it again, and it ends. */
  datatype Fate = Fate(delay: nat, runs: nat, end: End)

  function RunTimes(store: Store, now: int, c: Command, runs: nat): Store
    decreases runs
  {
    if runs == 0 then store else RunTimes(Serve(store, now, c).0, now, c, runs - 1)
  }

  function Execute(s: State, c: Command, fate: Fate): (State, Option<RedisReply>) {
    var now := s.now + fate.delay;
    var store := RunTimes(s.store, now, c, fate.runs);
    match fate.end
    case Answered => (State(Serve(store, now, c).0, now), Some(Serve(store, now, c).1))
    case Rejected => (State(store, now), Some(Error([])))
    case Silent => (State(store, now), None)
  }

  /** The command ran at least once. */
  predicate Took(fate: Fate) {
    fate.runs > 0 || fate.end.Answered?
  }

  function StringResult(reply: Option<RedisReply>): (int, Bytes) {
    if reply.None? then (RC_RQST_ERR, []) else FetchString(reply.value)
  }

  function IntegerResult(reply: Option<RedisReply>): (int, int) {
    if reply.None? then (RC_RQST_ERR, 0) else FetchInteger(reply.value)
  }

  /** A status other than OK is an error. */
  function StatusResult(reply: Option<RedisReply>): int {
    if reply.None? then RC_RQST_ERR else StatusCode(reply.value)
  }

  // ---- Renaming ----

  datatype Weather = Weather(dump: Fate, pttl: Fate, delNew: Fate, restore: Fate, delOld: Fate, cleanup: Fate)

  /** The calls up to the deletion of the old key: the state, whether they succeeded, and the last
      return code. */
  function Copy(s: State, key: Bytes, newKey: Bytes, w: Weather): (State, bool, int) {
    var (s1, r1) := Execute(s, Dump(key), w.dump);
    var (dumped, payload) := StringResult(r1);
    if dumped != RC_SUCCESS || payload == [] then (s1, false, dumped)
    else
      var (s2, r2) := Execute(s1, Pttl(key), w.pttl);
      var (timed, left) := IntegerResult(r2);
      if timed != RC_SUCCESS || left == -2 then (s2, false, timed)
      else
        var (s3, r3) := Execute(s2, Del(newKey), w.delNew);
        var deleted := IntegerResult(r3).0;
        if deleted < RC_SUCCESS then (s3, false, deleted)
        else
          var (s4, r4) := Execute(s3, Restore(newKey, if left == -1 then 0 else left, payload), w.restore);
          (s4, StatusResult(r4) == RC_SUCCESS, StatusResult(r4))
  }

  function Move(s: State, key: Bytes, newKey: Bytes, w: Weather): (State, bool, int) {
    var (s4, copied, code) := Copy(s, key, newKey, w);
    if !copied then (s4, false, code)
    else
      var (s5, r5) := Execute(s4, Del(key), w.delOld);
      (s5, IntegerResult(r5).0 >= RC_SUCCESS, IntegerResult(r5).0)
  }

  function Renamed(s: State, key: Bytes, newKey: Bytes, w: Weather): (State, int) {
    var (s5, moved, code) := Move(s, key, newKey, w);
    if moved then (s5, RC_SUCCESS)
    else (Execute(s5, Del(newKey), w.cleanup).0, if code == RC_SUCCESS then RC_REPLY_ERR else code)
  }

  // ---- What it should do ----

  /** Renaming in one step, by a server that has both keys. */
  function Atomic(store: Store, key: Bytes, newKey: Bytes): Store
    requires key in store
  {
    (store - {key})[newKey := store[key]]
  }

  /** When the time to live is asked for. */
  function AskedAt(s: State, w: Weather): int {
    s.now + w.dump.delay + w.pttl.delay
  }

  /** How long after that the copy is made. */
  function Drift(w: Weather): nat {
    w.delNew.delay + w.restore.delay
  }

  /** The copy expires later than the original by the time it took to make it; if the original had no
      time left, the copy never expires. */
  function NewExpiry(expiry: Option<int>, asked: int, drift: nat): Option<int> {
    if expiry.None? || expiry.value == asked then None else Some(expiry.value + drift)
  }

  /** The calls that must be answered, the restore at its first run, for a copy to be made and noticed. */
  predicate CopyAnswered(s: State, key: Bytes, w: Weather) {
    && Alive(s.store, AskedAt(s, w), key)
    && w.dump.end.Answered? && w.pttl.end.Answered? && w.delNew.end.Answered?
    && w.restore.end.Answered? && w.restore.runs == 0
  }

  function CopyOf(s: State, key: Bytes, w: Weather): Entry
    requires key in s.store
  {
    Entry(s.store[key].payload, NewExpiry(s.store[key].expiry, AskedAt(s, w), Drift(w)))
  }

  // ---- Calls, one by one ----

  lemma {:induction false} ReadsRunFreely(store: Store, now: int, c: Command, runs: nat)
    requires c.Dump? || c.Pttl?
    ensures RunTimes(store, now, c, runs) == store
  {
    if runs > 0 {
      ReadsRunFreely(store, now, c, runs - 1);
    }
  }

  lemma {:induction false} DelRunsOnce(store: Store, now: int, key: Bytes, runs: nat)
    ensures RunTimes(store, now, Del(key), runs) == if runs == 0 then store else store - {key}
  {
    if runs > 0 {
      DelRunsOnce(store - {key}, now, key, runs - 1);
      assert store - {key} - {key} == store - {key};
    }
  }

  /** Restoring again finds the key that was restored. */
  lemma {:induction false} RestoreRunsOnce(store: Store, now: int, c: Command, runs: nat)
    requires c.Restore? && c.ttl >= 0
    ensures RunTimes(store, now, c, runs) == if runs == 0 then store else Serve(store, now, c).0
    ensures runs > 0 ==> Alive(RunTimes(store, now, c, runs), now, c.key)
    decreases runs
  {
    if runs > 0 {
      RestoreRunsOnce(Serve(store, now, c).0, now, c, runs - 1);
    }
  }

  /** The code of a call that ends like this and has a good answer if any. */
  function CodeOf(end: End): int {
    if end.Answered? then 0 else if end.Rejected? then -2 else -3
  }

  lemma DelExecuted(s: State, key: Bytes, fate: Fate)
    ensures Execute(s, Del(key), fate).0 ==
      State(if Took(fate) then s.store - {key} else s.store, s.now + fate.delay)
    ensures var code := IntegerResult(Execute(s, Del(key), fate).1).0;
      code == CodeOf(fate.end) && (code >= RC_SUCCESS <==> fate.end.Answered?)
  {
    DelRunsOnce(s.store, s.now + fate.delay, key, fate.runs);
    assert s.store - {key} - {key} == s.store - {key};
  }

  lemma ReadExecuted(s: State, c: Command, fate: Fate)
    requires c.Dump? || c.Pttl?
    ensures Execute(s, c, fate).0 == State(s.store, s.now + fate.delay)
    ensures Execute(s, c, fate).1 == match fate.end
      case Answered => Some(Serve(s.store, s.now + fate.delay, c).1)
      case Rejected => Some(Error([]))
      case Silent => None
  {
    ReadsRunFreely(s.store, s.now + fate.delay, c, fate.runs);
  }

  lemma RestoreExecuted(s: State, c: Command, fate: Fate)
    requires c.Restore? && c.ttl >= 0 && c.key !in s.store
    ensures Execute(s, c, fate).0 ==
      State(if Took(fate) then Serve(s.store, s.now + fate.delay, c).0 else s.store, s.now + fate.delay)
    ensures StatusResult(Execute(s, c, fate).1) == RC_SUCCESS <==> fate.end.Answered? && fate.runs == 0
    ensures StatusResult(Execute(s, c, fate).1) == if fate.end.Answered? && fate.runs > 0 then -2 else CodeOf(fate.end)
  {
    RestoreRunsOnce(s.store, s.now + fate.delay, c, fate.runs);
  }

  // ---- The copy ----

  lemma CopySucceeds(s: State, key: Bytes, newKey: Bytes, w: Weather)
    requires key != newKey
    ensures Copy(s, key, newKey, w).1 <==> CopyAnswered(s, key, w)
    ensures Copy(s, key, newKey, w).1 ==>
      Copy(s, key, newKey, w).0 == State(s.store[newKey := CopyOf(s, key, w)], AskedAt(s, w) + Drift(w))
  {
    hide Execute;
    var s1 := State(s.store, s.now + w.dump.delay);
    ReadExecuted(s, Dump(key), w.dump);
    var s2 := State(s.store, s1.now + w.pttl.delay);
    ReadExecuted(s1, Pttl(key), w.pttl);
    DelExecuted(s2, newKey, w.delNew);
    var s3 := Execute(s2, Del(newKey), w.delNew).0;
    if w.dump.end.Answered? && w.pttl.end.Answered? && w.delNew.end.Answered? && Alive(s.store, s2.now, key) {
      var entry := s.store[key];
      var ttl := if entry.expiry.None? then 0 else entry.expiry.value - s2.now;
      var c := Restore(newKey, ttl, entry.payload);
      RestoreExecuted(s3, c, w.restore);
      assert (s.store - {newKey})[newKey := CopyOf(s, key, w)] == s.store[newKey := CopyOf(s, key, w)];
    }
  }

  /** Whatever happens, copying touches no key but the new one. */
  lemma CopyTouchesNewKeyOnly(s: State, key: Bytes, newKey: Bytes, w: Weather)
    requires key != newKey
    ensures Copy(s, key, newKey, w).0.store - {newKey} == s.store - {newKey}
    ensures Copy(s, key, newKey, w).1 ==> Copy(s, key, newKey, w).2 == RC_SUCCESS
    ensures Copy(s, key, newKey, w).2 in {RC_SUCCESS, RC_REPLY_ERR, RC_RQST_ERR}
  {
    hide Execute;
    var s1 := State(s.store, s.now + w.dump.delay);
    ReadExecuted(s, Dump(key), w.dump);
    var s2 := State(s.store, s1.now + w.pttl.delay);
    ReadExecuted(s1, Pttl(key), w.pttl);
    DelExecuted(s2, newKey, w.delNew);
    var s3 := Execute(s2, Del(newKey), w.delNew).0;
    if w.dump.end.Answered? && w.pttl.end.Answered? && w.delNew.end.Answered? && Alive(s.store, s2.now, key) {
      var entry := s.store[key];
      var ttl := if entry.expiry.None? then 0 else entry.expiry.value - s2.now;
      var c := Restore(newKey, ttl, entry.payload);
      RestoreExecuted(s3, c, w.restore);
    }
  }

  /** The calls that are made before a copy is there, in turn. */
  predicate DeletesNew(s: State, key: Bytes, w: Weather) {
    && w.dump.end.Answered? && Alive(s.store, s.now + w.dump.delay, key)
    && w.pttl.end.Answered? && Alive(s.store, AskedAt(s, w), key)
  }

  predicate Restores(s: State, key: Bytes, w: Weather) {
    DeletesNew(s, key, w) && w.delNew.end.Answered?
  }

  /** The store after the calls that make the copy, all of them or those up to the first failure. */
  function Attempted(s: State, key: Bytes, newKey: Bytes, w: Weather): Store {
    if Restores(s, key, w) && Took(w.restore) then s.store[newKey := CopyOf(s, key, w)]
    else if DeletesNew(s, key, w) && Took(w.delNew) then s.store - {newKey}
    else s.store
  }

  /** The code of the first call that fails; a key that is not there is an error of its own. */
  function FailureCode(s: State, key: Bytes, w: Weather): int {
    if !w.dump.end.Answered? then CodeOf(w.dump.end)
    else if !Alive(s.store, s.now + w.dump.delay, key) then -2
    else if !w.pttl.end.Answered? then CodeOf(w.pttl.end)
    else if !Alive(s.store, AskedAt(s, w), key) then -2
    else if !w.delNew.end.Answered? then CodeOf(w.delNew.end)
    else if w.restore.end.Answered? && w.restore.runs > 0 then -2
    else if !w.restore.end.Answered? then CodeOf(w.restore.end)
    else CodeOf(w.delOld.end)
  }

  lemma CopyOutcome(s: State, key: Bytes, newKey: Bytes, w: Weather)
    requires key != newKey
    ensures Copy(s, key, newKey, w).0.store == Attempted(s, key, newKey, w)
    ensures !CopyAnswered(s, key, w) ==>
      var code := Copy(s, key, newKey, w).2;
      FailureCode(s, key, w) == if code == RC_SUCCESS then RC_REPLY_ERR else code
  {
    hide Execute;
    var s1 := State(s.store, s.now + w.dump.delay);
    ReadExecuted(s, Dump(key), w.dump);
    var s2 := State(s.store, s1.now + w.pttl.delay);
    ReadExecuted(s1, Pttl(key), w.pttl);
    DelExecuted(s2, newKey, w.delNew);
    var s3 := Execute(s2, Del(newKey), w.delNew).0;
    if Restores(s, key, w) {
      var entry := s.store[key];
      var ttl := if entry.expiry.None? then 0 else entry.expiry.value - s2.now;
      var c := Restore(newKey, ttl, entry.payload);
      RestoreExecuted(s3, c, w.restore);
      assert (s.store - {newKey})[newKey := CopyOf(s, key, w)] == s.store[newKey := CopyOf(s, key, w)];
    }
  }

  // ---- Main results ----

  /** Renaming succeeds exactly when its calls are answered and the key is alive when its time to live
      is asked for. */
  predicate Succeeds(s: State, key: Bytes, w: Weather) {
    CopyAnswered(s, key, w) && w.delOld.end.Answered?
  }

  /** Renaming refines the atomic rename: it reports success exactly under the condition above, and
      then the new key has the old key's value, the old key is gone and every other key is as it was. */
  lemma SuccessIsAtomicRename(s: State, key: Bytes, newKey: Bytes, w: Weather)
    requires key != newKey
    ensures Renamed(s, key, newKey, w).1 == RC_SUCCESS <==> Succeeds(s, key, w)
    ensures Succeeds(s, key, w) ==>
      Renamed(s, key, newKey, w).0.store == Atomic(s.store[key := CopyOf(s, key, w)], key, newKey)
    ensures !Succeeds(s, key, w) ==> Renamed(s, key, newKey, w).1 in {RC_REPLY_ERR, RC_RQST_ERR}
  {
    hide Execute, Copy, CopyOf;
    CopySucceeds(s, key, newKey, w);
    CopyTouchesNewKeyOnly(s, key, newKey, w);
    DelExecuted(Copy(s, key, newKey, w).0, key, w.delOld);
    if Succeeds(s, key, w) {
      CopyThenDelete(s.store, key, newKey, CopyOf(s, key, w));
    }
  }

  /** The time to live survives to the millisecond exactly when the copy is made in the millisecond it
      was asked for and there was one left; a key without one never gets one. */
  lemma ExpirySurvivesIff(s: State, key: Bytes, newKey: Bytes, w: Weather)
    requires key != newKey && Succeeds(s, key, w)
    ensures Renamed(s, key, newKey, w).0.store == Atomic(s.store, key, newKey) <==>
      s.store[key].expiry == None || (s.store[key].expiry != Some(AskedAt(s, w)) && Drift(w) == 0)
  {
    assert key in s.store;
    hide Renamed, Succeeds;
    SuccessIsAtomicRename(s, key, newKey, w);
    var moved := Renamed(s, key, newKey, w).0.store;
    assert moved[newKey] == CopyOf(s, key, w);
    assert Atomic(s.store, key, newKey)[newKey] == s.store[key];
    if CopyOf(s, key, w) == s.store[key] {
      assert s.store[key := s.store[key]] == s.store;
    }
  }

  lemma CopyThenDelete(store: Store, key: Bytes, newKey: Bytes, copy: Entry)
    requires key != newKey
    ensures store[newKey := copy] - {key} == Atomic(store[key := copy], key, newKey)
  {
    var left, right := store[newKey := copy] - {key}, Atomic(store[key := copy], key, newKey);
    assert forall k :: k in left <==> k in right;
    assert forall k :: k in left ==> left[k] == right[k];
  }

  /** When the old key is deleted: only once the copy is known to have been made. */
  predicate OldDeleted(s: State, key: Bytes, w: Weather) {
    CopyAnswered(s, key, w) && Took(w.delOld)
  }

  /** The whole state after a rename that failed. The old key, its value and its expiry are as they
      were unless the old key was deleted and the answer to that lost; the new key is as it was only
      if nothing ran that would delete it; other keys are never touched. */
  lemma FailureIsContained(s: State, key: Bytes, newKey: Bytes, w: Weather)
    requires key != newKey && !Succeeds(s, key, w)
    ensures var store := Renamed(s, key, newKey, w).0.store;
      && store - {newKey} == (if OldDeleted(s, key, w) then s.store - {key} else s.store) - {newKey}
      && (Took(w.cleanup) ==> newKey !in store)
  {
    hide Execute, Copy, CopyAnswered;
    CopySucceeds(s, key, newKey, w);
    CopyTouchesNewKeyOnly(s, key, newKey, w);
    var s4 := Copy(s, key, newKey, w).0;
    DelExecuted(s4, key, w.delOld);
    assert s4.store - {key} - {newKey} == s4.store - {newKey} - {key};
    assert s.store - {key} - {newKey} == s.store - {newKey} - {key};
    DelExecuted(Move(s, key, newKey, w).0, newKey, w.cleanup);
  }

  /** The whole store, and the code, after a rename that failed, call by call: the new key is deleted or
      holds the copy as far as the calls went, the old key goes if its deletion ran, and then the
      cleanup deletes the new key, if it runs. */
  lemma FailureIsExact(s: State, key: Bytes, newKey: Bytes, w: Weather)
    requires key != newKey && !Succeeds(s, key, w)
    ensures var (after, code) := Renamed(s, key, newKey, w);
      && code == FailureCode(s, key, w)
      && after.store ==
           (Attempted(s, key, newKey, w) - (if OldDeleted(s, key, w) then {key} else {})
            - (if Took(w.cleanup) then {newKey} else {}))
  {
    hide Execute, Copy, Attempted;
    CopySucceeds(s, key, newKey, w);
    CopyTouchesNewKeyOnly(s, key, newKey, w);
    CopyOutcome(s, key, newKey, w);
    DelExecuted(Copy(s, key, newKey, w).0, key, w.delOld);
    DelExecuted(Move(s, key, newKey, w).0, newKey, w.cleanup);
    assert Attempted(s, key, newKey, w) - {} == Attempted(s, key, newKey, w);
    assert Attempted(s, key, newKey, w) - {key} - {} == Attempted(s, key, newKey, w) - {key};
  }

  /** A rename that fails keeps the old key's value and expiry, unless it was the deletion of the old
      key that failed, and that although it ran. If failed calls have no effect it is always kept. */
  lemma OldKeySurvivesIff(s: State, key: Bytes, newKey: Bytes, w: Weather)
    requires key != newKey && key in s.store
    requires Renamed(s, key, newKey, w).1 != RC_SUCCESS
    ensures var store := Renamed(s, key, newKey, w).0.store;
      key in store && store[key] == s.store[key] <==> !(CopyAnswered(s, key, w) && w.delOld.runs > 0)
  {
    hide Renamed, CopyAnswered;
    SuccessIsAtomicRename(s, key, newKey, w);
    FailureIsContained(s, key, newKey, w);
    var store := Renamed(s, key, newKey, w).0.store;
    assert key in s.store - {newKey};
    assert key in store <==> key in store - {newKey};
    assert key in store ==> (store - {newKey})[key] == store[key];
    assert (s.store - {newKey})[key] == s.store[key];
  }

  /** The value is lost under both names exactly when the old key's deletion ran but stayed without an
      answer, and the cleanup that follows then ran too and deleted the copy. */
  lemma ValueIsLostIff(s: State, key: Bytes, newKey: Bytes, w: Weather)
    requires key != newKey && key in s.store
    ensures
      var store := Renamed(s, key, newKey, w).0.store;
      (key !in store && newKey !in store) <==>
        CopyAnswered(s, key, w) && w.delOld.runs > 0 && !w.delOld.end.Answered? && Took(w.cleanup)
  {
    hide Execute, Copy, CopyAnswered;
    CopySucceeds(s, key, newKey, w);
    CopyTouchesNewKeyOnly(s, key, newKey, w);
    var s4 := Copy(s, key, newKey, w).0;
    DelExecuted(s4, key, w.delOld);
    DelExecuted(Move(s, key, newKey, w).0, newKey, w.cleanup);
    assert key in s.store - {newKey};
    assert key in s4.store - {newKey};
    assert key in s4.store;
  }

  /** Renaming a key that is missing or expired when it is dumped fails, but unlike the atomic rename it
      deletes the new key. */
  lemma MissingKeyDeletesNewKey(s: State, key: Bytes, newKey: Bytes, w: Weather)
    requires key != newKey && !Alive(s.store, s.now + w.dump.delay, key) && w.dump.end.Answered?
    ensures Renamed(s, key, newKey, w).1 == RC_REPLY_ERR
    ensures Renamed(s, key, newKey, w).0.store == s.store <==> newKey !in s.store || !Took(w.cleanup)
  {
    hide Execute;
    ReadExecuted(s, Dump(key), w.dump);
    var s1 := State(s.store, s.now + w.dump.delay);
    DelExecuted(s1, newKey, w.cleanup);
    if newKey !in s.store {
      assert s.store - {newKey} == s.store;
    } else {
      assert newKey !in s.store - {newKey};
    }
  }

  // ---- Where it goes wrong ----

  /** Every call is answered at once. */
  const CALM := Fate(0, 0, Answered)

  const FAIR := Weather(CALM, CALM, CALM, CALM, CALM, CALM)

  /** A key in its last millisecond is renamed and lives for ever. */
  lemma LastMillisecondIsForEver(key: Bytes, newKey: Bytes, payload: Payload)
    requires key != newKey
    ensures var s := State(map[key := Entry(payload, Some(1000))], 1000);
      Renamed(s, key, newKey, FAIR) == (State(map[newKey := Entry(payload, None)], 1000), RC_SUCCESS)
  {
    var s := State(map[key := Entry(payload, Some(1000))], 1000);
    hide Renamed;
    SuccessIsAtomicRename(s, key, newKey, FAIR);
    RenamedAt(s, key, newKey, FAIR);
    assert CopyOf(s, key, FAIR) == Entry(payload, None);
    assert s.store[key := CopyOf(s, key, FAIR)] - {key} == map[];
  }

  /** A restore that is ten milliseconds late prolongs the key's life by ten. */
  lemma LateCopyLivesLonger(key: Bytes, newKey: Bytes, payload: Payload)
    requires key != newKey
    ensures var s, w := State(map[key := Entry(payload, Some(2000))], 1000), FAIR.(restore := Fate(10, 0, Answered));
      Renamed(s, key, newKey, w) == (State(map[newKey := Entry(payload, Some(2010))], 1010), RC_SUCCESS)
  {
    var s, w := State(map[key := Entry(payload, Some(2000))], 1000), FAIR.(restore := Fate(10, 0, Answered));
    hide Renamed;
    SuccessIsAtomicRename(s, key, newKey, w);
    RenamedAt(s, key, newKey, w);
    assert CopyOf(s, key, w) == Entry(payload, Some(2010));
    assert s.store[key := CopyOf(s, key, w)] - {key} == map[];
  }

  /** The last deletion runs without an answer, the cleanup deletes the copy, and nothing is left. */
  lemma BothNamesAreLost(key: Bytes, newKey: Bytes, payload: Payload)
    requires key != newKey
    ensures var s, w := State(map[key := Entry(payload, None)], 0), FAIR.(delOld := Fate(0, 1, Silent));
      Renamed(s, key, newKey, w).0.store == map[] && Renamed(s, key, newKey, w).1 != RC_SUCCESS
  {
    var s, w := State(map[key := Entry(payload, None)], 0), FAIR.(delOld := Fate(0, 1, Silent));
    hide Renamed;
    ValueIsLostIff(s, key, newKey, w);
    SuccessIsAtomicRename(s, key, newKey, w);
    FailureIsContained(s, key, newKey, w);
    var store := Renamed(s, key, newKey, w).0.store;
    assert forall k :: k in store ==> k in store - {newKey};
  }

  /** A missing key is renamed to one that exists, and that one is gone. */
  lemma NewKeyIsLost(key: Bytes, newKey: Bytes, payload: Payload)
    requires key != newKey
    ensures var s := State(map[newKey := Entry(payload, None)], 0);
      Renamed(s, key, newKey, FAIR).0.store == map[] && Renamed(s, key, newKey, FAIR).1 == RC_REPLY_ERR
  {
    var s := State(map[newKey := Entry(payload, None)], 0);
    hide Renamed;
    MissingKeyDeletesNewKey(s, key, newKey, FAIR);
    FailureIsContained(s, key, newKey, FAIR);
    var store := Renamed(s, key, newKey, FAIR).0.store;
    assert forall k :: k in store ==> k in store - {newKey};
  }

  /** When a rename that succeeds is over. */
  lemma RenamedAt(s: State, key: Bytes, newKey: Bytes, w: Weather)
    requires key != newKey && Succeeds(s, key, w)
    ensures Renamed(s, key, newKey, w).0.now == AskedAt(s, w) + Drift(w) + w.delOld.delay
  {
    hide Execute, Copy, CopyOf;
    CopySucceeds(s, key, newKey, w);
    DelExecuted(Copy(s, key, newKey, w).0, key, w.delOld);
  }

  // ---- Keys on the same server ----

  /** On one server a success is the atomic rename, unless the answer was lost and the client sent the
      command again: then a rename that was done is reported as an error. */
  lemma SameServerRename(s: State, key: Bytes, newKey: Bytes, fate: Fate)
    requires Alive(s.store, s.now + fate.delay, key) && key != newKey
    ensures var (after, reply) := Execute(s, RenameKey(key, newKey), fate);
      && (StatusResult(reply) == RC_SUCCESS <==> fate.end.Answered? && fate.runs == 0)
      && after.store == if Took(fate) then Atomic(s.store, key, newKey) else s.store
  {
    var now := s.now + fate.delay;
    RenameRunsOnce(s.store, now, key, newKey, fate.runs);
  }

  lemma {:induction false} RenameRunsOnce(store: Store, now: int, key: Bytes, newKey: Bytes, runs: nat)
    requires Alive(store, now, key) && key != newKey
    ensures RunTimes(store, now, RenameKey(key, newKey), runs) == if runs == 0 then store else Atomic(store, key, newKey)
  {
    if runs > 0 {
      RenameOfMissing(Atomic(store, key, newKey), now, key, newKey, runs - 1);
    }
  }

  lemma {:induction false} RenameOfMissing(store: Store, now: int, key: Bytes, newKey: Bytes, runs: nat)
    requires key !in store
    ensures RunTimes(store, now, RenameKey(key, newKey), runs) == store
  {
    if runs > 0 {
      RenameOfMissing(store, now, key, newKey, runs - 1);
    }
  }

  // ---- The client ----

  /** Both keys are with one server, or neither is with any; outside a cluster they always are. */
  ghost predicate SameNode(cluster: bool, table: seq<Region<nat>>, key: Bytes, newKey: Bytes) {
    cluster ==> LinearScan(table, HashSlot.Slot(key)) == LinearScan(table, HashSlot.Slot(newKey))
  }

  /** Keys that share a hash tag are on one server. */
  lemma SharedTagIsSameNode(cluster: bool, table: seq<Region<nat>>, p: Bytes, q: Bytes, tag: Bytes, s: Bytes, t: Bytes)
    requires HashSlot.OPEN !in p && HashSlot.OPEN !in q && tag != [] && HashSlot.CLOSE !in tag
    ensures SameNode(cluster, table, p + [HashSlot.OPEN] + tag + [HashSlot.CLOSE] + s,
                     q + [HashSlot.OPEN] + tag + [HashSlot.CLOSE] + t)
  {
    HashSlot.SameTagSameSlot(p, tag, s);
    HashSlot.SameTagSameSlot(q, tag, t);
    hide HashSlot.Slot;
  }

  class RedisClient {
    const cluster: bool
    const table: seq<Region<nat>>
    var servers: State

    constructor (cluster: bool, table: seq<Region<nat>>, servers: State)
      ensures this.cluster == cluster && this.table == table && this.servers == servers
    {
      this.cluster, this.table, this.servers := cluster, table, servers;
    }

    /** The table can be searched for the key's slot. */
    ghost predicate Searchable(key: Bytes) {
      cluster ==> Partitioned(table, HashSlot.Slot(key))
    }

    method InSameNode(key: Bytes, newKey: Bytes) returns (same: bool)
      requires Searchable(key) && Searchable(newKey)
      ensures same <==> SameNode(cluster, table, key, newKey)
    {
      hide HashSlot.Slot;
      if !cluster {
        return true;
      }
      var slot := HashSlot.HashKey(key);
      var newSlot := HashSlot.HashKey(newKey);
      var server := FindServer(table, slot);
      var newServer := FindServer(table, newSlot);
      same := server == newServer;
    }

    method Call(c: Command, fate: Fate) returns (reply: Option<RedisReply>)
      modifies this
      ensures (servers, reply) == Execute(old(servers), c, fate)
    {
      var (s, r) := Execute(servers, c, fate);
      servers, reply := s, r;
    }

    method Rename(key: Bytes, newKey: Bytes, w: Weather) returns (ret: int)
      requires Searchable(key) && Searchable(newKey)
      modifies this
      ensures SameNode(cluster, table, key, newKey) ==>
        servers == Execute(old(servers), RenameKey(key, newKey), w.dump).0 &&
        ret == StatusResult(Execute(old(servers), RenameKey(key, newKey), w.dump).1)
      ensures !SameNode(cluster, table, key, newKey) ==> key != newKey && (servers, ret) == Renamed(old(servers), key, newKey, w)
    {
      hide Execute, HashSlot.Slot;
      var inSameNode := InSameNode(key, newKey);
      if inSameNode {
        var reply := Call(RenameKey(key, newKey), w.dump);
        return StatusResult(reply);
      }
      var reply := Call(Dump(key), w.dump);
      var (code, payload) := StringResult(reply);
      ret := code;
      if ret == RC_SUCCESS && payload != [] {
        reply := Call(Pttl(key), w.pttl);
        var (timed, left) := IntegerResult(reply);
        ret := timed;
        if ret == RC_SUCCESS && left != -2 {
          if left == -1 {
            left := 0;
          }
          reply := Call(Del(newKey), w.delNew);
          ret := IntegerResult(reply).0;
          if ret >= RC_SUCCESS {
            reply := Call(Restore(newKey, left, payload), w.restore);
            ret := StatusResult(reply);
            if ret == RC_SUCCESS {
              reply := Call(Del(key), w.delOld);
              ret := IntegerResult(reply).0;
              if ret >= RC_SUCCESS {
                return RC_SUCCESS;
              }
            }
          }
        }
      }
      reply := Call(Del(newKey), w.cleanup);
      ret := if ret == RC_SUCCESS then RC_REPLY_ERR else ret;
    }
  }
}
