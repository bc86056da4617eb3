/** The per-account sync lock: a Redis key set if absent with a lifetime, deleted when the cycle ends. */
module SyncLock {
  import opened Util

  const SYNC_LOCK_TTL_S := 900

  /** The clock in seconds, when the key expires if it is set, and when each running cycle got the lock. */
  datatype State = State(now: int, key: Option<int>, running: map<nat, int>)

  /** `Kill` stands for a worker that dies, or a delete that fails: the cycle ends and the key stays. */
  datatype Action =
    | Tick(seconds: nat)
    | Try(caller: nat)
    | Finish(caller: nat)
    | Kill(caller: nat)

  const START := State(0, None, map[])

  predicate Held(now: int, key: Option<int>) {
    key.Some? && now < key.value
  }

  /** A cycle ends at most `longest` seconds after it got the lock. */
  predicate Enabled(s: State, a: Action, longest: nat) {
    match a
    case Tick(seconds) => forall c :: c in s.running ==> s.now + seconds <= s.running[c] + longest
    case Try(c) => c !in s.running
    case Finish(c) => c in s.running
    case Kill(c) => c in s.running
  }

  function Next(s: State, a: Action): State {
    match a
    case Tick(seconds) => s.(now := s.now + seconds)
    case Try(c) =>
      if Held(s.now, s.key) then s
      else s.(key := Some(s.now + SYNC_LOCK_TTL_S), running := s.running[c := s.now])
    case Finish(c) => s.(key := None, running := s.running - {c})
    case Kill(c) => s.(running := s.running - {c})
  }

  ghost predicate Run(states: seq<State>, acts: seq<Action>, longest: nat) {
    && |states| == |acts| + 1
    && states[0] == START
    && forall i :: 0 <= i < |acts| ==> Enabled(states[i], acts[i], longest) && states[i + 1] == Next(states[i], acts[i])
  }

  ghost predicate Reached(s: State, longest: nat) {
    exists states, acts :: Run(states, acts, longest) && states[|acts|] == s
  }

  ghost predicate AtMostOne(s: State) {
    forall c, d :: c in s.running && d in s.running ==> c == d
  }

  /** Every running cycle owns the key as it stands, and no key outlives the clock by more than its lifetime. */
  ghost predicate Inv(s: State, longest: nat) {
    && AtMostOne(s)
    && (forall c :: c in s.running ==>
      s.key == Some(s.running[c] + SYNC_LOCK_TTL_S) && s.now <= s.running[c] + longest)
    && (s.key.Some? ==> s.key.value <= s.now + SYNC_LOCK_TTL_S)
  }

  lemma StepKeepsInv(s: State, a: Action, longest: nat)
    requires longest < SYNC_LOCK_TTL_S
    requires Inv(s, longest) && Enabled(s, a, longest)
    ensures Inv(Next(s, a), longest)
  {
  }

  lemma {:induction false} RunKeepsInv(states: seq<State>, acts: seq<Action>, longest: nat, j: nat)
    requires longest < SYNC_LOCK_TTL_S && Run(states, acts, longest) && j < |states|
    ensures Inv(states[j], longest)
  {
    hide Next, Enabled;
    if j > 0 {
      RunKeepsInv(states, acts, longest, j - 1);
      StepKeepsInv(states[j - 1], acts[j - 1], longest);
    }
  }

  lemma StartReached(longest: nat)
    ensures Reached(START, longest)
  {
    var states, acts: seq<Action> := [START], [];
    assert Run(states, acts, longest) && states[|acts|] == START;
  }

  lemma Onward(s: State, a: Action, longest: nat)
    requires Reached(s, longest) && Enabled(s, a, longest)
    ensures Reached(Next(s, a), longest)
  {
    hide Next, Enabled;
    var states, acts :| Run(states, acts, longest) && states[|acts|] == s;
    var more, done := states + [Next(s, a)], acts + [a];
    forall i | 0 <= i < |done| ensures Enabled(more[i], done[i], longest) && more[i + 1] == Next(more[i], done[i]) {
      assert i < |acts| ==> more[i] == states[i] && more[i + 1] == states[i + 1] && done[i] == acts[i];
    }
    assert Run(more, done, longest) && more[|done|] == Next(s, a);
  }

  /**
   * At most one cycle runs, whatever the interleaving of callers, deaths and time, exactly when
   * every cycle ends before its key expires. At the default job timeout, which equals the
   * lifetime of the key, a cycle that uses all of it no longer excludes others.
   */
  lemma ExclusionIff(longest: nat)
    ensures (forall s | Reached(s, longest) :: AtMostOne(s)) <==> longest < 900
  {
    if longest < SYNC_LOCK_TTL_S {
      forall s | Reached(s, longest) ensures AtMostOne(s) {
        var states, acts :| Run(states, acts, longest) && states[|acts|] == s;
        RunKeepsInv(states, acts, longest, |acts|);
      }
    } else {
      var s := Overrun(longest);
    }
  }

  lemma Overrun(longest: nat) returns (s: State)
    requires longest >= SYNC_LOCK_TTL_S
    ensures Reached(s, longest) && !AtMostOne(s)
  {
    hide Reached;
    StartReached(longest);
    Onward(START, Try(0), longest);
    var first := Next(START, Try(0));
    Onward(first, Tick(SYNC_LOCK_TTL_S), longest);
    var expired := Next(first, Tick(SYNC_LOCK_TTL_S));
    Onward(expired, Try(1), longest);
    s := Next(expired, Try(1));
    assert 0 in s.running && 1 in s.running;
  }

  /**
   * While cycles end in time: a finishing cycle deletes the key it set itself, a caller that
   * steps aside leaves key and cycles alone, and one steps aside only while the key is held.
   */
  lemma ReleasesOwnKey(s: State, c: nat, longest: nat)
    requires longest < SYNC_LOCK_TTL_S && Reached(s, longest)
    ensures c in s.running ==> s.key == Some(s.running[c] + SYNC_LOCK_TTL_S) && Held(s.now, s.key)
    ensures c !in s.running && s.running != map[] ==> Next(s, Try(c)) == s
  {
    var states, acts :| Run(states, acts, longest) && states[|acts|] == s;
    RunKeepsInv(states, acts, longest, |acts|);
    if s.running != map[] {
      var d :| d in s.running;
      assert Held(s.now, s.key);
    }
  }

  lemma {:induction false} KeyBounded(states: seq<State>, acts: seq<Action>, longest: nat, j: nat)
    requires Run(states, acts, longest) && j < |states|
    ensures states[j].key.Some? ==> states[j].key.value <= states[j].now + SYNC_LOCK_TTL_S
  {
    hide Enabled;
    if j > 0 {
      KeyBounded(states, acts, longest, j - 1);
    }
  }

  /** No try between the two points of the run succeeded. */
  ghost predicate NobodyEntered(states: seq<State>, acts: seq<Action>, i: nat, j: nat) {
    i <= j < |states| && |states| == |acts| + 1 &&
    forall m :: i <= m < j && acts[m].Try? ==> states[m + 1] == states[m]
  }

  lemma {:induction false} KeyOnlyAges(states: seq<State>, acts: seq<Action>, longest: nat, i: nat, j: nat)
    requires Run(states, acts, longest) && NobodyEntered(states, acts, i, j)
    ensures states[j].key == None || states[j].key == states[i].key
  {
    hide Enabled;
    if i < j {
      KeyOnlyAges(states, acts, longest, i, j - 1);
    }
  }

  /**
   * A killed holder blocks the account for at most the lifetime of the key: once that long has
   * passed without anybody getting the lock, the next caller gets it. This needs no bound on cycles.
   */
  lemma BlockedAtMostTtl(states: seq<State>, acts: seq<Action>, longest: nat, i: nat, j: nat, c: nat)
    requires Run(states, acts, longest) && NobodyEntered(states, acts, i, j)
    requires states[j].now >= states[i].now + 900
    ensures c in Next(states[j], Try(c)).running
  {
    KeyBounded(states, acts, longest, i);
    KeyOnlyAges(states, acts, longest, i, j);
  }

  // ---- The job ----

  /** The lock key of one account, and one job's use of it. */
  class Redis {
    var now: int
    var key: Option<int>

    constructor (now: int)
      ensures this.now == now && key == None
    {
      this.now := now;
      key := None;
    }

    ghost predicate Shows(s: State)
      reads this
    {
      s.now == now && s.key == key
    }

    /** SET with NX and EX. */
    method SetIfAbsent(caller: nat, ghost s: State) returns (got: bool)
      requires Shows(s) && caller !in s.running
      modifies this`key
      ensures Shows(Next(s, Try(caller)))
      ensures got <==> caller in Next(s, Try(caller)).running
    {
      got := !Held(now, key);
      if got {
        key := Some(now + SYNC_LOCK_TTL_S);
      }
    }

    method Delete(caller: nat, ghost s: State)
      requires Shows(s)
      modifies this`key
      ensures Shows(Next(s, Finish(caller)))
    {
      key := None;
    }

    /** One job whose cycle takes `duration` seconds; it is skipped when the key is held. */
    method SyncAccount(caller: nat, duration: nat) returns (skipped: bool)
      modifies this
      ensures skipped <==> Held(old(now), old(key))
      ensures skipped ==> key == old(key) && now == old(now)
      ensures !skipped ==> key == None && now == old(now) + duration
    {
      ghost var s := State(now, key, map[]);
      var got := SetIfAbsent(caller, s);
      skipped := !got;
      if got {
        ghost var during := Next(s, Try(caller)).(now := now + duration);
        now := now + duration;
        Delete(caller, during);
      }
    }
  }
}
