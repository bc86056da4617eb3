/** The hourly send allowance of one agent token: a sliding-window check and a later insert. */
module SendLimit {
  import opened Util

  /** One hour, in the clock's microseconds. */
  const HOUR: nat := 3_600_000_000

  /**
   * `rows` holds the creation times of the token's committed outbox rows, `pending` the check
   * time of each request that passed the check and has not inserted its row yet.
   */
  datatype State = State(rows: seq<int>, pending: map<nat, int>)

  datatype Action =
    | Check(request: nat, now: int)
    | Insert(request: nat, createdAt: int)
    | Fail(request: nat)

  function Since(rows: seq<int>, since: int): nat {
    if rows == [] then 0 else (if rows[0] >= since then 1 else 0) + Since(rows[1..], since)
  }

  /** False where `enforce_agent_send_limit` raises. */
  predicate Allowed(rows: seq<int>, now: int, limit: int) {
    Since(rows, now - HOUR) < limit
  }

  /**
   * At most `k` requests stand between check and insert. A row may be dated up to `skew` before
   * its own check, since the database dates it by the start of the transaction.
   */
  predicate Enabled(s: State, a: Action, limit: int, k: nat, skew: nat) {
    match a
    case Check(r, now) => r !in s.pending && |s.pending| < k
    case Insert(r, createdAt) => r in s.pending && s.pending[r] - skew <= createdAt
    case Fail(r) => r in s.pending
  }

  function Next(s: State, a: Action, limit: int): State
  {
    match a
    case Check(r, now) => if Allowed(s.rows, now, limit) then s.(pending := s.pending[r := now]) else s
    case Insert(r, createdAt) => State(s.rows + [createdAt], s.pending - {r})
    case Fail(r) => s.(pending := s.pending - {r})
  }

  /** A request that passed the check and failed before its insert leaves no trace: it may be made again. */
  lemma FailureLeavesNoTrace(s: State, r: nat, now: int, limit: int, k: nat, skew: nat)
    requires Enabled(s, Check(r, now), limit, k, skew) && Allowed(s.rows, now, limit)
    ensures var passed := Next(s, Check(r, now), limit);
      && Enabled(passed, Fail(r), limit, k, skew) && Next(passed, Fail(r), limit) == s
  {
    assert (s.pending[r := now]) - {r} == s.pending;
  }

  const START := State([], map[])

  ghost predicate Run(states: seq<State>, acts: seq<Action>, limit: int, k: nat, skew: nat) {
    && |states| == |acts| + 1
    && states[0] == START
    && forall i :: 0 <= i < |acts| ==>
      && Enabled(states[i], acts[i], limit, k, skew)
      && states[i + 1] == Next(states[i], acts[i], limit)
  }

  /** Rows dated from `w` to `w + length`. */
  function InWindow(rows: seq<int>, w: int, length: nat): nat {
    if rows == [] then 0 else (if w <= rows[0] <= w + length then 1 else 0) + InWindow(rows[1..], w, length)
  }

  /** Requests whose row can still fall in a window that ends at `end - skew`. */
  function Landing(pending: map<nat, int>, end: int): set<nat> {
    set r | r in pending && pending[r] <= end
  }

  lemma {:induction false} WindowSnoc(rows: seq<int>, t: int, w: int, length: nat)
    ensures InWindow(rows + [t], w, length) == InWindow(rows, w, length) + if w <= t <= w + length then 1 else 0
  {
    if rows == [] {
      assert rows + [t] == [t];
    } else {
      assert (rows + [t])[1..] == rows[1..] + [t];
      WindowSnoc(rows[1..], t, w, length);
    }
  }

  /** A check made at most an hour after the window opened counts every row in the window. */
  lemma {:induction false} CheckSeesWindow(rows: seq<int>, since: int, w: int, length: nat)
    requires since <= w
    ensures InWindow(rows, w, length) <= Since(rows, since)
  {
    if rows != [] {
      CheckSeesWindow(rows[1..], since, w, length);
    }
  }

  /** The rows in a window and the requests that may still join them stay within the bound. */
  ghost predicate Bounded(s: State, limit: int, k: nat, w: int, length: nat, skew: nat) {
    && |s.pending| <= k
    && InWindow(s.rows, w, length) + |Landing(s.pending, w + length + skew)| <= limit + k - 1
  }

  lemma CheckKeepsBounded(s: State, r: nat, now: int, limit: int, k: nat, w: int, length: nat, skew: nat)
    requires Enabled(s, Check(r, now), limit, k, skew) && length + skew <= HOUR
    requires Allowed(s.rows, now, limit)
    requires Bounded(s, limit, k, w, length, skew)
    ensures Bounded(State(s.rows, s.pending[r := now]), limit, k, w, length, skew)
  {
    hide InWindow, Since;
    var pending, end := s.pending[r := now], w + length + skew;
    assert pending.Keys == s.pending.Keys + {r};
    assert |pending.Keys| == |pending| && |s.pending.Keys| == |s.pending|;
    if now <= end {
      CheckSeesWindow(s.rows, now - HOUR, w, length);
      SmallerSet(Landing(pending, end), pending.Keys);
    } else {
      assert Landing(pending, end) == Landing(s.pending, end);
    }
  }

  lemma StepKeepsBounded(s: State, a: Action, limit: int, k: nat, w: int, length: nat, skew: nat)
    requires Enabled(s, a, limit, k, skew) && length + skew <= HOUR
    requires Bounded(s, limit, k, w, length, skew)
    ensures Bounded(Next(s, a, limit), limit, k, w, length, skew)
  {
    hide InWindow, Allowed, Landing;
    match a
    case Check(r, now) =>
      if Allowed(s.rows, now, limit) {
        CheckKeepsBounded(s, r, now, limit, k, w, length, skew);
      }
    case Insert(r, createdAt) =>
      Leaves(s.pending, r, w + length + skew);
      WindowSnoc(s.rows, createdAt, w, length);
    case Fail(r) =>
      Leaves(s.pending, r, w + length + skew);
  }

  lemma Leaves(pending: map<nat, int>, r: nat, end: int)
    requires r in pending
    ensures |pending - {r}| < |pending|
    ensures |Landing(pending - {r}, end)| == |Landing(pending, end)| - if pending[r] <= end then 1 else 0
  {
    assert (pending - {r}).Keys == pending.Keys - {r};
    assert |(pending - {r}).Keys| == |pending - {r}| && |pending.Keys| == |pending|;
    assert Landing(pending - {r}, end) == Landing(pending, end) - {r};
  }

  lemma {:induction false} RunKeepsBounded(
    states: seq<State>, acts: seq<Action>, limit: int, k: nat, w: int, length: nat, skew: nat, j: nat)
    requires Run(states, acts, limit, k, skew) && j < |states|
    requires length + skew <= HOUR && limit + k >= 1
    ensures Bounded(states[j], limit, k, w, length, skew)
  {
    if j == 0 {
      assert Landing(START.pending, w + length + skew) == {};
    } else {
      RunKeepsBounded(states, acts, limit, k, w, length, skew, j - 1);
      StepKeepsBounded(states[j - 1], acts[j - 1], limit, k, w, length, skew);
    }
  }

  /**
   * No window of up to an hour, less the dating skew, ever holds more than `limit + k - 1` rows:
   * exactly the limit when requests of the token do not overlap.
   */
  lemma WindowBound(
    states: seq<State>, acts: seq<Action>, limit: int, k: nat, w: int, length: nat, skew: nat, j: nat)
    requires Run(states, acts, limit, k, skew) && j < |states|
    requires limit >= 0 && k >= 1 && length + skew <= HOUR
    ensures InWindow(states[j].rows, w, length) <= limit + k - 1
  {
    RunKeepsBounded(states, acts, limit, k, w, length, skew, j);
  }

  // ---- The bound is reached ----

  ghost predicate Reached(s: State, limit: int, k: nat, skew: nat) {
    exists states, acts :: Run(states, acts, limit, k, skew) && states[|acts|] == s
  }

  lemma StartReached(limit: int, k: nat, skew: nat)
    ensures Reached(START, limit, k, skew)
  {
    var states, acts: seq<Action> := [START], [];
    assert Run(states, acts, limit, k, skew) && states[|acts|] == START;
  }

  lemma Onward(s: State, a: Action, next: State, limit: int, k: nat, skew: nat)
    requires Reached(s, limit, k, skew) && Enabled(s, a, limit, k, skew) && next == Next(s, a, limit)
    ensures Reached(next, limit, k, skew)
  {
    hide Next, Enabled;
    var states, acts :| Run(states, acts, limit, k, skew) && states[|acts|] == s;
    var more, done := states + [next], acts + [a];
    forall i | 0 <= i < |done|
      ensures Enabled(more[i], done[i], limit, k, skew)
      ensures more[i + 1] == Next(more[i], done[i], limit)
    {
      assert i < |acts| ==> more[i] == states[i] && more[i + 1] == states[i + 1] && done[i] == acts[i];
      assert i == |acts| ==> more[i] == s && done[i] == a;
    }
    assert Run(more, done, limit, k, skew) && more[|done|] == next;
  }

  function Zeros(n: nat): (rows: seq<int>)
    ensures |rows| == n && forall i :: 0 <= i < n ==> rows[i] == 0
  {
    if n == 0 then [] else Zeros(n - 1) + [0]
  }

  /** Requests `0` to `m - 1` passed their check at time zero. */
  function Passed(m: nat): (pending: map<nat, int>)
    ensures |pending| == m && (forall r: nat :: r in pending <==> r < m)
    ensures forall r :: r in pending ==> pending[r] == 0
  {
    if m == 0 then map[]
    else
      assert Passed(m - 1)[m - 1 := 0].Keys == Passed(m - 1).Keys + {m - 1};
      Passed(m - 1)[m - 1 := 0]
  }

  lemma {:induction false} SinceAtMost(rows: seq<int>, since: int)
    ensures Since(rows, since) <= |rows|
  {
    if rows != [] {
      SinceAtMost(rows[1..], since);
    }
  }

  lemma {:induction false} ZerosInWindow(n: nat, length: nat)
    ensures InWindow(Zeros(n), 0, length) == n
  {
    if n > 0 {
      ZerosInWindow(n - 1, length);
      WindowSnoc(Zeros(n - 1), 0, 0, length);
    }
  }

  lemma OnePasses(n: nat, m: nat, limit: int, k: nat, skew: nat)
    requires Reached(State(Zeros(n), Passed(m)), limit, k, skew) && n < limit && m < k
    ensures Reached(State(Zeros(n), Passed(m + 1)), limit, k, skew)
  {
    hide Since, Reached;
    SinceAtMost(Zeros(n), 0 - HOUR);
    Onward(State(Zeros(n), Passed(m)), Check(m, 0), State(Zeros(n), Passed(m + 1)), limit, k, skew);
  }

  lemma OneInserts(n: nat, m: nat, limit: int, k: nat, skew: nat)
    requires Reached(State(Zeros(n), Passed(m + 1)), limit, k, skew)
    ensures Reached(State(Zeros(n + 1), Passed(m)), limit, k, skew)
  {
    hide Reached;
    assert Passed(m + 1) - {m} == Passed(m);
    Onward(State(Zeros(n), Passed(m + 1)), Insert(m, 0), State(Zeros(n + 1), Passed(m)), limit, k, skew);
  }

  /** One request after the other up to `n` rows, then `m` that pass together. */
  lemma {:induction false} Fill(n: nat, m: nat, limit: int, k: nat, skew: nat)
    requires m <= k && k >= 1 && n < limit
    ensures Reached(State(Zeros(n), Passed(m)), limit, k, skew)
    decreases n, m
  {
    hide Reached;
    if m > 0 {
      Fill(n, m - 1, limit, k, skew);
      OnePasses(n, m - 1, limit, k, skew);
    } else if n > 0 {
      Fill(n - 1, 1, limit, k, skew);
      OneInserts(n - 1, 0, limit, k, skew);
    } else {
      StartReached(limit, k, skew);
    }
  }

  lemma {:induction false} Drain(n: nat, m: nat, limit: int, k: nat, skew: nat)
    requires Reached(State(Zeros(n), Passed(m)), limit, k, skew)
    ensures Reached(State(Zeros(n + m), map[]), limit, k, skew)
    decreases m
  {
    hide Reached;
    if m > 0 {
      OneInserts(n, m - 1, limit, k, skew);
      Drain(n + 1, m - 1, limit, k, skew);
    }
  }

  /** The bound cannot be lowered: with a positive limit, `k` overlapping requests reach it. */
  lemma BoundIsReached(limit: int, k: nat, skew: nat)
    requires limit >= 1 && k >= 1
    ensures Reached(State(Zeros(limit + k - 1), map[]), limit, k, skew)
    ensures InWindow(Zeros(limit + k - 1), 0, HOUR) == limit + k - 1
  {
    hide Reached;
    Fill(limit - 1, k, limit, k, skew);
    Drain(limit - 1, k, limit, k, skew);
    ZerosInWindow(limit + k - 1, HOUR);
  }

  lemma {:induction false} SinceNone(rows: seq<int>, since: int)
    requires forall i :: 0 <= i < |rows| ==> rows[i] < since
    ensures Since(rows, since) == 0
  {
    if rows != [] {
      SinceNone(rows[1..], since);
    }
  }

  /** A request checked just after the first rows left the hour, dated `skew` earlier, joins their window. */
  lemma SkewExceedsBound(limit: int, k: nat, length: nat, skew: nat) returns (s: State)
    requires limit >= 1 && k >= 1 && length + skew > HOUR
    ensures Reached(s, limit, k, skew) && InWindow(s.rows, 0, length) > limit + k - 1
  {
    hide Reached, Since, InWindow;
    var n := limit + k - 1;
    BoundIsReached(limit, k, skew);
    var now := HOUR + 1;
    SinceNone(Zeros(n), now - HOUR);
    var checked := State(Zeros(n), map[0 := now]);
    Onward(State(Zeros(n), map[]), Check(0, now), checked, limit, k, skew);
    var dated := if now < skew then 0 else now - skew;
    s := State(Zeros(n) + [dated], map[]);
    assert checked.pending - {0} == map[];
    Onward(checked, Insert(0, dated), s, limit, k, skew);
    WindowSnoc(Zeros(n), dated, 0, length);
    ZerosInWindow(n, length);
  }

  /**
   * The allowance over windows of a given length, whatever runs happen: it holds exactly when
   * the window and the dating skew together fit in the hour. A full hour is only protected
   * when rows are never dated before their check.
   */
  lemma WindowBoundIff(limit: int, k: nat, length: nat, skew: nat)
    requires limit >= 1 && k >= 1
    ensures (forall s, w | Reached(s, limit, k, skew) :: InWindow(s.rows, w, length) <= limit + k - 1) <==>
      length + skew <= 60 * 60 * 1_000_000
  {
    hide Next, Enabled, InWindow;
    if length + skew <= HOUR {
      forall s, w | Reached(s, limit, k, skew) ensures InWindow(s.rows, w, length) <= limit + k - 1 {
        var states, acts :| Run(states, acts, limit, k, skew) && states[|acts|] == s;
        WindowBound(states, acts, limit, k, w, length, skew, |acts|);
      }
    } else {
      var s := SkewExceedsBound(limit, k, length, skew);
      assert Reached(s, limit, k, skew) && InWindow(s.rows, 0, length) > limit + k - 1;
    }
  }
}
