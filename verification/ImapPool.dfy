/** The per-account IMAP connection pool: a quota of permits around a stack of idle connections. */
module ImapPool {
  import opened Util

  // ---- Borrowers as a state machine, one step per stretch of code without an interleaving ----

  /** Where a borrower holding a permit stands. */
  datatype Phase =
    | Waiting
    | Probing(conn: nat)
    | Connecting
    | Lent(conn: nat)
    | Returning(conn: nat)
    | Closing(conn: nat, retry: bool)

  /** `made` connections were opened so far; `gone` were told to close, `stray` were dropped without. */
  datatype Pool = Pool(
    max: nat, permits: nat, idle: seq<nat>, closed: bool,
    borrowers: map<nat, Phase>, made: nat, gone: set<nat>, stray: set<nat>)

  datatype Action =
    | Enter(b: nat)
    | Pop(b: nat)
    | ProbeAnswers(b: nat)
    | ProbeFails(b: nat)
    | ProbeRaises(b: nat)
    | Connects(b: nat)
    | ConnectFails(b: nat)
    | BodyEnds(b: nat)
    | BodyRaises(b: nat)
    | Release(b: nat)
    | ConnClosed(b: nat)
    | Close

  function Empty(max: nat): Pool {
    Pool(max, max, [], false, map[], 0, {}, {})
  }

  predicate Enabled(p: Pool, a: Action) {
    match a
    case Enter(b) => b !in p.borrowers && p.permits > 0
    case Pop(b) => b in p.borrowers && p.borrowers[b].Waiting?
    case ProbeAnswers(b) => b in p.borrowers && p.borrowers[b].Probing?
    case ProbeFails(b) => b in p.borrowers && p.borrowers[b].Probing?
    case ProbeRaises(b) => b in p.borrowers && p.borrowers[b].Probing?
    case Connects(b) => b in p.borrowers && p.borrowers[b].Connecting?
    case ConnectFails(b) => b in p.borrowers && p.borrowers[b].Connecting?
    case BodyEnds(b) => b in p.borrowers && p.borrowers[b].Lent?
    case BodyRaises(b) => b in p.borrowers && p.borrowers[b].Lent?
    case Release(b) => b in p.borrowers && p.borrowers[b].Returning?
    case ConnClosed(b) => b in p.borrowers && p.borrowers[b].Closing?
    case Close => true
  }

  function To(p: Pool, b: nat, phase: Phase): Pool {
    p.(borrowers := p.borrowers[b := phase])
  }

  /** Leaving gives the permit back. */
  function Leave(p: Pool, b: nat): Pool {
    p.(borrowers := p.borrowers - {b}, permits := p.permits + 1)
  }

  function Discard(p: Pool, b: nat, conn: nat, retry: bool): Pool {
    To(p, b, Closing(conn, retry)).(gone := p.gone + {conn})
  }

  /** Whether a returned connection is kept. */
  predicate Keeps(closed: bool, idle: seq<nat>, max: nat) {
    !closed && |idle| < max
  }

  function Next(p: Pool, a: Action): Pool
    requires Enabled(p, a)
  {
    match a
    case Enter(b) => To(p, b, Waiting).(permits := p.permits - 1)
    case Pop(b) =>
      if p.idle == [] then To(p, b, Connecting)
      else To(p, b, Probing(p.idle[|p.idle| - 1])).(idle := p.idle[..|p.idle| - 1])
    case ProbeAnswers(b) => To(p, b, Lent(p.borrowers[b].conn))
    case ProbeFails(b) => Discard(p, b, p.borrowers[b].conn, true)
    case ProbeRaises(b) => Leave(p, b).(stray := p.stray + {p.borrowers[b].conn})
    case Connects(b) => To(p, b, Lent(p.made)).(made := p.made + 1)
    case ConnectFails(b) => Leave(p, b)
    case BodyEnds(b) => To(p, b, Returning(p.borrowers[b].conn))
    case BodyRaises(b) => Discard(p, b, p.borrowers[b].conn, false)
    case Release(b) =>
      if Keeps(p.closed, p.idle, p.max) then Leave(p, b).(idle := p.idle + [p.borrowers[b].conn])
      else Discard(p, b, p.borrowers[b].conn, false)
    case ConnClosed(b) => if p.borrowers[b].retry then To(p, b, Waiting) else Leave(p, b)
    case Close => p.(closed := true, idle := [], gone := p.gone + Elements(p.idle))
  }

  // ---- What holds in every state ----

  /** Borrowers that have, await or are getting rid of a connection. */
  function Busy(borrowers: map<nat, Phase>): set<nat> {
    set b | b in borrowers && !borrowers[b].Waiting?
  }

  predicate Holds(phase: Phase) {
    phase.Probing? || phase.Lent? || phase.Returning?
  }

  predicate HeldBy(p: Pool, b: nat) {
    b in p.borrowers && Holds(p.borrowers[b])
  }

  /** Permits are conserved, and idle connections plus those in borrowers' hands stay within the quota. */
  ghost predicate Quota(p: Pool) {
    && p.permits + |p.borrowers| == p.max
    && |p.idle| + |Busy(p.borrowers)| <= p.max
  }

  /** A connection is idle once, or with one borrower, or out of use: never two of these. */
  ghost predicate Exclusive(p: Pool) {
    && NoRepeats(p.idle)
    && (forall c :: c in p.idle ==> c < p.made && c !in p.gone && c !in p.stray)
    && (forall b :: HeldBy(p, b) ==>
      var c := p.borrowers[b].conn; c < p.made && c !in p.idle && c !in p.gone && c !in p.stray)
    && (forall b, d :: HeldBy(p, b) && HeldBy(p, d) && b != d ==> p.borrowers[b].conn != p.borrowers[d].conn)
    && (forall c :: c in p.gone ==> c < p.made && c !in p.stray)
    && (forall c :: c in p.stray ==> c < p.made)
  }

  /** No connection is lost sight of. */
  ghost predicate Accounted(p: Pool) {
    forall c: nat :: c < p.made ==>
      c in p.idle || c in p.gone || c in p.stray || HeldBySome(p, c)
  }

  ghost predicate HeldBySome(p: Pool, c: nat) {
    exists b :: HeldBy(p, b) && p.borrowers[b].conn == c
  }

  ghost predicate ClosedIsEmpty(p: Pool) {
    p.closed ==> p.idle == []
  }

  ghost predicate Inv(p: Pool) {
    Quota(p) && Exclusive(p) && Accounted(p) && ClosedIsEmpty(p)
  }

  lemma BusyUpdate(m: map<nat, Phase>, b: nat, phase: Phase)
    ensures Busy(m[b := phase]) == if phase.Waiting? then Busy(m) - {b} else Busy(m) + {b}
    ensures Busy(m - {b}) == Busy(m) - {b}
  {
  }

  lemma BorrowerCount(m: map<nat, Phase>, b: nat, phase: Phase)
    ensures |m[b := phase]| == if b in m then |m| else |m| + 1
    ensures b in m ==> |m - {b}| == |m| - 1
    ensures |Busy(m)| <= |m|
    ensures b in m && m[b].Waiting? ==> |Busy(m)| < |m|
  {
    assert |m.Keys| == |m| && |m[b := phase].Keys| == |m[b := phase]| && |(m - {b}).Keys| == |m - {b}|;
    assert m[b := phase].Keys == m.Keys + {b};
    assert (m - {b}).Keys == m.Keys - {b};
    SmallerSet(Busy(m), m.Keys);
    if b in m && m[b].Waiting? {
      SmallerSet(Busy(m), m.Keys - {b});
    }
  }

  /** A step changes the entry of its borrower, or removes it. */
  lemma ActorMoves(p: Pool, a: Action)
    requires Enabled(p, a) && a != Close
    ensures var m, n, b := p.borrowers, Next(p, a).borrowers, a.b;
      if b in n then n == m[b := n[b]] else b in m && n == m - {b}
  {
  }

  lemma EntryCounts(m: map<nat, Phase>, n: map<nat, Phase>, b: nat)
    requires if b in n then n == m[b := n[b]] else b in m && n == m - {b}
    ensures |n| == |m| - (if b in m then 1 else 0) + (if b in n then 1 else 0)
    ensures |Busy(n)| == |Busy(m)| - (if b in Busy(m) then 1 else 0) + (if b in Busy(n) then 1 else 0)
  {
    hide Busy;
    var phase := if b in n then n[b] else Waiting;
    BusyUpdate(m, b, phase);
    BorrowerCount(m, b, phase);
    BusyMember(m, b);
    BusyMember(n, b);
  }

  lemma StepKeepsQuota(p: Pool, a: Action)
    requires Inv(p) && Enabled(p, a)
    ensures Quota(Next(p, a))
  {
    hide Exclusive, Accounted, Busy;
    if a != Close {
      var q := Next(p, a);
      ActorMoves(p, a);
      EntryCounts(p.borrowers, q.borrowers, a.b);
      BusyMember(p.borrowers, a.b);
      BusyMember(q.borrowers, a.b);
      BorrowerCount(p.borrowers, a.b, Waiting);
    }
  }

  lemma BusyMember(m: map<nat, Phase>, b: nat)
    ensures b in Busy(m) <==> b in m && !m[b].Waiting?
  {
  }

  /** Everybody but the actor keeps what they hold. */
  lemma OthersUnmoved(p: Pool, a: Action, d: nat)
    requires Enabled(p, a) && (a.Close? || d != a.b)
    ensures HeldBy(Next(p, a), d) <==> HeldBy(p, d)
    ensures HeldBy(p, d) ==> Next(p, a).borrowers[d].conn == p.borrowers[d].conn
  {
  }

  /** What the actor holds afterwards it held before, took from the top of the idle stack, or just opened. */
  lemma ActorHolds(p: Pool, a: Action)
    requires Enabled(p, a) && a != Close && HeldBy(Next(p, a), a.b)
    ensures var c := Next(p, a).borrowers[a.b].conn;
      || (HeldBy(p, a.b) && p.borrowers[a.b].conn == c)
      || (a.Pop? && p.idle != [] && c == p.idle[|p.idle| - 1])
      || (a.Connects? && c == p.made)
  {
  }

  /** The connection on top of the stack is nobody's. */
  lemma TopIsFree(p: Pool)
    requires Exclusive(p) && p.idle != []
    ensures var top, left := p.idle[|p.idle| - 1], p.idle[..|p.idle| - 1];
      && top < p.made && top !in left && top !in p.gone && top !in p.stray && NoRepeats(left)
      && (forall c :: c in left ==> c in p.idle)
      && (forall d :: HeldBy(p, d) ==> p.borrowers[d].conn != top)
  {
    hide HeldBy;
    assert p.idle[|p.idle| - 1] in p.idle;
  }

  lemma PopIsExclusive(p: Pool, b: nat)
    requires Exclusive(p) && Enabled(p, Pop(b))
    ensures Exclusive(Next(p, Pop(b)))
  {
    var q := Next(p, Pop(b));
    forall d | d != b
      ensures HeldBy(q, d) <==> HeldBy(p, d)
      ensures HeldBy(p, d) ==> q.borrowers[d].conn == p.borrowers[d].conn
    {
      OthersUnmoved(p, Pop(b), d);
    }
    if p.idle == [] {
      assert !HeldBy(q, b);
    } else {
      TopIsFree(p);
      assert q.borrowers[b].conn == p.idle[|p.idle| - 1];
    }
    hide HeldBy, Next;
  }

  lemma ReleaseIsExclusive(p: Pool, b: nat)
    requires Exclusive(p) && Enabled(p, Release(b))
    ensures Exclusive(Next(p, Release(b)))
  {
    var q := Next(p, Release(b));
    assert HeldBy(p, b) && !HeldBy(q, b);
    forall d | d != b ensures HeldBy(q, d) <==> HeldBy(p, d) {
      OthersUnmoved(p, Release(b), d);
    }
  }

  lemma OtherStepIsExclusive(p: Pool, a: Action)
    requires Exclusive(p) && Enabled(p, a) && !a.Pop? && !a.Release? && !a.Close?
    ensures Exclusive(Next(p, a))
  {
    var q, b := Next(p, a), a.b;
    hide HeldBy;
    forall d | HeldBy(q, d)
      ensures d != b ==> HeldBy(p, d) && q.borrowers[d].conn == p.borrowers[d].conn
      ensures q.borrowers[d].conn < q.made && q.borrowers[d].conn !in q.idle
      ensures q.borrowers[d].conn !in q.gone && q.borrowers[d].conn !in q.stray
    {
      OtherStepKeeps(p, a, d);
    }
    forall d | HeldBy(q, d) && HeldBy(q, b) && d != b ensures q.borrowers[d].conn != q.borrowers[b].conn {
      OtherStepKeeps(p, a, d);
      ActorHolds(p, a);
    }
    OutOfUse(p, a);
  }

  lemma OutOfUse(p: Pool, a: Action)
    requires Exclusive(p) && Enabled(p, a) && !a.Pop? && !a.Release? && !a.Close?
    ensures var q := Next(p, a);
      && q.idle == p.idle
      && (forall c :: c in p.idle ==> c < q.made && c !in q.gone && c !in q.stray)
      && (forall c :: c in q.gone ==> c < q.made && c !in q.stray)
      && (forall c :: c in q.stray ==> c < q.made)
  {
    assert a.ProbeFails? || a.ProbeRaises? || a.BodyRaises? ==> HeldBy(p, a.b);
  }

  lemma OtherStepKeeps(p: Pool, a: Action, d: nat)
    requires Exclusive(p) && Enabled(p, a) && !a.Pop? && !a.Release? && !a.Close?
    requires HeldBy(Next(p, a), d)
    ensures var q := Next(p, a); var c := q.borrowers[d].conn;
      && (d != a.b ==> HeldBy(p, d) && c == p.borrowers[d].conn)
      && c < q.made && c !in q.idle && c !in q.gone && c !in q.stray
  {
    assert a.ProbeFails? || a.ProbeRaises? || a.BodyRaises? ==> HeldBy(p, a.b);
    if d == a.b {
      ActorHolds(p, a);
    } else {
      OthersUnmoved(p, a, d);
    }
  }

  lemma CloseIsExclusive(p: Pool)
    requires Exclusive(p)
    ensures Exclusive(Next(p, Close))
  {
    var q := Next(p, Close);
    forall d ensures HeldBy(q, d) <==> HeldBy(p, d) {
      OthersUnmoved(p, Close, d);
    }
  }

  lemma StepKeepsExclusive(p: Pool, a: Action)
    requires Inv(p) && Enabled(p, a)
    ensures Exclusive(Next(p, a)) && ClosedIsEmpty(Next(p, a))
  {
    hide Quota, Accounted, Exclusive, HeldBy;
    match a
    case Pop(b) => PopIsExclusive(p, b);
    case Release(b) => ReleaseIsExclusive(p, b);
    case Close => CloseIsExclusive(p);
    case _ => OtherStepIsExclusive(p, a);
  }

  lemma StepKeepsAccounted(p: Pool, a: Action)
    requires Inv(p) && Enabled(p, a)
    ensures Accounted(Next(p, a))
  {
    hide Quota, Exclusive, HeldBySome;
    var q := Next(p, a);
    forall c: nat | c < q.made
      ensures c in q.idle || c in q.gone || c in q.stray || HeldBySome(q, c)
    {
      StepAccountsFor(p, a, c);
    }
  }

  lemma StepAccountsFor(p: Pool, a: Action, c: nat)
    requires Inv(p) && Enabled(p, a) && c < Next(p, a).made
    ensures var q := Next(p, a); c in q.idle || c in q.gone || c in q.stray || HeldBySome(q, c)
  {
    hide Quota, Exclusive;
    var q := Next(p, a);
    if c < p.made && HeldBySome(p, c) {
      var b :| HeldBy(p, b) && p.borrowers[b].conn == c;
      assert a.Release? && a.b == b && Keeps(p.closed, p.idle, p.max) ==> q.idle[|p.idle|] == c;
      assert HeldBy(q, b) ==> q.borrowers[b].conn == c;
    } else if c in p.idle {
      var i :| 0 <= i < |p.idle| && p.idle[i] == c;
      if a.Pop? {
        assert i == |p.idle| - 1 ==> HeldBy(q, a.b) && q.borrowers[a.b].conn == c;
        assert i < |p.idle| - 1 ==> q.idle[i] == c;
      } else if a.Release? {
        assert Keeps(p.closed, p.idle, p.max) ==> q.idle[i] == c;
      }
    } else if c >= p.made {
      assert HeldBy(q, a.b) && q.borrowers[a.b].conn == c;
    }
  }

  lemma StepKeepsInv(p: Pool, a: Action)
    requires Inv(p) && Enabled(p, a)
    ensures Inv(Next(p, a))
    ensures p.gone <= Next(p, a).gone && Next(p, a).max == p.max
    ensures p.closed ==> Next(p, a).closed
  {
    hide Quota, Exclusive, Accounted, ClosedIsEmpty;
    StepKeepsQuota(p, a);
    StepKeepsExclusive(p, a);
    StepKeepsAccounted(p, a);
  }

  // ---- Runs ----

  /** States visited by a run of enabled steps. */
  ghost predicate Run(states: seq<Pool>, acts: seq<Action>) {
    && |states| == |acts| + 1
    && forall i :: 0 <= i < |acts| ==> Enabled(states[i], acts[i]) && states[i + 1] == Next(states[i], acts[i])
  }

  lemma {:induction false} RunKeepsInv(states: seq<Pool>, acts: seq<Action>, i: nat, j: nat)
    requires Run(states, acts) && Inv(states[0]) && i <= j < |states|
    ensures Inv(states[i]) && Inv(states[j])
    ensures states[i].gone <= states[j].gone && states[j].max == states[0].max
    ensures states[i].closed ==> states[j].closed
  {
    hide Inv, Next, Enabled;
    if j > 0 {
      var k := if i < j then i else j - 1;
      RunKeepsInv(states, acts, k, j - 1);
      StepKeepsInv(states[j - 1], acts[j - 1]);
    }
  }

  lemma EmptyInv(max: nat)
    ensures Inv(Empty(max))
  {
  }

  /**
   * From an empty pool, whatever the borrowers do: connections idle or in borrowers' hands stay
   * within the quota, no two borrowers share one and none of theirs is idle, every permit is
   * home when nobody borrows, and each connection is idle, borrowed, told to close, or dropped
   * by a probe that raised something other than a connection error.
   */
  lemma PoolIsSafe(states: seq<Pool>, acts: seq<Action>, max: nat, j: nat)
    requires Run(states, acts) && states[0] == Empty(max) && j < |states|
    ensures var p := states[j];
      && |p.idle| + |Busy(p.borrowers)| <= max
      && NoRepeats(p.idle)
      && (forall b, d :: HeldBy(p, b) && HeldBy(p, d) && b != d ==> p.borrowers[b].conn != p.borrowers[d].conn)
      && (forall b :: HeldBy(p, b) ==> p.borrowers[b].conn !in p.idle)
      && (p.borrowers == map[] ==> p.permits == max)
      && Accounted(p)
  {
    hide Next, Enabled, Accounted, Busy;
    EmptyInv(max);
    RunKeepsInv(states, acts, 0, j);
  }

  /** A connection told to close, after a failed body, a failed probe or a closed pool, is never idle or lent again. */
  lemma DiscardedStaysOut(states: seq<Pool>, acts: seq<Action>, max: nat, i: nat, j: nat, c: nat)
    requires Run(states, acts) && states[0] == Empty(max) && i <= j < |states|
    requires c in states[i].gone
    ensures c !in states[j].idle && !HeldBySome(states[j], c)
  {
    hide Next, Enabled, Quota, Accounted, ClosedIsEmpty;
    EmptyInv(max);
    RunKeepsInv(states, acts, i, j);
  }

  /** After `close` nothing is ever idle again, so every later loan is a new connection. */
  lemma NothingIdleAfterClose(states: seq<Pool>, acts: seq<Action>, max: nat, i: nat, j: nat)
    requires Run(states, acts) && states[0] == Empty(max) && i < j < |states|
    requires acts[i] == Close
    ensures states[j].idle == []
  {
    hide Quota, Accounted, Exclusive;
    EmptyInv(max);
    assert states[i + 1] == Next(states[i], acts[i]) && states[i + 1].closed;
    RunKeepsInv(states, acts, i + 1, j);
  }

  /** The room check on return never fails: a connection is turned away only because the pool was closed. */
  lemma ReturnAlwaysFits(states: seq<Pool>, acts: seq<Action>, max: nat, j: nat, b: nat)
    requires Run(states, acts) && states[0] == Empty(max) && j < |states|
    requires b in states[j].borrowers && states[j].borrowers[b].Returning?
    ensures Keeps(states[j].closed, states[j].idle, max) <==> !states[j].closed
  {
    hide Next, Enabled, Exclusive, Accounted;
    EmptyInv(max);
    RunKeepsInv(states, acts, 0, j);
    assert b in Busy(states[j].borrowers);
  }

  // ---- What becomes of a connection, and of a borrower ----

  /** A connection on which a body or a probe failed is told to close, and is never idle or lent again. */
  lemma BrokenStaysOut(states: seq<Pool>, acts: seq<Action>, max: nat, i: nat, j: nat, b: nat, c: nat)
    requires Run(states, acts) && states[0] == Empty(max) && i < j < |states|
    requires acts[i] in {BodyRaises(b), ProbeFails(b)} && b in states[i].borrowers
    requires (states[i].borrowers[b].Lent? || states[i].borrowers[b].Probing?) && states[i].borrowers[b].conn == c
    ensures c in states[j].gone && c !in states[j].idle && !HeldBySome(states[j], c)
  {
    hide Quota, Accounted, ClosedIsEmpty;
    EmptyInv(max);
    assert c in states[i + 1].gone;
    RunKeepsInv(states, acts, i + 1, j);
  }

  /** What `close` finds idle is told to close, and is never idle or lent again. */
  lemma ClosedStaysOut(states: seq<Pool>, acts: seq<Action>, max: nat, i: nat, j: nat, c: nat)
    requires Run(states, acts) && states[0] == Empty(max) && i < j < |states|
    requires acts[i] == Close && c in states[i].idle
    ensures c in states[j].gone && c !in states[j].idle && !HeldBySome(states[j], c)
  {
    hide Quota, Accounted, ClosedIsEmpty;
    EmptyInv(max);
    assert c in states[i + 1].gone;
    RunKeepsInv(states, acts, i + 1, j);
  }

  /** From step `i` to state `j` the borrower takes no step. */
  ghost predicate Rests(acts: seq<Action>, i: nat, j: nat, b: nat) {
    j <= |acts| && forall m :: i <= m < j ==> acts[m].Close? || acts[m].b != b
  }

  lemma {:induction false} RestingKeepsPhase(states: seq<Pool>, acts: seq<Action>, i: nat, j: nat, b: nat)
    requires Run(states, acts) && i <= j && Rests(acts, i, j, b) && b in states[i].borrowers
    ensures b in states[j].borrowers && states[j].borrowers[b] == states[i].borrowers[b]
  {
    if i < j {
      RestingKeepsPhase(states, acts, i, j - 1, b);
      assert Enabled(states[j - 1], acts[j - 1]) && states[j] == Next(states[j - 1], acts[j - 1]);
    }
  }

  /**
   * A connection whose body ended well goes back to an open pool and is the first one lent after
   * that, and a closed pool has it closed; the borrower leaves with the permit given back.
   */
  lemma ReturnedIsLentNext(states: seq<Pool>, acts: seq<Action>, max: nat, i: nat, k: nat, b: nat, c: nat)
    requires Run(states, acts) && states[0] == Empty(max) && i < k < |acts|
    requires acts[i] == BodyEnds(b) && Rests(acts, i + 1, k, b) && acts[k] == Release(b)
    requires b in states[i].borrowers && states[i].borrowers[b] == Lent(c)
    ensures states[k].closed ==> c in states[k + 1].gone
    ensures !states[k].closed ==>
      && states[k + 1].idle == states[k].idle + [c] && b !in states[k + 1].borrowers
      && states[k + 1].permits == states[k].permits + 1
      && forall d :: k + 1 < |acts| && acts[k + 1] == Pop(d) ==>
        d in states[k + 2].borrowers && states[k + 2].borrowers[d] == Probing(c)
  {
    hide Inv;
    assert states[i + 1] == Next(states[i], acts[i]) && states[i + 1].borrowers[b] == Returning(c);
    RestingKeepsPhase(states, acts, i + 1, k, b);
    ReturnAlwaysFits(states, acts, max, k, b);
    EmptyInv(max);
    RunKeepsInv(states, acts, 0, k);
  }

  /** The borrower is in from state `i + 1` to state `j`, and was lent nothing. */
  ghost predicate Unserved(states: seq<Pool>, i: nat, j: nat, b: nat) {
    j < |states| && forall m :: i < m <= j ==> b in states[m].borrowers && !states[m].borrowers[b].Lent?
  }

  predicate NotYetServed(phase: Phase) {
    phase.Waiting? || phase.Probing? || phase.Connecting? || (phase.Closing? && phase.retry)
  }

  lemma StepBeforeService(p: Pool, a: Action, b: nat)
    requires Enabled(p, a) && b in Next(p, a).borrowers && !Next(p, a).borrowers[b].Lent?
    requires if b in p.borrowers then NotYetServed(p.borrowers[b]) else a == Enter(b)
    ensures NotYetServed(Next(p, a).borrowers[b])
  {
  }

  lemma {:induction false} UnservedPhase(states: seq<Pool>, acts: seq<Action>, i: nat, j: nat, b: nat)
    requires Run(states, acts) && i < j < |states| && acts[i] == Enter(b) && Unserved(states, i, j, b)
    ensures NotYetServed(states[j].borrowers[b])
  {
    hide Next, Enabled, NotYetServed;
    assert Enabled(states[j - 1], acts[j - 1]) && states[j] == Next(states[j - 1], acts[j - 1]);
    if i + 1 < j {
      UnservedPhase(states, acts, i, j - 1, b);
    } else {
      EntersFromOutside(states[i], b);
    }
    StepBeforeService(states[j - 1], acts[j - 1], b);
  }

  lemma EntersFromOutside(p: Pool, b: nat)
    requires Enabled(p, Enter(b))
    ensures b !in p.borrowers
  {
  }

  /**
   * A borrower that goes away empty-handed met a failed connect, or a probe that raised something
   * other than a connection error. Dead idle connections only make it try the next one.
   */
  lemma LeavesUnserved(states: seq<Pool>, acts: seq<Action>, i: nat, j: nat, b: nat)
    requires Run(states, acts) && i < j < |acts| && acts[i] == Enter(b) && Unserved(states, i, j, b)
    requires b !in states[j + 1].borrowers
    ensures acts[j] in {ConnectFails(b), ProbeRaises(b)}
  {
    UnservedPhase(states, acts, i, j, b);
    assert Enabled(states[j], acts[j]) && states[j + 1] == Next(states[j], acts[j]);
  }

  // ---- The object ----

  /** The sections that run under the pool's lock, and a borrow nobody interrupts. */
  class ConnectionPool {
    const max: nat
    var idle: seq<nat>
    var closed: bool

    constructor (max: nat)
      ensures this.max == max && idle == [] && !closed
    {
      this.max := max;
      idle := [];
      closed := false;
    }

    /** The fields hold the shared part of a state. */
    ghost predicate Shows(p: Pool)
      reads this
    {
      p.max == max && p.idle == idle && p.closed == closed
    }

    method PopIdle(ghost p: Pool, ghost b: nat) returns (conn: Option<nat>)
      requires Shows(p) && Enabled(p, Pop(b))
      modifies this`idle
      ensures Shows(Next(p, Pop(b)))
      ensures Next(p, Pop(b)).borrowers[b] == if conn.Some? then Probing(conn.value) else Connecting
    {
      if idle == [] {
        conn := None;
      } else {
        conn := Some(idle[|idle| - 1]);
        idle := idle[..|idle| - 1];
      }
    }

    method PutBack(conn: nat, ghost p: Pool, ghost b: nat) returns (kept: bool)
      requires Shows(p) && Enabled(p, Release(b)) && p.borrowers[b] == Returning(conn)
      modifies this`idle
      ensures Shows(Next(p, Release(b)))
      ensures kept <==> b !in Next(p, Release(b)).borrowers
      ensures !kept ==> Next(p, Release(b)).borrowers[b] == Closing(conn, false)
    {
      kept := !closed && |idle| < max;
      if kept {
        idle := idle + [conn];
      }
    }

    method CloseAll(ghost p: Pool) returns (conns: seq<nat>)
      requires Shows(p)
      modifies this
      ensures Shows(Next(p, Close)) && Next(p, Close).gone == p.gone + Elements(conns)
    {
      closed := true;
      conns, idle := idle, [];
    }

    /**
     * Borrowing without an interleaving: `alive` says which idle connections answer the probe.
     * The most recently returned live connection is lent, the dead ones above it are closed, and
     * `None` stands for a new connection, opened only when no idle one is alive.
     */
    method Acquire(alive: set<nat>) returns (conn: Option<nat>, dead: seq<nat>)
      modifies this`idle
      ensures conn.Some? ==> conn.value in alive && old(idle) == idle + [conn.value] + dead
      ensures conn.None? ==> idle == [] && old(idle) == dead
      ensures forall c :: c in dead ==> c !in alive
    {
      conn, dead := None, [];
      while idle != []
        invariant old(idle) == idle + dead
        invariant forall c :: c in dead ==> c !in alive
        decreases |idle|
      {
        var top := idle[|idle| - 1];
        idle := idle[..|idle| - 1];
        if top in alive {
          conn := Some(top);
          return;
        }
        dead := [top] + dead;
      }
    }
  }
}
