/**
  * Conversation threads: connected components of the "share a reference" relation, kept up to date
  * by merging.
  */
module Threads {
  import opened Util

  type RowId = nat
  type ThreadId = nat
  type AccountId = nat

  datatype Message = Message(account: AccountId, thread: Option<ThreadId>, internalDate: Option<nat>, createdAt: nat)

  datatype Thread = Thread(account: AccountId, subject: Option<string>, lastAt: Option<nat>, count: nat)

  /** `refs[m]` lists the rows of `message_refs` for `m` by position. */
  datatype State = State(
    messages: map<RowId, Message>, refs: map<RowId, seq<string>>, threads: map<ThreadId, Thread>, nextThread: ThreadId)

  datatype Call = Call(
    account: AccountId, row: RowId, header: Option<string>, refs: seq<string>,
    subject: Option<string>, date: Option<nat>)

  // ---- References of a call ----

  function Strip(s: string): string
    decreases |s|
  {
    if s == [] then s
    else if s[0] in WHITESPACE then Strip(s[1..])
    else if s[|s| - 1] in WHITESPACE then Strip(s[..|s| - 1])
    else s
  }

  function Own(call: Call): Option<string> {
    if call.header.Some? && Strip(call.header.value) != "" then Some(Strip(call.header.value)) else None
  }

  function Candidates(call: Call): set<string> {
    (set r | r in call.refs && Strip(r) != "" :: Strip(r)) + (if Own(call).Some? then {Own(call).value} else {})
  }

  function RefsOf(s: State, m: RowId): set<string> {
    if m in s.refs then Elements(s.refs[m]) else {}
  }

  // ---- What a reference is ----

  predicate White(s: string) {
    forall i :: 0 <= i < |s| ==> s[i] in WHITESPACE
  }

  /** `s` is `x` between white space, and `x` is not empty and neither begins nor ends in white space. */
  ghost predicate Trims(s: string, x: string) {
    && x != "" && x[0] !in WHITESPACE && x[|x| - 1] !in WHITESPACE
    && exists a, b :: White(a) && White(b) && s == a + x + b
  }

  /** The call brings `x`: one of its references, or its own Message-ID, trims to it. */
  ghost predicate Brings(call: Call, x: string) {
    (exists r :: r in call.refs && Trims(r, x)) || (call.header.Some? && Trims(call.header.value, x))
  }

  lemma TrimsLonger(s: string, x: string, before: string, after: string)
    requires Trims(s, x) && White(before) && White(after)
    ensures Trims(before + s + after, x)
  {
    var a, b :| White(a) && White(b) && s == a + x + b;
    assert White(before + a) && White(b + after);
    assert before + s + after == (before + a) + x + (b + after);
  }

  lemma {:induction false} StripTrims(s: string)
    requires Strip(s) != ""
    ensures Trims(s, Strip(s))
    decreases |s|
  {
    hide Trims;
    if s[0] in WHITESPACE {
      StripTrims(s[1..]);
      TrimsLonger(s[1..], Strip(s), [s[0]], "");
      assert [s[0]] + s[1..] + "" == s;
    } else if s[|s| - 1] in WHITESPACE {
      StripTrims(s[..|s| - 1]);
      TrimsLonger(s[..|s| - 1], Strip(s), "", [s[|s| - 1]]);
      assert "" + s[..|s| - 1] + [s[|s| - 1]] == s;
    } else {
      TrimsItself(s);
    }
  }

  lemma TrimsItself(s: string)
    requires s != "" && s[0] !in WHITESPACE && s[|s| - 1] !in WHITESPACE
    ensures Trims(s, s)
  {
    assert White("") && s == "" + s + "";
  }

  lemma {:induction false} TrimsIsStrip(s: string, x: string)
    requires Trims(s, x)
    ensures Strip(s) == x
    decreases |s|
  {
    var a, b :| White(a) && White(b) && s == a + x + b;
    if a != "" {
      assert s[0] == a[0] && s[1..] == a[1..] + x + b && White(a[1..]);
      TrimsIsStrip(s[1..], x);
    } else if b != "" {
      assert s[0] == x[0] && s[|s| - 1] == b[|b| - 1];
      assert s[..|s| - 1] == a + x + b[..|b| - 1] && White(b[..|b| - 1]);
      TrimsIsStrip(s[..|s| - 1], x);
    } else {
      assert s == x;
    }
  }

  /** The references of a call are what it brings. */
  lemma CandidatesAreBrought(call: Call, x: string)
    ensures x in Candidates(call) <==> Brings(call, x)
  {
    hide Strip, Trims;
    StripOfEmpty();
    forall r | r in call.refs || call.header == Some(r) ensures Trims(r, x) <==> x != "" && Strip(r) == x {
      if Trims(r, x) {
        TrimsIsStrip(r, x);
        TrimsNothing(r, x);
      }
      if x != "" && Strip(r) == x {
        StripTrims(r);
      }
    }
  }

  lemma StripOfEmpty()
    ensures Strip("") == ""
  {
  }

  lemma TrimsNothing(s: string, x: string)
    requires Trims(s, x)
    ensures x != ""
  {
  }

  // ---- Matching threads ----

  /** `m` holds a reference of the call, in the call's account, and has a thread. */
  predicate Hits(s: State, account: AccountId, refs: set<string>, m: RowId) {
    m in s.messages && s.messages[m].account == account && s.messages[m].thread.Some? && RefsOf(s, m) * refs != {}
  }

  function HitRows(s: State, account: AccountId, refs: set<string>): set<RowId> {
    set m | m in s.messages && Hits(s, account, refs, m)
  }

  function Matched(s: State, account: AccountId, refs: set<string>): set<ThreadId> {
    set m | m in HitRows(s, account, refs) :: s.messages[m].thread.value
  }

  predicate NoLater(a: Option<nat>, b: Option<nat>) {
    b.None? || (a.Some? && a.value <= b.value)
  }

  /** First of `ORDER BY min(internal_date) ASC NULLS LAST`: a matching message of `t` is earliest. */
  ghost predicate Earliest(s: State, account: AccountId, refs: set<string>, t: ThreadId) {
    exists m :: m in HitRows(s, account, refs) && s.messages[m].thread == Some(t)
      && forall o :: o in HitRows(s, account, refs) ==> NoLater(s.messages[m].internalDate, s.messages[o].internalDate)
  }

  // ---- The effect of `assign_thread`, given the surviving thread and the written refs ----

  function Members(s: State, t: ThreadId): set<RowId> {
    set m | m in s.messages && s.messages[m].thread == Some(t)
  }

  function DateOf(m: Message): nat {
    if m.internalDate.Some? then m.internalDate.value else m.createdAt
  }

  function Dates(s: State, t: ThreadId): set<nat> {
    set m | m in Members(s, t) :: DateOf(s.messages[m])
  }

  function Moved(s: State, threads: set<ThreadId>, to: ThreadId): map<RowId, Message> {
    map m | m in s.messages ::
      if s.messages[m].thread.Some? && s.messages[m].thread.value in threads
      then s.messages[m].(thread := Some(to)) else s.messages[m]
  }

  function Named(thread: Thread, subject: Option<string>): Thread {
    if subject.Some? && subject.value != "" && thread.subject.None? then thread.(subject := subject) else thread
  }

  /** The survivor with its messages; the other matched threads are gone. */
  function Merged(s: State, call: Call, t: ThreadId): State {
    var matched := Matched(s, call.account, Candidates(call));
    if matched == {} then
      s.(threads := s.threads[t := Thread(call.account, call.subject, call.date, 0)], nextThread := t + 1)
    else
      var left := s.threads - (matched - {t});
      s.(messages := Moved(s, matched - {t}, t),
         threads := if t in left then left[t := Named(left[t], call.subject)] else left)
  }

  function Joined(s: State, call: Call, t: ThreadId, rows: seq<string>): State
    requires call.row in s.messages
  {
    s.(messages := s.messages[call.row := s.messages[call.row].(thread := Some(t))], refs := s.refs[call.row := rows])
  }

  function Refreshed(s: State, t: ThreadId, fallback: Option<nat>): State {
    if t !in s.threads then s
    else
      var last := if Dates(s, t) == {} then fallback else Some(Max(Dates(s, t)));
      s.(threads := s.threads[t := s.threads[t].(count := |Members(s, t)|, lastAt := last)])
  }

  function After(s: State, call: Call, t: ThreadId, rows: seq<string>): State
    requires call.row in s.messages
  {
    Refreshed(Joined(Merged(s, call, t), call, t, rows), t, call.date)
  }

  /** Rows list every reference once, the message's own id first. */
  ghost predicate RefRows(call: Call, rows: seq<string>) {
    && NoRepeats(rows) && Elements(rows) == Candidates(call)
    && (Own(call).Some? ==> rows != [] && rows[0] == Own(call).value)
  }

  ghost predicate Chosen(s: State, call: Call, t: ThreadId) {
    if Matched(s, call.account, Candidates(call)) == {} then t == s.nextThread
    else Earliest(s, call.account, Candidates(call), t)
  }

  ghost predicate Assigned(s: State, call: Call, next: State) {
    && call.row in s.messages
    && exists t, rows :: Chosen(s, call, t) && RefRows(call, rows) && next == After(s, call, t, rows)
  }

  // ---- Foreign keys ----

  ghost predicate Consistent(s: State) {
    && (forall m :: m in s.messages && s.messages[m].thread.Some? ==>
          s.messages[m].thread.value in s.threads
          && s.threads[s.messages[m].thread.value].account == s.messages[m].account)
    && (forall m :: m in s.refs && s.refs[m] != [] ==> m in s.messages && s.messages[m].thread.Some?)
    && forall t :: t in s.threads ==> t < s.nextThread
  }

  /** The counters of a thread are those of its messages, and it has some. */
  ghost predicate Counted(s: State, t: ThreadId) {
    && t in s.threads && Members(s, t) != {} && s.threads[t].count == |Members(s, t)|
    && Dates(s, t) != {} && s.threads[t].lastAt == Some(Max(Dates(s, t)))
  }

  ghost predicate Fresh(s: State) {
    s.threads == map[] && s.refs == map[] && forall m :: m in s.messages ==> s.messages[m].thread.None?
  }

  lemma MatchedAccount(s: State, account: AccountId, refs: set<string>, t: ThreadId)
    requires Consistent(s) && t in Matched(s, account, refs)
    ensures t in s.threads && s.threads[t].account == account
  {
    var m :| m in HitRows(s, account, refs) && s.messages[m].thread.value == t;
  }

  ghost predicate InThreads(s: State, m: RowId, threads: set<ThreadId>) {
    m in s.messages && s.messages[m].thread.Some? && s.messages[m].thread.value in threads
  }

  function MovedTo(s: State, m: RowId, threads: set<ThreadId>, t: ThreadId): Message
    requires m in s.messages
  {
    if s.messages[m].thread.Some? && s.messages[m].thread.value in threads then s.messages[m].(thread := Some(t))
    else s.messages[m]
  }

  ghost predicate MergeFacts(s: State, call: Call, t: ThreadId, next: State) {
    var matched := Matched(s, call.account, Candidates(call));
    && Consistent(next) && next.messages.Keys == s.messages.Keys && next.refs == s.refs
    && t in next.threads && next.threads[t].account == call.account
    && (forall m :: m in s.messages ==> next.messages[m] == MovedTo(s, m, matched, t))
    && (if matched == {} then t !in s.threads && next.threads.Keys == s.threads.Keys + {t}
        else t in matched && next.threads.Keys == s.threads.Keys - (matched - {t}))
    && (forall u :: u in next.threads && u != t ==> u in s.threads && next.threads[u] == s.threads[u])
  }

  lemma MatchedAccounts(s: State, call: Call, t: ThreadId)
    requires Consistent(s) && Chosen(s, call, t)
    ensures var matched := Matched(s, call.account, Candidates(call));
      && (forall u :: u in matched ==> u in s.threads && s.threads[u].account == call.account)
      && (if matched == {} then t == s.nextThread && t !in s.threads else t in matched)
  {
    var matched := Matched(s, call.account, Candidates(call));
    forall u | u in matched ensures u in s.threads && s.threads[u].account == call.account {
      MatchedAccount(s, call.account, Candidates(call), u);
    }
    if matched != {} {
      var m :| m in HitRows(s, call.account, Candidates(call)) && s.messages[m].thread == Some(t);
      assert s.messages[m].thread.value in matched;
    }
  }

  lemma MergedExact(s: State, call: Call, t: ThreadId)
    requires Consistent(s) && Chosen(s, call, t)
    ensures MergeFacts(s, call, t, Merged(s, call, t))
  {
    hide Matched, Candidates, Chosen;
    MatchedAccounts(s, call, t);
  }

  ghost predicate JoinFacts(s: State, call: Call, t: ThreadId, next: State) {
    && call.row in s.messages && Consistent(next) && next.threads.Keys == s.threads.Keys
    && next.messages == s.messages[call.row := s.messages[call.row].(thread := Some(t))]
    && (forall m :: m in s.messages ==> RefsOf(next, m) == if m == call.row then Candidates(call) else RefsOf(s, m))
    && (forall u :: u in s.threads && u != t ==> next.threads[u] == s.threads[u])
  }

  lemma JoinedExact(s: State, call: Call, t: ThreadId, rows: seq<string>)
    requires Consistent(s) && call.row in s.messages && s.messages[call.row].account == call.account
    requires t in s.threads && s.threads[t].account == call.account && RefRows(call, rows)
    ensures JoinFacts(s, call, t, Refreshed(Joined(s, call, t, rows), t, call.date))
    ensures Counted(Refreshed(Joined(s, call, t, rows), t, call.date), t)
  {
    var joined := Joined(s, call, t, rows);
    assert Consistent(joined) && call.row in Members(joined, t);
    assert DateOf(joined.messages[call.row]) in Dates(joined, t);
    var next := Refreshed(joined, t, call.date);
    assert Members(next, t) == Members(joined, t) && Dates(next, t) == Dates(joined, t);
  }

  lemma MergeThenJoin(s: State, call: Call, t: ThreadId, mid: State, next: State)
    requires Consistent(s) && call.row in s.messages && s.messages[call.row].account == call.account
    requires MergeFacts(s, call, t, mid) && JoinFacts(mid, call, t, next)
    ensures Effect(s, call, t, next)
  {
    hide Matched, Candidates, Consistent;
    assert forall m :: RefsOf(mid, m) == RefsOf(s, m);
  }

  /** What one call does to threads and references, message by message. */
  ghost predicate Effect(s: State, call: Call, t: ThreadId, next: State) {
    var matched := Matched(s, call.account, Candidates(call));
    && call.row in s.messages && s.messages[call.row].account == call.account
    && Consistent(s) && Consistent(next) && next.messages.Keys == s.messages.Keys
    && (forall m :: m in s.messages ==>
          next.messages[m] == if m == call.row then s.messages[m].(thread := Some(t)) else MovedTo(s, m, matched, t))
    && (forall m :: m in s.messages ==> RefsOf(next, m) == if m == call.row then Candidates(call) else RefsOf(s, m))
    && (if matched == {} then t !in s.threads && next.threads.Keys == s.threads.Keys + {t}
        else t in matched && next.threads.Keys == s.threads.Keys - (matched - {t}))
    && (forall u :: u in next.threads && u != t ==> u in s.threads && next.threads[u] == s.threads[u])
  }

  lemma AfterExact(s: State, call: Call, t: ThreadId, rows: seq<string>)
    requires Consistent(s) && call.row in s.messages && s.messages[call.row].account == call.account
    requires Chosen(s, call, t) && RefRows(call, rows)
    ensures Effect(s, call, t, After(s, call, t, rows)) && Counted(After(s, call, t, rows), t)
  {
    hide Merged, Joined, Refreshed, Matched, Candidates, Counted, Effect, JoinFacts;
    MergedExact(s, call, t);
    JoinedExact(Merged(s, call, t), call, t, rows);
    MergeThenJoin(s, call, t, Merged(s, call, t), After(s, call, t, rows));
  }

  lemma AssignedEffect(s: State, call: Call, next: State) returns (t: ThreadId)
    requires Consistent(s) && Assigned(s, call, next) && s.messages[call.row].account == call.account
    ensures Chosen(s, call, t) && Effect(s, call, t, next) && Counted(next, t)
  {
    var u: ThreadId, rows :| Chosen(s, call, u) && RefRows(call, rows) && next == After(s, call, u, rows);
    AfterExact(s, call, u, rows);
    t := u;
  }

  // ---- Chains of shared references ----

  ghost predicate Linked(s: State, a: RowId, b: RowId) {
    && a in s.messages && b in s.messages && s.messages[a].account == s.messages[b].account
    && RefsOf(s, a) * RefsOf(s, b) != {}
  }

  ghost predicate Chain(s: State, p: seq<RowId>) {
    p != [] && forall i :: 0 <= i < |p| - 1 ==> Linked(s, p[i], p[i + 1])
  }

  ghost predicate Connected(s: State, a: RowId, b: RowId) {
    exists p :: Chain(s, p) && p[0] == a && p[|p| - 1] == b
  }

  lemma ConnectedSelf(s: State, a: RowId)
    ensures Connected(s, a, a)
  {
    assert Chain(s, [a]);
  }

  lemma ConnectedLink(s: State, a: RowId, b: RowId)
    requires Linked(s, a, b)
    ensures Connected(s, a, b)
  {
    assert Chain(s, [a, b]);
  }

  lemma ConnectedTransitive(s: State, a: RowId, b: RowId, c: RowId)
    requires Connected(s, a, b) && Connected(s, b, c)
    ensures Connected(s, a, c)
  {
    var p :| Chain(s, p) && p[0] == a && p[|p| - 1] == b;
    var q :| Chain(s, q) && q[0] == b && q[|q| - 1] == c;
    var r := p + q[1..];
    forall i | 0 <= i < |r| - 1 ensures Linked(s, r[i], r[i + 1]) {
      if i < |p| - 1 {
        assert Linked(s, p[i], p[i + 1]);
      } else {
        assert r[i] == q[i - |p| + 1] && r[i + 1] == q[i - |p| + 2];
        assert Linked(s, q[i - |p| + 1], q[i - |p| + 1 + 1]);
      }
    }
    assert Chain(s, r) && r[0] == a && r[|r| - 1] == c;
  }

  lemma ConnectedSymmetric(s: State, a: RowId, b: RowId)
    requires Connected(s, a, b)
    ensures Connected(s, b, a)
  {
    var p :| Chain(s, p) && p[0] == a && p[|p| - 1] == b;
    var r := seq(|p|, i requires 0 <= i < |p| => p[|p| - 1 - i]);
    forall i | 0 <= i < |r| - 1 ensures Linked(s, r[i], r[i + 1]) {
      var k := |p| - 2 - i;
      assert Linked(s, p[k], p[k + 1]);
    }
    assert Chain(s, r) && r[0] == b && r[|r| - 1] == a;
  }

  lemma ConnectedGrows(s: State, next: State, a: RowId, b: RowId)
    requires Connected(s, a, b)
    requires forall x, y :: Linked(s, x, y) ==> Linked(next, x, y)
    ensures Connected(next, a, b)
  {
    var p :| Chain(s, p) && p[0] == a && p[|p| - 1] == b;
    assert Chain(next, p);
  }

  // ---- The partition ----

  ghost predicate SameThread(s: State, a: RowId, b: RowId) {
    a in s.messages && b in s.messages && s.messages[a].thread.Some? && s.messages[a].thread == s.messages[b].thread
  }

  /** Threads are exactly the classes of messages linked by chains of shared references. */
  ghost predicate Partitioned(s: State) {
    && Consistent(s)
    && (forall a, b :: Linked(s, a, b) ==> SameThread(s, a, b))
    && (forall a, b :: SameThread(s, a, b) ==> Connected(s, a, b))
  }

  /** The call names a message of its own account, and does not drop a reference it already has. */
  ghost predicate Grows(s: State, call: Call) {
    && call.row in s.messages && s.messages[call.row].account == call.account
    && RefsOf(s, call.row) <= Candidates(call)
  }

  lemma HitIsMatched(s: State, call: Call, m: RowId, r: string)
    requires Consistent(s) && m in s.messages && s.messages[m].account == call.account
    requires r in RefsOf(s, m) && r in Candidates(call)
    ensures InThreads(s, m, Matched(s, call.account, Candidates(call)))
  {
    assert r in RefsOf(s, m) * Candidates(call);
    assert m in HitRows(s, call.account, Candidates(call));
  }

  /** The state before the call, with the references of its message already replaced. */
  ghost function WithRefs(s: State, call: Call): State {
    s.(refs := s.refs[call.row := SomeOrder(Candidates(call))])
  }

  /**
    * The messages the call leaves together in a thread are still linked: those of the old thread of
    * its message are connected to the message if the thread matches, and to one another if it does not.
    */
  ghost predicate StaysTogether(s: State, call: Call)
    requires call.row in s.messages
  {
    var was := s.messages[call.row].thread;
    was.Some? ==>
      if was.value in Matched(s, call.account, Candidates(call))
      then forall m :: m in Members(s, was.value) ==> Connected(WithRefs(s, call), m, call.row)
      else forall a, b :: a in Members(s, was.value) - {call.row} && b in Members(s, was.value) - {call.row} ==>
        Connected(WithRefs(s, call), a, b)
  }

  /** The links after the call are those of the state before it with the new references. */
  lemma LinksOfNext(s: State, call: Call, t: ThreadId, next: State, a: RowId, b: RowId)
    requires Effect(s, call, t, next)
    ensures Connected(next, a, b) <==> Connected(WithRefs(s, call), a, b)
  {
    hide Connected, Matched, Candidates, Consistent;
    var after := WithRefs(s, call);
    assert forall m :: m in s.messages ==> RefsOf(after, m) == RefsOf(next, m);
    assert forall x, y :: Linked(next, x, y) <==> Linked(after, x, y);
    if Connected(next, a, b) {
      ConnectedGrows(next, after, a, b);
    }
    if Connected(after, a, b) {
      ConnectedGrows(after, next, a, b);
    }
  }

  lemma LinkedShareThread(s: State, call: Call, t: ThreadId, next: State, a: RowId, b: RowId)
    requires Partitioned(s) && Effect(s, call, t, next) && Linked(next, a, b)
    ensures SameThread(next, a, b)
  {
    hide Matched, Candidates;
    var r :| r in RefsOf(next, a) * RefsOf(next, b);
    if a != call.row && b != call.row {
      assert r in RefsOf(s, a) * RefsOf(s, b);
      assert Linked(s, a, b) && SameThread(s, a, b);
    } else {
      if a != call.row {
        HitIsMatched(s, call, a, r);
      }
      if b != call.row {
        HitIsMatched(s, call, b, r);
      }
    }
  }

  /** Chains in threads other than that of the call's message survive the call. */
  lemma ConnectedElsewhere(s: State, call: Call, t: ThreadId, next: State, a: RowId, b: RowId)
    requires Partitioned(s) && Effect(s, call, t, next) && SameThread(s, a, b) && !SameThread(s, a, call.row)
    ensures Connected(next, a, b)
  {
    hide Matched, Candidates, Consistent;
    assert Connected(s, a, b);
    var p :| Chain(s, p) && p[0] == a && p[|p| - 1] == b;
    forall i | 0 <= i < |p| ensures SameThread(s, a, p[i]) {
      var q := p[..i + 1];
      assert Chain(s, q) by {
        forall k | 0 <= k < |q| - 1 ensures Linked(s, q[k], q[k + 1]) {
          assert Linked(s, p[k], p[k + 1]);
        }
      }
      ChainSharesThread(s, q);
    }
    forall i | 0 <= i < |p| - 1 ensures Linked(next, p[i], p[i + 1]) {
      assert Linked(s, p[i], p[i + 1]) && p[i] != call.row && p[i + 1] != call.row;
    }
    assert Chain(next, p);
  }

  /** A message of another matching thread is connected to the call's message. */
  lemma ReachesRow(s: State, call: Call, t: ThreadId, next: State, x: RowId)
    requires Partitioned(s) && Effect(s, call, t, next) && !SameThread(s, x, call.row)
    requires InThreads(s, x, Matched(s, call.account, Candidates(call)))
    ensures Connected(next, x, call.row)
  {
    hide Connected, Consistent;
    var w :| w in HitRows(s, call.account, Candidates(call))
      && s.messages[w].thread.value == s.messages[x].thread.value;
    assert SameThread(s, x, w) && w != call.row;
    ConnectedElsewhere(s, call, t, next, x, w);
    var r :| r in RefsOf(s, w) * Candidates(call);
    assert r in RefsOf(next, w) * RefsOf(next, call.row);
    ConnectedLink(next, w, call.row);
    ConnectedTransitive(next, x, w, call.row);
  }

  /** Everything that ends up in the survivor is connected to the call's message. */
  lemma SurvivorReachesRow(s: State, call: Call, t: ThreadId, next: State, x: RowId)
    requires Partitioned(s) && Effect(s, call, t, next) && StaysTogether(s, call)
    requires x in next.messages && next.messages[x].thread == Some(t)
    ensures Connected(next, x, call.row)
  {
    hide Connected, Partitioned, Matched, Candidates;
    if x == call.row {
      ConnectedSelf(next, x);
    } else if SameThread(s, x, call.row) {
      LinksOfNext(s, call, t, next, x, call.row);
      assert x in Members(s, s.messages[call.row].thread.value);
    } else {
      ReachesRow(s, call, t, next, x);
    }
  }

  lemma SharersConnected(s: State, call: Call, t: ThreadId, next: State, a: RowId, b: RowId)
    requires Partitioned(s) && Effect(s, call, t, next) && StaysTogether(s, call) && SameThread(next, a, b)
    ensures Connected(next, a, b)
  {
    hide Connected, Partitioned, Matched, Candidates;
    if next.messages[a].thread == Some(t) {
      SurvivorReachesRow(s, call, t, next, a);
      SurvivorReachesRow(s, call, t, next, b);
      ConnectedSymmetric(next, b, call.row);
      ConnectedTransitive(next, a, call.row, b);
    } else if SameThread(s, a, call.row) {
      LinksOfNext(s, call, t, next, a, b);
      assert a in Members(s, s.messages[call.row].thread.value) && b in Members(s, s.messages[call.row].thread.value);
    } else {
      ConnectedElsewhere(s, call, t, next, a, b);
    }
  }

  /** Whoever was with the call's message and stays with it, or stays behind together, shares a thread. */
  lemma LeftTogether(s: State, call: Call, t: ThreadId, next: State)
    requires Partitioned(next) && Effect(s, call, t, next)
    ensures StaysTogether(s, call)
  {
    hide Connected, Matched, Candidates, Consistent;
    var was := s.messages[call.row].thread;
    if was.Some? {
      var matched := Matched(s, call.account, Candidates(call));
      forall a, b | a in Members(s, was.value) && b in Members(s, was.value)
        && (if was.value in matched then b == call.row else a != call.row && b != call.row)
        ensures Connected(WithRefs(s, call), a, b)
      {
        assert SameThread(next, a, b);
        LinksOfNext(s, call, t, next, a, b);
      }
    }
  }

  /**
    * A call keeps threads and components the same exactly when what it leaves together stays linked.
    */
  lemma PartitionKeptIff(s: State, call: Call, next: State)
    requires Partitioned(s) && Assigned(s, call, next) && s.messages[call.row].account == call.account
    ensures Partitioned(next) <==> StaysTogether(s, call)
  {
    hide Chosen, Matched, Candidates, Counted, Connected, StaysTogether;
    var t := AssignedEffect(s, call, next);
    if StaysTogether(s, call) {
      forall a, b | Linked(next, a, b) ensures SameThread(next, a, b) {
        LinkedShareThread(s, call, t, next, a, b);
      }
      forall a, b | SameThread(next, a, b) ensures Connected(next, a, b) {
        SharersConnected(s, call, t, next, a, b);
      }
    }
    if Partitioned(next) {
      LeftTogether(s, call, t, next);
    }
  }

  /** A call that drops no reference leaves everything linked that was. */
  lemma GrowsStaysTogether(s: State, call: Call)
    requires Partitioned(s) && Grows(s, call)
    ensures StaysTogether(s, call)
  {
    hide Matched, Candidates, Connected;
    var after := WithRefs(s, call);
    forall x, y | Linked(s, x, y) ensures Linked(after, x, y) {
      var r :| r in RefsOf(s, x) * RefsOf(s, y);
      assert r in RefsOf(after, x) * RefsOf(after, y);
    }
    forall a, b | SameThread(s, a, b) ensures Connected(after, a, b) {
      ConnectedGrows(s, after, a, b);
    }
    var was := s.messages[call.row].thread;
    if was.Some? {
      assert forall a, b :: a in Members(s, was.value) && b in Members(s, was.value) ==> SameThread(s, a, b);
    }
  }

  lemma AssignKeepsPartition(s: State, call: Call, next: State)
    requires Partitioned(s) && Grows(s, call) && Assigned(s, call, next)
    ensures Partitioned(next) && next.messages.Keys == s.messages.Keys
    ensures forall m :: m in s.messages ==> next.messages[m].account == s.messages[m].account
  {
    hide Chosen, Matched, Candidates, Counted, StaysTogether, Connected;
    var t := AssignedEffect(s, call, next);
    GrowsStaysTogether(s, call);
    PartitionKeptIff(s, call, next);
  }

  lemma FreshIsPartitioned(s: State)
    requires Fresh(s)
    ensures Partitioned(s)
  {
    assert forall m :: RefsOf(s, m) == {};
  }

  // ---- Every run ----

  ghost predicate Run(states: seq<State>, calls: seq<Call>) {
    && |states| == |calls| + 1 && Fresh(states[0])
    && forall i :: 0 <= i < |calls| ==> Assigned(states[i], calls[i], states[i + 1])
  }

  ghost predicate GrowingRun(states: seq<State>, calls: seq<Call>) {
    Run(states, calls) && forall i :: 0 <= i < |calls| ==> Grows(states[i], calls[i])
  }

  lemma {:induction false} RunKeepsPartition(states: seq<State>, calls: seq<Call>, i: nat)
    requires GrowingRun(states, calls) && i <= |calls|
    ensures Partitioned(states[i]) && states[i].messages.Keys == states[0].messages.Keys
    ensures forall m :: m in states[0].messages ==> states[i].messages[m].account == states[0].messages[m].account
    decreases i
  {
    hide Assigned, Partitioned, Grows, Fresh;
    if i == 0 {
      FreshIsPartitioned(states[0]);
    } else {
      RunKeepsPartition(states, calls, i - 1);
      AssignKeepsPartition(states[i - 1], calls[i - 1], states[i]);
    }
  }

  /** Threads are the components throughout a run exactly when every call of it leaves together what is linked. */
  lemma ComponentsIff(states: seq<State>, calls: seq<Call>)
    requires Run(states, calls) && OwnAccounts(states, calls)
    ensures (forall i :: 0 <= i <= |calls| ==> Partitioned(states[i])) <==>
      (forall i :: 0 <= i < |calls| ==> StaysTogether(states[i], calls[i]))
  {
    hide Assigned, Partitioned, StaysTogether;
    if forall i :: 0 <= i <= |calls| ==> Partitioned(states[i]) {
      forall i | 0 <= i < |calls| ensures StaysTogether(states[i], calls[i]) {
        assert Partitioned(states[i]) && Partitioned(states[i + 1]);
        PartitionKeptIff(states[i], calls[i], states[i + 1]);
      }
    }
    if forall i :: 0 <= i < |calls| ==> StaysTogether(states[i], calls[i]) {
      forall i | 0 <= i <= |calls| ensures Partitioned(states[i]) {
        TogetherIsPartitioned(states, calls, i);
      }
    }
  }

  /** Each call names a message of its own account. */
  ghost predicate OwnAccounts(states: seq<State>, calls: seq<Call>) {
    |states| == |calls| + 1 && forall i :: 0 <= i < |calls| ==>
      calls[i].row in states[i].messages && states[i].messages[calls[i].row].account == calls[i].account
  }

  lemma {:induction false} TogetherIsPartitioned(states: seq<State>, calls: seq<Call>, i: nat)
    requires Run(states, calls) && OwnAccounts(states, calls) && i <= |calls|
    requires forall k :: 0 <= k < |calls| ==> StaysTogether(states[k], calls[k])
    ensures Partitioned(states[i])
    decreases i
  {
    hide Assigned, Partitioned, StaysTogether, Fresh;
    if i == 0 {
      FreshIsPartitioned(states[0]);
    } else {
      TogetherIsPartitioned(states, calls, i - 1);
      PartitionKeptIff(states[i - 1], calls[i - 1], states[i]);
    }
  }

  /**
    * Two messages that have a thread share it if and only if a chain of shared references links
    * them. Subjects play no part.
    */
  lemma ThreadsAreComponents(states: seq<State>, calls: seq<Call>, i: nat, a: RowId, b: RowId)
    requires GrowingRun(states, calls) && i <= |calls|
    requires a in states[i].messages && states[i].messages[a].thread.Some?
    requires b in states[i].messages && states[i].messages[b].thread.Some?
    ensures states[i].messages[a].thread == states[i].messages[b].thread <==> Connected(states[i], a, b)
  {
    RunKeepsPartition(states, calls, i);
    var s := states[i];
    if Connected(s, a, b) {
      var p :| Chain(s, p) && p[0] == a && p[|p| - 1] == b;
      ChainSharesThread(s, p);
    } else {
      assert !SameThread(s, a, b);
    }
  }

  lemma {:induction false} ChainSharesThread(s: State, p: seq<RowId>)
    requires Partitioned(s) && Chain(s, p) && p[0] in s.messages && s.messages[p[0]].thread.Some?
    ensures SameThread(s, p[0], p[|p| - 1])
    decreases |p|
  {
    if |p| > 1 {
      var q := p[..|p| - 1];
      forall i | 0 <= i < |q| - 1 ensures Linked(s, q[i], q[i + 1]) {
        assert Linked(s, p[i], p[i + 1]);
      }
      ChainSharesThread(s, q);
      assert Linked(s, p[|p| - 2], p[|p| - 2 + 1]);
      assert SameThread(s, p[|p| - 2], p[|p| - 1]);
    }
  }

  /** A path that ends in `last` enters it somewhere. */
  lemma {:induction false} Enters(p: seq<RowId>, last: RowId) returns (i: nat)
    requires p != [] && p[0] != last && p[|p| - 1] == last
    ensures i + 1 < |p| && p[i] != last && p[i + 1] == last
    decreases |p|
  {
    if p[|p| - 2] != last {
      i := |p| - 2;
    } else {
      i := Enters(p[..|p| - 1], last);
    }
  }

  /**
    * The growth hypothesis is needed. A call that gives up every reference its message shared with
    * others, and keeps some of its own, leaves the message in the thread it no longer belongs to.
    */
  lemma DroppedReferencesKeepThread(s: State, call: Call, next: State, a: RowId)
    requires Partitioned(s) && Assigned(s, call, next) && s.messages[call.row].account == call.account
    requires a != call.row && SameThread(s, a, call.row)
    requires Candidates(call) != {} && Candidates(call) <= RefsOf(s, call.row)
    requires forall m :: m in s.messages && m != call.row ==> RefsOf(s, m) !! Candidates(call)
    ensures SameThread(next, a, call.row) && !Connected(next, a, call.row)
  {
    hide Candidates, Counted, Consistent, Connected, Chosen, Assigned;
    var t := AssignedEffect(s, call, next);
    var r :| r in Candidates(call);
    HitIsMatched(s, call, call.row, r);
    assert forall m :: m in HitRows(s, call.account, Candidates(call)) ==> m == call.row;
    assert forall m :: m in s.messages && m != call.row ==> !Linked(next, m, call.row);
    NeverEntered(next, a, call.row);
  }

  // Two messages share the reference "x"; the second has an id of its own, "y".
  const PAIR := State(
    map[0 := Message(0, Some(0), None, 0), 1 := Message(0, Some(0), None, 0)],
    map[0 := ["x"], 1 := ["y", "x"]], map[0 := Thread(0, None, Some(0), 2)], 1)

  const NARROWED := Call(0, 1, Some("y"), [], None, None)

  lemma PairRefs()
    ensures RefsOf(PAIR, 0) == {"x"} && RefsOf(PAIR, 1) == {"x", "y"} && Candidates(NARROWED) == {"y"}
  {
  }

  lemma PairIsPartitioned()
    ensures Partitioned(PAIR) && SameThread(PAIR, 0, 1)
  {
    hide RefsOf, Candidates, Connected;
    PairRefs();
    assert "x" in RefsOf(PAIR, 0) * RefsOf(PAIR, 1);
    forall a, b | SameThread(PAIR, a, b) ensures Connected(PAIR, a, b) {
      assert "x" in RefsOf(PAIR, a) * RefsOf(PAIR, b);
      ConnectedLink(PAIR, a, b);
    }
  }

  lemma NarrowedIsChosen()
    ensures Chosen(PAIR, NARROWED, 0) && RefRows(NARROWED, ["y"])
  {
    hide RefsOf, Candidates;
    PairRefs();
    assert "y" in RefsOf(PAIR, 1) * {"y"};
    assert HitRows(PAIR, 0, {"y"}) == {1};
    assert 0 in Matched(PAIR, 0, {"y"});
  }

  /** Such a call exists: of two messages that share one reference, the second keeps only its own id. */
  lemma DroppedReferencesExample() returns (next: State)
    ensures Partitioned(PAIR) && Assigned(PAIR, NARROWED, next)
    ensures SameThread(next, 0, 1) && !Connected(next, 0, 1)
  {
    hide RefsOf, Candidates, Partitioned, After, Chosen, RefRows, Connected;
    PairIsPartitioned();
    NarrowedIsChosen();
    PairRefs();
    next := After(PAIR, NARROWED, 0, ["y"]);
    assert Assigned(PAIR, NARROWED, next);
    DroppedReferencesKeepThread(PAIR, NARROWED, next, 0);
  }

  lemma NeverEntered(s: State, a: RowId, b: RowId)
    requires a != b && forall m :: m in s.messages && m != b ==> !Linked(s, m, b)
    ensures !Connected(s, a, b)
  {
    if Connected(s, a, b) {
      var p :| Chain(s, p) && p[0] == a && p[|p| - 1] == b;
      var i := Enters(p, b);
    }
  }

  /** The partition depends on the references recorded in the end, not on the order of arrival. */
  lemma ArrivalOrderIsIrrelevant(
      one: seq<State>, oneCalls: seq<Call>, two: seq<State>, twoCalls: seq<Call>, i: nat, j: nat, a: RowId, b: RowId)
    requires GrowingRun(one, oneCalls) && i <= |oneCalls| && GrowingRun(two, twoCalls) && j <= |twoCalls|
    requires one[i].messages.Keys == two[j].messages.Keys
    requires forall m :: m in one[i].messages ==>
      one[i].messages[m].account == two[j].messages[m].account && RefsOf(one[i], m) == RefsOf(two[j], m)
    requires a in one[i].messages && one[i].messages[a].thread.Some? && two[j].messages[a].thread.Some?
    requires b in one[i].messages && one[i].messages[b].thread.Some? && two[j].messages[b].thread.Some?
    ensures (one[i].messages[a].thread == one[i].messages[b].thread) <==>
      (two[j].messages[a].thread == two[j].messages[b].thread)
  {
    ThreadsAreComponents(one, oneCalls, i, a, b);
    ThreadsAreComponents(two, twoCalls, j, a, b);
    assert forall x, y :: Linked(one[i], x, y) <==> Linked(two[j], x, y);
    if Connected(one[i], a, b) {
      ConnectedGrows(one[i], two[j], a, b);
    }
    if Connected(two[j], a, b) {
      ConnectedGrows(two[j], one[i], a, b);
    }
  }

  // ---- What calls bring ----

  /** Whatever was done before, a call records for its message exactly the references it brings. */
  lemma RecordsWhatIsBrought(s: State, call: Call, next: State, x: string)
    requires Assigned(s, call, next)
    ensures call.row in next.refs && (x in next.refs[call.row] <==> Brings(call, x))
  {
    hide Candidates, Chosen, Brings, Matched;
    var t: ThreadId, rows :| Chosen(s, call, t) && RefRows(call, rows) && next == After(s, call, t, rows);
    CandidatesAreBrought(call, x);
    RowsWritten(s, call, t, rows);
    assert x in Elements(rows) <==> x in rows;
  }

  lemma RowsWritten(s: State, call: Call, t: ThreadId, rows: seq<string>)
    requires call.row in s.messages
    ensures After(s, call, t, rows).refs == s.refs[call.row := rows]
  {
  }

  lemma {:induction false} RunIsConsistent(states: seq<State>, calls: seq<Call>, i: nat)
    requires Run(states, calls) && OwnAccounts(states, calls) && i <= |calls|
    ensures Consistent(states[i]) && states[i].messages.Keys == states[0].messages.Keys
    ensures forall m :: m in states[0].messages ==> states[i].messages[m].account == states[0].messages[m].account
    decreases i
  {
    hide Assigned, Fresh, Consistent, Matched, Candidates, Chosen, Counted;
    if i == 0 {
      FreshIsConsistent(states[0]);
    } else {
      RunIsConsistent(states, calls, i - 1);
      var t := AssignedEffect(states[i - 1], calls[i - 1], states[i]);
    }
  }

  lemma FreshIsConsistent(s: State)
    requires Fresh(s)
    ensures Consistent(s)
  {
  }

  /** Message `m` was last given a thread by call `k`. */
  ghost predicate LastCall(calls: seq<Call>, i: nat, m: RowId, k: nat) {
    k < i <= |calls| && calls[k].row == m && forall n :: k < n < i ==> calls[n].row != m
  }

  /** At any time a message holds exactly the references its last call brought, and has a thread. */
  lemma {:induction false} HoldsWhatWasBrought(
      states: seq<State>, calls: seq<Call>, i: nat, m: RowId, k: nat, x: string)
    requires Run(states, calls) && OwnAccounts(states, calls) && LastCall(calls, i, m, k)
    ensures m in states[i].refs && (x in states[i].refs[m] <==> Brings(calls[k], x))
    ensures m in states[i].messages && states[i].messages[m].thread.Some?
    decreases i
  {
    hide Assigned, Brings, Consistent, Matched, Candidates, Chosen, Counted;
    var s, call, next := states[i - 1], calls[i - 1], states[i];
    RunIsConsistent(states, calls, i - 1);
    var t := AssignedEffect(s, call, next);
    if k == i - 1 {
      RecordsWhatIsBrought(s, call, next, x);
    } else {
      HoldsWhatWasBrought(states, calls, i - 1, m, k, x);
      OtherRefsStay(s, call, next, m);
    }
  }

  lemma OtherRefsStay(s: State, call: Call, next: State, m: RowId)
    requires Assigned(s, call, next) && m != call.row && m in s.refs
    ensures m in next.refs && next.refs[m] == s.refs[m]
  {
    hide Candidates, Chosen, Matched, RefRows;
    var t: ThreadId, rows :| Chosen(s, call, t) && RefRows(call, rows) && next == After(s, call, t, rows);
    RowsWritten(s, call, t, rows);
  }

  /**
    * Over any run: a call and an earlier one that is the last of its message, of one account, that bring
    * one text in common leave their messages in one thread.
    */
  lemma SharedReferenceJoins(states: seq<State>, calls: seq<Call>, i: nat, k: nat, x: string)
    requires Run(states, calls) && OwnAccounts(states, calls) && i < |calls| && k < i
    requires LastCall(calls, i, calls[k].row, k) && calls[k].account == calls[i].account
    requires Brings(calls[k], x) && Brings(calls[i], x)
    ensures SameThread(states[i + 1], calls[k].row, calls[i].row)
  {
    hide Assigned, Brings, Consistent, Candidates, Chosen, Counted, Matched;
    var m := calls[k].row;
    HoldsWhatWasBrought(states, calls, i, m, k, x);
    RunIsConsistent(states, calls, i);
    RunIsConsistent(states, calls, k);
    CandidatesAreBrought(calls[i], x);
    assert x in RefsOf(states[i], m);
    HitIsMatched(states[i], calls[i], m, x);
    var t := AssignedEffect(states[i], calls[i], states[i + 1]);
  }

  // ---- Counters, empty threads, accounts ----

  /** `ids` gives each message its fixed, non-empty Message-ID. */
  ghost predicate Balanced(s: State, ids: map<RowId, string>) {
    && Consistent(s) && (forall t :: t in s.threads ==> Counted(s, t))
    && forall m :: m in s.messages && s.messages[m].thread.Some? ==> m in ids && ids[m] in RefsOf(s, m)
  }

  ghost predicate Identified(s: State, call: Call, ids: map<RowId, string>) {
    && call.row in s.messages && s.messages[call.row].account == call.account
    && call.row in ids && Own(call) == Some(ids[call.row])
  }

  /** The call's message leaves only a thread that the call merges. */
  lemma OldThreadIsMatched(s: State, call: Call, ids: map<RowId, string>)
    requires Balanced(s, ids) && Identified(s, call, ids) && s.messages[call.row].thread.Some?
    ensures s.messages[call.row].thread.value in Matched(s, call.account, Candidates(call))
  {
    HitIsMatched(s, call, call.row, ids[call.row]);
  }

  lemma SameMembers(s: State, next: State, u: ThreadId)
    requires Counted(s, u) && u in next.threads && next.threads[u] == s.threads[u]
    requires next.messages.Keys == s.messages.Keys
    requires forall m :: m in s.messages ==>
      (next.messages[m].thread == Some(u) <==> s.messages[m].thread == Some(u))
      && DateOf(next.messages[m]) == DateOf(s.messages[m])
    ensures Counted(next, u)
  {
    assert Members(next, u) == Members(s, u);
    assert Dates(next, u) == Dates(s, u);
  }

  /** The thread the call's message is in, if any, is among those the call matches. */
  ghost predicate LeavesMerged(s: State, call: Call)
    requires call.row in s.messages
  {
    var was := s.messages[call.row].thread;
    was.Some? ==> was.value in Matched(s, call.account, Candidates(call))
  }

  ghost predicate AllCounted(s: State) {
    Consistent(s) && forall t :: t in s.threads ==> Counted(s, t)
  }

  lemma UntouchedThread(s: State, call: Call, t: ThreadId, next: State, u: ThreadId)
    requires AllCounted(s) && Effect(s, call, t, next) && LeavesMerged(s, call)
    requires u in next.threads && u != t
    ensures Counted(next, u)
  {
    hide Matched, Candidates, Counted;
    SameMembers(s, next, u);
  }

  /** A thread the message leaves without a merge keeps a count that is one too high. */
  lemma LeftThreadIsMiscounted(s: State, call: Call, t: ThreadId, next: State)
    requires AllCounted(s) && Effect(s, call, t, next) && !LeavesMerged(s, call)
    ensures call.row in s.messages && s.messages[call.row].thread.Some?
    ensures var was := s.messages[call.row].thread.value; was in next.threads && !Counted(next, was)
  {
    hide Effect, LeavesMerged, Counted, Members;
    StaysBehind(s, call, t, next);
    StaleCount(s, call.row, next, s.messages[call.row].thread.value);
  }

  lemma StaysBehind(s: State, call: Call, t: ThreadId, next: State)
    requires Consistent(s) && Effect(s, call, t, next) && !LeavesMerged(s, call)
    ensures call.row in s.messages && s.messages[call.row].thread.Some?
    ensures var was := s.messages[call.row].thread.value;
      && was in s.threads && was in next.threads && next.threads[was] == s.threads[was]
      && call.row in Members(s, was) && Members(next, was) == Members(s, was) - {call.row}
  {
    hide Matched, Candidates, Consistent;
    SomeThread(s, call.row);
  }

  lemma SomeThread(s: State, m: RowId)
    requires Consistent(s) && m in s.messages && s.messages[m].thread.Some?
    ensures s.messages[m].thread.value in s.threads
  {
  }

  lemma StaleCount(s: State, m: RowId, next: State, u: ThreadId)
    requires Counted(s, u) && u in next.threads && next.threads[u] == s.threads[u] && m in Members(s, u)
    requires Members(next, u) == Members(s, u) - {m}
    ensures !Counted(next, u)
  {
    hide Members, Dates;
  }

  /** A call keeps all counters exact precisely when its message leaves no thread that is not merged. */
  lemma CountersKeptIff(s: State, call: Call, next: State)
    requires AllCounted(s) && Assigned(s, call, next) && s.messages[call.row].account == call.account
    ensures AllCounted(next) <==> LeavesMerged(s, call)
  {
    hide LeavesMerged, Counted, Chosen, Matched, Candidates;
    var t := AssignedEffect(s, call, next);
    if LeavesMerged(s, call) {
      forall u | u in next.threads ensures Counted(next, u) {
        if u != t {
          UntouchedThread(s, call, t, next, u);
        }
      }
    } else {
      LeftThreadIsMiscounted(s, call, t, next);
    }
  }

  /** Over a run: counters are exact and no thread is empty in every state precisely when every call is such. */
  lemma CountersIff(states: seq<State>, calls: seq<Call>)
    requires Run(states, calls) && OwnAccounts(states, calls)
    ensures (forall i :: 0 <= i <= |calls| ==> AllCounted(states[i])) <==>
      (forall i :: 0 <= i < |calls| ==> LeavesMerged(states[i], calls[i]))
  {
    hide Assigned, AllCounted, LeavesMerged;
    if forall i :: 0 <= i <= |calls| ==> AllCounted(states[i]) {
      forall i | 0 <= i < |calls| ensures LeavesMerged(states[i], calls[i]) {
        assert AllCounted(states[i]) && AllCounted(states[i + 1]);
        CountersKeptIff(states[i], calls[i], states[i + 1]);
      }
    }
    if forall i :: 0 <= i < |calls| ==> LeavesMerged(states[i], calls[i]) {
      forall i | 0 <= i <= |calls| ensures AllCounted(states[i]) {
        MergedIsCounted(states, calls, i);
      }
    }
  }

  lemma {:induction false} MergedIsCounted(states: seq<State>, calls: seq<Call>, i: nat)
    requires Run(states, calls) && OwnAccounts(states, calls) && i <= |calls|
    requires forall k :: 0 <= k < |calls| ==> LeavesMerged(states[k], calls[k])
    ensures AllCounted(states[i])
    decreases i
  {
    hide Assigned, AllCounted, LeavesMerged, Fresh;
    if i == 0 {
      FreshIsCounted(states[0]);
    } else {
      MergedIsCounted(states, calls, i - 1);
      CountersKeptIff(states[i - 1], calls[i - 1], states[i]);
    }
  }

  lemma FreshIsCounted(s: State)
    requires Fresh(s)
    ensures AllCounted(s)
  {
  }

  /** `m` is threaded, in the call's account, and holds a reference the call brings. */
  ghost predicate Shares(s: State, call: Call, m: RowId) {
    && m in s.messages && s.messages[m].account == call.account && s.messages[m].thread.Some?
    && m in s.refs && exists x :: x in s.refs[m] && Brings(call, x)
  }

  ghost predicate IsEarliest(s: State, call: Call, m: RowId) {
    Shares(s, call, m) && forall o :: Shares(s, call, o) && s.messages[o].internalDate.Some? ==>
      s.messages[m].internalDate.Some? && s.messages[m].internalDate.value <= s.messages[o].internalDate.value
  }

  /** The message ends in the thread of an earliest message it shares a reference with, or else in a new one. */
  ghost predicate KeepsEarliest(s: State, call: Call, next: State) {
    && call.row in next.messages && next.messages[call.row].thread.Some?
    && if exists m :: Shares(s, call, m)
       then exists m :: IsEarliest(s, call, m) && next.messages[call.row].thread == s.messages[m].thread
       else next.messages[call.row].thread.value !in s.threads
  }

  lemma SharersAreHits(s: State, call: Call, m: RowId)
    ensures Shares(s, call, m) <==> m in HitRows(s, call.account, Candidates(call))
  {
    hide Candidates, Brings;
    forall x ensures x in Candidates(call) <==> Brings(call, x) {
      CandidatesAreBrought(call, x);
    }
    if Shares(s, call, m) {
      var x :| x in s.refs[m] && Brings(call, x);
      assert x in RefsOf(s, m) * Candidates(call);
    }
    if Hits(s, call.account, Candidates(call), m) {
      var x :| x in RefsOf(s, m) * Candidates(call);
      assert x in s.refs[m];
    }
  }

  lemma SharerIsMatched(s: State, call: Call, m: RowId)
    requires Shares(s, call, m)
    ensures Matched(s, call.account, Candidates(call)) != {}
  {
    hide Candidates, Brings;
    SharersAreHits(s, call, m);
    assert s.messages[m].thread.value in Matched(s, call.account, Candidates(call));
  }

  lemma CallKeepsEarliest(s: State, call: Call, next: State)
    requires Consistent(s) && Assigned(s, call, next) && s.messages[call.row].account == call.account
    ensures KeepsEarliest(s, call, next)
  {
    hide Candidates, Assigned, Shares, Hits, Consistent, Counted;
    var t := AssignedEffect(s, call, next);
    forall m ensures Shares(s, call, m) <==> m in HitRows(s, call.account, Candidates(call)) {
      SharersAreHits(s, call, m);
    }
    if m :| Shares(s, call, m) {
      SharerIsMatched(s, call, m);
      var first :| first in HitRows(s, call.account, Candidates(call)) && s.messages[first].thread == Some(t)
        && forall o :: o in HitRows(s, call.account, Candidates(call)) ==>
          NoLater(s.messages[first].internalDate, s.messages[o].internalDate);
      assert IsEarliest(s, call, first);
    } else {
      assert Matched(s, call.account, Candidates(call)) == {};
    }
  }

  lemma AssignKeepsBalance(s: State, call: Call, next: State, ids: map<RowId, string>)
    requires Balanced(s, ids) && Identified(s, call, ids) && Assigned(s, call, next)
    ensures Balanced(next, ids)
    ensures KeepsEarliest(s, call, next)
  {
    hide Counted, Matched, Candidates, KeepsEarliest;
    var t := AssignedEffect(s, call, next);
    if s.messages[call.row].thread.Some? {
      OldThreadIsMatched(s, call, ids);
    }
    CallKeepsEarliest(s, call, next);
    CountersKeptIff(s, call, next);
    OwnRefKept(call, ids);
    forall m | m in next.messages && next.messages[m].thread.Some? ensures m in ids && ids[m] in RefsOf(next, m) {
      if m != call.row {
        assert s.messages[m].thread.Some?;
      }
    }
  }

  lemma OwnRefKept(call: Call, ids: map<RowId, string>)
    requires call.row in ids && Own(call) == Some(ids[call.row])
    ensures ids[call.row] in Candidates(call)
  {
  }

  /**
    * When every message keeps one non-empty Message-ID: counters are exact, no thread is empty or
    * mixes accounts, and a call puts its message in the thread of an earliest one it shares a reference with.
    */
  lemma {:induction false} ThreadsAreBalanced(states: seq<State>, calls: seq<Call>, ids: map<RowId, string>, i: nat)
    requires Run(states, calls) && i <= |calls|
    requires forall k :: 0 <= k < |calls| ==> Identified(states[k], calls[k], ids)
    ensures Balanced(states[i], ids)
    ensures forall t :: t in states[i].threads ==>
      Members(states[i], t) != {} && states[i].threads[t].count == |Members(states[i], t)|
      && forall m :: m in Members(states[i], t) ==> states[i].messages[m].account == states[i].threads[t].account
    ensures forall t :: t in states[i].threads ==> EndsWithLatest(states[i], t)
    ensures i < |calls| ==> KeepsEarliest(states[i], calls[i], states[i + 1])
    decreases i
  {
    hide Assigned, Identified, KeepsEarliest, EndsWithLatest;
    if i > 0 {
      ThreadsAreBalanced(states, calls, ids, i - 1);
      AssignKeepsBalance(states[i - 1], calls[i - 1], states[i], ids);
    }
    forall t | t in states[i].threads ensures EndsWithLatest(states[i], t) {
      CountedEndsWithLatest(states[i], t);
    }
    if i < |calls| {
      AssignKeepsBalance(states[i], calls[i], states[i + 1], ids);
    }
  }

  /** The day of a message: when the server received it, or else when the row was made. */
  predicate IsDated(m: Message, at: nat) {
    m.internalDate == Some(at) || (m.internalDate == None && m.createdAt == at)
  }

  /** The thread's last date is the date of one of its messages, and none is later. */
  ghost predicate EndsWithLatest(s: State, t: ThreadId) {
    && t in s.threads && s.threads[t].lastAt.Some?
    && (exists m :: m in s.messages && s.messages[m].thread == Some(t)
          && IsDated(s.messages[m], s.threads[t].lastAt.value))
    && forall m, at: nat :: m in s.messages && s.messages[m].thread == Some(t) && IsDated(s.messages[m], at) ==>
         at <= s.threads[t].lastAt.value
  }

  lemma CountedEndsWithLatest(s: State, t: ThreadId)
    requires Counted(s, t)
    ensures EndsWithLatest(s, t)
  {
    var last := Max(Dates(s, t));
    var m :| m in Members(s, t) && DateOf(s.messages[m]) == last;
    forall o, at: nat | o in s.messages && s.messages[o].thread == Some(t) && IsDated(s.messages[o], at)
      ensures at <= last
    {
      assert o in Members(s, t) && DateOf(s.messages[o]) == at;
      assert at in Dates(s, t);
    }
  }

  // ---- Subjects ----

  /** The subject a call leaves on the thread it chose: a subject once set stays, and an empty one sets none. */
  lemma SubjectAfter(s: State, call: Call, next: State) returns (t: ThreadId)
    requires Consistent(s) && Assigned(s, call, next) && s.messages[call.row].account == call.account
    ensures next.messages[call.row].thread == Some(t) && t in next.threads
    ensures t !in s.threads ==> next.threads[t].subject == call.subject
    ensures t in s.threads && s.threads[t].subject.Some? ==> next.threads[t].subject == s.threads[t].subject
    ensures t in s.threads && s.threads[t].subject.None? ==>
      next.threads[t].subject == if call.subject == Some("") then None else call.subject
  {
    hide Candidates, Matched, Consistent, Counted;
    var rows;
    t, rows :| Chosen(s, call, t) && RefRows(call, rows) && next == After(s, call, t, rows);
    AfterExact(s, call, t, rows);
    MatchedAccounts(s, call, t);
    MergedSubject(s, call, t);
    assert next.threads[t].subject == Merged(s, call, t).threads[t].subject;
  }

  lemma MergedSubject(s: State, call: Call, t: ThreadId)
    requires if Matched(s, call.account, Candidates(call)) == {} then t !in s.threads else t in s.threads
    ensures var mid := Merged(s, call, t);
      && t in mid.threads
      && (t !in s.threads ==> mid.threads[t].subject == call.subject)
      && (t in s.threads && s.threads[t].subject.Some? ==> mid.threads[t].subject == s.threads[t].subject)
      && (t in s.threads && s.threads[t].subject.None? ==>
            mid.threads[t].subject == if call.subject == Some("") then None else call.subject)
  {
    hide Candidates, Matched;
  }

  /** Thread ids are never used again. */
  lemma NewIdsOnly(s: State, call: Call, next: State)
    requires Assigned(s, call, next)
    ensures s.nextThread <= next.nextThread
    ensures forall u :: u in next.threads && u < s.nextThread ==> u in s.threads
  {
    hide Candidates, Matched;
  }

  /** While a thread lives, its subject never changes once it has one. */
  lemma {:induction false} SubjectStays(states: seq<State>, calls: seq<Call>, i: nat, j: nat, t: ThreadId)
    requires Run(states, calls) && OwnAccounts(states, calls) && i <= j <= |calls|
    requires t in states[i].threads && states[i].threads[t].subject.Some? && t in states[j].threads
    ensures states[j].threads[t].subject == states[i].threads[t].subject
    ensures t < states[i].nextThread <= states[j].nextThread
    decreases j
  {
    hide Assigned, Fresh, Candidates, Matched, Counted;
    RunIsConsistent(states, calls, i);
    if i < j {
      var s, call, next := states[j - 1], calls[j - 1], states[j];
      NextIdsGrow(states, calls, i, j - 1);
      NewIdsOnly(s, call, next);
      SubjectStays(states, calls, i, j - 1, t);
      RunIsConsistent(states, calls, j - 1);
      var chosen := AssignedEffect(s, call, next);
      var named := SubjectAfter(s, call, next);
    }
  }

  lemma {:induction false} NextIdsGrow(states: seq<State>, calls: seq<Call>, i: nat, j: nat)
    requires Run(states, calls) && i <= j <= |calls|
    ensures states[i].nextThread <= states[j].nextThread
    decreases j
  {
    hide Assigned, Fresh;
    if i < j {
      NextIdsGrow(states, calls, i, j - 1);
      NewIdsOnly(states[j - 1], calls[j - 1], states[j]);
    }
  }

  // ---- `assign_thread` ----

  lemma HasEarliest(s: State, rows: set<RowId>)
    requires rows != {} && rows <= s.messages.Keys
    ensures exists m ::
      m in rows && forall o :: o in rows ==> NoLater(s.messages[m].internalDate, s.messages[o].internalDate)
  {
    var key: map<nat, (int, int)> := map m | m in rows ::
      if s.messages[m].internalDate.None? then (1, 0) else (0, s.messages[m].internalDate.value);
    HasLeast(rows, key);
    var m :| m in rows && forall o :: o in rows ==> NotAfter(key[m], key[o]);
    forall o | o in rows ensures NoLater(s.messages[m].internalDate, s.messages[o].internalDate) {
      assert NotAfter(key[m], key[o]);
    }
  }

  class ThreadStore {
    var messages: map<RowId, Message>
    var refs: map<RowId, seq<string>>
    var threads: map<ThreadId, Thread>
    var nextThread: ThreadId

    function Abs(): State
      reads this
    {
      State(messages, refs, threads, nextThread)
    }

    constructor (messages: map<RowId, Message>)
      requires forall m :: m in messages ==> messages[m].thread.None?
      ensures Abs() == State(messages, map[], map[], 0) && Fresh(Abs())
    {
      this.messages, refs, threads, nextThread := messages, map[], map[], 0;
    }

    /** Matching threads, the one of the earliest conversation first. */
    method ThreadsReferencedBy(account: AccountId, candidates: set<string>) returns (matched: seq<ThreadId>)
      ensures NoRepeats(matched) && Elements(matched) == Matched(Abs(), account, candidates)
      ensures matched != [] ==> Earliest(Abs(), account, candidates, matched[0])
    {
      matched := [];
      var left := HitRows(Abs(), account, candidates);
      while left != {}
        invariant left <= HitRows(Abs(), account, candidates) && NoRepeats(matched)
        invariant matched == [] ==> left == HitRows(Abs(), account, candidates)
        invariant matched != [] ==> Earliest(Abs(), account, candidates, matched[0])
        invariant forall m :: m in HitRows(Abs(), account, candidates) ==>
          (m in left <==> messages[m].thread.value !in matched)
        invariant forall t :: t in matched ==> t in Matched(Abs(), account, candidates)
        decreases left
      {
        HasEarliest(Abs(), left);
        var m :| m in left && forall o :: o in left ==> NoLater(messages[m].internalDate, messages[o].internalDate);
        var t := messages[m].thread.value;
        assert messages[m].thread == Some(t);
        matched := matched + [t];
        left := set o | o in left && messages[o].thread.value != t;
      }
    }

    method MergeThreads(canonical: ThreadId, others: set<ThreadId>)
      modifies this
      ensures messages == Moved(old(Abs()), others, canonical) && threads == old(threads) - others
      ensures refs == old(refs) && nextThread == old(nextThread)
    {
      messages := Moved(Abs(), others, canonical);
      threads := threads - others;
    }

    method RefreshThreadCounters(t: ThreadId, fallback: Option<nat>)
      modifies this`threads
      ensures Abs() == Refreshed(old(Abs()), t, fallback)
    {
      var members, dates := Members(Abs(), t), Dates(Abs(), t);
      var last := if dates == {} then fallback else Some(Max(dates));
      if t in threads {
        threads := threads[t := threads[t].(count := |members|, lastAt := last)];
      }
    }

    /** The rows written for a message's references. */
    method RewriteRefs(call: Call) returns (rows: seq<string>)
      ensures RefRows(call, rows)
      ensures forall x :: x in rows <==> Brings(call, x)
    {
      hide Brings, Strip;
      var own, rest := Own(call), Candidates(call);
      rows := [];
      if own.Some? {
        rows, rest := [own.value], rest - {own.value};
      }
      while rest != {}
        invariant NoRepeats(rows) && Elements(rows) + rest == Candidates(call) && Elements(rows) !! rest
        invariant own.Some? ==> rows != [] && rows[0] == own.value
        decreases rest
      {
        var ref :| ref in rest;
        assert forall i :: 0 <= i < |rows| ==> rows[i] in Elements(rows);
        assert Elements(rows + [ref]) == Elements(rows) + {ref};
        rows, rest := rows + [ref], rest - {ref};
      }
      forall x ensures x in rows <==> Brings(call, x) {
        CandidatesAreBrought(call, x);
        assert x in rows <==> x in Elements(rows);
      }
    }

    /** The surviving thread of the matching ones, or a new thread. */
    method FindOrCreate(call: Call) returns (t: ThreadId)
      modifies this
      ensures Chosen(old(Abs()), call, t) && Abs() == Merged(old(Abs()), call, t)
    {
      ghost var s := Abs();
      var matched := ThreadsReferencedBy(call.account, Candidates(call));
      if matched != [] {
        t := matched[0];
        assert t in Elements(matched);
        MergeThreads(t, Elements(matched) - {t});
        if t in threads {
          threads := threads[t := Named(threads[t], call.subject)];
        }
      } else {
        t := nextThread;
        threads := threads[t := Thread(call.account, call.subject, call.date, 0)];
        nextThread := t + 1;
      }
    }

    method AssignThread(call: Call) returns (t: ThreadId)
      requires Consistent(Abs()) && call.row in messages && messages[call.row].account == call.account
      modifies this
      ensures Assigned(old(Abs()), call, Abs()) && Consistent(Abs())
      ensures call.row in messages && messages[call.row].thread == Some(t)
      ensures KeepsEarliest(old(Abs()), call, Abs())
      ensures call.row in refs && forall x :: x in refs[call.row] <==> Brings(call, x)
    {
      hide KeepsEarliest, Brings, Merged, Chosen, Candidates, Matched, RefRows, Counted;
      ghost var s := Abs();
      t := FindOrCreate(call);
      MergedExact(s, call, t);
      messages := messages[call.row := messages[call.row].(thread := Some(t))];
      var rows := RewriteRefs(call);
      refs := refs[call.row := rows];
      RefreshThreadCounters(t, call.date);
      AfterExact(s, call, t, rows);
      assert Abs() == After(s, call, t, rows);
      CallKeepsEarliest(s, call, Abs());
    }
  }
}
