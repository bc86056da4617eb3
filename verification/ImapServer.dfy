/**
  * A mailbox as an IMAP client can observe it, and the command replies of `providers/imap_ops.py`.
  * The rules are those of sections 2.3.1.1 and 6.4.8 of RFC 3501 and sections 3.1.2.1 and 3.1.4.1
  * of RFC 7162. A server is a function from time to mailbox; each command reads it at one instant.
  */
module ImapServer {
  import opened Util

  datatype Mail = Mail(flags: set<string>, modseq: nat, messageId: Option<string>)

  datatype Mailbox = Mailbox(uidvalidity: nat, uidnext: nat, modseq: nat, mails: map<nat, Mail>)

  ghost predicate WellFormed(m: Mailbox) {
    forall u :: u in m.mails ==> 0 < u < m.uidnext && m.mails[u].modseq <= m.modseq
  }

  // ---- How a mailbox changes ----

  datatype Event =
    | Append(gap: nat, flags: set<string>, messageId: Option<string>)
    | Expunge(uid: nat)
    | StoreFlags(uid: nat, flags: set<string>)
    | Touch

  function Apply(m: Mailbox, e: Event): Mailbox {
    match e
    case Append(gap, flags, messageId) =>
      var uid := m.uidnext + gap + (if m.uidnext == 0 then 1 else 0);
      m.(uidnext := uid + 1, modseq := m.modseq + 1, mails := m.mails[uid := Mail(flags, m.modseq + 1, messageId)])
    case Expunge(uid) => m.(mails := m.mails - {uid})
    case StoreFlags(uid, flags) =>
      if uid in m.mails then
        m.(modseq := m.modseq + 1, mails := m.mails[uid := m.mails[uid].(flags := flags, modseq := m.modseq + 1)])
      else m
    case Touch => m.(modseq := m.modseq + 1)
  }

  function ApplyAll(m: Mailbox, events: seq<Event>): Mailbox
    decreases |events|
  {
    if events == [] then m else ApplyAll(Apply(m, events[0]), events[1..])
  }

  /** What an observer may conclude about two moments under one UIDVALIDITY. */
  ghost predicate Evolves(a: Mailbox, b: Mailbox) {
    && a.uidvalidity == b.uidvalidity && a.uidnext <= b.uidnext && a.modseq <= b.modseq
    && forall u :: u in b.mails ==>
         if u < a.uidnext
         then u in a.mails && b.mails[u].messageId == a.mails[u].messageId
              && (b.mails[u] == a.mails[u] || b.mails[u].modseq > a.modseq)
         else b.mails[u].modseq > a.modseq
  }

  lemma {:induction false} EventsEvolve(m: Mailbox, events: seq<Event>)
    requires WellFormed(m)
    ensures WellFormed(ApplyAll(m, events)) && Evolves(m, ApplyAll(m, events))
    decreases |events|
  {
    if events != [] {
      var next := Apply(m, events[0]);
      EventsEvolve(next, events[1..]);
      EvolvesTransitive(m, next, ApplyAll(m, events));
    }
  }

  lemma EvolvesTransitive(a: Mailbox, b: Mailbox, c: Mailbox)
    requires WellFormed(a) && Evolves(a, b) && Evolves(b, c)
    ensures Evolves(a, c)
  {
  }

  /** Between two ticks: any events, or the mailbox is recreated under a greater UIDVALIDITY. */
  ghost predicate Tick(a: Mailbox, b: Mailbox) {
    (exists events :: b == ApplyAll(a, events)) || (WellFormed(b) && a.uidvalidity < b.uidvalidity)
  }

  ghost predicate History(srv: nat -> Mailbox) {
    WellFormed(srv(0)) && forall t: nat :: Tick(srv(t), srv(t + 1))
  }

  ghost predicate Later(a: Mailbox, b: Mailbox) {
    Evolves(a, b) || a.uidvalidity < b.uidvalidity
  }

  lemma {:induction false} HistoryLater(srv: nat -> Mailbox, i: nat, j: nat)
    requires History(srv) && i <= j
    ensures WellFormed(srv(i)) && WellFormed(srv(j)) && Later(srv(i), srv(j))
    decreases j
  {
    if j > 0 {
      HistoryLater(srv, if i < j then i else j - 1, j - 1);
      var a, b := srv(j - 1), srv(j);
      assert Tick(srv(j - 1), srv(j - 1 + 1));
      if events :| b == ApplyAll(a, events) {
        EventsEvolve(a, events);
        if i < j && Evolves(srv(i), a) {
          EvolvesTransitive(srv(i), a, b);
        }
      }
    }
  }

  /** Under one UIDVALIDITY a UID stands for one message. */
  lemma SameMail(srv: nat -> Mailbox, i: nat, j: nat, u: nat)
    requires History(srv) && srv(i).uidvalidity == srv(j).uidvalidity
    requires u in srv(i).mails && u in srv(j).mails
    ensures srv(i).mails[u].messageId == srv(j).mails[u].messageId
  {
    if i <= j {
      HistoryLater(srv, i, j);
    } else {
      HistoryLater(srv, j, i);
    }
  }

  /** The mailbox is not recreated while it is selected. */
  ghost predicate Steady(srv: nat -> Mailbox, from: nat, to: nat) {
    forall i: nat :: from <= i <= to ==> srv(i).uidvalidity == srv(from).uidvalidity
  }

  /** One selected session: UIDVALIDITY does not change while a mailbox is open. */
  ghost predicate Session(srv: nat -> Mailbox, from: nat, to: nat) {
    && (forall i: nat {:trigger WellFormed(srv(i))} :: from <= i <= to ==> WellFormed(srv(i)))
    && (forall i: nat, j: nat {:trigger Evolves(srv(i), srv(j))} :: from <= i <= j <= to ==> Evolves(srv(i), srv(j)))
  }

  lemma SessionOfHistory(srv: nat -> Mailbox, from: nat, to: nat)
    requires History(srv) && from <= to && Steady(srv, from, to)
    ensures Session(srv, from, to)
  {
    forall i: nat, j: nat | from <= i <= j <= to
      ensures WellFormed(srv(i)) && Evolves(srv(i), srv(j))
    {
      HistoryLater(srv, i, j);
    }
  }

  /** A mail that ends a session with a modseq no newer than its start never changed in between. */
  lemma Stable(srv: nat -> Mailbox, from: nat, mid: nat, to: nat, u: nat)
    requires Session(srv, from, to) && from <= mid <= to
    requires u in srv(to).mails && srv(to).mails[u].modseq <= srv(from).modseq
    ensures u in srv(from).mails && u in srv(mid).mails
    ensures srv(from).mails[u] == srv(mid).mails[u] == srv(to).mails[u]
  {
    assert Evolves(srv(from), srv(to)) && Evolves(srv(from), srv(mid)) && Evolves(srv(mid), srv(to));
    assert WellFormed(srv(mid));
  }

  /** A mail below the first UIDNEXT of a session that is there at the end was there all along. */
  lemma Persists(srv: nat -> Mailbox, from: nat, mid: nat, to: nat, u: nat)
    requires Session(srv, from, to) && from <= mid <= to
    requires u in srv(to).mails && u < srv(mid).uidnext
    ensures u in srv(mid).mails && srv(mid).mails[u].messageId == srv(to).mails[u].messageId
  {
    assert Evolves(srv(mid), srv(to));
  }

  // ---- Replies ----

  datatype SelectInfo = SelectInfo(uidvalidity: Option<nat>, uidnext: Option<nat>, modseq: Option<nat>)

  function SearchAllUids(m: Mailbox): (uids: seq<nat>)
    ensures Ascending(uids) && forall u :: u in uids <==> u in m.mails
  {
    Sorted(m.mails.Keys)
  }

  /** The reply to `UID first:*`: the range always contains the last message. */
  function RangeReply(m: Mailbox, first: nat): set<nat> {
    set u | u in m.mails && (first <= u || u == Max(m.mails.Keys))
  }

  function AtLeast(uids: seq<nat>, first: nat): seq<nat> {
    if uids == [] then []
    else (if first <= uids[0] then [uids[0]] else []) + AtLeast(uids[1..], first)
  }

  lemma {:induction false} AtLeastExact(uids: seq<nat>, first: nat)
    requires Ascending(uids)
    ensures Ascending(AtLeast(uids, first))
    ensures forall u :: u in AtLeast(uids, first) <==> u in uids && first <= u
  {
    if uids != [] {
      var tail := AtLeast(uids[1..], first);
      AtLeastExact(uids[1..], first);
      forall i | 0 <= i < |tail| ensures uids[0] < tail[i] {
        assert tail[i] in uids[1..];
      }
    }
  }

  /** `search_uids_since`: exactly the messages numbered `first` or later, despite the odd last one. */
  function SearchUidsSince(m: Mailbox, first: nat): (uids: seq<nat>)
    ensures Ascending(uids)
    ensures forall u :: u in uids <==> u in m.mails && first <= u
  {
    AtLeastExact(Sorted(RangeReply(m, first)), first);
    AtLeast(Sorted(RangeReply(m, first)), first)
  }

  const UID_CHUNK: nat := 5000

  /** A FETCH answers with the messages of the list that are present and newer than CHANGEDSINCE. */
  predicate Answers(m: Mailbox, u: nat, since: Option<nat>) {
    u in m.mails && (since.Some? ==> since.value < m.mails[u].modseq)
  }

  function FlagReply(m: Mailbox, uids: seq<nat>, since: Option<nat>): map<nat, set<string>> {
    map u | u in uids && Answers(m, u, since) :: m.mails[u].flags
  }

  function FirstChunk<T>(xs: seq<T>, step: nat): seq<T> {
    if |xs| <= step then xs else xs[..step]
  }

  function LaterChunks<T>(xs: seq<T>, step: nat): (rest: seq<T>)
    ensures xs == FirstChunk(xs, step) + rest
  {
    if |xs| <= step then [] else xs[step..]
  }

  function Commands<T>(xs: seq<T>, step: nat): (k: nat)
    requires step > 0
    ensures k == if xs == [] then 0 else 1 + ChunkCount(|LaterChunks(xs, step)|, step)
  {
    ChunkCount(|xs|, step)
  }

  /** `fetch_all_flags` and `fetch_flags_changed_since`: one FETCH per chunk, merged in order. */
  function FlagsOf(srv: nat -> Mailbox, t: nat, uids: seq<nat>, since: Option<nat>): map<nat, set<string>>
    decreases |uids|
  {
    if uids == [] then map[]
    else
      FlagReply(srv(t), FirstChunk(uids, UID_CHUNK), since)
      + FlagsOf(srv, t + 1, LaterChunks(uids, UID_CHUNK), since)
  }

  /** `u` was answered with these flags at some instant of `[from, to)`. */
  ghost predicate Carried(srv: nat -> Mailbox, from: nat, to: nat, u: nat, flags: set<string>, since: Option<nat>) {
    exists i: nat :: from <= i < to && Answers(srv(i), u, since) && srv(i).mails[u].flags == flags
  }

  ghost predicate AlwaysAnswers(srv: nat -> Mailbox, from: nat, to: nat, u: nat, since: Option<nat>) {
    forall i: nat :: from <= i < to ==> Answers(srv(i), u, since)
  }

  /** The map says what was answered in `[from, to)` and leaves out none of `uids` that answered throughout. */
  ghost predicate Reports(
    srv: nat -> Mailbox, from: nat, to: nat, uids: seq<nat>, since: Option<nat>, out: map<nat, set<string>>)
  {
    && (forall u :: u in out ==> u in uids && Carried(srv, from, to, u, out[u], since))
    && (forall u :: u in uids && AlwaysAnswers(srv, from, to, u, since) ==> u in out)
  }

  lemma ReportsJoin(
    srv: nat -> Mailbox, t: nat, to: nat, first: seq<nat>, rest: seq<nat>, since: Option<nat>,
    tail: map<nat, set<string>>)
    requires t < to && Reports(srv, t + 1, to, rest, since, tail)
    ensures Reports(srv, t, to, first + rest, since, FlagReply(srv(t), first, since) + tail)
  {
    var head := FlagReply(srv(t), first, since);
    var out := head + tail;
    forall u | u in out ensures u in first + rest && Carried(srv, t, to, u, out[u], since) {
      if u in tail {
        assert Carried(srv, t + 1, to, u, tail[u], since);
      } else {
        assert u in head && Answers(srv(t), u, since);
      }
    }
    forall u | u in first + rest && AlwaysAnswers(srv, t, to, u, since) ensures u in out {
      if u in first {
        assert Answers(srv(t), u, since) && u in head;
      } else {
        assert AlwaysAnswers(srv, t + 1, to, u, since);
      }
    }
  }

  lemma {:induction false} FlagsOfExact(srv: nat -> Mailbox, t: nat, uids: seq<nat>, since: Option<nat>)
    ensures Reports(srv, t, t + Commands(uids, UID_CHUNK), uids, since, FlagsOf(srv, t, uids, since))
    decreases |uids|
  {
    if uids != [] {
      var first, rest := FirstChunk(uids, UID_CHUNK), LaterChunks(uids, UID_CHUNK);
      FlagsOfExact(srv, t + 1, rest, since);
      assert Commands(uids, UID_CHUNK) == 1 + Commands(rest, UID_CHUNK);
      hide Reports, Commands;
      ReportsJoin(srv, t, t + Commands(uids, UID_CHUNK), first, rest, since, FlagsOf(srv, t + 1, rest, since));
    }
  }

  /** No command in `[from, to)` is the one that raises. */
  predicate Clean(failAt: nat, from: nat, to: nat) {
    !(from <= failAt < to)
  }

  lemma FlagsOfUnfolds(srv: nat -> Mailbox, t: nat, uids: seq<nat>, since: Option<nat>, out: map<nat, set<string>>)
    requires uids != []
    ensures out + FlagsOf(srv, t, uids, since)
      == (out + FlagReply(srv(t), FirstChunk(uids, UID_CHUNK), since))
        + FlagsOf(srv, t + 1, LaterChunks(uids, UID_CHUNK), since)
  {
  }

  lemma FlagsOfEnds(srv: nat -> Mailbox, t: nat, uids: seq<nat>, since: Option<nat>, out: map<nat, set<string>>)
    ensures map[] + FlagsOf(srv, t, uids, since) == FlagsOf(srv, t, uids, since)
    ensures uids == [] ==> out + FlagsOf(srv, t, uids, since) == out
  {
  }

  /** The chunk loop of the flag fetchers; the command at instant `failAt`, if any, raises. */
  method FetchFlags(srv: nat -> Mailbox, failAt: nat, t: nat, uids: seq<nat>, since: Option<nat>)
      returns (ok: bool, out: map<nat, set<string>>)
    ensures ok <==> Clean(failAt, t, t + Commands(uids, UID_CHUNK))
    ensures ok ==> out == FlagsOf(srv, t, uids, since)
  {
    hide FlagsOf, FlagReply, Answers;
    out := map[];
    var now, rest := t, uids;
    FlagsOfEnds(srv, t, uids, since, out);
    while rest != [] && now != failAt
      invariant t <= now && now + Commands(rest, UID_CHUNK) == t + Commands(uids, UID_CHUNK) && !(t <= failAt < now)
      invariant FlagsOf(srv, t, uids, since) == out + FlagsOf(srv, now, rest, since)
      decreases |rest|
    {
      FlagsOfUnfolds(srv, now, rest, since, out);
      out := out + FlagReply(srv(now), FirstChunk(rest, UID_CHUNK), since);
      rest, now := LaterChunks(rest, UID_CHUNK), now + 1;
    }
    ok := rest == [];
    FlagsOfEnds(srv, now, rest, since, out);
  }
}
