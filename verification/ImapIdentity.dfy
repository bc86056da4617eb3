/** Over runs of an IMAP account: which mails share a message row. */
module ImapIdentity {
  import opened Util
  import opened Store
  import opened ImapServer
  import opened ImapSync
  import opened ImapRuns
  import opened Identity

  /** The text of each mail: content never changes under one UID and UIDVALIDITY. */
  type Texts = (FolderId, nat, nat) -> string

  /** Fetches read that text, and neither it nor a handle is a Message-ID or the other. */
  ghost predicate Distinguishes(text: Texts, srvs: Servers, actions: seq<Action>) {
    && (forall k :: 0 <= k < |actions| && actions[k].Backfill? ==> ReadsText(text, srvs, actions[k]))
    && (forall f: FolderId, t: nat, u: nat :: u in srvs(f)(t).mails ==> IdIsApart(text, srvs(f)(t).mails[u].messageId))
    && (forall f: FolderId, v: nat, u: nat, g: FolderId, w: nat :: text(f, v, u) != Handle(g, w))
  }

  ghost predicate ReadsText(text: Texts, srvs: Servers, action: Action)
    requires action.Backfill?
  {
    action.raw == text(action.folder, srvs(action.folder)(action.at).uidvalidity, action.uid)
  }

  ghost predicate IdIsApart(text: Texts, x: Option<string>) {
    x.Some? && x.value != "" ==>
      && (forall g: FolderId, w: nat :: x.value != Handle(g, w))
      && (forall g: FolderId, v: nat, w: nat :: x.value != text(g, v, w))
  }

  /** A body of `u` was fetched by one of the first `n` actions, under the UIDVALIDITY. */
  ghost predicate Fetched(srvs: Servers, actions: seq<Action>, n: nat, f: FolderId, uidvalidity: nat, u: nat)
    requires n <= |actions|
  {
    exists k :: 0 <= k < n && actions[k].Backfill? && actions[k].folder == f && actions[k].uid == u
      && srvs(f)(actions[k].at).uidvalidity == uidvalidity
  }

  ghost function MarkOf(
    text: Texts, srvs: Servers, actions: seq<Action>, n: nat, f: FolderId, t: nat, u: nat): Mark
    requires n <= |actions| && u in srvs(f)(t).mails
  {
    Mark(srvs(f)(t).mails[u].messageId, Handle(f, u), text(f, srvs(f)(t).uidvalidity, u),
         Fetched(srvs, actions, n, f, srvs(f)(t).uidvalidity, u))
  }

  ghost predicate MarksSound(text: Texts, srvs: Servers, actions: seq<Action>, n: nat, a: Account)
    requires n <= |actions|
  {
    forall f: FolderId, t: nat, u: nat :: Current(a, srvs, f, t, u) ==>
      Marked(a.db, UidSlot(f, u), MarkOf(text, srvs, actions, n, f, t, u))
  }

  lemma NoColon(n: nat)
    ensures ':' !in Decimal(n)
  {
    assert ':' !in DIGITS;
  }

  lemma HandlesDiffer(f: FolderId, u: nat, g: FolderId, w: nat)
    requires Handle(f, u) == Handle(g, w)
    ensures f == g && u == w
  {
    NoColon(u);
    NoColon(w);
    var s := Handle(f, u);
    assert s[|f|] == ':' && s[|g|] == ':';
    assert forall i :: |f| < i < |s| ==> s[i] == Decimal(u)[i - |f| - 1];
    assert forall i :: |g| < i < |s| ==> s[i] == Decimal(w)[i - |g| - 1];
    assert f == s[..|f|] && g == s[..|g|];
    assert Decimal(u) == s[|f| + 1..] && Decimal(w) == s[|g| + 1..];
    DecimalInjective(u, w);
  }

  lemma MarksApart(
    text: Texts, srvs: Servers, actions: seq<Action>, n: nat,
    f: FolderId, t: nat, u: nat, g: FolderId, t': nat, w: nat)
    requires n <= |actions| && Distinguishes(text, srvs, actions) && (f != g || u != w)
    requires u in srvs(f)(t).mails && w in srvs(g)(t').mails
    ensures Apart(MarkOf(text, srvs, actions, n, f, t, u), MarkOf(text, srvs, actions, n, g, t', w))
  {
    hide Handle, Fetched;
    if Handle(f, u) == Handle(g, w) {
      HandlesDiffer(f, u, g, w);
    }
    assert IdIsApart(text, srvs(f)(t).mails[u].messageId) && IdIsApart(text, srvs(g)(t').mails[w].messageId);
  }

  /** A mark depends on the mail and on what was fetched, not on when one looks. */
  lemma SameMark(
    text: Texts, srvs: Servers, actions: seq<Action>, n: nat, f: FolderId, t: nat, t': nat, u: nat)
    requires n <= |actions| && Histories(srvs) && srvs(f)(t).uidvalidity == srvs(f)(t').uidvalidity
    requires u in srvs(f)(t).mails && u in srvs(f)(t').mails
    ensures MarkOf(text, srvs, actions, n, f, t, u) == MarkOf(text, srvs, actions, n, f, t', u)
  {
    SameMail(srvs(f), t, t', u);
  }

  lemma MarkLater(
    text: Texts, srvs: Servers, actions: seq<Action>, n: nat, f: FolderId, t: nat, u: nat, db: Db)
    requires n < |actions| && u in srvs(f)(t).mails
    requires Marked(db, UidSlot(f, u), MarkOf(text, srvs, actions, n, f, t, u))
    ensures Marked(db, UidSlot(f, u), MarkOf(text, srvs, actions, n + 1, f, t, u))
  {
    var m, k := MarkOf(text, srvs, actions, n, f, t, u), MarkOf(text, srvs, actions, n + 1, f, t, u);
    MarkedLater(db, UidSlot(f, u), m, k);
  }

  lemma HashOfIsMarked(db: Db, f: FolderId, u: nat, m: Mark)
    requires RowHash(db, UidSlot(f, u)) == Some(ImapSync.HashOf(f, u, m.id)) && m.handle == Handle(f, u)
    ensures Marked(db, UidSlot(f, u), m)
  {
  }

  lemma BackfillKeepsMarks(
    cfg: Config, srvs: Servers, actions: seq<Action>, n: nat, a: Account, now: nat, b: Account, later: nat, text: Texts,
    g: FolderId, t: nat, u: nat)
    requires cfg.headerChunk > 0 && Histories(srvs) && Tidy(a) && n < |actions| && actions[n].Backfill?
    requires Step(cfg, srvs, a, now, actions[n], b, later) && FetchesCurrent(srvs, a, actions[n])
    requires MarksSound(text, srvs, actions, n, a) && Distinguishes(text, srvs, actions)
    requires Current(b, srvs, g, t, u)
    ensures Marked(b.db, UidSlot(g, u), MarkOf(text, srvs, actions, n + 1, g, t, u))
  {
    hide Marked, Histories, Stored, Handle, Fetched, Distinguishes, MarkOf;
    var f, uid, at := actions[n].folder, actions[n].uid, actions[n].at;
    var s, o := UidSlot(f, uid), UidSlot(g, u);
    var x := srvs(f)(at).mails[uid].messageId;
    StoredKeeps(a.db, s, x, actions[n].raw, actions[n].state, actions[n].body);
    assert Current(a, srvs, f, at, uid) && Current(a, srvs, g, t, u);
    var m, k := MarkOf(text, srvs, actions, n, f, at, uid), MarkOf(text, srvs, actions, n, g, t, u);
    FetchedMark(text, srvs, actions, n, f, at, uid);
    if o == s {
      SameMark(text, srvs, actions, n, f, at, t, uid);
      SameMark(text, srvs, actions, n + 1, f, at, t, uid);
      StoredMarks(a.db, s, m, actions[n].state, actions[n].body, s, m);
    } else {
      MarksApart(text, srvs, actions, n, f, at, uid, g, t, u);
      StoredMarks(a.db, s, m, actions[n].state, actions[n].body, o, k);
      MarkLater(text, srvs, actions, n, g, t, u, b.db);
    }
  }

  lemma FetchedMark(text: Texts, srvs: Servers, actions: seq<Action>, n: nat, f: FolderId, at: nat, u: nat)
    requires n < |actions| && actions[n].Backfill? && Distinguishes(text, srvs, actions)
    requires f == actions[n].folder && u == actions[n].uid && at == actions[n].at && u in srvs(f)(at).mails
    ensures var m := MarkOf(text, srvs, actions, n, f, at, u);
      && m.id == srvs(f)(at).mails[u].messageId && m.text == actions[n].raw
      && MarkOf(text, srvs, actions, n + 1, f, at, u) == m.(fetched := true)
  {
    assert ReadsText(text, srvs, actions[n]);
  }

  lemma StepKeepsMarks(
    cfg: Config, srvs: Servers, actions: seq<Action>, n: nat, a: Account, now: nat, b: Account, later: nat, text: Texts,
    g: FolderId, t: nat, u: nat)
    requires cfg.headerChunk > 0 && Histories(srvs) && Tidy(a) && n < |actions|
    requires Step(cfg, srvs, a, now, actions[n], b, later) && FetchesCurrent(srvs, a, actions[n])
    requires MarksSound(text, srvs, actions, n, a) && Distinguishes(text, srvs, actions)
    requires Current(b, srvs, g, t, u)
    ensures Marked(b.db, UidSlot(g, u), MarkOf(text, srvs, actions, n + 1, g, t, u))
  {
    hide Marked, Histories, PlanOf, Synced, Exec, Stored, Distinguishes, Valid, Fetched, Handle;
    var action, s, m := actions[n], UidSlot(g, u), MarkOf(text, srvs, actions, n + 1, g, t, u);
    if action.Backfill? {
      BackfillKeepsMarks(cfg, srvs, actions, n, a, now, b, later, text, g, t, u);
    } else if action.Forget? {
      ForgetKeeps(a.db, action.folder, action.uids, s);
      UntouchedHash(a.db, b.db, s);
      assert Current(a, srvs, g, t, u);
      MarkLater(text, srvs, actions, n, g, t, u, a.db);
      SameHashMarked(a.db, b.db, s, m);
    } else {
      if Succeeds(cfg, At(a, action.folder), action.req, srvs(action.folder), action.failAt, action.at) {
        CycleRowHash(cfg, srvs, a, now, action, b, later, g, t, u);
      }
      if RowHash(b.db, s) == Some(ImapSync.HashOf(g, u, srvs(g)(t).mails[u].messageId)) {
        HashOfIsMarked(b.db, g, u, m);
      } else {
        assert Current(a, srvs, g, t, u);
        MarkLater(text, srvs, actions, n, g, t, u, a.db);
        SameHashMarked(a.db, b.db, s, m);
      }
    }
  }

  lemma {:induction false} RunKeepsMarks(
    cfg: Config, srvs: Servers, states: seq<Account>, nows: seq<nat>, actions: seq<Action>, text: Texts, i: nat)
    requires Trace(cfg, srvs, states, nows, actions) && i <= |actions| && Distinguishes(text, srvs, actions)
    requires forall k :: 0 <= k < |actions| ==> FetchesCurrent(srvs, states[k], actions[k])
    ensures MarksSound(text, srvs, actions, i, states[i])
    decreases i
  {
    hide Tidy, Step, Marked, FetchesCurrent, CursorsSound, Distinguishes, MarkOf;
    if i > 0 {
      RunKeepsMarks(cfg, srvs, states, nows, actions, text, i - 1);
      RunKeepsCursorSound(cfg, srvs, states, nows, actions, i - 1);
      var a, b := states[i - 1], states[i];
      forall f: FolderId, t: nat, u: nat | Current(b, srvs, f, t, u)
        ensures Marked(b.db, UidSlot(f, u), MarkOf(text, srvs, actions, i, f, t, u))
      {
        StepKeepsMarks(cfg, srvs, actions, i - 1, a, nows[i - 1], b, nows[i], text, f, t, u);
      }
    }
  }

  /**
    * Over any run: two placements of mails under the stored UIDVALIDITYs share a row only if they are
    * one placement, or the mails have one non-empty Message-ID, or neither has one and bodies with one
    * text were fetched for both. With one non-empty Message-ID they do share it.
    */
  lemma RowsAreShared(
    cfg: Config, srvs: Servers, states: seq<Account>, nows: seq<nat>, actions: seq<Action>, text: Texts,
    i: nat, f: FolderId, t: nat, u: nat, g: FolderId, t': nat, w: nat)
    requires Trace(cfg, srvs, states, nows, actions) && i <= |actions| && Distinguishes(text, srvs, actions)
    requires forall k :: 0 <= k < |actions| ==> FetchesCurrent(srvs, states[k], actions[k])
    requires Current(states[i], srvs, f, t, u) && Current(states[i], srvs, g, t', w)
    ensures
      var x, y := srvs(f)(t).mails[u].messageId, srvs(g)(t').mails[w].messageId;
      var one, other := states[i].db.placements[UidSlot(f, u)], states[i].db.placements[UidSlot(g, w)];
      && (one.message == other.message ==>
        || (f == g && u == w)
        || (x.Some? && x.value != "" && x == y)
        || (exists k, n :: FetchedAlike(actions, i, k, n, f, u, g, w)))
      && (x.Some? && x.value != "" && x == y ==> one.message == other.message)
  {
    hide Trace, Distinguishes, FetchesCurrent, Marked, Handle, CursorsSound;
    RunKeepsMarks(cfg, srvs, states, nows, actions, text, i);
    RunIsTidy(cfg, srvs, states, nows, actions, i);
    var m, n := MarkOf(text, srvs, actions, i, f, t, u), MarkOf(text, srvs, actions, i, g, t', w);
    var db, s, o := states[i].db, UidSlot(f, u), UidSlot(g, w);
    if HasId(m) && m.id == n.id {
      SameIdShares(db, s, m, o, n);
    }
    if (f != g || u != w) && db.placements[s].message == db.placements[o].message {
      MarksApart(text, srvs, actions, i, f, t, u, g, t', w);
      SharersMatch(db, s, m, o, n);
      if !HasId(m) {
        BothFetched(text, srvs, actions, i, f, t, u, g, t', w);
      }
    }
  }

  lemma RunIsTidy(
    cfg: Config, srvs: Servers, states: seq<Account>, nows: seq<nat>, actions: seq<Action>, i: nat)
    requires Trace(cfg, srvs, states, nows, actions) && i <= |actions|
    ensures i < |states| && Valid(states[i].db)
  {
    hide Step, CursorsSound, Valid;
    RunKeepsCursorSound(cfg, srvs, states, nows, actions, i);
  }

  /** Fetches `k` and `n`, both before `i`, got one text for the two mails. */
  ghost predicate FetchedAlike(
    actions: seq<Action>, i: nat, k: int, n: int, f: FolderId, u: nat, g: FolderId, w: nat)
  {
    && 0 <= k < i <= |actions| && 0 <= n < i && actions[k].Backfill? && actions[n].Backfill?
    && actions[k].folder == f && actions[k].uid == u && actions[n].folder == g && actions[n].uid == w
    && actions[k].raw == actions[n].raw
  }

  lemma BothFetched(
    text: Texts, srvs: Servers, actions: seq<Action>, i: nat,
    f: FolderId, t: nat, u: nat, g: FolderId, t': nat, w: nat)
    requires i <= |actions| && Distinguishes(text, srvs, actions)
    requires u in srvs(f)(t).mails && w in srvs(g)(t').mails
    requires var m, n := MarkOf(text, srvs, actions, i, f, t, u), MarkOf(text, srvs, actions, i, g, t', w);
      m.fetched && n.fetched && m.text == n.text
    ensures exists k, n :: FetchedAlike(actions, i, k, n, f, u, g, w)
  {
    var k :| 0 <= k < i && actions[k].Backfill? && actions[k].folder == f && actions[k].uid == u
      && srvs(f)(actions[k].at).uidvalidity == srvs(f)(t).uidvalidity;
    var n :| 0 <= n < i && actions[n].Backfill? && actions[n].folder == g && actions[n].uid == w
      && srvs(g)(actions[n].at).uidvalidity == srvs(g)(t').uidvalidity;
    assert ReadsText(text, srvs, actions[k]) && ReadsText(text, srvs, actions[n]);
    assert FetchedAlike(actions, i, k, n, f, u, g, w);
  }
}
