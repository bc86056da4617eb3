/** The janitor of rejected credentials: quarantine, recovery and retirement of accounts. */
module Janitor {
  import opened Util

  /** `Deleted` stands for a row that is gone. */
  datatype Status = Active | AuthError | Error | Disabled | Deleted

  datatype Account = Account(status: Status, invalidSince: Option<int>)

  datatype Verdict = Valid | Invalid | Unknown

  /** What writes an account's status: the sync path, the owner's settings form, and the janitor. */
  datatype Action =
    | Mark(status: Status)
    | Patch(wanted: Option<Status>, password: bool)
    | Sweep(now: int, grace: int, deletes: bool, verdict: Verdict)

  const CREATED := Account(Active, None)

  predicate Enabled(a: Action) {
    match a
    case Mark(status) => status != Deleted
    case Patch(wanted, _) => wanted in {None, Some(Active), Some(Disabled)}
    case Sweep(_, _, _, _) => true
  }

  function Set(acc: Account, status: Status): Account {
    Account(status, if status == Active then None else acc.invalidSince)
  }

  function Swept(acc: Account, now: int, grace: int, deletes: bool, verdict: Verdict): Account {
    match verdict
    case Unknown => acc
    case Valid => Set(acc, Active)
    case Invalid =>
      if acc.invalidSince.None? then acc.(invalidSince := Some(now))
      else if now - acc.invalidSince.value < grace then acc
      else Set(acc, if deletes then Deleted else Disabled)
  }

  function Next(acc: Account, a: Action): Account {
    if acc.status == Deleted then acc
    else match a
      case Mark(status) => Set(acc, status)
      case Patch(wanted, password) =>
        var chosen := if wanted.Some? then Set(acc, wanted.value) else acc;
        if password then Set(chosen, Active) else chosen
      case Sweep(now, grace, deletes, verdict) =>
        if acc.status == AuthError then Swept(acc, now, grace, deletes, verdict) else acc
  }

  // ---- Histories ----

  /** One account from its creation on; sweeps read a clock that never runs backwards. */
  ghost predicate History(states: seq<Account>, acts: seq<Action>) {
    && |states| == |acts| + 1
    && states[0] == CREATED
    && (forall i :: 0 <= i < |acts| ==> Enabled(acts[i]) && states[i + 1] == Next(states[i], acts[i]))
    && (forall i, j :: 0 <= i < j < |acts| && acts[i].Sweep? && acts[j].Sweep? ==> acts[i].now <= acts[j].now)
  }

  /** The provider rejected the credentials of a quarantined account at time `t`. */
  ghost predicate RejectedAt(states: seq<Account>, acts: seq<Action>, i: nat, t: int) {
    && i < |acts| < |states| && states[i].status == AuthError
    && acts[i].Sweep? && acts[i].verdict == Invalid && acts[i].now == t
  }

  ghost predicate NeverActiveBetween(states: seq<Account>, i: nat, j: nat) {
    forall m: nat :: i < m <= j && m < |states| ==> states[m].status != Active
  }

  /** A rejection at `t` before step `j`, and no activation from then to `j`. */
  ghost predicate RejectedSince(states: seq<Account>, acts: seq<Action>, j: nat, t: int) {
    exists i: nat :: i < j && RejectedAt(states, acts, i, t) && NeverActiveBetween(states, i, j)
  }

  /** The stamp on the account is the earliest rejection since it was last active, and is absent without one. */
  ghost predicate Justified(states: seq<Account>, acts: seq<Action>, j: nat)
    requires j < |states|
  {
    && (states[j].status == Active ==> states[j].invalidSince.None?)
    && (states[j].invalidSince.Some? ==> RejectedSince(states, acts, j, states[j].invalidSince.value))
    && (forall t :: RejectedSince(states, acts, j, t) ==>
      states[j].invalidSince.Some? && states[j].invalidSince.value <= t)
  }

  lemma {:induction false} StampIsJustified(states: seq<Account>, acts: seq<Action>, j: nat)
    requires History(states, acts) && j < |states|
    ensures Justified(states, acts, j)
  {
    if j > 0 {
      StampIsJustified(states, acts, j - 1);
      StampExplained(states, acts, j);
      forall t | RejectedSince(states, acts, j, t)
        ensures states[j].invalidSince.Some? && states[j].invalidSince.value <= t
      {
        RejectionStamped(states, acts, j, t);
      }
    }
  }

  lemma StampExplained(states: seq<Account>, acts: seq<Action>, j: nat)
    requires History(states, acts) && 0 < j < |states| && Justified(states, acts, j - 1)
    ensures states[j].status == Active ==> states[j].invalidSince.None?
    ensures states[j].invalidSince.Some? ==> RejectedSince(states, acts, j, states[j].invalidSince.value)
  {
    assert states[j] == Next(states[j - 1], acts[j - 1]) && Enabled(acts[j - 1]);
    if states[j].invalidSince.Some? {
      var t := states[j].invalidSince.value;
      if states[j - 1].invalidSince == Some(t) {
        var i: nat :| i < j - 1 && RejectedAt(states, acts, i, t) && NeverActiveBetween(states, i, j - 1);
        assert NeverActiveBetween(states, i, j);
      } else {
        assert RejectedAt(states, acts, j - 1, t) && NeverActiveBetween(states, j - 1, j);
      }
    }
  }

  lemma RejectionStamped(states: seq<Account>, acts: seq<Action>, j: nat, t: int)
    requires History(states, acts) && 0 < j < |states| && Justified(states, acts, j - 1)
    requires RejectedSince(states, acts, j, t)
    ensures states[j].invalidSince.Some? && states[j].invalidSince.value <= t
  {
    assert states[j] == Next(states[j - 1], acts[j - 1]) && Enabled(acts[j - 1]);
    var i: nat :| i < j && RejectedAt(states, acts, i, t) && NeverActiveBetween(states, i, j);
    if i < j - 1 {
      assert NeverActiveBetween(states, i, j - 1);
      assert RejectedSince(states, acts, j - 1, t);
    } else if states[i].invalidSince.Some? {
      var s := states[i].invalidSince.value;
      var k: nat :| k < i && RejectedAt(states, acts, k, s) && NeverActiveBetween(states, k, i);
      assert acts[k].now <= acts[i].now;
    }
  }

  /** The sweep at step `j` disables or deletes the account. */
  ghost predicate Retires(states: seq<Account>, acts: seq<Action>, j: nat) {
    && j < |acts| < |states| && acts[j].Sweep?
    && states[j].status == AuthError && states[j + 1].status in {Disabled, Deleted}
  }

  /**
   * A sweep at time `now` retires an account exactly when the provider rejects a quarantined
   * account that it had already rejected `grace` or longer ago, with no activation since.
   */
  lemma RetirementIff(states: seq<Account>, acts: seq<Action>, j: nat)
    requires History(states, acts) && j < |acts| && acts[j].Sweep?
    ensures Retires(states, acts, j) <==>
      && RejectedAt(states, acts, j, acts[j].now)
      && exists t :: t <= acts[j].now - acts[j].grace && RejectedSince(states, acts, j, t)
    ensures Retires(states, acts, j) ==> states[j + 1].status == if acts[j].deletes then Deleted else Disabled
  {
    StampIsJustified(states, acts, j);
    assert states[j + 1] == Next(states[j], acts[j]);
  }

  /** In every reachable state an active account carries no stamp, so a later quarantine starts its own grace period. */
  lemma ActiveHasNoStamp(states: seq<Account>, acts: seq<Action>, j: nat)
    requires History(states, acts) && j < |states|
    ensures states[j].status == Active ==> states[j].invalidSince.None?
  {
    StampIsJustified(states, acts, j);
  }

  // ---- Who writes the status ----

  /** The provider rejected the account `grace` or longer before step `k`, with no activation since. */
  ghost predicate GraceIsOver(states: seq<Account>, acts: seq<Action>, k: nat, now: int, grace: int) {
    exists t :: t <= now - grace && RejectedSince(states, acts, k, t)
  }

  /**
   * The status step `k` writes, if it writes one: the sync path its own, a new password `Active`, the
   * owner's form what was chosen, and a sweep of a quarantined account what the provider's verdict asks for.
   */
  ghost function Write(states: seq<Account>, acts: seq<Action>, k: nat): Option<Status>
    requires k < |acts| < |states|
  {
    match acts[k]
    case Mark(status) => Some(status)
    case Patch(wanted, password) => if password then Some(Active) else wanted
    case Sweep(now, grace, deletes, verdict) =>
      if states[k].status != AuthError || verdict == Unknown then None
      else if verdict == Valid then Some(Active)
      else if GraceIsOver(states, acts, k, now, grace) then Some(if deletes then Deleted else Disabled)
      else None
  }

  /** The last status written before step `j`; nothing is written to an account that is gone. */
  ghost function LastWritten(states: seq<Account>, acts: seq<Action>, j: nat): Status
    requires j <= |acts| < |states|
  {
    if j == 0 then Active
    else if LastWritten(states, acts, j - 1) == Deleted || Write(states, acts, j - 1).None?
    then LastWritten(states, acts, j - 1)
    else Write(states, acts, j - 1).value
  }

  /** An account has the status that was last written to it. */
  lemma {:induction false} StatusIsLastWritten(states: seq<Account>, acts: seq<Action>, j: nat)
    requires History(states, acts) && j <= |acts|
    ensures states[j].status == LastWritten(states, acts, j)
    decreases j
  {
    hide RejectedSince;
    if j > 0 {
      StatusIsLastWritten(states, acts, j - 1);
      assert Enabled(acts[j - 1]) && states[j] == Next(states[j - 1], acts[j - 1]);
      if acts[j - 1].Sweep? {
        RetirementIff(states, acts, j - 1);
      }
    }
  }

  // ---- The sweep over a batch ----

  datatype Report = Report(
    checked: nat, recovered: nat, quarantined: nat, disabled: nat, deleted: nat, unreachable: nat)

  /** How many of the batch went through a given change. */
  ghost function Tally(
    before: map<nat, Account>, after: map<nat, Account>, batch: seq<nat>, change: (Account, Account) -> bool): nat
  {
    if batch == [] then 0
    else
      var id := batch[|batch| - 1];
      Tally(before, after, batch[..|batch| - 1], change) +
      if id in before && id in after && change(before[id], after[id]) then 1 else 0
  }

  lemma {:induction false} TallyElsewhere(
    before: map<nat, Account>, after: map<nat, Account>, after': map<nat, Account>, batch: seq<nat>,
    change: (Account, Account) -> bool)
    requires forall id :: id in batch ==> (id in after <==> id in after') && (id in after ==> after[id] == after'[id])
    ensures Tally(before, after, batch, change) == Tally(before, after', batch, change)
  {
    if batch != [] {
      TallyElsewhere(before, after, after', batch[..|batch| - 1], change);
    }
  }

  const RECOVERS := (x: Account, y: Account) => x.status == AuthError && y.status == Active
  const STAMPS := (x: Account, y: Account) => x.invalidSince.None? && y.invalidSince.Some?
  const DISABLES := (x: Account, y: Account) => x.status == AuthError && y.status == Disabled
  const DELETES := (x: Account, y: Account) => x.status == AuthError && y.status == Deleted

  function CountUnknown(batch: seq<nat>, check: nat -> Verdict): nat {
    if batch == [] then 0
    else CountUnknown(batch[..|batch| - 1], check) + if check(batch[|batch| - 1]) == Unknown then 1 else 0
  }

  ghost predicate Counts(
    report: Report, before: map<nat, Account>, after: map<nat, Account>, batch: seq<nat>, check: nat -> Verdict)
  {
    && report.checked == |batch|
    && report.recovered == Tally(before, after, batch, RECOVERS)
    && report.quarantined == Tally(before, after, batch, STAMPS)
    && report.disabled == Tally(before, after, batch, DISABLES)
    && report.deleted == Tally(before, after, batch, DELETES)
    && report.unreachable == CountUnknown(batch, check)
  }

  ghost function Counted(report: Report, x: Account, y: Account, verdict: Verdict): Report {
    Report(
      report.checked + 1,
      report.recovered + if RECOVERS(x, y) then 1 else 0,
      report.quarantined + if STAMPS(x, y) then 1 else 0,
      report.disabled + if DISABLES(x, y) then 1 else 0,
      report.deleted + if DELETES(x, y) then 1 else 0,
      report.unreachable + if verdict == Unknown then 1 else 0)
  }

  lemma CountsNext(
    report: Report, before: map<nat, Account>, after: map<nat, Account>, batch: seq<nat>, check: nat -> Verdict,
    id: nat, acc: Account)
    requires Counts(report, before, after, batch, check) && id in before && id !in batch
    ensures Counts(Counted(report, before[id], acc, check(id)), before, after[id := acc], batch + [id], check)
  {
    var after' := after[id := acc];
    assert (batch + [id])[..|batch|] == batch;
    TallyElsewhere(before, after, after', batch, RECOVERS);
    TallyElsewhere(before, after, after', batch, STAMPS);
    TallyElsewhere(before, after, after', batch, DISABLES);
    TallyElsewhere(before, after, after', batch, DELETES);
  }

  lemma NothingCounted(report: Report, rows: map<nat, Account>, check: nat -> Verdict)
    requires report == Report(0, 0, 0, 0, 0, 0)
    ensures Counts(report, rows, rows, [], check)
  {
  }

  /** One turn of the loop: the account after its check, and the report with it counted. */
  method Settle(account: Account, verdict: Verdict, now: int, grace: int, deletes: bool, report: Report)
    returns (settled: Account, more: Report)
    requires account.status == AuthError
    ensures settled == Next(account, Sweep(now, grace, deletes, verdict))
    ensures more == Counted(report, account, settled, verdict)
  {
    settled, more := account, report.(checked := report.checked + 1);
    if verdict == Unknown {
      more := more.(unreachable := more.unreachable + 1);
    } else if verdict == Valid {
      settled := Account(Active, None);
      more := more.(recovered := more.recovered + 1);
    } else if account.invalidSince.None? {
      settled := settled.(invalidSince := Some(now));
      more := more.(quarantined := more.quarantined + 1);
    } else if now - account.invalidSince.value >= grace {
      if deletes {
        settled := settled.(status := Deleted);
        more := more.(deleted := more.deleted + 1);
      } else {
        settled := settled.(status := Disabled);
        more := more.(disabled := more.disabled + 1);
      }
    }
  }

  /** The rows with their status; a deleted row stays in the map as `Deleted`. */
  class AccountTable {
    var rows: map<nat, Account>

    constructor (rows: map<nat, Account>)
      ensures this.rows == rows
    {
      this.rows := rows;
    }

    /** `batch` is what the query picked: quarantined accounts, each once. */
    method SweepAccounts(batch: seq<nat>, now: int, grace: int, deletes: bool, check: nat -> Verdict)
        returns (report: Report)
      requires NoRepeats(batch)
      requires forall id :: id in batch ==> id in rows && rows[id].status == AuthError
      modifies this
      ensures rows.Keys == old(rows.Keys)
      ensures forall id :: id in rows ==>
        rows[id] == if id in batch then Next(old(rows)[id], Sweep(now, grace, deletes, check(id))) else old(rows)[id]
      ensures Counts(report, old(rows), rows, batch, check)
    {
      hide Counts, Tally, Next, Counted;
      ghost var before := rows;
      report := Report(0, 0, 0, 0, 0, 0);
      NothingCounted(report, before, check);
      var i := 0;
      while i < |batch|
        invariant 0 <= i <= |batch|
        invariant rows.Keys == before.Keys
        invariant forall id :: id in rows ==>
          rows[id] == if id in batch[..i] then Next(before[id], Sweep(now, grace, deletes, check(id))) else before[id]
        invariant Counts(report, before, rows, batch[..i], check)
      {
        var id := batch[i];
        assert id !in batch[..i] && rows[id] == before[id];
        assert batch[..i + 1] == batch[..i] + [id];
        var settled, more := Settle(rows[id], check(id), now, grace, deletes, report);
        CountsNext(report, before, rows, batch[..i], check, id, settled);
        rows, report := rows[id := settled], more;
        i := i + 1;
      }
      assert batch[..i] == batch;
    }
  }
}
