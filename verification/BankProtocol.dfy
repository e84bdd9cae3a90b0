/**
 The money-movement protocol as a small-step system. Postgres is READ
 COMMITTED: each statement sees the latest committed rows, `FOR UPDATE` returns
 the newest committed row once the row lock is granted, a transaction's writes
 become visible together at its commit, and row locks last until the
 transaction ends. One step of a process is one statement of its code.
 */
module BankProtocol {
  import opened Wrappers

  /** Account ids, in the order in which `sort()` puts them. */
  type AccountId = nat
  type TransferId = nat
  type LockId = nat
  type Key = nat
  type Pid = nat

  // ---------- tables ----------

  datatype Reason = AccountLocked | InsufficientFunds

  datatype Status = Pending | Completed | Failed(reason: Reason)

  /** What the request hash is taken of; hashing is assumed injective, so this stands for the hash. */
  datatype Payload = Payload(from: AccountId, to: AccountId, amount: int)

  datatype TransferRow = TransferRow(
    key: Option<Key>,
    requestHash: Option<Payload>,
    from: Option<AccountId>,
    to: AccountId,
    amount: int,
    status: Status)

  datatype LockRow = LockRow(account: AccountId, released: bool)

  datatype Tables = Tables(
    balances: map<AccountId, int>,
    transfers: map<TransferId, TransferRow>,
    locks: map<LockId, LockRow>)

  /** `isNull(releasedAt)` for some lock of the account. */
  predicate ActiveLock(locks: map<LockId, LockRow>, account: AccountId) {
    exists lock :: lock in locks && locks[lock].account == account && !locks[lock].released
  }

  predicate KeyTaken(t: Tables, key: Key) {
    exists tid :: tid in t.transfers && t.transfers[tid].key == Some(key)
  }

  function WithStatus(t: Tables, tid: TransferId, status: Status): Tables
    requires tid in t.transfers
  {
    t.(transfers := t.transfers[tid := t.transfers[tid].(status := status)])
  }

  // ---------- processes ----------

  /** Where an attempt is in `TransferExecutor.execute`. */
  datatype AttemptPc =
    | Acquiring(next: nat, rows: map<AccountId, int>)
    | CheckingLocks(rows: map<AccountId, int>)
    | CheckingFunds(rows: map<AccountId, int>)
    | Debiting
    | Crediting(writes: map<AccountId, int>)
    | Marking(writes: map<AccountId, int>)
    | Committing(writes: map<AccountId, int>)
    | Rejected(reason: Reason)

  /** Where a lock request is in `LockService.create`. */
  datatype LockerPc = Asking | Inserting | CommittingLock | LockerOver

  datatype SubmitError = SameAccount | AccountNotFound | InvalidAmount | KeyReused

  /** Where a request is in `TransferService.create` and `replay`. */
  datatype SubmitPc =
    | CheckingAccounts
    | InsertingRow
    | Replaying
    | Enqueueing(tid: TransferId, created: bool)
    | Replied(tid: TransferId, created: bool)
    | Refused(error: SubmitError)
    | Gone

  datatype Proc =
    | Picked(tid: TransferId)
    | Attempt(tid: TransferId, row: TransferRow, from: AccountId, pc: AttemptPc)
    | AttemptOver(tid: TransferId)
    | Locker(account: AccountId, at: LockerPc)
    | Submitter(key: Key, payload: Payload, stage: SubmitPc)

  /** `moved` counts, for the statements below, how often each transfer's money was moved. */
  datatype State = State(
    tables: Tables,
    rowLocks: map<AccountId, Pid>,
    jobs: map<Key, TransferId>,
    procs: map<Pid, Proc>,
    moved: multiset<TransferId>)

  const INITIAL: State := State(Tables(map[], map[], map[]), map[], map[], map[], multiset{})

  datatype Action =
    | OpenAccount(account: AccountId, deposit: nat, tid: TransferId)
    | Submit(pid: Pid, key: Key, payload: Payload)
    | Pick(pid: Pid, key: Key)
    | AskLock(pid: Pid, account: AccountId)
    | Release(lock: LockId)
    | Forget(key: Key)
    | Step(pid: Pid, newId: nat)
    | Crash(pid: Pid)

  /** `[from, to].sort()` */
  function Sorted(from: AccountId, to: AccountId): (ids: seq<AccountId>)
    ensures |ids| == 2
  {
    if from <= to then [from, to] else [to, from]
  }

  function ReleaseAll(rowLocks: map<AccountId, Pid>, pid: Pid): map<AccountId, Pid> {
    map a | a in rowLocks && rowLocks[a] != pid :: rowLocks[a]
  }

  /** The account whose row lock the next statement needs, if it needs one. */
  function Awaits(p: Proc): Option<AccountId> {
    match p
    case Attempt(_, row, from, Acquiring(next, _)) =>
      if next < 2 then Some(Sorted(from, row.to)[next]) else None
    case Locker(account, Asking) => Some(account)
    case _ => None
  }

  predicate Grantable(s: State, pid: Pid, account: AccountId) {
    account in s.rowLocks ==> s.rowLocks[account] == pid
  }

  /** An open transaction that has written this transfer row holds its row lock. */
  predicate WritesRow(p: Proc, tid: TransferId) {
    p.Attempt? && p.tid == tid && p.pc.Committing?
  }

  ghost predicate RowFree(s: State, pid: Pid, tid: TransferId) {
    forall q :: q in s.procs && q != pid ==> !WritesRow(s.procs[q], tid)
  }

  predicate Finished(p: Proc) {
    match p
    case AttemptOver(_) => true
    case Locker(_, at) => at.LockerOver?
    case Submitter(_, _, stage) => stage.Replied? || stage.Refused? || stage.Gone?
    case _ => false
  }

  ghost predicate Blocked(s: State, pid: Pid)
    requires pid in s.procs
  {
    var p := s.procs[pid];
    || (Awaits(p).Some? && !Grantable(s, pid, Awaits(p).value))
    || (p.Attempt? && (p.pc.Marking? || p.pc.Rejected?) && !RowFree(s, pid, p.tid))
  }

  ghost predicate Enabled(s: State, a: Action) {
    match a
    case OpenAccount(account, _, tid) => account !in s.tables.balances && tid !in s.tables.transfers
    case Submit(pid, _, _) => pid !in s.procs
    case Pick(pid, key) => pid !in s.procs && key in s.jobs
    case AskLock(pid, _) => pid !in s.procs
    case Release(lock) => lock in s.tables.locks && !s.tables.locks[lock].released
    case Forget(key) => key in s.jobs
    case Step(pid, newId) =>
      && pid in s.procs
      && !Finished(s.procs[pid])
      && !Blocked(s, pid)
      && newId !in s.tables.transfers
      && newId !in s.tables.locks
    case Crash(pid) => pid in s.procs
  }

  // ---------- steps ----------

  /** The transaction ends without effect; its process is over. */
  function Aborted(s: State, pid: Pid, tid: TransferId): State {
    s.(rowLocks := ReleaseAll(s.rowLocks, pid), procs := s.procs[pid := AttemptOver(tid)])
  }

  /** A business rejection: the transaction is rolled back, the failure is still to be written. */
  function RolledBack(s: State, pid: Pid, p: Proc, reason: Reason): State
    requires p.Attempt?
  {
    s.(rowLocks := ReleaseAll(s.rowLocks, pid), procs := s.procs[pid := p.(pc := Rejected(reason))])
  }

  function At(s: State, pid: Pid, p: Proc, pc: AttemptPc): State
    requires p.Attempt?
  {
    s.(procs := s.procs[pid := p.(pc := pc)])
  }

  /** The processor reads the row, and goes no further unless it is a pending transfer. */
  function StepPicked(s: State, pid: Pid, tid: TransferId): State {
    if tid !in s.tables.transfers then s.(procs := s.procs[pid := AttemptOver(tid)]) else
      var row := s.tables.transfers[tid];
      if row.status != Pending || row.from.None? then s.(procs := s.procs[pid := AttemptOver(tid)])
      else s.(procs := s.procs[pid := Attempt(tid, row, row.from.value, Acquiring(0, map[]))])
  }

  /** One statement of `execute`. */
  ghost function StepAttempt(s: State, pid: Pid, p: Proc): State
    requires p.Attempt?
  {
    var to, amount := p.row.to, p.row.amount;
    match p.pc
    case Acquiring(next, rows) =>
      if next >= 2 then At(s, pid, p, CheckingLocks(rows)) else
        var account := Sorted(p.from, to)[next];
        if account !in s.tables.balances then Aborted(s, pid, p.tid)
        else At(s, pid, p, Acquiring(next + 1, rows[account := s.tables.balances[account]]))
             .(rowLocks := s.rowLocks[account := pid])
    case CheckingLocks(rows) =>
      if ActiveLock(s.tables.locks, p.from) || ActiveLock(s.tables.locks, to) then RolledBack(s, pid, p, AccountLocked)
      else At(s, pid, p, CheckingFunds(rows))
    case CheckingFunds(rows) =>
      if p.from !in rows || rows[p.from] < amount then RolledBack(s, pid, p, InsufficientFunds)
      else At(s, pid, p, Debiting)
    case Debiting =>
      if p.from !in s.tables.balances || s.tables.balances[p.from] - amount < 0 then Aborted(s, pid, p.tid)
      else At(s, pid, p, Crediting(map[p.from := s.tables.balances[p.from] - amount]))
    case Crediting(writes) =>
      if to !in s.tables.balances then Aborted(s, pid, p.tid) else
        var visible := if to in writes then writes[to] else s.tables.balances[to];
        if visible + amount < 0 then Aborted(s, pid, p.tid) else At(s, pid, p, Marking(writes[to := visible + amount]))
    case Marking(writes) =>
      if p.tid !in s.tables.transfers then Aborted(s, pid, p.tid)
      else At(s, pid, p, Committing(writes))
    case Committing(writes) =>
      if p.tid !in s.tables.transfers then Aborted(s, pid, p.tid) else
        var t := WithStatus(s.tables, p.tid, Completed);
        Aborted(s, pid, p.tid).(
          tables := t.(balances := t.balances + writes),
          moved := s.moved + multiset{p.tid})
    case Rejected(reason) =>
      if p.tid !in s.tables.transfers then Aborted(s, pid, p.tid)
      else Aborted(s, pid, p.tid).(tables := WithStatus(s.tables, p.tid, Failed(reason)))
  }

  function StepLocker(s: State, pid: Pid, p: Proc, newId: LockId): State
    requires p.Locker?
  {
    match p.at
    case Asking =>
      if p.account !in s.tables.balances then s.(procs := s.procs[pid := p.(at := LockerOver)])
      else s.(rowLocks := s.rowLocks[p.account := pid], procs := s.procs[pid := p.(at := Inserting)])
    case Inserting => s.(procs := s.procs[pid := p.(at := CommittingLock)])
    case CommittingLock =>
      s.(tables := s.tables.(locks := s.tables.locks[newId := LockRow(p.account, false)]),
         rowLocks := ReleaseAll(s.rowLocks, pid),
         procs := s.procs[pid := p.(at := LockerOver)])
    case LockerOver => s
  }

  function Stage(s: State, pid: Pid, p: Proc, stage: SubmitPc): State
    requires p.Submitter?
  {
    s.(procs := s.procs[pid := p.(stage := stage)])
  }

  /** `queue.add` with the key as job id: adding an existing job changes nothing. */
  function Enqueued(jobs: map<Key, TransferId>, key: Key, tid: TransferId): map<Key, TransferId> {
    if key in jobs then jobs else jobs[key := tid]
  }

  /** One statement of `create` or `replay`. */
  ghost function StepSubmitter(s: State, pid: Pid, p: Proc, newId: TransferId): State
    requires p.Submitter?
  {
    var payload := p.payload;
    match p.stage
    case CheckingAccounts =>
      if payload.from == payload.to then Stage(s, pid, p, Refused(SameAccount))
      else if payload.from !in s.tables.balances || payload.to !in s.tables.balances then
        Stage(s, pid, p, Refused(AccountNotFound))
      else Stage(s, pid, p, InsertingRow)
    case InsertingRow =>
      if payload.amount <= 0 then Stage(s, pid, p, Refused(InvalidAmount))
      else if KeyTaken(s.tables, p.key) then Stage(s, pid, p, Replaying)
      else
        var row := TransferRow(Some(p.key), Some(payload), Some(payload.from), payload.to, payload.amount, Pending);
        Stage(s, pid, p, Enqueueing(newId, true)).(
          tables := s.tables.(transfers := s.tables.transfers[newId := row]))
    case Replaying =>
      if !KeyTaken(s.tables, p.key) then Stage(s, pid, p, Gone) else
        var tid :| tid in s.tables.transfers && s.tables.transfers[tid].key == Some(p.key);
        var row := s.tables.transfers[tid];
        if row.requestHash != Some(payload) then Stage(s, pid, p, Refused(KeyReused))
        else if row.status == Pending then Stage(s, pid, p, Enqueueing(tid, false))
        else Stage(s, pid, p, Replied(tid, false))
    case Enqueueing(tid, created) =>
      Stage(s, pid, p, Replied(tid, created)).(jobs := Enqueued(s.jobs, p.key, tid))
    case Replied(_, _) => s
    case Refused(_) => s
    case Gone => s
  }

  /** A process dies: an open transaction is rolled back, an outstanding failure write is lost. */
  function Crashed(s: State, pid: Pid): State
    requires pid in s.procs
  {
    var p := s.procs[pid];
    if Finished(p) then s else
      match p
      case Picked(tid) => Aborted(s, pid, tid)
      case Attempt(tid, _, _, _) => Aborted(s, pid, tid)
      case AttemptOver(_) => s
      case Locker(_, _) =>
        s.(rowLocks := ReleaseAll(s.rowLocks, pid), procs := s.procs[pid := p.(at := LockerOver)])
      case Submitter(_, _, _) => Stage(s, pid, p, Gone)
  }

  /** `AccountService.create`: the account and its deposit commit together; a zero deposit leaves no row. */
  function Opened(s: State, account: AccountId, deposit: nat, tid: TransferId): State {
    var t := s.tables.(balances := s.tables.balances[account := deposit]);
    if deposit == 0 then s.(tables := t) else
      s.(tables := t.(transfers := t.transfers[tid := TransferRow(None, None, None, account, deposit, Completed)]),
         moved := s.moved + multiset{tid})
  }

  ghost function Apply(s: State, a: Action): State
    requires Enabled(s, a)
  {
    match a
    case OpenAccount(account, deposit, tid) => Opened(s, account, deposit, tid)
    case Submit(pid, key, payload) => s.(procs := s.procs[pid := Submitter(key, payload, CheckingAccounts)])
    case Pick(pid, key) => s.(procs := s.procs[pid := Picked(s.jobs[key])])
    case AskLock(pid, account) => s.(procs := s.procs[pid := Locker(account, Asking)])
    case Release(lock) =>
      s.(tables := s.tables.(locks := s.tables.locks[lock := s.tables.locks[lock].(released := true)]))
    case Forget(key) => s.(jobs := s.jobs - {key})
    case Step(pid, newId) =>
      (match s.procs[pid]
       case Picked(tid) => StepPicked(s, pid, tid)
       case Attempt(_, _, _, _) => StepAttempt(s, pid, s.procs[pid])
       case AttemptOver(_) => s
       case Locker(_, _) => StepLocker(s, pid, s.procs[pid], newId)
       case Submitter(_, _, _) => StepSubmitter(s, pid, s.procs[pid], newId))
    case Crash(pid) => Crashed(s, pid)
  }

  // ---------- runs ----------

  /** A run: from the empty bank, each state the result of an enabled action on the one before. */
  ghost predicate IsRun(states: seq<State>, actions: seq<Action>) {
    && |states| == |actions| + 1
    && states[0] == INITIAL
    && forall i :: 0 <= i < |actions| ==>
         Enabled(states[i], actions[i]) && states[i + 1] == Apply(states[i], actions[i])
  }

  /** Work on this transfer is under way, its trailing failure write included. */
  predicate Live(p: Proc, tid: TransferId) {
    (p.Picked? || p.Attempt?) && p.tid == tid
  }

  /** The action does not start a second attempt on a transfer while one is under way. */
  ghost predicate Exclusive(s: State, a: Action) {
    a.Pick? && a.key in s.jobs ==>
      forall q :: q in s.procs ==> !Live(s.procs[q], s.jobs[a.key])
  }

  ghost predicate IsExclusiveRun(states: seq<State>, actions: seq<Action>) {
    && IsRun(states, actions)
    && forall i :: 0 <= i < |actions| ==> Exclusive(states[i], actions[i])
  }
}
