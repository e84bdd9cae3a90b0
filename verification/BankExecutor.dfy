/**
 The executor, the job processor and the submission service as the programs
 they are, each running without interference: what one call does to the tables,
 and that the small-step processes do the same when nobody else moves.
 */
module BankExecutor {
  import opened Wrappers
  import opened BankProtocol
  import opened BankSafety
  import opened BankLedger
  import opened BankRuns

  /** Errors thrown by `execute`; only the business rejections are written to the row. */
  datatype ExecuteError =
    | NoSourceAccount
    | AccountMissing(account: AccountId)
    | Unprocessable(reason: Reason)
    | BalanceCheckViolated
    | RowDisappeared

  /** Why an execution of this row would be rejected; the lock check comes before the balance check. */
  function Rejection(t: Tables, row: TransferRow): Option<Reason>
    requires row.from.Some? && row.from.value in t.balances
  {
    if ActiveLock(t.locks, row.from.value) || ActiveLock(t.locks, row.to) then Some(AccountLocked)
    else if t.balances[row.from.value] < row.amount then Some(InsufficientFunds)
    else None
  }

  predicate Executable(t: Tables, tid: TransferId, row: TransferRow) {
    && tid in t.transfers
    && row.from.Some? && row.from.value in t.balances && row.to in t.balances
    && row.from.value != row.to && row.amount >= 0 && t.balances[row.to] >= 0
  }

  /** The first account, in the order of locking, that does not exist. */
  function MissingAccount(t: Tables, row: TransferRow): Option<AccountId>
    requires row.from.Some?
  {
    var sorted := Sorted(row.from.value, row.to);
    if sorted[0] !in t.balances then Some(sorted[0])
    else if sorted[1] !in t.balances then Some(sorted[1])
    else None
  }

  /** The tables after an executable transfer was executed. */
  function Executed(t: Tables, tid: TransferId, row: TransferRow): Tables
    requires Executable(t, tid, row)
  {
    match Rejection(t, row)
    case Some(reason) => WithStatus(t, tid, Failed(reason))
    case None =>
      var from := row.from.value;
      WithStatus(t, tid, Completed).(
        balances := t.balances[from := t.balances[from] - row.amount][row.to := t.balances[row.to] + row.amount])
  }

  /** What the transaction comes to, for any row at all: the committed tables or the error thrown. */
  function Outcome(t: Tables, tid: TransferId, row: TransferRow): (r: Result<Tables, ExecuteError>)
    requires row.from.Some?
    ensures Executable(t, tid, row) ==>
              match Rejection(t, row)
              case Some(reason) => r == Failure(Unprocessable(reason))
              case None => r == Success(Executed(t, tid, row))
    ensures r.Success? ==> tid in r.value.transfers
  {
    var from := row.from.value;
    if MissingAccount(t, row).Some? then Failure(AccountMissing(MissingAccount(t, row).value))
    else if Rejection(t, row).Some? then Failure(Unprocessable(Rejection(t, row).value))
    else
      var debited := t.balances[from := t.balances[from] - row.amount];
      var credited := debited[row.to := debited[row.to] + row.amount];
      if credited[row.to] < 0 then Failure(BalanceCheckViolated)
      else if tid !in t.transfers then Failure(RowDisappeared)
      else Success(WithStatus(t, tid, Completed).(balances := credited))
  }

  /** The tables after one delivery of a job for this transfer, and the error to retry, if any. */
  function Handled(t: Tables, tid: TransferId): (Tables, Option<ExecuteError>) {
    if tid !in t.transfers || t.transfers[tid].status != Pending then (t, None)
    else if t.transfers[tid].from.None? then (t, Some(NoSourceAccount))
    else match Outcome(t, tid, t.transfers[tid])
      case Success(committed) => (committed, None)
      case Failure(Unprocessable(reason)) => (WithStatus(t, tid, Failed(reason)), None)
      case Failure(error) => (t, Some(error))
  }

  /** The tables after the processor has handled a job for this transfer. */
  function Processed(t: Tables, tid: TransferId): Tables {
    Handled(t, tid).0
  }

  datatype Reply = Reply(tid: TransferId, created: bool)

  /**
   The answer to a known key: a row that has it, if it was for this payload, and a refusal if not.
   Only a pending row is queued, and nothing else happens to the queue.
   */
  ghost predicate ReplayOutcome(
    t: Tables, jobs: map<Key, TransferId>, key: Key, payload: Payload, r: Result<Reply, SubmitError>,
    after: map<Key, TransferId>)
  {
    match r
    case Success(Reply(tid, created)) =>
      && !created && tid in t.transfers
      && t.transfers[tid].key == Some(key) && t.transfers[tid].requestHash == Some(payload)
      && after == if t.transfers[tid].status == Pending then Enqueued(jobs, key, tid) else jobs
    case Failure(error) =>
      && error == KeyReused && after == jobs
      && exists tid :: tid in t.transfers && t.transfers[tid].key == Some(key)
                       && t.transfers[tid].requestHash != Some(payload)
  }

  /** What a request comes to: the first refusal that applies, the replay of a known key, or a new row and its job. */
  ghost predicate CreateOutcome(
    t: Tables, jobs: map<Key, TransferId>, key: Key, payload: Payload, newId: TransferId,
    r: Result<Reply, SubmitError>, u: Tables, after: map<Key, TransferId>)
  {
    if payload.from == payload.to then r == Failure(SameAccount) && u == t && after == jobs
    else if payload.from !in t.balances || payload.to !in t.balances then
      r == Failure(AccountNotFound) && u == t && after == jobs
    else if payload.amount <= 0 then r == Failure(InvalidAmount) && u == t && after == jobs
    else if KeyTaken(t, key) then u == t && ReplayOutcome(t, jobs, key, payload, r, after)
    else
      && r == Success(Reply(newId, true))
      && u == t.(transfers := t.transfers[newId :=
           TransferRow(Some(key), Some(payload), Some(payload.from), payload.to, payload.amount, Pending)])
      && after == Enqueued(jobs, key, newId)
  }

  datatype AccountError = CustomerNotFound

  datatype LockError = NoSuchAccount | NoSuchLock | AlreadyReleased

  class Database {
    var tables: Tables
    var jobs: map<Key, TransferId>

    /** Rolls the transaction back and writes a business failure in a statement of its own. */
    method Fail(tid: TransferId, error: ExecuteError)
      modifies this`tables
      ensures tables == if error.Unprocessable? && tid in old(tables).transfers
                        then WithStatus(old(tables), tid, Failed(error.reason)) else old(tables)
    {
      if error.Unprocessable? && tid in tables.transfers {
        tables := WithStatus(tables, tid, Failed(error.reason));
      }
    }

    /** The transaction body: its own view of the tables, which a commit would publish. */
    method Transact(tid: TransferId, row: TransferRow) returns (r: Result<Tables, ExecuteError>)
      requires row.from.Some?
      ensures r == Outcome(tables, tid, row)
    {
      var from := row.from.value;
      var rows: map<AccountId, int> := map[];
      var sorted := Sorted(from, row.to);
      for i := 0 to 2
        invariant rows.Keys == set a | a in sorted[..i]
        invariant Current(tables, rows)
      {
        if sorted[i] !in tables.balances {
          return Failure(AccountMissing(sorted[i]));
        }
        rows := rows[sorted[i] := tables.balances[sorted[i]]];
      }
      assert sorted[..2] == sorted && from in sorted;
      if ActiveLock(tables.locks, from) || ActiveLock(tables.locks, row.to) {
        return Failure(Unprocessable(AccountLocked));
      }
      if rows[from] < row.amount {
        return Failure(Unprocessable(InsufficientFunds));
      }
      var tx := tables;
      if tx.balances[from] - row.amount < 0 {
        return Failure(BalanceCheckViolated);
      }
      tx := tx.(balances := tx.balances[from := tx.balances[from] - row.amount]);
      assert row.to in sorted;
      if tx.balances[row.to] + row.amount < 0 {
        return Failure(BalanceCheckViolated);
      }
      tx := tx.(balances := tx.balances[row.to := tx.balances[row.to] + row.amount]);
      if tid !in tx.transfers {
        return Failure(RowDisappeared);
      }
      tx := WithStatus(tx, tid, Completed);
      r := Success(tx);
    }

    /** Carries out the transaction's outcome: its tables if it commits, the failure if a rule rejects it. */
    method Execute(tid: TransferId, row: TransferRow) returns (r: Result<TransferRow, ExecuteError>)
      modifies this`tables
      ensures row.from.None? ==> r == Failure(NoSourceAccount) && tables == old(tables)
      ensures row.from.Some? ==>
                match Outcome(old(tables), tid, row)
                case Success(committed) => tables == committed && r == Success(committed.transfers[tid])
                case Failure(error) =>
                  && r == Failure(error)
                  && tables == if error.Unprocessable? && tid in old(tables).transfers
                               then WithStatus(old(tables), tid, Failed(error.reason)) else old(tables)
    {
      if row.from.None? {
        return Failure(NoSourceAccount);
      }
      var outcome := Transact(tid, row);
      match outcome {
        case Failure(error) =>
          Fail(tid, error);
          r := Failure(error);
        case Success(committed) =>
          tables := committed;
          r := Success(tables.transfers[tid]);
      }
    }

    /** Handles one delivery of a job; the error, if any, is one to retry. */
    method Process(tid: TransferId) returns (retry: Option<ExecuteError>)
      modifies this`tables
      ensures (tables, retry) == Handled(old(tables), tid)
      ensures retry.Some? ==> tables == old(tables) && !retry.value.Unprocessable?
    {
      if tid !in tables.transfers {
        return None;
      }
      var row := tables.transfers[tid];
      if row.status != Pending {
        return None;
      }
      var result := Execute(tid, row);
      if result.Failure? && !result.error.Unprocessable? {
        return Some(result.error);
      }
      retry := None;
    }

    /** Accepts a transfer, or replays the stored one when the key is known. */
    method CreateTransfer(key: Key, payload: Payload, newId: TransferId) returns (r: Result<Reply, SubmitError>)
      requires newId !in tables.transfers
      modifies this
      ensures CreateOutcome(old(tables), old(jobs), key, payload, newId, r, tables, jobs)
      ensures r == Failure(SameAccount) <==> payload.from == payload.to
      ensures r == Failure(AccountNotFound) <==>
                payload.from != payload.to
                && (payload.from !in old(tables).balances || payload.to !in old(tables).balances)
      ensures r == Failure(InvalidAmount) <==>
                && payload.from != payload.to
                && payload.from in old(tables).balances && payload.to in old(tables).balances
                && payload.amount <= 0
      ensures r.Failure? ==> tables == old(tables) && jobs == old(jobs)
    {
      if payload.from == payload.to {
        return Failure(SameAccount);
      }
      var wanted := [payload.from, payload.to];
      for i := 0 to 2
        invariant forall j :: 0 <= j < i ==> wanted[j] in tables.balances
        invariant tables == old(tables) && jobs == old(jobs)
      {
        if wanted[i] !in tables.balances {
          return Failure(AccountNotFound);
        }
      }
      assert wanted[0] in tables.balances && wanted[1] in tables.balances;
      if payload.amount <= 0 {
        return Failure(InvalidAmount);
      }
      if KeyTaken(tables, key) {
        r := Replay(key, payload);
        return;
      }
      var row := TransferRow(Some(key), Some(payload), Some(payload.from), payload.to, payload.amount, Pending);
      tables := tables.(transfers := tables.transfers[newId := row]);
      jobs := Enqueued(jobs, key, newId);
      r := Success(Reply(newId, true));
    }

    /** Answers for a key that is taken: no row changes, and only a pending one is queued once more. */
    method Replay(key: Key, payload: Payload) returns (r: Result<Reply, SubmitError>)
      requires KeyTaken(tables, key)
      modifies this`jobs
      ensures ReplayOutcome(tables, old(jobs), key, payload, r, jobs)
    {
      var tid :| tid in tables.transfers && tables.transfers[tid].key == Some(key);
      var row := tables.transfers[tid];
      if row.requestHash != Some(payload) {
        return Failure(KeyReused);
      }
      if row.status == Pending {
        jobs := Enqueued(jobs, key, tid);
      }
      r := Success(Reply(tid, false));
    }

    /** `AccountService.create`: for an existing customer the account and its deposit commit together. */
    method CreateAccount(customerExists: bool, account: AccountId, deposit: nat, newId: TransferId)
      returns (r: Result<AccountId, AccountError>)
      requires account !in tables.balances && newId !in tables.transfers
      modifies this`tables
      ensures r == if customerExists then Success(account) else Failure(CustomerNotFound)
      ensures !customerExists ==> tables == old(tables)
      ensures customerExists ==>
                && tables.balances == old(tables).balances[account := deposit]
                && tables.locks == old(tables).locks
                && tables.transfers ==
                     if deposit == 0 then old(tables).transfers
                     else old(tables).transfers[newId := TransferRow(None, None, None, account, deposit, Completed)]
    {
      if !customerExists {
        return Failure(CustomerNotFound);
      }
      tables := tables.(balances := tables.balances[account := deposit]);
      if deposit > 0 {
        var row := TransferRow(None, None, None, account, deposit, Completed);
        tables := tables.(transfers := tables.transfers[newId := row]);
      }
      r := Success(account);
    }

    /** `LockService.create`. */
    method CreateLock(account: AccountId, newId: LockId) returns (r: Result<LockId, LockError>)
      requires newId !in tables.locks
      modifies this`tables
      ensures r.Failure? <==> account !in old(tables).balances
      ensures r.Failure? ==> r.error == NoSuchAccount && tables == old(tables)
      ensures r.Success? ==>
                && r.value == newId && ActiveLock(tables.locks, account)
                && tables == old(tables).(locks := old(tables).locks[newId := LockRow(account, false)])
    {
      if account !in tables.balances {
        return Failure(NoSuchAccount);
      }
      tables := tables.(locks := tables.locks[newId := LockRow(account, false)]);
      assert tables.locks[newId] == LockRow(account, false);
      r := Success(newId);
    }

    /** `LockService.release`: the row is kept, and only an active lock of this account is released. */
    method ReleaseLock(account: AccountId, lock: LockId) returns (r: Result<LockId, LockError>)
      modifies this`tables
      ensures r == if account !in old(tables).balances then Failure(NoSuchAccount)
                   else if lock !in old(tables).locks || old(tables).locks[lock].account != account
                   then Failure(NoSuchLock)
                   else if old(tables).locks[lock].released then Failure(AlreadyReleased)
                   else Success(lock)
      ensures r.Failure? ==> tables == old(tables)
      ensures r.Success? ==>
                tables == old(tables).(locks := old(tables).locks[lock := LockRow(account, true)])
    {
      if account !in tables.balances {
        return Failure(NoSuchAccount);
      }
      if lock in tables.locks && tables.locks[lock].account == account && !tables.locks[lock].released {
        tables := tables.(locks := tables.locks[lock := tables.locks[lock].(released := true)]);
        return Success(lock);
      }
      if lock !in tables.locks || tables.locks[lock].account != account {
        return Failure(NoSuchLock);
      }
      r := Failure(AlreadyReleased);
    }
  }

  /** For a row that meets the table's checks the processor does what the executor is for. */
  lemma PendingProcessed(t: Tables, tid: TransferId)
    requires tid in t.transfers && t.transfers[tid].status == Pending && Executable(t, tid, t.transfers[tid])
    ensures Processed(t, tid) == Executed(t, tid, t.transfers[tid])
  {
  }

  /** Redelivering a job that was handled to the end changes nothing. */
  lemma ProcessedTwice(t: Tables, tid: TransferId)
    ensures Processed(Processed(t, tid), tid) == Processed(t, tid)
  {
    hide ActiveLock;
  }

  // ---------- the small-step attempt, uninterrupted ----------

  /** What an attempt still has to do to the tables if nobody interferes. */
  function Remaining(t: Tables, p: Proc): Tables
    requires p.Attempt?
  {
    if p.pc.Rejected? then (if p.tid in t.transfers then WithStatus(t, p.tid, Failed(p.pc.reason)) else t)
    else if Executable(t, p.tid, p.row) then Executed(t, p.tid, p.row) else t
  }

  /** The attempt, left alone, will complete its transfer. */
  predicate WillComplete(t: Tables, p: Proc)
    requires p.Attempt?
  {
    !p.pc.Rejected? && Executable(t, p.tid, p.row) && Rejection(t, p.row).None?
  }

  /** No other process holds the attempt's accounts. */
  predicate Alone(s: State, pid: Pid) {
    && pid in s.procs && s.procs[pid].Attempt?
    && Grantable(s, pid, s.procs[pid].from) && Grantable(s, pid, s.procs[pid].row.to)
  }

  function Rank(pc: AttemptPc): nat {
    match pc
    case Acquiring(next, _) => if next < 3 then 11 - next else 8
    case CheckingLocks(_) => 7
    case CheckingFunds(_) => 6
    case Debiting => 5
    case Crediting(_) => 4
    case Marking(_) => 3
    case Committing(_) => 2
    case Rejected(_) => 1
  }

  lemma AloneUnblocked(s: State, pid: Pid)
    requires Safe(s) && Alone(s, pid)
    ensures !Blocked(s, pid)
  {
    var p := s.procs[pid];
    assert ProcOk(s.tables, p);
    forall q | q in s.procs && q != pid ensures !WritesRow(s.procs[q], p.tid) {
      assert ProcOk(s.tables, s.procs[q]);
      assert WritesRow(s.procs[q], p.tid) ==> p.from in Held(s.procs[q]);
    }
  }

  /** Where an undecided statement takes an attempt that knows what it holds. */
  function Proceeds(t: Tables, p: Proc): AttemptPc
    requires p.Attempt? && AttemptOk(t, p) && !p.pc.Committing? && !p.pc.Rejected?
  {
    match p.pc
    case Acquiring(next, rows) =>
      if next >= 2 then CheckingLocks(rows) else
        var account := Sorted(p.from, p.row.to)[next];
        Acquiring(next + 1, rows[account := t.balances[account]])
    case CheckingLocks(rows) =>
      if ActiveLock(t.locks, p.from) || ActiveLock(t.locks, p.row.to) then Rejected(AccountLocked)
      else CheckingFunds(rows)
    case CheckingFunds(rows) =>
      if t.balances[p.from] < p.row.amount then Rejected(InsufficientFunds) else Debiting
    case Debiting => Crediting(map[p.from := t.balances[p.from] - p.row.amount])
    case Crediting(writes) =>
      var visible := if p.row.to in writes then writes[p.row.to] else t.balances[p.row.to];
      Marking(writes[p.row.to := visible + p.row.amount])
    case Marking(writes) => Committing(writes)
  }

  lemma StatementProceeds(s: State, pid: Pid, p: Proc)
    requires TablesOk(s.tables) && p.Attempt? && AttemptOk(s.tables, p)
    requires !p.pc.Committing? && !p.pc.Rejected?
    ensures var r := StepAttempt(s, pid, p);
            pid in r.procs && r.procs[pid] == p.(pc := Proceeds(s.tables, p))
  {
    hide ActiveLock, ReleaseAll, WithStatus, SameTransfer, RowOk;
    DistinctAccounts(s.tables, p);
  }

  lemma ProceedsDown(t: Tables, p: Proc)
    requires p.Attempt? && AttemptOk(t, p) && !p.pc.Committing? && !p.pc.Rejected?
    ensures Rank(Proceeds(t, p)) < Rank(p.pc)
    ensures Proceeds(t, p).Rejected? ==> Rejection(t, p.row) == Some(Proceeds(t, p).reason)
  {
    hide ActiveLock;
  }

  lemma StatementLocks(s: State, pid: Pid, p: Proc)
    requires p.Attempt?
    ensures var r := StepAttempt(s, pid, p);
            forall a :: Grantable(s, pid, a) ==> Grantable(r, pid, a)
  {
    hide ActiveLock, WithStatus;
  }

  /** Apart from its own, an attempt leaves the row locks as they are. */
  lemma OthersLocks(s: State, pid: Pid)
    requires Alone(s, pid)
    ensures ReleaseAll(StepAttempt(s, pid, s.procs[pid]).rowLocks, pid) == ReleaseAll(s.rowLocks, pid)
  {
    hide ActiveLock, WithStatus;
  }

  /** One undecided statement: the tables stay, and so does what remains to be done. */
  lemma StatementRemains(s: State, pid: Pid)
    requires Safe(s) && Alone(s, pid)
    requires var pc := s.procs[pid].pc; !pc.Committing? && !pc.Rejected?
    ensures var r := StepAttempt(s, pid, s.procs[pid]);
            && r.tables == s.tables && r.moved == s.moved
            && Alone(r, pid)
            && r.procs == s.procs[pid := r.procs[pid]]
            && r.procs[pid].tid == s.procs[pid].tid
            && WillComplete(r.tables, r.procs[pid]) == WillComplete(s.tables, s.procs[pid])
            && Rank(r.procs[pid].pc) < Rank(s.procs[pid].pc)
            && Remaining(r.tables, r.procs[pid]) == Remaining(s.tables, s.procs[pid])
  {
    hide LocksOk, JobsOk, TablesOk, StepAttempt, Rejection, WithStatus, Proceeds, Rank;
    var p := s.procs[pid];
    assert AttemptOk(s.tables, p) by { assert ProcOk(s.tables, p); }
    DistinctAccounts(s.tables, p);
    NotNegative(s.tables, p.row.to);
    StatementTables(s, pid, p);
    StatementProceeds(s, pid, p);
    ProceedsDown(s.tables, p);
    StatementLocks(s, pid, p);
    assert SameTransfer(p.row, s.tables.transfers[p.tid]);
  }

  lemma StatementTables(s: State, pid: Pid, p: Proc)
    requires p.Attempt? && !p.pc.Committing? && !p.pc.Rejected?
    ensures var r := StepAttempt(s, pid, p);
            && r.tables == s.tables && r.moved == s.moved
            && pid in r.procs && r.procs == s.procs[pid := r.procs[pid]]
  {
    hide StepAttempt;
    StatementOnly(s, pid, p);
  }

  lemma DecisionRemains(s: State, pid: Pid)
    requires Safe(s) && pid in s.procs && s.procs[pid].Attempt?
    requires var pc := s.procs[pid].pc; pc.Committing? || pc.Rejected?
    ensures var r := StepAttempt(s, pid, s.procs[pid]);
            && r.tables == Remaining(s.tables, s.procs[pid])
            && r.procs == s.procs[pid := AttemptOver(s.procs[pid].tid)]
            && r.moved == s.moved + MovedBy(s.tables, s.procs[pid])
            && r.rowLocks == ReleaseAll(s.rowLocks, pid)
  {
    hide ActiveLock, LocksOk, JobsOk, TablesOk;
    var p := s.procs[pid];
    assert ProcOk(s.tables, p);
    DistinctAccounts(s.tables, p);
    NotNegative(s.tables, p.row.to);
    if p.pc.Committing? {
      assert s.tables.balances + p.pc.writes
          == s.tables.balances[p.from := s.tables.balances[p.from] - p.row.amount]
                              [p.row.to := s.tables.balances[p.row.to] + p.row.amount];
    }
  }

  /** The transfer whose money the attempt, left alone, will move. */
  function MovedBy(t: Tables, p: Proc): multiset<TransferId>
    requires p.Attempt?
  {
    if WillComplete(t, p) then multiset{p.tid} else multiset{}
  }

  /** Left alone, an attempt ends, having done to the tables what the executor does in one call. */
  lemma {:induction false} SoloAttempt(s: State, pid: Pid, newId: nat) returns (n: nat, r: State)
    requires Safe(s) && Alone(s, pid)
    requires newId !in s.tables.transfers && newId !in s.tables.locks
    ensures Leads(s, Steps(pid, newId, n), r)
    ensures r.procs == s.procs[pid := AttemptOver(s.procs[pid].tid)]
    ensures r.tables == Remaining(s.tables, s.procs[pid])
    ensures r.moved == s.moved + MovedBy(s.tables, s.procs[pid])
    ensures r.rowLocks == ReleaseAll(s.rowLocks, pid)
    decreases Rank(s.procs[pid].pc)
  {
    hide Safe, Blocked, Alone, StepAttempt, Remaining, WillComplete, ReleaseAll;
    AttemptPresent(s, pid);
    AloneUnblocked(s, pid);
    var a := Step(pid, newId);
    var next := Apply(s, a);
    var pc := s.procs[pid].pc;
    if pc.Committing? || pc.Rejected? {
      DecisionRemains(s, pid);
      n, r := 1, next;
      Next(s, a, next, Steps(pid, newId, 0), r);
    } else {
      StatementRemains(s, pid);
      OthersLocks(s, pid);
      AttemptPresent(next, pid);
      ActionSafe(s, a);
      var m;
      m, r := SoloAttempt(next, pid, newId);
      n := m + 1;
      Next(s, a, next, Steps(pid, newId, m), r);
    }
  }

  lemma AttemptPresent(s: State, pid: Pid)
    requires Alone(s, pid)
    ensures pid in s.procs && s.procs[pid].Attempt?
  {
  }

  /**
   A job picked up for a pending transfer whose accounts nobody holds, run without interruption,
   leaves the tables exactly as one call of the processor does.
   */
  lemma SoloRunIsProcess(s: State, pid: Pid, newId: nat) returns (n: nat, r: State)
    requires Safe(s) && pid in s.procs && s.procs[pid].Picked?
    requires s.tables.transfers[s.procs[pid].tid].status == Pending
    requires var row := s.tables.transfers[s.procs[pid].tid];
             row.from.Some? ==> Grantable(s, pid, row.from.value) && Grantable(s, pid, row.to)
    requires newId !in s.tables.transfers && newId !in s.tables.locks
    ensures Leads(s, Steps(pid, newId, n), r)
    ensures pid in r.procs && r.procs[pid] == AttemptOver(s.procs[pid].tid)
    ensures r.tables == Processed(s.tables, s.procs[pid].tid)
  {
    hide Safe, Apply, Enabled, Leads, Processed, Executed, Rejection, Executable;
    var tid := s.procs[pid].tid;
    PickedReads(s, pid, newId);
    var a := Step(pid, newId);
    var next := Apply(s, a);
    var m;
    m, r := SoloAttempt(next, pid, newId);
    n := m + 1;
    Next(s, a, next, Steps(pid, newId, m), r);
    PendingProcessed(s.tables, tid);
  }

  /** The processor's own read: a pending row found, the attempt begins. */
  lemma PickedReads(s: State, pid: Pid, newId: nat)
    requires Safe(s) && pid in s.procs && s.procs[pid].Picked?
    requires s.tables.transfers[s.procs[pid].tid].status == Pending
    requires var row := s.tables.transfers[s.procs[pid].tid];
             row.from.Some? ==> Grantable(s, pid, row.from.value) && Grantable(s, pid, row.to)
    requires newId !in s.tables.transfers && newId !in s.tables.locks
    ensures Enabled(s, Step(pid, newId)) && s.procs[pid].tid in s.tables.transfers
    ensures var tid := s.procs[pid].tid;
            var row, next := s.tables.transfers[tid], Apply(s, Step(pid, newId));
            && Safe(next) && next.tables == s.tables
            && row.from.Some? && Executable(s.tables, tid, row)
            && pid in next.procs && next.procs[pid] == Attempt(tid, row, row.from.value, Acquiring(0, map[]))
            && Alone(next, pid)
  {
    hide LocksOk, JobsOk, Rejection;
    var tid := s.procs[pid].tid;
    assert ProcOk(s.tables, s.procs[pid]);
    assert RowOk(s.tables, s.tables.transfers[tid]);
    NotNegative(s.tables, s.tables.transfers[tid].to);
    ActionSafe(s, Step(pid, newId));
  }
}
