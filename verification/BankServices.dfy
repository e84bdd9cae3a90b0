/**
 What the services promise over several calls, said of the rows themselves: when
 a transfer goes through, what a lock and its release do to it, and what a request
 sent again is told; and that the small-step processes do the same.
 */
module BankServices {
  import opened Wrappers
  import opened BankProtocol
  import opened BankSafety
  import opened BankRuns
  import opened BankExecutor

  // ---------- when a transfer goes through ----------

  /** No lock row of the account is without its release. */
  predicate AllReleased(locks: map<LockId, LockRow>, account: AccountId) {
    forall lock :: lock in locks && locks[lock].account == account ==> locks[lock].released
  }

  /** `amount` has moved from one account to the other, and nothing else. */
  predicate MoneyMoved(before: map<AccountId, int>, after: map<AccountId, int>, from: AccountId, to: AccountId,
      amount: int)
  {
    && after.Keys == before.Keys
    && forall a :: a in before ==>
         after[a] == before[a] - (if a == from then amount else 0) + (if a == to then amount else 0)
  }

  /**
   The executor's transaction, for any row at all: it commits exactly if both accounts exist without
   an unreleased lock, the source covers the amount, the destination does not fall below zero and the
   row is there; and then it moves the amount and completes the row.
   */
  lemma OutcomeExactly(t: Tables, tid: TransferId, row: TransferRow)
    requires row.from.Some?
    ensures var r, from, to := Outcome(t, tid, row), row.from.value, row.to;
      var exist := from in t.balances && to in t.balances;
      && (r.Success? <==>
            && exist && AllReleased(t.locks, from) && AllReleased(t.locks, to)
            && t.balances[from] >= row.amount
            && (from != to ==> t.balances[to] + row.amount >= 0) && (from == to ==> t.balances[to] >= 0)
            && tid in t.transfers)
      && (r.Success? ==>
            && MoneyMoved(t.balances, r.value.balances, from, to, row.amount)
            && r.value.transfers == t.transfers[tid := t.transfers[tid].(status := Completed)]
            && r.value.locks == t.locks)
      && (r == Failure(Unprocessable(AccountLocked)) <==>
            exist && (!AllReleased(t.locks, from) || !AllReleased(t.locks, to)))
      && (r == Failure(Unprocessable(InsufficientFunds)) <==>
            && exist && AllReleased(t.locks, from) && AllReleased(t.locks, to)
            && t.balances[from] < row.amount)
      && (r.Failure? && r.error.AccountMissing? <==> !exist)
      && (!exist ==>
            && r.error.account !in t.balances && (r.error.account == from || r.error.account == to)
            && (from !in t.balances && to !in t.balances ==> r.error.account <= from && r.error.account <= to))
  {
    LocksSeen(t.locks, row.from.value);
    LocksSeen(t.locks, row.to);
    hide ActiveLock, AllReleased;
  }

  lemma LocksSeen(locks: map<LockId, LockRow>, account: AccountId)
    ensures ActiveLock(locks, account) <==> !AllReleased(locks, account)
  {
  }

  /** One delivery of a job for a pending row: what becomes of the row, and of the money. */
  predicate Decided(t: Tables, u: Tables, tid: TransferId)
    requires tid in t.transfers && t.transfers[tid].from.Some?
    requires t.transfers[tid].from.value in t.balances
  {
    var row := t.transfers[tid];
    var from, to := row.from.value, row.to;
    && u.locks == t.locks
    && if !AllReleased(t.locks, from) || !AllReleased(t.locks, to) then
         u.transfers == t.transfers[tid := row.(status := Failed(AccountLocked))] && u.balances == t.balances
       else if t.balances[from] < row.amount then
         u.transfers == t.transfers[tid := row.(status := Failed(InsufficientFunds))] && u.balances == t.balances
       else
         && u.transfers == t.transfers[tid := row.(status := Completed)]
         && MoneyMoved(t.balances, u.balances, from, to, row.amount)
  }

  /** A pending row between two accounts that exist, for an amount that is none below zero. */
  predicate Awaiting(t: Tables, tid: TransferId) {
    && tid in t.transfers && t.transfers[tid].status == Pending
    && var row := t.transfers[tid];
       && row.from.Some? && row.from.value in t.balances && row.to in t.balances
       && row.amount >= 0 && t.balances[row.to] >= 0
  }

  lemma HandledDecides(t: Tables, tid: TransferId)
    requires Awaiting(t, tid)
    ensures Handled(t, tid).1.None? && Decided(t, Handled(t, tid).0, tid)
  {
    hide Outcome, AllReleased, MoneyMoved;
    OutcomeExactly(t, tid, t.transfers[tid]);
    var r := Outcome(t, tid, t.transfers[tid]);
    assert r.Success? || r == Failure(Unprocessable(AccountLocked)) || r == Failure(Unprocessable(InsufficientFunds));
  }

  /** A row that is missing or decided is left alone, and a job is retried exactly if its row cannot be decided. */
  lemma RetriedExactly(t: Tables, tid: TransferId)
    ensures tid !in t.transfers || t.transfers[tid].status != Pending ==> Handled(t, tid) == (t, None)
    ensures tid in t.transfers && t.transfers[tid].status == Pending ==>
      var row := t.transfers[tid];
      && (Handled(t, tid).1.Some? <==>
            || row.from.None? || row.from.value !in t.balances || row.to !in t.balances
            || (&& AllReleased(t.locks, row.from.value) && AllReleased(t.locks, row.to)
                && t.balances[row.from.value] >= row.amount
                && t.balances[row.to] + (if row.from.value == row.to then 0 else row.amount) < 0))
      && (Handled(t, tid).1.Some? ==> Handled(t, tid).0 == t)
  {
    hide Outcome, AllReleased, MoneyMoved;
    if tid in t.transfers && t.transfers[tid].from.Some? {
      OutcomeExactly(t, tid, t.transfers[tid]);
      var r := Outcome(t, tid, t.transfers[tid]);
      assert r.Failure? && r.error.Unprocessable? ==>
        r.error.reason.AccountLocked? || r.error.reason.InsufficientFunds?;
    }
  }

  /** A request under a new key and then the worker's job: what becomes of the row, the queue and the money. */
  method Pay(db: Database, key: Key, payload: Payload, newId: TransferId) returns (r: Result<Reply, SubmitError>)
    requires newId !in db.tables.transfers
    requires payload.from != payload.to && payload.from in db.tables.balances && payload.to in db.tables.balances
    requires payload.amount > 0 && db.tables.balances[payload.to] >= 0
    requires forall tid :: tid in db.tables.transfers ==> db.tables.transfers[tid].key != Some(key)
    modifies db
    ensures r == Success(Reply(newId, true))
    ensures db.jobs == if key in old(db.jobs) then old(db.jobs) else old(db.jobs)[key := newId]
    ensures db.tables.locks == old(db.tables).locks
    ensures var t := old(db.tables);
      var passes := AllReleased(t.locks, payload.from) && AllReleased(t.locks, payload.to);
      var covered := t.balances[payload.from] >= payload.amount;
      && db.tables.transfers == t.transfers[newId :=
           TransferRow(Some(key), Some(payload), Some(payload.from), payload.to, payload.amount,
                       if !passes then Failed(AccountLocked)
                       else if !covered then Failed(InsufficientFunds)
                       else Completed)]
      && db.tables.balances ==
           if passes && covered
           then t.balances[payload.from := t.balances[payload.from] - payload.amount]
                          [payload.to := t.balances[payload.to] + payload.amount]
           else t.balances
  {
    r := db.CreateTransfer(key, payload, newId);
    HandledDecides(db.tables, newId);
    var retry := db.Process(newId);
  }

  // ---------- locks ----------

  /** While a lock stands, the account neither pays nor is paid. */
  method PayLocked(db: Database, account: AccountId, lock: LockId, key: Key, payload: Payload, newId: TransferId)
    returns (r: Result<Reply, SubmitError>)
    requires newId !in db.tables.transfers && lock !in db.tables.locks
    requires payload.from != payload.to && payload.from in db.tables.balances && payload.to in db.tables.balances
    requires payload.amount > 0 && db.tables.balances[payload.to] >= 0
    requires forall tid :: tid in db.tables.transfers ==> db.tables.transfers[tid].key != Some(key)
    requires account == payload.from || account == payload.to
    modifies db
    ensures db.tables.balances == old(db.tables).balances
    ensures newId in db.tables.transfers && db.tables.transfers[newId].status == Failed(AccountLocked)
  {
    var locked := db.CreateLock(account, lock);
    assert !AllReleased(db.tables.locks, account) by {
      assert db.tables.locks[lock] == LockRow(account, false);
    }
    r := Pay(db, key, payload, newId);
  }

  /** Once its only unreleased lock is released, a covered transfer of the account goes through. */
  method PayReleased(db: Database, account: AccountId, lock: LockId, key: Key, payload: Payload, newId: TransferId)
    returns (r: Result<Reply, SubmitError>)
    requires newId !in db.tables.transfers
    requires payload.from != payload.to && payload.from in db.tables.balances && payload.to in db.tables.balances
    requires payload.amount > 0 && db.tables.balances[payload.to] >= 0
    requires forall tid :: tid in db.tables.transfers ==> db.tables.transfers[tid].key != Some(key)
    requires account == payload.from || account == payload.to
    requires lock in db.tables.locks && db.tables.locks[lock] == LockRow(account, false)
    requires forall l :: l in db.tables.locks && l != lock && !db.tables.locks[l].released ==>
               db.tables.locks[l].account != payload.from && db.tables.locks[l].account != payload.to
    requires db.tables.balances[payload.from] >= payload.amount
    modifies db
    ensures db.tables.balances == old(db.tables).balances
              [payload.from := old(db.tables).balances[payload.from] - payload.amount]
              [payload.to := old(db.tables).balances[payload.to] + payload.amount]
    ensures newId in db.tables.transfers && db.tables.transfers[newId].status == Completed
  {
    var released := db.ReleaseLock(account, lock);
    assert AllReleased(db.tables.locks, payload.from) && AllReleased(db.tables.locks, payload.to);
    r := Pay(db, key, payload, newId);
  }

  // ---------- a request sent again ----------

  /**
   A request under a known key changes no row. The one that created the row is told of it, and its job
   is queued again exactly while the row is pending and no job has the key; any other is refused.
   */
  method SendAgain(db: Database, key: Key, payload: Payload, id: TransferId, newId: TransferId)
    returns (r: Result<Reply, SubmitError>)
    requires id in db.tables.transfers && db.tables.transfers[id].key == Some(key) && newId !in db.tables.transfers
    requires forall tid :: tid in db.tables.transfers && db.tables.transfers[tid].key == Some(key) ==> tid == id
    requires payload.from != payload.to && payload.from in db.tables.balances && payload.to in db.tables.balances
    requires payload.amount > 0
    modifies db
    ensures db.tables == old(db.tables)
    ensures var same := old(db.tables).transfers[id].requestHash == Some(payload);
      && r == (if same then Success(Reply(id, false)) else Failure(KeyReused))
      && db.jobs == if same && old(db.tables).transfers[id].status == Pending && key !in old(db.jobs)
                    then old(db.jobs)[key := id] else old(db.jobs)
  {
    assert KeyTaken(db.tables, key);
    r := db.CreateTransfer(key, payload, newId);
  }

  /** Paid for and sent again, a transfer moves its money once: the second request changes nothing. */
  method PayTwice(db: Database, key: Key, payload: Payload, newId: TransferId, unused: TransferId)
    returns (first: Result<Reply, SubmitError>, second: Result<Reply, SubmitError>)
    requires newId !in db.tables.transfers && unused !in db.tables.transfers && unused != newId
    requires payload.from != payload.to && payload.from in db.tables.balances && payload.to in db.tables.balances
    requires payload.amount > 0 && db.tables.balances[payload.to] >= 0
    requires forall tid :: tid in db.tables.transfers ==> db.tables.transfers[tid].key != Some(key)
    requires AllReleased(db.tables.locks, payload.from) && AllReleased(db.tables.locks, payload.to)
    requires db.tables.balances[payload.from] >= payload.amount
    modifies db
    ensures first == Success(Reply(newId, true)) && second == Success(Reply(newId, false))
    ensures db.tables.balances == old(db.tables).balances
              [payload.from := old(db.tables).balances[payload.from] - payload.amount]
              [payload.to := old(db.tables).balances[payload.to] + payload.amount]
    ensures db.tables.transfers.Keys == old(db.tables).transfers.Keys + {newId}
  {
    hide AllReleased;
    first := Pay(db, key, payload, newId);
    second := SendAgain(db, key, payload, newId, unused);
    var retry := db.Process(newId);
  }

  // ---------- the small steps, uninterrupted ----------

  /** A job picked up and left alone decides its transfer as the rows say. */
  lemma LoneTransfer(s: State, pid: Pid, newId: nat) returns (n: nat, r: State)
    requires Safe(s) && pid in s.procs && s.procs[pid].Picked?
    requires s.tables.transfers[s.procs[pid].tid].status == Pending
    requires var row := s.tables.transfers[s.procs[pid].tid];
             row.from.Some? ==> Grantable(s, pid, row.from.value) && Grantable(s, pid, row.to)
    requires newId !in s.tables.transfers && newId !in s.tables.locks
    ensures Leads(s, Steps(pid, newId, n), r)
    ensures pid in r.procs && r.procs[pid] == AttemptOver(s.procs[pid].tid)
    ensures Awaiting(s.tables, s.procs[pid].tid) && Decided(s.tables, r.tables, s.procs[pid].tid)
  {
    hide Decided, Leads, Handled;
    PickedAwaits(s, pid);
    n, r := SoloRunIsProcess(s, pid, newId);
    HandledDecides(s.tables, s.procs[pid].tid);
  }

  lemma PickedAwaits(s: State, pid: Pid)
    requires Safe(s) && pid in s.procs && s.procs[pid].Picked?
    requires s.tables.transfers[s.procs[pid].tid].status == Pending
    ensures Awaiting(s.tables, s.procs[pid].tid)
  {
    var tid := s.procs[pid].tid;
    assert ProcOk(s.tables, s.procs[pid]);
    assert RowOk(s.tables, s.tables.transfers[tid]);
    NotNegative(s.tables, s.tables.transfers[tid].to);
  }

  predicate StepsOf(pid: Pid, actions: seq<Action>) {
    forall i :: 0 <= i < |actions| ==> actions[i].Step? && actions[i].pid == pid
  }

  /** What a finished request was told; a process that died was told nothing. */
  function Told(stage: SubmitPc): Option<Result<Reply, SubmitError>> {
    match stage
    case Replied(tid, created) => Some(Success(Reply(tid, created)))
    case Refused(error) => Some(Failure(error))
    case _ => None
  }

  lemma SubmitterStep(s: State, pid: Pid, id: nat)
    requires pid in s.procs && s.procs[pid].Submitter? && !Finished(s.procs[pid])
    requires id !in s.tables.transfers && id !in s.tables.locks
    ensures Enabled(s, Step(pid, id)) && Apply(s, Step(pid, id)) == StepSubmitter(s, pid, s.procs[pid], id)
  {
  }

  /** `r` is where a request of this payload, left alone from `s`, ends; `told` is what it is told. */
  ghost predicate Ends(s: State, pid: Pid, r: State, told: Result<Reply, SubmitError>) {
    && pid in s.procs && s.procs[pid].Submitter?
    && pid in r.procs && r.procs == s.procs[pid := r.procs[pid]]
    && r.procs[pid].Submitter? && r.procs[pid] == s.procs[pid].(stage := r.procs[pid].stage)
    && Told(r.procs[pid].stage) == Some(told)
    && r.rowLocks == s.rowLocks && r.moved == s.moved
  }

  lemma EnqueuesAlone(s: State, pid: Pid, id: nat) returns (actions: seq<Action>, r: State)
    requires pid in s.procs && s.procs[pid].Submitter? && s.procs[pid].stage.Enqueueing?
    requires id !in s.tables.transfers && id !in s.tables.locks
    ensures StepsOf(pid, actions) && Leads(s, actions, r)
    ensures Ends(s, pid, r, Success(Reply(s.procs[pid].stage.tid, s.procs[pid].stage.created)))
    ensures r.tables == s.tables && r.jobs == Enqueued(s.jobs, s.procs[pid].key, s.procs[pid].stage.tid)
  {
    hide Enabled;
    SubmitterStep(s, pid, id);
    r := Apply(s, Step(pid, id));
    actions := [Step(pid, id)];
    assert Leads(r, [], r);
    Next(s, Step(pid, id), r, [], r);
    assert [Step(pid, id)] + [] == actions;
  }

  lemma ReplaysAlone(s: State, pid: Pid, id: nat)
    returns (actions: seq<Action>, r: State, told: Result<Reply, SubmitError>)
    requires pid in s.procs && s.procs[pid].Submitter? && s.procs[pid].stage.Replaying?
    requires KeyTaken(s.tables, s.procs[pid].key)
    requires id !in s.tables.transfers && id !in s.tables.locks
    ensures StepsOf(pid, actions) && Leads(s, actions, r) && Ends(s, pid, r, told)
    ensures r.tables == s.tables
    ensures ReplayOutcome(s.tables, s.jobs, s.procs[pid].key, s.procs[pid].payload, told, r.jobs)
  {
    hide Enabled, Leads;
    SubmitterStep(s, pid, id);
    var next := Apply(s, Step(pid, id));
    if next.procs[pid].stage.Enqueueing? {
      actions, r := EnqueuesAlone(next, pid, id);
      told := Success(Reply(next.procs[pid].stage.tid, false));
    } else {
      actions, r := [], next;
      assert Leads(next, [], next) by { NoActions(next); }
      told := Told(next.procs[pid].stage).value;
    }
    Next(s, Step(pid, id), next, actions, r);
    actions := [Step(pid, id)] + actions;
  }

  lemma NoActions(s: State)
    ensures Leads(s, [], s)
  {
  }

  lemma InsertsAlone(s: State, pid: Pid, newId: nat, later: nat)
    returns (actions: seq<Action>, r: State, told: Result<Reply, SubmitError>)
    requires pid in s.procs && s.procs[pid].Submitter? && s.procs[pid].stage.InsertingRow?
    requires var payload := s.procs[pid].payload;
      payload.from != payload.to && payload.from in s.tables.balances && payload.to in s.tables.balances
    requires newId !in s.tables.transfers && newId !in s.tables.locks
    requires later !in s.tables.transfers && later !in s.tables.locks && later != newId
    ensures StepsOf(pid, actions) && Leads(s, actions, r) && Ends(s, pid, r, told)
    ensures CreateOutcome(s.tables, s.jobs, s.procs[pid].key, s.procs[pid].payload, newId, told, r.tables, r.jobs)
  {
    hide Enabled, Leads, KeyTaken, ReplayOutcome;
    SubmitterStep(s, pid, newId);
    var next := Apply(s, Step(pid, newId));
    if s.procs[pid].payload.amount <= 0 {
      actions, r, told := [], next, Failure(InvalidAmount);
      NoActions(next);
    } else if KeyTaken(s.tables, s.procs[pid].key) {
      actions, r, told := ReplaysAlone(next, pid, newId);
    } else {
      actions, r := EnqueuesAlone(next, pid, later);
      told := Success(Reply(newId, true));
    }
    Next(s, Step(pid, newId), next, actions, r);
    actions := [Step(pid, newId)] + actions;
  }

  /** A request left alone does to the tables and the queue what one call of the service does. */
  lemma SoloSubmit(s: State, pid: Pid, newId: nat, later: nat)
    returns (actions: seq<Action>, r: State, told: Result<Reply, SubmitError>)
    requires pid in s.procs && s.procs[pid].Submitter? && s.procs[pid].stage.CheckingAccounts?
    requires newId !in s.tables.transfers && newId !in s.tables.locks
    requires later !in s.tables.transfers && later !in s.tables.locks && later != newId
    ensures StepsOf(pid, actions) && Leads(s, actions, r) && Ends(s, pid, r, told)
    ensures CreateOutcome(s.tables, s.jobs, s.procs[pid].key, s.procs[pid].payload, newId, told, r.tables, r.jobs)
  {
    hide Enabled, Leads, KeyTaken, ReplayOutcome;
    SubmitterStep(s, pid, newId);
    var next, payload := Apply(s, Step(pid, newId)), s.procs[pid].payload;
    if payload.from == payload.to || payload.from !in s.tables.balances || payload.to !in s.tables.balances {
      actions, r, told := [], next, Told(next.procs[pid].stage).value;
      NoActions(next);
    } else {
      hide CreateOutcome;
      actions, r, told := InsertsAlone(next, pid, newId, later);
    }
    Next(s, Step(pid, newId), next, actions, r);
    actions := [Step(pid, newId)] + actions;
  }

  /** A lock request left alone does to the tables what one call of the service does. */
  lemma SoloLocker(s: State, pid: Pid, newId: nat) returns (actions: seq<Action>, r: State)
    requires pid in s.procs && s.procs[pid].Locker? && s.procs[pid].at.Asking?
    requires Grantable(s, pid, s.procs[pid].account)
    requires newId !in s.tables.transfers && newId !in s.tables.locks
    ensures StepsOf(pid, actions) && Leads(s, actions, r)
    ensures r.procs == s.procs[pid := Locker(s.procs[pid].account, LockerOver)] && r.jobs == s.jobs
    ensures r.rowLocks == if s.procs[pid].account !in s.tables.balances then s.rowLocks
                          else ReleaseAll(s.rowLocks, pid)
    ensures r.tables == if s.procs[pid].account !in s.tables.balances then s.tables
                        else s.tables.(locks := s.tables.locks[newId := LockRow(s.procs[pid].account, false)])
  {
    var step := Step(pid, newId);
    var asked := Apply(s, step);
    NoActions(asked);
    if s.procs[pid].account !in s.tables.balances {
      actions, r := [step], asked;
      assert [step] + [] == [step];
      Next(s, step, asked, [], asked);
    } else {
      var inserted := Apply(asked, step);
      r := Apply(inserted, step);
      NoActions(r);
      Next(inserted, step, r, [], r);
      Next(asked, step, inserted, [step] + [], r);
      Next(s, step, asked, [step] + ([step] + []), r);
      actions := [step] + ([step] + ([step] + []));
    }
  }
}
