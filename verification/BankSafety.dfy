/**
 The invariant of the money-movement protocol, kept by every step of every
 interleaving: which rows each transaction holds, and what it knows about them.
 */
module BankSafety {
  import opened Wrappers
  import opened BankProtocol

  // ---------- the invariant ----------

  /** The rows whose locks a process holds. */
  function Held(p: Proc): set<AccountId> {
    match p
    case Attempt(_, row, from, pc) =>
      (match pc
       case Acquiring(next, _) =>
         if next == 0 then {} else if next == 1 then {Sorted(from, row.to)[0]} else {from, row.to}
       case Rejected(_) => {}
       case _ => {from, row.to})
    case Locker(account, at) => if at.Inserting? || at.CommittingLock? then {account} else {}
    case _ => {}
  }

  predicate SameTransfer(a: TransferRow, b: TransferRow) {
    a.(status := b.status) == b
  }

  /** Constraints of the schema and of the code that writes the tables. */
  ghost predicate TablesOk(t: Tables) {
    && (forall tid :: tid in t.transfers ==> RowOk(t, t.transfers[tid]))
    && (forall lock :: lock in t.locks ==> t.locks[lock].account in t.balances)
    && (forall a :: a in t.balances ==> t.balances[a] >= 0)
  }

  predicate RowOk(t: Tables, row: TransferRow) {
    && row.amount > 0
    && row.to in t.balances
    && (if row.from.None? then row.key.None? && row.status == Completed
        else && row.from.value in t.balances
             && row.from.value != row.to
             && row.key.Some?
             && row.requestHash == Some(Payload(row.from.value, row.to, row.amount)))
  }

  /** The balances an attempt has read are still the committed ones. */
  predicate Current(t: Tables, rows: map<AccountId, int>) {
    forall a :: a in rows ==> a in t.balances && rows[a] == t.balances[a]
  }

  predicate PastLockCheck(pc: AttemptPc) {
    pc.CheckingFunds? || PastFundsCheck(pc)
  }

  predicate PastFundsCheck(pc: AttemptPc) {
    pc.Debiting? || pc.Crediting? || pc.Marking? || pc.Committing?
  }

  ghost predicate AttemptOk(t: Tables, p: Proc)
    requires p.Attempt?
  {
    && p.tid in t.transfers
    && SameTransfer(p.row, t.transfers[p.tid])
    && p.row.from == Some(p.from)
    && p.from in t.balances && p.row.to in t.balances
    && (PastLockCheck(p.pc) ==> !ActiveLock(t.locks, p.from) && !ActiveLock(t.locks, p.row.to))
    && (PastFundsCheck(p.pc) ==> t.balances[p.from] >= p.row.amount)
    && match p.pc
       case Acquiring(next, rows) => next <= 2 && rows.Keys == Held(p) && Current(t, rows)
       case CheckingLocks(rows) => rows.Keys == Held(p) && Current(t, rows)
       case CheckingFunds(rows) => rows.Keys == Held(p) && Current(t, rows)
       case Debiting => true
       case Crediting(writes) => writes == map[p.from := t.balances[p.from] - p.row.amount]
       case Marking(writes) => writes == Writes(t, p)
       case Committing(writes) => writes == Writes(t, p)
       case Rejected(_) => true
  }

  /** What a completed transaction writes to the accounts. */
  function Writes(t: Tables, p: Proc): map<AccountId, int>
    requires p.Attempt? && p.from in t.balances && p.row.to in t.balances
  {
    map[p.from := t.balances[p.from] - p.row.amount, p.row.to := t.balances[p.row.to] + p.row.amount]
  }

  ghost predicate ProcOk(t: Tables, p: Proc) {
    match p
    case Picked(tid) => tid in t.transfers && t.transfers[tid].from.Some?
    case Attempt(_, _, _, _) => AttemptOk(t, p)
    case AttemptOver(_) => true
    case Locker(account, at) => at.Inserting? || at.CommittingLock? ==> account in t.balances
    case Submitter(key, payload, stage) =>
      && (stage.InsertingRow? ==>
            payload.from != payload.to && payload.from in t.balances && payload.to in t.balances)
      && (stage.Enqueueing? ==> Names(t, stage.tid, key, payload))
      && (stage.Replied? ==> Names(t, stage.tid, key, payload))
  }

  /** The row was created under this key with this payload. */
  predicate Names(t: Tables, tid: TransferId, key: Key, payload: Payload) {
    tid in t.transfers && t.transfers[tid].key == Some(key) && t.transfers[tid].requestHash == Some(payload)
  }

  /** The lock table says of each row exactly which transaction holds it. */
  ghost predicate LocksOk(s: State) {
    && (forall a :: a in s.rowLocks ==> s.rowLocks[a] in s.procs && a in Held(s.procs[s.rowLocks[a]]))
    && (forall pid, a {:trigger a in Held(s.procs[pid])} ::
          pid in s.procs && a in Held(s.procs[pid]) ==> a in s.rowLocks && s.rowLocks[a] == pid)
  }

  ghost predicate JobsOk(s: State) {
    forall key :: key in s.jobs ==>
      s.jobs[key] in s.tables.transfers && s.tables.transfers[s.jobs[key]].key == Some(key)
  }

  ghost predicate ProcsOk(s: State) {
    forall pid :: pid in s.procs ==> ProcOk(s.tables, s.procs[pid])
  }

  ghost predicate Safe(s: State) {
    TablesOk(s.tables) && LocksOk(s) && JobsOk(s) && ProcsOk(s)
  }

  // ---------- what others do ----------

  /** Everything a transaction that holds none of `mine` may rely on survives from `t` to `u`. */
  ghost predicate Undisturbed(t: Tables, u: Tables, mine: set<AccountId>) {
    && (forall a :: a in t.balances ==> a in u.balances)
    && (forall a :: a in t.balances && a !in mine ==> u.balances[a] == t.balances[a])
    && (forall a :: a in t.balances && a !in mine && ActiveLock(u.locks, a) ==> ActiveLock(t.locks, a))
    && (forall tid :: tid in t.transfers ==>
          tid in u.transfers && SameTransfer(t.transfers[tid], u.transfers[tid]))
  }

  lemma Framed(t: Tables, u: Tables, mine: set<AccountId>, p: Proc)
    requires ProcOk(t, p)
    requires Undisturbed(t, u, mine)
    requires Held(p) !! mine
    ensures ProcOk(u, p)
  {
    if p.Attempt? && !p.pc.Rejected? {
      if p.pc.Acquiring? && p.pc.next < 2 {
      } else {
        assert p.from in Held(p) && p.row.to in Held(p);
      }
    }
  }

  lemma OthersFramed(s: State, u: Tables, pid: Pid, mine: set<AccountId>)
    requires LocksOk(s) && ProcsOk(s)
    requires Undisturbed(s.tables, u, mine)
    requires forall a :: a in mine ==> a in s.rowLocks && s.rowLocks[a] == pid
    ensures forall q :: q in s.procs && q != pid ==> ProcOk(u, s.procs[q])
  {
    forall q | q in s.procs && q != pid
      ensures ProcOk(u, s.procs[q])
    {
      Framed(s.tables, u, mine, s.procs[q]);
    }
  }

  // ---------- the row locks ----------

  lemma LocksKept(s: State, r: State, pid: Pid)
    requires LocksOk(s)
    requires pid in r.procs && r.procs == s.procs[pid := r.procs[pid]] && r.rowLocks == s.rowLocks
    requires Held(r.procs[pid]) == if pid in s.procs then Held(s.procs[pid]) else {}
    ensures LocksOk(r)
  {
    forall q, a | q in r.procs && a in Held(r.procs[q])
      ensures a in r.rowLocks && r.rowLocks[a] == q
    {
      assert q in s.procs && a in Held(s.procs[q]);
    }
  }

  lemma LocksReleased(s: State, r: State, pid: Pid)
    requires LocksOk(s)
    requires pid in r.procs && r.procs == s.procs[pid := r.procs[pid]]
    requires r.rowLocks == ReleaseAll(s.rowLocks, pid)
    requires Held(r.procs[pid]) == {}
    ensures LocksOk(r)
  {
    forall q, a | q in r.procs && a in Held(r.procs[q])
      ensures a in r.rowLocks && r.rowLocks[a] == q
    {
      assert q != pid && q in s.procs && a in Held(s.procs[q]);
    }
  }

  lemma LocksAcquired(s: State, r: State, pid: Pid, account: AccountId)
    requires LocksOk(s)
    requires pid in s.procs && Grantable(s, pid, account)
    requires pid in r.procs && r.procs == s.procs[pid := r.procs[pid]]
    requires r.rowLocks == s.rowLocks[account := pid]
    requires Held(r.procs[pid]) == Held(s.procs[pid]) + {account}
    ensures LocksOk(r)
  {
    forall q, a | q in r.procs && a in Held(r.procs[q])
      ensures a in r.rowLocks && r.rowLocks[a] == q
    {
      if q != pid {
        assert q in s.procs && a in Held(s.procs[q]);
      } else if a != account {
        assert a in Held(s.procs[pid]);
      }
    }
  }

  lemma JobsFramed(s: State, r: State, mine: set<AccountId>)
    requires JobsOk(s) && r.jobs == s.jobs
    requires Undisturbed(s.tables, r.tables, mine)
    ensures JobsOk(r)
  {
    forall key | key in r.jobs
      ensures r.jobs[key] in r.tables.transfers && r.tables.transfers[r.jobs[key]].key == Some(key)
    {
      var tid := s.jobs[key];
      assert SameTransfer(s.tables.transfers[tid], r.tables.transfers[tid]);
    }
  }

  // ---------- steps that change no table ----------

  /** One process moves on; tables and jobs stay. */
  lemma QuietStep(s: State, r: State, pid: Pid)
    requires Safe(s)
    requires r.tables == s.tables && r.jobs == s.jobs
    requires pid in r.procs && r.procs == s.procs[pid := r.procs[pid]]
    requires LocksOk(r)
    requires ProcOk(s.tables, r.procs[pid])
    ensures Safe(r)
  {
  }

  /** A transaction ends and its writes become visible; they touch only rows it held. */
  lemma EndsSafe(s: State, r: State, pid: Pid, mine: set<AccountId>)
    requires Safe(s)
    requires r.jobs == s.jobs && r.rowLocks == ReleaseAll(s.rowLocks, pid)
    requires pid in r.procs && r.procs == s.procs[pid := r.procs[pid]]
    requires Held(r.procs[pid]) == {} && ProcOk(r.tables, r.procs[pid])
    requires TablesOk(r.tables) && Undisturbed(s.tables, r.tables, mine)
    requires forall a :: a in mine ==> a in s.rowLocks && s.rowLocks[a] == pid
    ensures Safe(r)
  {
    hide TablesOk, ProcOk, Undisturbed, LocksOk, JobsOk;
    OthersFramed(s, r.tables, pid, mine);
    LocksReleased(s, r, pid);
    JobsFramed(s, r, mine);
  }

  /** The tables grow without disturbing anyone; at most one process, holding what it held, moves on. */
  lemma GrowsSafe(s: State, r: State, pid: Pid)
    requires Safe(s)
    requires r.jobs == s.jobs && r.rowLocks == s.rowLocks
    requires r.procs == s.procs
          || (pid in s.procs && pid in r.procs && r.procs == s.procs[pid := r.procs[pid]]
              && Held(r.procs[pid]) == Held(s.procs[pid]) && ProcOk(r.tables, r.procs[pid]))
    requires TablesOk(r.tables) && Undisturbed(s.tables, r.tables, {})
    ensures Safe(r)
  {
    hide TablesOk, ProcOk, Undisturbed, JobsOk;
    if r.procs != s.procs {
      LocksKept(s, r, pid);
    }
    OthersFramed(s, r.tables, pid, {});
    if r.procs == s.procs && pid in s.procs {
      Framed(s.tables, r.tables, {}, s.procs[pid]);
    }
    JobsFramed(s, r, {});
  }

  lemma AbortSafe(s: State, pid: Pid, tid: TransferId)
    requires Safe(s)
    ensures Safe(Aborted(s, pid, tid))
  {
    var r := Aborted(s, pid, tid);
    LocksReleased(s, r, pid);
    QuietStep(s, r, pid);
  }

  lemma CrashSafe(s: State, pid: Pid)
    requires Safe(s) && pid in s.procs
    ensures Safe(Crashed(s, pid))
  {
    var r := Crashed(s, pid);
    var p := s.procs[pid];
    if !Finished(p) {
      match p
      case Picked(tid) => AbortSafe(s, pid, tid);
      case Attempt(tid, _, _, _) => AbortSafe(s, pid, tid);
      case Locker(_, _) =>
        LocksReleased(s, r, pid);
        QuietStep(s, r, pid);
      case Submitter(_, _, _) =>
        LocksKept(s, r, pid);
        QuietStep(s, r, pid);
      case AttemptOver(_) =>
    }
  }

  lemma SpawnSafe(s: State, r: State, pid: Pid)
    requires Safe(s) && pid !in s.procs
    requires pid in r.procs && r == s.(procs := s.procs[pid := r.procs[pid]])
    requires Held(r.procs[pid]) == {} && ProcOk(s.tables, r.procs[pid])
    ensures Safe(r)
  {
    LocksKept(s, r, pid);
    QuietStep(s, r, pid);
  }

  lemma StepPickedSafe(s: State, pid: Pid, tid: TransferId)
    requires Safe(s) && pid in s.procs && s.procs[pid] == Picked(tid)
    ensures Safe(StepPicked(s, pid, tid))
  {
    var r := StepPicked(s, pid, tid);
    LocksKept(s, r, pid);
    QuietStep(s, r, pid);
  }

  // ---------- an attempt's statements ----------

  lemma AcquireSafe(s: State, pid: Pid, newId: nat)
    requires Enabled(s, Step(pid, newId))
    requires s.procs[pid].Attempt? && s.procs[pid].pc.Acquiring?
    requires Safe(s)
    ensures Safe(Apply(s, Step(pid, newId)))
  {
    hide TablesOk, JobsOk, LocksOk;
    var p := s.procs[pid];
    var next, rows := p.pc.next, p.pc.rows;
    if next >= 2 {
      ContinueSafe(s, pid, CheckingLocks(rows));
    } else {
      var account := Sorted(p.from, p.row.to)[next];
      var r := StepAttempt(s, pid, p);
      assert account in s.tables.balances;
      assert Held(r.procs[pid]) == Held(p) + {account};
      assert rows[account := s.tables.balances[account]].Keys == rows.Keys + {account};
      LocksAcquired(s, r, pid, account);
      QuietStep(s, r, pid);
    }
  }

  /** A statement after which the attempt still holds its rows. */
  lemma ContinueSafe(s: State, pid: Pid, pc: AttemptPc)
    requires Safe(s) && pid in s.procs
    requires var p := s.procs[pid];
             && p.Attempt?
             && AttemptOk(s.tables, p.(pc := pc))
             && Held(p.(pc := pc)) == Held(p)
    ensures Safe(At(s, pid, s.procs[pid], pc))
  {
    hide TablesOk, JobsOk, AttemptOk, Held;
    var r := At(s, pid, s.procs[pid], pc);
    LocksKept(s, r, pid);
    QuietStep(s, r, pid);
  }

  lemma RollBackSafe(s: State, pid: Pid, reason: Reason)
    requires Safe(s) && pid in s.procs && s.procs[pid].Attempt?
    ensures Safe(RolledBack(s, pid, s.procs[pid], reason))
  {
    hide TablesOk, JobsOk;
    var r := RolledBack(s, pid, s.procs[pid], reason);
    LocksReleased(s, r, pid);
    QuietStep(s, r, pid);
  }

  lemma CheckSafe(s: State, pid: Pid, newId: nat)
    requires Enabled(s, Step(pid, newId))
    requires s.procs[pid].Attempt?
    requires s.procs[pid].pc.CheckingLocks? || s.procs[pid].pc.CheckingFunds?
    requires Safe(s)
    ensures Safe(Apply(s, Step(pid, newId)))
  {
    hide TablesOk, JobsOk, LocksOk;
    var p := s.procs[pid];
    match p.pc
    case CheckingLocks(rows) =>
      if ActiveLock(s.tables.locks, p.from) || ActiveLock(s.tables.locks, p.row.to) {
        RollBackSafe(s, pid, AccountLocked);
      } else {
        ContinueSafe(s, pid, CheckingFunds(rows));
      }
    case CheckingFunds(rows) =>
      if rows[p.from] < p.row.amount {
        RollBackSafe(s, pid, InsufficientFunds);
      } else {
        ContinueSafe(s, pid, Debiting);
      }
  }

  lemma DistinctAccounts(t: Tables, p: Proc)
    requires TablesOk(t) && p.Attempt? && AttemptOk(t, p)
    ensures p.from != p.row.to && p.row.amount > 0
  {
    assert RowOk(t, t.transfers[p.tid]);
    assert SameTransfer(p.row, t.transfers[p.tid]);
  }

  lemma UpdateSafe(s: State, pid: Pid, newId: nat)
    requires Enabled(s, Step(pid, newId))
    requires s.procs[pid].Attempt?
    requires var pc := s.procs[pid].pc; pc.Debiting? || pc.Crediting? || pc.Marking?
    requires Safe(s)
    ensures Safe(Apply(s, Step(pid, newId)))
  {
    hide TablesOk, JobsOk, LocksOk;
    var p := s.procs[pid];
    DistinctAccounts(s.tables, p);
    match p.pc
    case Debiting =>
      ContinueSafe(s, pid, Crediting(map[p.from := s.tables.balances[p.from] - p.row.amount]));
    case Crediting(writes) =>
      NotNegative(s.tables, p.row.to);
      ContinueSafe(s, pid, Marking(writes[p.row.to := s.tables.balances[p.row.to] + p.row.amount]));
    case Marking(writes) =>
      ContinueSafe(s, pid, Committing(writes));
  }

  lemma StatusKeepsTables(t: Tables, tid: TransferId, status: Status)
    requires TablesOk(t) && tid in t.transfers && t.transfers[tid].from.Some?
    ensures TablesOk(WithStatus(t, tid, status))
    ensures Undisturbed(t, WithStatus(t, tid, status), {})
  {
  }

  lemma RejectionSafe(s: State, pid: Pid, newId: nat)
    requires Enabled(s, Step(pid, newId))
    requires s.procs[pid].Attempt? && s.procs[pid].pc.Rejected?
    requires Safe(s)
    ensures Safe(Apply(s, Step(pid, newId)))
  {
    hide TablesOk, Undisturbed, LocksOk, JobsOk;
    var p := s.procs[pid];
    assert SameTransfer(p.row, s.tables.transfers[p.tid]);
    StatusKeepsTables(s.tables, p.tid, Failed(p.pc.reason));
    EndsSafe(s, StepAttempt(s, pid, p), pid, {});
  }

  lemma BalancesReplaced(t: Tables, balances: map<AccountId, int>, mine: set<AccountId>)
    requires TablesOk(t)
    requires balances.Keys == t.balances.Keys
    requires forall a :: a in t.balances && a !in mine ==> balances[a] == t.balances[a]
    requires forall a :: a in balances && a in mine ==> balances[a] >= 0
    ensures TablesOk(t.(balances := balances))
    ensures Undisturbed(t, t.(balances := balances), mine)
  {
    forall tid | tid in t.transfers ensures RowOk(t.(balances := balances), t.transfers[tid]) {
      assert RowOk(t, t.transfers[tid]);
    }
  }

  lemma UndisturbedThen(t: Tables, u: Tables, v: Tables, mine: set<AccountId>)
    requires Undisturbed(t, u, {}) && Undisturbed(u, v, mine)
    ensures Undisturbed(t, v, mine)
  {
    forall tid | tid in t.transfers
      ensures tid in v.transfers && SameTransfer(t.transfers[tid], v.transfers[tid])
    {
      assert SameTransfer(t.transfers[tid], u.transfers[tid]);
      assert SameTransfer(u.transfers[tid], v.transfers[tid]);
    }
  }

  lemma NotNegative(t: Tables, account: AccountId)
    requires TablesOk(t) && account in t.balances
    ensures t.balances[account] >= 0
  {
  }

  /** What a commit does to the tables. */
  lemma CommitTables(t: Tables, p: Proc)
    requires TablesOk(t) && p.Attempt? && AttemptOk(t, p) && p.pc.Committing?
    ensures t.transfers[p.tid].from.Some? && p.from != p.row.to
    ensures var v := WithStatus(t, p.tid, Completed).(balances := t.balances + p.pc.writes);
            && TablesOk(v)
            && Undisturbed(t, v, {p.from, p.row.to})
            && v.balances == t.balances[p.from := t.balances[p.from] - p.row.amount]
                                       [p.row.to := t.balances[p.row.to] + p.row.amount]
  {
    hide TablesOk, Undisturbed;
    DistinctAccounts(t, p);
    assert SameTransfer(p.row, t.transfers[p.tid]);
    StatusKeepsTables(t, p.tid, Completed);
    var u := WithStatus(t, p.tid, Completed);
    NotNegative(t, p.row.to);
    BalancesReplaced(u, t.balances + p.pc.writes, {p.from, p.row.to});
    UndisturbedThen(t, u, u.(balances := t.balances + p.pc.writes), {p.from, p.row.to});
  }

  lemma CommitSafe(s: State, pid: Pid, newId: nat)
    requires Enabled(s, Step(pid, newId))
    requires s.procs[pid].Attempt? && s.procs[pid].pc.Committing?
    requires Safe(s)
    ensures Safe(Apply(s, Step(pid, newId)))
  {
    hide TablesOk, Undisturbed, JobsOk;
    var p := s.procs[pid];
    CommitTables(s.tables, p);
    assert p.from in Held(p) && p.row.to in Held(p);
    EndsSafe(s, StepAttempt(s, pid, p), pid, {p.from, p.row.to});
  }

  // ---------- a lock request's statements ----------

  lemma LockInserted(t: Tables, account: AccountId, newId: LockId)
    requires TablesOk(t) && newId !in t.locks && account in t.balances
    ensures var u := t.(locks := t.locks[newId := LockRow(account, false)]);
            TablesOk(u) && Undisturbed(t, u, {account})
  {
    hide RowOk;
    var u := t.(locks := t.locks[newId := LockRow(account, false)]);
    forall tid | tid in t.transfers ensures RowOk(u, t.transfers[tid]) {
      RowOkKept(t, u, t.transfers[tid]);
    }
    forall a | ActiveLock(u.locks, a) && a != account ensures ActiveLock(t.locks, a) {
      var lock :| lock in u.locks && u.locks[lock].account == a && !u.locks[lock].released;
      assert lock in t.locks;
    }
  }

  lemma RowOkKept(t: Tables, u: Tables, row: TransferRow)
    requires RowOk(t, row) && u.balances == t.balances
    ensures RowOk(u, row)
  {
  }

  lemma LockerSafe(s: State, pid: Pid, newId: nat)
    requires Enabled(s, Step(pid, newId))
    requires s.procs[pid].Locker?
    requires Safe(s)
    ensures Safe(Apply(s, Step(pid, newId)))
  {
    hide TablesOk, Undisturbed, JobsOk, ActiveLock;
    var p := s.procs[pid];
    var r := StepLocker(s, pid, p, newId);
    match p.at
    case Asking =>
      if p.account in s.tables.balances {
        LocksAcquired(s, r, pid, p.account);
      } else {
        LocksKept(s, r, pid);
      }
      QuietStep(s, r, pid);
    case Inserting =>
      LocksKept(s, r, pid);
      QuietStep(s, r, pid);
    case CommittingLock =>
      LockInserted(s.tables, p.account, newId);
      assert p.account in Held(p);
      EndsSafe(s, r, pid, {p.account});
  }

  lemma ReleaseSafe(s: State, lock: LockId)
    requires Safe(s) && Enabled(s, Release(lock))
    ensures Safe(Apply(s, Release(lock)))
  {
    var r := Apply(s, Release(lock));
    forall a | ActiveLock(r.tables.locks, a) ensures ActiveLock(s.tables.locks, a) {
      var l :| l in r.tables.locks && r.tables.locks[l].account == a && !r.tables.locks[l].released;
      assert l in s.tables.locks;
    }
    assert Undisturbed(s.tables, r.tables, {});
    GrowsSafe(s, r, 0);
  }

  lemma AccountAdded(t: Tables, account: AccountId, deposit: nat)
    requires TablesOk(t) && account !in t.balances
    ensures TablesOk(t.(balances := t.balances[account := deposit]))
    ensures Undisturbed(t, t.(balances := t.balances[account := deposit]), {})
  {
    var u := t.(balances := t.balances[account := deposit]);
    forall id | id in u.transfers ensures RowOk(u, u.transfers[id]) {
      assert RowOk(t, t.transfers[id]);
    }
  }

  lemma RowAdded(t: Tables, tid: TransferId, row: TransferRow)
    requires TablesOk(t) && tid !in t.transfers && RowOk(t, row)
    ensures TablesOk(t.(transfers := t.transfers[tid := row]))
    ensures Undisturbed(t, t.(transfers := t.transfers[tid := row]), {})
  {
    var u := t.(transfers := t.transfers[tid := row]);
    forall id | id in u.transfers ensures RowOk(u, u.transfers[id]) {
      assert id != tid ==> RowOk(t, t.transfers[id]);
    }
  }

  lemma OpenedTables(s: State, account: AccountId, deposit: nat, tid: TransferId)
    requires TablesOk(s.tables) && account !in s.tables.balances && tid !in s.tables.transfers
    ensures TablesOk(Opened(s, account, deposit, tid).tables)
    ensures Undisturbed(s.tables, Opened(s, account, deposit, tid).tables, {})
  {
    hide TablesOk, Undisturbed;
    AccountAdded(s.tables, account, deposit);
    var t := s.tables.(balances := s.tables.balances[account := deposit]);
    if deposit > 0 {
      RowAdded(t, tid, TransferRow(None, None, None, account, deposit, Completed));
      UndisturbedThen(s.tables, t, Opened(s, account, deposit, tid).tables, {});
    }
  }

  lemma OpenSafe(s: State, account: AccountId, deposit: nat, tid: TransferId)
    requires Safe(s) && Enabled(s, OpenAccount(account, deposit, tid))
    ensures Safe(Opened(s, account, deposit, tid))
  {
    hide TablesOk, Undisturbed, LocksOk, JobsOk, ProcsOk;
    OpenedTables(s, account, deposit, tid);
    GrowsSafe(s, Opened(s, account, deposit, tid), 0);
  }

  // ---------- a submission's statements ----------

  lemma InsertSafe(s: State, pid: Pid, newId: nat)
    requires Enabled(s, Step(pid, newId))
    requires s.procs[pid].Submitter? && s.procs[pid].stage.InsertingRow?
    requires Safe(s)
    ensures Safe(Apply(s, Step(pid, newId)))
  {
    hide TablesOk, Undisturbed, LocksOk, JobsOk, KeyTaken;
    var p := s.procs[pid];
    var r := StepSubmitter(s, pid, p, newId);
    if r.tables == s.tables {
      LocksKept(s, r, pid);
      QuietStep(s, r, pid);
    } else {
      RowAdded(s.tables, newId, r.tables.transfers[newId]);
      GrowsSafe(s, r, pid);
    }
  }

  lemma EnqueueSafe(s: State, pid: Pid, newId: nat)
    requires Enabled(s, Step(pid, newId))
    requires s.procs[pid].Submitter? && s.procs[pid].stage.Enqueueing?
    requires Safe(s)
    ensures Safe(Apply(s, Step(pid, newId)))
  {
    hide TablesOk, Undisturbed, LocksOk;
    LocksKept(s, Apply(s, Step(pid, newId)), pid);
  }

  lemma SubmitterSafe(s: State, pid: Pid, newId: nat)
    requires Enabled(s, Step(pid, newId))
    requires s.procs[pid].Submitter?
    requires Safe(s)
    ensures Safe(Apply(s, Step(pid, newId)))
  {
    hide TablesOk, Undisturbed, LocksOk, JobsOk;
    var p := s.procs[pid];
    if p.stage.InsertingRow? {
      InsertSafe(s, pid, newId);
    } else if p.stage.Enqueueing? {
      EnqueueSafe(s, pid, newId);
    } else {
      var r := StepSubmitter(s, pid, p, newId);
      SubmitterQuiet(s, pid, newId);
      hide StepSubmitter, ProcOk, Held;
      LocksKept(s, r, pid);
      QuietStep(s, r, pid);
    }
  }

  /** The stages of a submission that write nothing. */
  lemma SubmitterQuiet(s: State, pid: Pid, newId: nat)
    requires Enabled(s, Step(pid, newId))
    requires s.procs[pid].Submitter? && !s.procs[pid].stage.InsertingRow? && !s.procs[pid].stage.Enqueueing?
    requires Safe(s)
    ensures var r := StepSubmitter(s, pid, s.procs[pid], newId);
            && r.tables == s.tables && r.jobs == s.jobs && r.rowLocks == s.rowLocks
            && pid in r.procs && r.procs == s.procs[pid := r.procs[pid]]
            && ProcOk(s.tables, r.procs[pid])
            && Held(r.procs[pid]) == Held(s.procs[pid]) == {}
  {
    hide TablesOk, LocksOk, JobsOk, RowOk, Blocked, SameTransfer, Undisturbed;
    assert ProcOk(s.tables, s.procs[pid]);
  }

  lemma AttemptSafe(s: State, pid: Pid, newId: nat)
    requires Enabled(s, Step(pid, newId))
    requires s.procs[pid].Attempt?
    requires Safe(s)
    ensures Safe(Apply(s, Step(pid, newId)))
  {
    match s.procs[pid].pc
    case Acquiring(_, _) => AcquireSafe(s, pid, newId);
    case Committing(_) => CommitSafe(s, pid, newId);
    case Rejected(_) => RejectionSafe(s, pid, newId);
    case CheckingLocks(_) => CheckSafe(s, pid, newId);
    case CheckingFunds(_) => CheckSafe(s, pid, newId);
    case _ => UpdateSafe(s, pid, newId);
  }

  /** Every action keeps the invariant, whatever else is under way. */
  lemma ActionSafe(s: State, a: Action)
    requires Safe(s) && Enabled(s, a)
    ensures Safe(Apply(s, a))
  {
    hide TablesOk, LocksOk, ProcsOk, JobsOk, StepAttempt, StepLocker, StepSubmitter, Opened, Crashed;
    match a
    case OpenAccount(account, deposit, tid) => OpenSafe(s, account, deposit, tid);
    case Submit(pid, _, _) => SpawnSafe(s, Apply(s, a), pid);
    case Pick(pid, key) => PickSafe(s, pid, key);
    case AskLock(pid, _) => SpawnSafe(s, Apply(s, a), pid);
    case Release(lock) => ReleaseSafe(s, lock);
    case Forget(key) => ForgetSafe(s, key);
    case Step(pid, newId) =>
      match s.procs[pid] {
        case Picked(tid) => StepPickedSafe(s, pid, tid);
        case Attempt(_, _, _, _) => AttemptSafe(s, pid, newId);
        case AttemptOver(_) =>
        case Locker(_, _) => LockerSafe(s, pid, newId);
        case Submitter(_, _, _) => SubmitterSafe(s, pid, newId);
      }
    case Crash(pid) => CrashSafe(s, pid);
  }

  lemma PickSafe(s: State, pid: Pid, key: Key)
    requires Safe(s) && Enabled(s, Pick(pid, key))
    ensures Safe(Apply(s, Pick(pid, key)))
  {
    assert RowOk(s.tables, s.tables.transfers[s.jobs[key]]);
    SpawnSafe(s, Apply(s, Pick(pid, key)), pid);
  }

  lemma ForgetSafe(s: State, key: Key)
    requires Safe(s)
    ensures Safe(s.(jobs := s.jobs - {key}))
  {
  }
}
