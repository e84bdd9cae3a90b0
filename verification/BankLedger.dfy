/**
 Where the money is. In every interleaving, overlapping attempts included, the
 balances add up to the opening deposits, none is negative, and each balance is
 what the counted movements make it. When attempts on one transfer do not
 overlap, a transfer has moved exactly when its row says `completed`.
 */
module BankLedger {
  import opened Wrappers
  import opened Sums
  import opened BankProtocol
  import opened BankSafety

  // ---------- definitions ----------

  /** What one execution of this row does to the balance of `account`. */
  function Effect(row: TransferRow, account: AccountId): int {
    (if row.to == account then row.amount else 0) - (if row.from == Some(account) then row.amount else 0)
  }

  function Movements(s: State, account: AccountId): map<TransferId, int> {
    map tid | tid in s.tables.transfers :: s.moved[tid] * Effect(s.tables.transfers[tid], account)
  }

  /** Money in minus money out over the completed rows, opening deposits included. */
  function CompletedEffects(t: Tables, account: AccountId): map<TransferId, int> {
    map tid | tid in t.transfers ::
      if t.transfers[tid].status == Completed then Effect(t.transfers[tid], account) else 0
  }

  function Deposits(t: Tables): map<TransferId, int> {
    map tid | tid in t.transfers :: if t.transfers[tid].from.None? then t.transfers[tid].amount else 0
  }

  /** The committed balances sum to the opening deposits. */
  ghost predicate Conserved(t: Tables) {
    Sum(t.balances) == Sum(Deposits(t))
  }

  ghost predicate NonNegative(t: Tables) {
    forall a :: a in t.balances ==> t.balances[a] >= 0
  }

  /** Every balance is the sum of the movements counted so far. */
  ghost predicate Accounted(s: State) {
    forall a :: a in s.tables.balances ==> s.tables.balances[a] == Sum(Movements(s, a))
  }

  predicate MovedKnown(s: State) {
    forall tid :: tid in s.moved ==> tid in s.tables.transfers
  }

  ghost predicate Ledger(s: State) {
    Conserved(s.tables) && NonNegative(s.tables) && Accounted(s) && MovedKnown(s)
  }

  // ---------- actions that move no money ----------

  /** Statuses, locks and rows never moved aside, nothing a balance depends on changes. */
  ghost predicate SameMoney(s: State, r: State) {
    && r.moved == s.moved
    && r.tables.balances == s.tables.balances
    && (forall tid :: tid in s.tables.transfers ==>
          tid in r.tables.transfers && SameTransfer(s.tables.transfers[tid], r.tables.transfers[tid]))
    && (forall tid :: tid in r.tables.transfers ==> tid in s.tables.transfers)
  }

  lemma SameMoneyLedger(s: State, r: State)
    requires Ledger(s) && SameMoney(s, r)
    ensures Ledger(r)
  {
    assert Deposits(r.tables) == Deposits(s.tables) by {
      forall tid | tid in s.tables.transfers
        ensures Deposits(r.tables)[tid] == Deposits(s.tables)[tid]
      {
        assert SameTransfer(s.tables.transfers[tid], r.tables.transfers[tid]);
      }
    }
    forall a | a in r.tables.balances ensures r.tables.balances[a] == Sum(Movements(r, a)) {
      SameMovements(s, r, a);
    }
  }

  lemma SameMovements(s: State, r: State, a: AccountId)
    requires SameMoney(s, r)
    ensures Movements(r, a) == Movements(s, a)
  {
    forall tid | tid in s.tables.transfers
      ensures Movements(r, a)[tid] == Movements(s, a)[tid]
    {
      assert SameTransfer(s.tables.transfers[tid], r.tables.transfers[tid]);
    }
  }

  /** A row that has not moved and is no deposit adds nothing. */
  lemma RowInserted(s: State, r: State, tid: TransferId, row: TransferRow)
    requires Ledger(s) && tid !in s.tables.transfers
    requires row.from.Some?
    requires r.moved == s.moved && r.tables.balances == s.tables.balances
    requires r.tables.transfers == s.tables.transfers[tid := row]
    ensures Ledger(r)
  {
    assert Deposits(r.tables) == Deposits(s.tables)[tid := 0];
    SumUpdate(Deposits(s.tables), tid, 0);
    assert MovedKnown(r);
    forall a | a in r.tables.balances ensures r.tables.balances[a] == Sum(Movements(r, a)) {
      UnmovedRow(s, r, tid, a);
    }
  }

  lemma UnmovedRow(s: State, r: State, tid: TransferId, a: AccountId)
    requires MovedKnown(s) && r.moved == s.moved
    requires tid !in s.tables.transfers && tid in r.tables.transfers
    requires r.tables.transfers == s.tables.transfers[tid := r.tables.transfers[tid]]
    ensures Sum(Movements(r, a)) == Sum(Movements(s, a))
  {
    assert s.moved[tid] == 0;
    assert Movements(r, a)[tid] == 0;
    assert Movements(r, a) == Movements(s, a)[tid := 0];
    SumUpdate(Movements(s, a), tid, 0);
  }

  // ---------- opening an account ----------

  lemma NothingYet(s: State, account: AccountId)
    requires TablesOk(s.tables) && account !in s.tables.balances
    ensures Sum(Movements(s, account)) == 0
  {
    forall tid | tid in s.tables.transfers
      ensures Movements(s, account)[tid] == 0
    {
      assert RowOk(s.tables, s.tables.transfers[tid]);
      assert Effect(s.tables.transfers[tid], account) == 0;
    }
    SumOfZeros(Movements(s, account));
  }

  lemma DepositMoved(s: State, account: AccountId, deposit: nat, tid: TransferId, a: AccountId)
    requires MovedKnown(s) && tid !in s.tables.transfers && deposit > 0
    ensures Sum(Movements(Opened(s, account, deposit, tid), a))
         == Sum(Movements(s, a)) + if a == account then deposit else 0
  {
    hide Sum;
    var r := Opened(s, account, deposit, tid);
    var v := if a == account then deposit else 0;
    assert Movements(r, a) == Movements(s, a)[tid := v] by {
      assert s.moved[tid] == 0;
      assert Effect(r.tables.transfers[tid], a) == v;
      hide Effect;
    }
    SumUpdate(Movements(s, a), tid, v);
  }

  lemma OpenConserved(s: State, account: AccountId, deposit: nat, tid: TransferId)
    requires Conserved(s.tables) && Enabled(s, OpenAccount(account, deposit, tid))
    ensures Conserved(Opened(s, account, deposit, tid).tables)
  {
    var r := Opened(s, account, deposit, tid);
    SumUpdate(s.tables.balances, account, deposit);
    if deposit > 0 {
      assert Deposits(r.tables) == Deposits(s.tables)[tid := deposit];
      SumUpdate(Deposits(s.tables), tid, deposit);
    } else {
      assert Deposits(r.tables) == Deposits(s.tables);
    }
  }

  lemma OpenAccounted(s: State, account: AccountId, deposit: nat, tid: TransferId, a: AccountId)
    requires TablesOk(s.tables) && Accounted(s) && MovedKnown(s) && Enabled(s, OpenAccount(account, deposit, tid))
    requires a in Opened(s, account, deposit, tid).tables.balances
    ensures var r := Opened(s, account, deposit, tid); r.tables.balances[a] == Sum(Movements(r, a))
  {
    hide TablesOk;
    NothingYet(s, account);
    if deposit > 0 {
      DepositMoved(s, account, deposit, tid, a);
    } else {
      assert Movements(Opened(s, account, deposit, tid), a) == Movements(s, a);
    }
  }

  lemma OpenLedger(s: State, account: AccountId, deposit: nat, tid: TransferId)
    requires Safe(s) && Ledger(s) && Enabled(s, OpenAccount(account, deposit, tid))
    ensures Ledger(Opened(s, account, deposit, tid))
  {
    hide Conserved, TablesOk, LocksOk, JobsOk, ProcsOk, Movements;
    var r := Opened(s, account, deposit, tid);
    OpenConserved(s, account, deposit, tid);
    forall a | a in r.tables.balances ensures r.tables.balances[a] == Sum(Movements(r, a)) {
      OpenAccounted(s, account, deposit, tid, a);
    }
  }

  // ---------- committing a transfer ----------

  lemma TransferMoved(s: State, r: State, tid: TransferId, a: AccountId)
    requires tid in s.tables.transfers
    requires r.tables.transfers == WithStatus(s.tables, tid, Completed).transfers
    requires r.moved == s.moved + multiset{tid}
    ensures Sum(Movements(r, a)) == Sum(Movements(s, a)) + Effect(s.tables.transfers[tid], a)
  {
    hide Sum;
    var e := Effect(s.tables.transfers[tid], a);
    assert Movements(r, a) == Movements(s, a)[tid := s.moved[tid] * e + e] by {
      assert Effect(r.tables.transfers[tid], a) == e;
      hide Effect;
      assert r.moved[tid] * e == s.moved[tid] * e + e;
    }
    SumUpdate(Movements(s, a), tid, s.moved[tid] * e + e);
  }

  lemma PairKeepsSum(m: map<AccountId, int>, from: AccountId, to: AccountId, amount: int)
    requires from in m && to in m && from != to
    ensures Sum(m[from := m[from] - amount][to := m[to] + amount]) == Sum(m)
  {
    SumUpdate(m, from, m[from] - amount);
    SumUpdate(m[from := m[from] - amount], to, m[to] + amount);
  }

  lemma CommitConserved(s: State, r: State, p: Proc)
    requires TablesOk(s.tables) && Conserved(s.tables) && NonNegative(s.tables)
    requires p.Attempt? && AttemptOk(s.tables, p) && p.pc.Committing?
    requires r.tables == WithStatus(s.tables, p.tid, Completed).(balances := s.tables.balances + p.pc.writes)
    ensures Conserved(r.tables) && NonNegative(r.tables)
    ensures forall a :: a in r.tables.balances ==>
              a in s.tables.balances
              && r.tables.balances[a] == s.tables.balances[a] + Effect(s.tables.transfers[p.tid], a)
  {
    hide TablesOk, AttemptOk, Conserved, NonNegative;
    CommitSum(s.tables, r.tables, p);
    CommitEffect(s.tables, r.tables, p);
  }

  lemma CommitSum(t: Tables, u: Tables, p: Proc)
    requires TablesOk(t) && Conserved(t) && NonNegative(t)
    requires p.Attempt? && AttemptOk(t, p) && p.pc.Committing?
    requires u == WithStatus(t, p.tid, Completed).(balances := t.balances + p.pc.writes)
    ensures Conserved(u) && NonNegative(u)
  {
    hide TablesOk, Undisturbed;
    CommitTables(t, p);
    DistinctAccounts(t, p);
    PairKeepsSum(t.balances, p.from, p.row.to, p.row.amount);
    assert Deposits(u) == Deposits(t);
  }

  lemma CommitEffect(t: Tables, u: Tables, p: Proc)
    requires TablesOk(t)
    requires p.Attempt? && AttemptOk(t, p) && p.pc.Committing?
    requires u == WithStatus(t, p.tid, Completed).(balances := t.balances + p.pc.writes)
    ensures forall a :: a in u.balances ==>
              a in t.balances && u.balances[a] == t.balances[a] + Effect(t.transfers[p.tid], a)
  {
    hide TablesOk, Undisturbed;
    CommitTables(t, p);
    DistinctAccounts(t, p);
    assert SameTransfer(p.row, t.transfers[p.tid]);
  }

  lemma CommitStep(s: State, pid: Pid, p: Proc)
    requires p.Attempt? && p.pc.Committing? && p.tid in s.tables.transfers
    ensures var r := StepAttempt(s, pid, p);
            && r.tables == WithStatus(s.tables, p.tid, Completed).(balances := s.tables.balances + p.pc.writes)
            && r.moved == s.moved + multiset{p.tid}
  {
  }

  lemma CommitLedger(s: State, pid: Pid, newId: nat)
    requires Enabled(s, Step(pid, newId))
    requires s.procs[pid].Attempt? && s.procs[pid].pc.Committing?
    requires Safe(s) && Ledger(s)
    ensures Ledger(Apply(s, Step(pid, newId)))
  {
    hide TablesOk, LocksOk, JobsOk, Conserved, NonNegative, Effect, StepAttempt, Movements;
    var p := s.procs[pid];
    var r := StepAttempt(s, pid, p);
    CommitStep(s, pid, p);
    CommitConserved(s, r, p);
    forall a | a in r.tables.balances ensures r.tables.balances[a] == Sum(Movements(r, a)) {
      TransferMoved(s, r, p.tid, a);
    }
  }

  // ---------- every action ----------

  lemma AttemptLedger(s: State, pid: Pid, newId: nat)
    requires Enabled(s, Step(pid, newId))
    requires s.procs[pid].Attempt?
    requires Safe(s) && Ledger(s)
    ensures Ledger(Apply(s, Step(pid, newId)))
  {
    hide Ledger, Safe;
    if s.procs[pid].pc.Committing? {
      CommitLedger(s, pid, newId);
    } else {
      SameMoneyLedger(s, Apply(s, Step(pid, newId)));
    }
  }

  lemma SubmitterLedger(s: State, pid: Pid, newId: nat)
    requires Enabled(s, Step(pid, newId))
    requires s.procs[pid].Submitter?
    requires Safe(s) && Ledger(s)
    ensures Ledger(Apply(s, Step(pid, newId)))
  {
    hide Ledger, Safe;
    var r := Apply(s, Step(pid, newId));
    if r.tables == s.tables {
      SameMoneyLedger(s, r);
    } else {
      RowInserted(s, r, newId, r.tables.transfers[newId]);
    }
  }

  lemma ActionLedger(s: State, a: Action)
    requires Safe(s) && Ledger(s) && Enabled(s, a)
    ensures Ledger(Apply(s, a))
  {
    hide Ledger, Safe, StepAttempt, StepSubmitter, Opened;
    match a
    case OpenAccount(account, deposit, tid) => OpenLedger(s, account, deposit, tid);
    case Step(pid, newId) =>
      if s.procs[pid].Attempt? {
        AttemptLedger(s, pid, newId);
      } else if s.procs[pid].Submitter? {
        SubmitterLedger(s, pid, newId);
      } else {
        SameMoneyLedger(s, Apply(s, a));
      }
    case _ => SameMoneyLedger(s, Apply(s, a));
  }

  lemma InitiallySafe()
    ensures Safe(INITIAL) && Ledger(INITIAL)
  {
    assert Deposits(INITIAL.tables) == map[];
  }

  lemma {:induction false} RunSafe(states: seq<State>, actions: seq<Action>, n: nat)
    requires IsRun(states, actions) && n < |states|
    ensures Safe(states[n]) && Ledger(states[n])
  {
    hide Ledger, Safe, Apply, Enabled;
    if n == 0 {
      InitiallySafe();
    } else {
      RunSafe(states, actions, n - 1);
      ActionSafe(states[n - 1], actions[n - 1]);
      ActionLedger(states[n - 1], actions[n - 1]);
    }
  }

  /**
   Conservation under any interleaving: in every state of every run, whatever overlaps, crashes and
   is redelivered, the balances sum to the opening deposits, none is negative, and each is the sum
   of the movements counted so far.
   */
  lemma Conservation(states: seq<State>, actions: seq<Action>, n: nat)
    requires IsRun(states, actions) && n < |states|
    ensures Sum(states[n].tables.balances) == Sum(Deposits(states[n].tables))
    ensures forall a :: a in states[n].tables.balances ==>
              && states[n].tables.balances[a] >= 0
              && states[n].tables.balances[a] == Sum(Movements(states[n], a))
  {
    RunSafe(states, actions, n);
  }

  // ---------- attempts that do not overlap ----------

  /** At most one attempt on a transfer is live. */
  ghost predicate Single(procs: map<Pid, Proc>) {
    forall p, q, tid {:trigger Live(procs[p], tid), Live(procs[q], tid)} ::
      p in procs && q in procs && Live(procs[p], tid) && Live(procs[q], tid) ==> p == q
  }

  /** Until an attempt is decided and its outcome written, the row is pending. */
  ghost predicate AttemptsPending(s: State) {
    forall p :: p in s.procs && s.procs[p].Attempt? ==> IsPending(s.tables, s.procs[p].tid)
  }

  predicate IsPending(t: Tables, tid: TransferId) {
    tid in t.transfers && t.transfers[tid].status == Pending
  }

  /** A transfer has moved once if its row is completed, and not at all otherwise. */
  ghost predicate MovedIffCompleted(s: State) {
    forall tid :: tid in s.tables.transfers ==>
      s.moved[tid] == if s.tables.transfers[tid].status == Completed then 1 else 0
  }

  ghost predicate Separate(s: State) {
    Single(s.procs) && AttemptsPending(s) && MovedIffCompleted(s)
  }

  /** One process changes and does not become live on anything it was not live on. */
  lemma LiveShrinks(procs: map<Pid, Proc>, pid: Pid, p: Proc)
    requires Single(procs)
    requires p.Picked? || p.Attempt? ==> pid in procs && Live(procs[pid], p.tid)
    ensures Single(procs[pid := p])
  {
  }

  lemma PickSingle(procs: map<Pid, Proc>, pid: Pid, tid: TransferId)
    requires Single(procs) && pid !in procs
    requires forall q :: q in procs ==> !Live(procs[q], tid)
    ensures Single(procs[pid := Picked(tid)])
  {
  }

  /** One process changes, rows may be added, no status and no count changes. */
  lemma RowsKept(s: State, r: State, pid: Pid)
    requires Separate(s) && MovedKnown(s)
    requires pid in r.procs && r.procs == s.procs[pid := r.procs[pid]] && r.moved == s.moved
    requires Single(r.procs)
    requires r.procs[pid].Attempt? ==> IsPending(r.tables, r.procs[pid].tid)
    requires forall tid :: tid in s.tables.transfers ==>
               tid in r.tables.transfers && r.tables.transfers[tid].status == s.tables.transfers[tid].status
    requires forall tid :: tid in r.tables.transfers && tid !in s.tables.transfers ==>
               r.tables.transfers[tid].status == Pending
    ensures Separate(r)
  {
    forall tid | tid in r.tables.transfers
      ensures r.moved[tid] == if r.tables.transfers[tid].status == Completed then 1 else 0
    {
      if tid !in s.tables.transfers {
        assert s.moved[tid] == 0;
      }
    }
    forall q | q in r.procs && r.procs[q].Attempt? ensures IsPending(r.tables, r.procs[q].tid) {
      if q != pid {
        assert IsPending(s.tables, s.procs[q].tid);
      }
    }
  }

  /** An attempt is decided: its row gets its terminal status and the attempt is over. */
  lemma Decided(s: State, r: State, pid: Pid, status: Status)
    requires Separate(s)
    requires pid in s.procs && s.procs[pid].Attempt?
    requires var tid := s.procs[pid].tid;
             && tid in s.tables.transfers
             && r.tables.transfers == WithStatus(s.tables, tid, status).transfers
             && r.procs == s.procs[pid := AttemptOver(tid)]
             && r.moved == if status == Completed then s.moved + multiset{tid} else s.moved
    ensures Separate(r)
  {
    var tid := s.procs[pid].tid;
    assert IsPending(s.tables, tid) && s.moved[tid] == 0;
    LiveShrinks(s.procs, pid, AttemptOver(tid));
    forall q | q in r.procs && r.procs[q].Attempt? ensures IsPending(r.tables, r.procs[q].tid) {
      assert IsPending(s.tables, s.procs[q].tid);
      if s.procs[q].tid == tid {
        assert Live(s.procs[q], tid) && Live(s.procs[pid], tid);
      }
    }
  }

  /** From `s` to `r` only the process of one attempt moved on. */
  ghost predicate MovedOn(s: State, r: State, pid: Pid, tid: TransferId) {
    && r.tables == s.tables && r.moved == s.moved
    && pid in r.procs && r.procs == s.procs[pid := r.procs[pid]]
    && (r.procs[pid].Attempt? || r.procs[pid].AttemptOver?) && r.procs[pid].tid == tid
  }

  lemma AbortMovesOn(s: State, pid: Pid, tid: TransferId)
    ensures MovedOn(s, Aborted(s, pid, tid), pid, tid)
  {
  }

  lemma AttemptMovesOn(s: State, pid: Pid, p: Proc, pc: AttemptPc, rowLocks: map<AccountId, Pid>)
    requires p.Attempt?
    ensures MovedOn(s, At(s, pid, p, pc).(rowLocks := rowLocks), pid, p.tid)
    ensures MovedOn(s, At(s, pid, p, pc), pid, p.tid)
  {
  }

  /** Before the commit an attempt's statements change no table. */
  lemma StatementOnly(s: State, pid: Pid, p: Proc)
    requires p.Attempt? && !p.pc.Committing? && !p.pc.Rejected?
    ensures MovedOn(s, StepAttempt(s, pid, p), pid, p.tid)
  {
    hide MovedOn, Aborted, At, ActiveLock;
    var r := StepAttempt(s, pid, p);
    AbortMovesOn(s, pid, p.tid);
    match p.pc
    case Acquiring(next, rows) =>
      if next >= 2 {
        AttemptMovesOn(s, pid, p, CheckingLocks(rows), s.rowLocks);
      } else {
        var account := Sorted(p.from, p.row.to)[next];
        if account in s.tables.balances {
          AttemptMovesOn(s, pid, p, Acquiring(next + 1, rows[account := s.tables.balances[account]]),
                         s.rowLocks[account := pid]);
        }
      }
    case CheckingLocks(rows) =>
      RollBackMovesOn(s, pid, p, AccountLocked);
      AttemptMovesOn(s, pid, p, CheckingFunds(rows), s.rowLocks);
    case CheckingFunds(rows) =>
      RollBackMovesOn(s, pid, p, InsufficientFunds);
      AttemptMovesOn(s, pid, p, Debiting, s.rowLocks);
    case Debiting =>
      if p.from in s.tables.balances {
        AttemptMovesOn(s, pid, p, Crediting(map[p.from := s.tables.balances[p.from] - p.row.amount]), s.rowLocks);
      }
    case Crediting(writes) =>
      if p.row.to in s.tables.balances {
        var visible := if p.row.to in writes then writes[p.row.to] else s.tables.balances[p.row.to];
        AttemptMovesOn(s, pid, p, Marking(writes[p.row.to := visible + p.row.amount]), s.rowLocks);
      }
    case Marking(writes) =>
      AttemptMovesOn(s, pid, p, Committing(writes), s.rowLocks);
  }

  lemma RollBackMovesOn(s: State, pid: Pid, p: Proc, reason: Reason)
    requires p.Attempt?
    ensures MovedOn(s, RolledBack(s, pid, p, reason), pid, p.tid)
  {
  }

  lemma AttemptSeparate(s: State, pid: Pid, newId: nat)
    requires Enabled(s, Step(pid, newId))
    requires s.procs[pid].Attempt?
    requires Safe(s) && MovedKnown(s) && Separate(s)
    ensures Separate(Apply(s, Step(pid, newId)))
  {
    var p := s.procs[pid];
    assert IsPending(s.tables, p.tid);
    if p.pc.Committing? {
      hide Safe, Single;
      Decided(s, StepAttempt(s, pid, p), pid, Completed);
    } else if p.pc.Rejected? {
      hide Safe, Single;
      Decided(s, StepAttempt(s, pid, p), pid, Failed(p.pc.reason));
    } else {
      hide StepAttempt, Safe, Single, AttemptsPending, MovedIffCompleted;
      var r := StepAttempt(s, pid, p);
      StatementOnly(s, pid, p);
      LiveShrinks(s.procs, pid, r.procs[pid]);
      RowsKept(s, r, pid);
    }
  }

  lemma PickedSeparate(s: State, pid: Pid, newId: nat)
    requires Enabled(s, Step(pid, newId))
    requires s.procs[pid].Picked?
    requires MovedKnown(s) && Separate(s)
    ensures Separate(Apply(s, Step(pid, newId)))
  {
    hide Single;
    var r := StepPicked(s, pid, s.procs[pid].tid);
    LiveShrinks(s.procs, pid, r.procs[pid]);
    RowsKept(s, r, pid);
  }

  lemma StepSeparate(s: State, pid: Pid, newId: nat)
    requires Safe(s) && MovedKnown(s) && Separate(s) && Enabled(s, Step(pid, newId))
    ensures Separate(Apply(s, Step(pid, newId)))
  {
    hide Safe, Separate, StepAttempt, Single, Blocked, ReleaseAll, KeyTaken;
    var r := Apply(s, Step(pid, newId));
    match s.procs[pid]
    case Picked(_) => PickedSeparate(s, pid, newId);
    case Attempt(_, _, _, _) => AttemptSeparate(s, pid, newId);
    case AttemptOver(_) =>
    case Locker(_, _) => BystanderSeparate(s, r, pid);
    case Submitter(_, _, _) => BystanderSeparate(s, r, pid);
  }

  /** A step of a process that is no attempt. */
  lemma BystanderSeparate(s: State, r: State, pid: Pid)
    requires Separate(s) && MovedKnown(s)
    requires pid in r.procs && r.procs == s.procs[pid := r.procs[pid]] && r.moved == s.moved
    requires !r.procs[pid].Attempt? && !r.procs[pid].Picked?
    requires forall tid :: tid in s.tables.transfers ==>
               tid in r.tables.transfers && r.tables.transfers[tid].status == s.tables.transfers[tid].status
    requires forall tid :: tid in r.tables.transfers && tid !in s.tables.transfers ==>
               r.tables.transfers[tid].status == Pending
    ensures Separate(r)
  {
    hide Single;
    LiveShrinks(s.procs, pid, r.procs[pid]);
    RowsKept(s, r, pid);
  }

  lemma OpenSeparate(s: State, account: AccountId, deposit: nat, tid: TransferId)
    requires Separate(s) && MovedKnown(s) && Enabled(s, OpenAccount(account, deposit, tid))
    ensures Separate(Opened(s, account, deposit, tid))
  {
    hide Single;
    var r := Opened(s, account, deposit, tid);
    assert s.moved[tid] == 0;
    forall q | q in r.procs && r.procs[q].Attempt? ensures IsPending(r.tables, r.procs[q].tid) {
      assert IsPending(s.tables, s.procs[q].tid);
    }
  }

  lemma ActionSeparate(s: State, a: Action)
    requires Safe(s) && MovedKnown(s) && Separate(s) && Enabled(s, a) && Exclusive(s, a)
    ensures Separate(Apply(s, a))
  {
    hide Safe, Separate, MovedKnown, Opened, Crashed, StepAttempt, StepSubmitter, StepLocker;
    var r := Apply(s, a);
    match a
    case OpenAccount(account, deposit, tid) => OpenSeparate(s, account, deposit, tid);
    case Step(pid, newId) => StepSeparate(s, pid, newId);
    case Pick(pid, key) => PickedUpSeparate(s, pid, key);
    case Crash(pid) => CrashSeparate(s, pid);
    case Release(_) => QuietSeparate(s, r);
    case Forget(_) => QuietSeparate(s, r);
    case Submit(pid, _, _) => BystanderSeparate(s, r, pid);
    case AskLock(pid, _) => BystanderSeparate(s, r, pid);
  }

  lemma QuietSeparate(s: State, r: State)
    requires Separate(s)
    requires r.procs == s.procs && r.moved == s.moved && r.tables.transfers == s.tables.transfers
    ensures Separate(r)
  {
  }

  lemma PickedUpSeparate(s: State, pid: Pid, key: Key)
    requires MovedKnown(s) && Separate(s) && Enabled(s, Pick(pid, key)) && Exclusive(s, Pick(pid, key))
    ensures Separate(Apply(s, Pick(pid, key)))
  {
    hide Single;
    PickSingle(s.procs, pid, s.jobs[key]);
    RowsKept(s, Apply(s, Pick(pid, key)), pid);
  }

  lemma CrashSeparate(s: State, pid: Pid)
    requires MovedKnown(s) && Separate(s) && pid in s.procs
    ensures Separate(Crashed(s, pid))
  {
    hide Separate, MovedKnown, ReleaseAll;
    var r := Crashed(s, pid);
    if r != s {
      BystanderSeparate(s, r, pid);
    }
  }

  lemma {:induction false} ExclusiveRunSeparate(states: seq<State>, actions: seq<Action>, n: nat)
    requires IsExclusiveRun(states, actions) && n < |states|
    ensures Separate(states[n])
  {
    hide Separate, Safe, Ledger, Apply, Enabled, Exclusive;
    if n == 0 {
      InitiallySeparate();
    } else {
      ExclusiveRunSeparate(states, actions, n - 1);
      RunSafe(states, actions, n - 1);
      LedgerKnows(states[n - 1]);
      ActionSeparate(states[n - 1], actions[n - 1]);
    }
  }

  lemma LedgerKnows(s: State)
    requires Ledger(s)
    ensures MovedKnown(s)
  {
  }

  lemma InitiallySeparate()
    ensures Separate(INITIAL)
  {
  }

  // ---------- the ledger agrees with the rows ----------

  lemma CompletedIsMoved(s: State, a: AccountId)
    requires MovedIffCompleted(s)
    ensures Movements(s, a) == CompletedEffects(s.tables, a)
  {
    forall tid | tid in s.tables.transfers
      ensures Movements(s, a)[tid] == CompletedEffects(s.tables, a)[tid]
    {
      var e := Effect(s.tables.transfers[tid], a);
      assert 1 * e == e && 0 * e == 0;
    }
  }

  /**
   Ledger agreement: over every run with crashes at any step, retries, redelivered jobs and replayed
   requests in which attempts on one transfer do not overlap, each transfer's money has moved exactly
   once if its row is completed and not at all otherwise, and every balance is completed money in,
   opening deposit included, minus completed money out.
   */
  lemma LedgerAgreement(states: seq<State>, actions: seq<Action>, n: nat)
    requires IsExclusiveRun(states, actions) && n < |states|
    ensures var s := states[n];
            && (forall tid :: tid in s.tables.transfers ==>
                  s.moved[tid] == if s.tables.transfers[tid].status == Completed then 1 else 0)
            && (forall a :: a in s.tables.balances ==>
                  s.tables.balances[a] == Sum(CompletedEffects(s.tables, a)))
  {
    hide Movements, CompletedEffects;
    RunSafe(states, actions, n);
    ExclusiveRunSeparate(states, actions, n);
    forall a | a in states[n].tables.balances
      ensures states[n].tables.balances[a] == Sum(CompletedEffects(states[n].tables, a))
    {
      CompletedIsMoved(states[n], a);
    }
  }

  // ---------- terminal statuses ----------

  predicate Terminal(t: Tables, tid: TransferId) {
    tid in t.transfers && t.transfers[tid].status != Pending
  }

  lemma DecidesOwnRowOnly(s: State, pid: Pid, p: Proc, tid: TransferId)
    requires p.Attempt? && tid in s.tables.transfers && tid != p.tid
    ensures var r := StepAttempt(s, pid, p);
            tid in r.tables.transfers && r.tables.transfers[tid] == s.tables.transfers[tid]
  {
    if !p.pc.Committing? && !p.pc.Rejected? {
      hide StepAttempt;
      StatementOnly(s, pid, p);
    }
  }

  lemma ActionKeepsTerminal(s: State, a: Action, tid: TransferId)
    requires Safe(s) && Separate(s) && Enabled(s, a)
    requires Terminal(s.tables, tid)
    ensures Terminal(Apply(s, a).tables, tid)
    ensures Apply(s, a).tables.transfers[tid] == s.tables.transfers[tid]
  {
    hide Safe, Single, MovedIffCompleted, ActiveLock, StepAttempt;
    if a.Step? && s.procs[a.pid].Attempt? {
      var p := s.procs[a.pid];
      assert IsPending(s.tables, p.tid);
      DecidesOwnRowOnly(s, a.pid, p, tid);
    }
  }

  /** Without overlap, a completed or failed row is never changed again. */
  lemma {:induction false} TerminalForever(states: seq<State>, actions: seq<Action>, i: nat, j: nat, tid: TransferId)
    requires IsExclusiveRun(states, actions) && i <= j < |states|
    requires Terminal(states[i].tables, tid)
    ensures Terminal(states[j].tables, tid)
    ensures states[j].tables.transfers[tid] == states[i].tables.transfers[tid]
    decreases j - i
  {
    hide Separate, Safe, Ledger, Apply, Enabled, Exclusive;
    if i < j {
      TerminalForever(states, actions, i, j - 1, tid);
      RunSafe(states, actions, j - 1);
      ExclusiveRunSeparate(states, actions, j - 1);
      ActionKeepsTerminal(states[j - 1], actions[j - 1], tid);
    }
  }

  // ---------- exactly when terminal statuses stay ----------

  /** The status that a decided attempt is about to write. */
  function Verdict(pc: AttemptPc): Status
    requires pc.Committing? || pc.Rejected?
  {
    if pc.Committing? then Completed else Failed(pc.reason)
  }

  /** The action writes a verdict on a row that is decided already; its status may stay the same. */
  predicate DecidesTerminal(s: State, a: Action) {
    && a.Step? && a.pid in s.procs
    && var p := s.procs[a.pid];
       && p.Attempt? && (p.pc.Committing? || p.pc.Rejected?) && Terminal(s.tables, p.tid)
  }

  /** Without overlap no verdict is ever written on a decided row, not even the one it has. */
  lemma DecidedOnce(states: seq<State>, actions: seq<Action>, i: nat)
    requires IsExclusiveRun(states, actions) && i < |actions|
    ensures !DecidesTerminal(states[i], actions[i])
  {
    hide Safe, Apply, Enabled, Exclusive, Single, MovedIffCompleted;
    ExclusiveRunSeparate(states, actions, i);
    var s, a := states[i], actions[i];
    if a.Step? && a.pid in s.procs && s.procs[a.pid].Attempt? {
      assert IsPending(s.tables, s.procs[a.pid].tid);
    }
  }

  /** The action writes a verdict over a different terminal status. */
  predicate Overturns(s: State, a: Action) {
    && a.Step? && a.pid in s.procs
    && var p := s.procs[a.pid];
       && p.Attempt? && (p.pc.Committing? || p.pc.Rejected?)
       && Terminal(s.tables, p.tid) && s.tables.transfers[p.tid].status != Verdict(p.pc)
  }

  ghost predicate TerminalKept(before: Tables, after: Tables) {
    forall tid :: Terminal(before, tid) ==>
      tid in after.transfers && after.transfers[tid] == before.transfers[tid]
  }

  lemma VerdictWritten(s: State, pid: Pid, p: Proc)
    requires p.Attempt? && (p.pc.Committing? || p.pc.Rejected?) && p.tid in s.tables.transfers
    ensures StepAttempt(s, pid, p).tables.transfers == WithStatus(s.tables, p.tid, Verdict(p.pc)).transfers
  {
  }

  lemma ActionOverturns(s: State, a: Action)
    requires Safe(s) && Enabled(s, a)
    ensures TerminalKept(s.tables, Apply(s, a).tables) <==> !Overturns(s, a)
  {
    hide Safe, ActiveLock, StepAttempt, KeyTaken, Blocked;
    if a.Step? && s.procs[a.pid].Attempt? {
      var p := s.procs[a.pid];
      if p.pc.Committing? || p.pc.Rejected? {
        AttemptNamesRow(s, a.pid);
        VerdictWritten(s, a.pid, p);
      } else {
        StatementOnly(s, a.pid, p);
      }
    }
  }

  lemma AttemptNamesRow(s: State, pid: Pid)
    requires Safe(s) && pid in s.procs && s.procs[pid].Attempt?
    ensures s.procs[pid].tid in s.tables.transfers
  {
    assert ProcOk(s.tables, s.procs[pid]);
  }

  /**
   In any run at all, every completed or failed row keeps its status and its reason, and with them the
   whole modelled row, from any state to any later one exactly when no attempt writes a verdict over a
   different terminal status: neither a failure over a completed row, nor a completion or another
   failure over a failed one.
   */
  lemma TerminalExactly(states: seq<State>, actions: seq<Action>)
    requires IsRun(states, actions)
    ensures (forall i, j :: 0 <= i <= j < |states| ==> TerminalKept(states[i].tables, states[j].tables))
       <==> (forall i :: 0 <= i < |actions| ==> !Overturns(states[i], actions[i]))
  {
    hide Safe, Ledger, Apply, Enabled, TerminalKept, Overturns;
    if forall i, j :: 0 <= i <= j < |states| ==> TerminalKept(states[i].tables, states[j].tables) {
      forall i | 0 <= i < |actions| ensures !Overturns(states[i], actions[i]) {
        RunSafe(states, actions, i);
        assert TerminalKept(states[i].tables, states[i + 1].tables);
        ActionOverturns(states[i], actions[i]);
      }
    }
    if forall i :: 0 <= i < |actions| ==> !Overturns(states[i], actions[i]) {
      forall i, j | 0 <= i <= j < |states| ensures TerminalKept(states[i].tables, states[j].tables) {
        NeverOverturned(states, actions, i, j);
      }
    }
  }

  lemma {:induction false} NeverOverturned(states: seq<State>, actions: seq<Action>, i: nat, j: nat)
    requires IsRun(states, actions) && i <= j < |states|
    requires forall n :: 0 <= n < |actions| ==> !Overturns(states[n], actions[n])
    ensures TerminalKept(states[i].tables, states[j].tables)
    decreases j - i
  {
    hide Safe, Ledger, Apply, Enabled, Overturns;
    if i < j {
      NeverOverturned(states, actions, i, j - 1);
      RunSafe(states, actions, j - 1);
      ActionOverturns(states[j - 1], actions[j - 1]);
    }
  }

  // ---------- exactly when the counts agree with the rows ----------

  /** The action commits a transfer, or writes its failure, although the row is already completed. */
  predicate DecidesCompleted(s: State, a: Action) {
    && a.Step? && a.pid in s.procs
    && var p := s.procs[a.pid];
       && p.Attempt? && (p.pc.Committing? || p.pc.Rejected?)
       && p.tid in s.tables.transfers && s.tables.transfers[p.tid].status == Completed
  }

  lemma DecisionExact(s: State, pid: Pid, newId: nat)
    requires Enabled(s, Step(pid, newId))
    requires s.procs[pid].Attempt? && (s.procs[pid].pc.Committing? || s.procs[pid].pc.Rejected?)
    requires Safe(s) && MovedIffCompleted(s)
    ensures MovedIffCompleted(Apply(s, Step(pid, newId))) <==> !DecidesCompleted(s, Step(pid, newId))
  {
    hide TablesOk, LocksOk, JobsOk;
    var p := s.procs[pid];
    var r := StepAttempt(s, pid, p);
    assert p.tid in r.tables.transfers;
    assert r.moved[p.tid] == s.moved[p.tid] + if p.pc.Committing? then 1 else 0;
  }

  lemma OpenAgrees(s: State, account: AccountId, deposit: nat, tid: TransferId)
    requires MovedKnown(s) && MovedIffCompleted(s) && Enabled(s, OpenAccount(account, deposit, tid))
    ensures MovedIffCompleted(Opened(s, account, deposit, tid))
  {
    assert s.moved[tid] == 0;
  }

  /** Rows keep their status and new ones are pending. */
  lemma NothingMovedAgrees(s: State, r: State)
    requires MovedKnown(s) && MovedIffCompleted(s) && r.moved == s.moved
    requires forall tid :: tid in s.tables.transfers ==>
               tid in r.tables.transfers && r.tables.transfers[tid].status == s.tables.transfers[tid].status
    requires forall tid :: tid in r.tables.transfers && tid !in s.tables.transfers ==>
               r.tables.transfers[tid].status == Pending
    ensures MovedIffCompleted(r)
  {
    forall tid | tid in r.tables.transfers && tid !in s.tables.transfers ensures r.moved[tid] == 0 {
      assert tid !in s.moved;
    }
  }

  lemma OthersKeepAgreement(s: State, a: Action)
    requires MovedKnown(s) && MovedIffCompleted(s) && Enabled(s, a)
    requires a.Step? ==> !s.procs[a.pid].Attempt?
    ensures MovedIffCompleted(Apply(s, a))
  {
    hide MovedKnown, MovedIffCompleted, Opened, ActiveLock, StepAttempt, Blocked, ReleaseAll, KeyTaken;
    match a
    case OpenAccount(account, deposit, tid) => OpenAgrees(s, account, deposit, tid);
    case _ => NothingMovedAgrees(s, Apply(s, a));
  }

  lemma ActionExact(s: State, a: Action)
    requires Safe(s) && MovedKnown(s) && MovedIffCompleted(s) && Enabled(s, a)
    ensures MovedIffCompleted(Apply(s, a)) <==> !DecidesCompleted(s, a)
  {
    hide Safe, ActiveLock, StepAttempt, Blocked, ReleaseAll;
    if a.Step? && s.procs[a.pid].Attempt? {
      var p := s.procs[a.pid];
      if p.pc.Committing? || p.pc.Rejected? {
        DecisionExact(s, a.pid, a.newId);
      } else {
        StatementOnly(s, a.pid, p);
      }
    } else {
      OthersKeepAgreement(s, a);
    }
  }

  /**
   In any run at all, the counts agree with the rows throughout exactly when nothing is ever decided
   on a row that is already completed. The executor does not re-check the status inside its
   transaction, so only the absence of overlapping attempts guarantees that.
   */
  lemma AgreementExactly(states: seq<State>, actions: seq<Action>)
    requires IsRun(states, actions)
    ensures (forall n :: 0 <= n < |states| ==> MovedIffCompleted(states[n]))
       <==> (forall i :: 0 <= i < |actions| ==> !DecidesCompleted(states[i], actions[i]))
  {
    hide Safe, Ledger, Apply, Enabled, MovedIffCompleted, DecidesCompleted;
    if forall n :: 0 <= n < |states| ==> MovedIffCompleted(states[n]) {
      forall i | 0 <= i < |actions| ensures !DecidesCompleted(states[i], actions[i]) {
        RunSafe(states, actions, i);
        LedgerKnows(states[i]);
        assert MovedIffCompleted(states[i]) && MovedIffCompleted(states[i + 1]);
        ActionExact(states[i], actions[i]);
      }
    }
    if forall i :: 0 <= i < |actions| ==> !DecidesCompleted(states[i], actions[i]) {
      forall n | 0 <= n < |states| ensures MovedIffCompleted(states[n]) {
        NeverDecidedTwice(states, actions, n);
      }
    }
  }

  lemma {:induction false} NeverDecidedTwice(states: seq<State>, actions: seq<Action>, n: nat)
    requires IsRun(states, actions) && n < |states|
    requires forall i :: 0 <= i < |actions| ==> !DecidesCompleted(states[i], actions[i])
    ensures MovedIffCompleted(states[n])
  {
    hide Safe, Ledger, Apply, Enabled, MovedIffCompleted, DecidesCompleted;
    if n == 0 {
      InitiallySeparate();
      SeparateCounts(states[0]);
    } else {
      NeverDecidedTwice(states, actions, n - 1);
      RunSafe(states, actions, n - 1);
      LedgerKnows(states[n - 1]);
      ActionExact(states[n - 1], actions[n - 1]);
    }
  }

  lemma SeparateCounts(s: State)
    requires Separate(s)
    ensures MovedIffCompleted(s)
  {
  }
}
