/**
 What the explicit row locks give: a transfer never completes while one of its
 accounts is locked, and processes never wait for one another in a circle.
 */
module BankConcurrency {
  import opened Wrappers
  import opened BankProtocol
  import opened BankSafety
  import opened BankLedger

  // ---------- account locks ----------

  /** The action is the commit of a transfer from or to this account. */
  predicate Completes(s: State, a: Action, account: AccountId) {
    && a.Step? && a.pid in s.procs
    && var p := s.procs[a.pid];
       p.Attempt? && p.pc.Committing? && (p.from == account || p.row.to == account)
  }

  /** When a transfer commits as completed, neither of its accounts has an active lock. */
  lemma CompletesUnlocked(s: State, a: Action, account: AccountId)
    requires Safe(s) && Completes(s, a, account)
    ensures !ActiveLock(s.tables.locks, account)
  {
    assert ProcOk(s.tables, s.procs[a.pid]);
  }

  predicate Holding(s: State, lock: LockId, account: AccountId) {
    lock in s.tables.locks && s.tables.locks[lock] == LockRow(account, false)
  }

  /** A lock row keeps its account, and once released stays released. */
  lemma LockRowKept(s: State, a: Action, lock: LockId)
    requires Enabled(s, a) && lock in s.tables.locks
    ensures lock in Apply(s, a).tables.locks
    ensures var before, after := s.tables.locks[lock], Apply(s, a).tables.locks[lock];
            after.account == before.account && (before.released ==> after.released)
  {
    hide StepAttempt, StepSubmitter, StepLocker, Crashed;
    match a
    case OpenAccount(_, _, _) =>
    case Submit(_, _, _) =>
    case Pick(_, _) =>
    case AskLock(_, _) =>
    case Release(_) =>
    case Forget(_) =>
    case Step(pid, newId) => StepKeepsLock(s, pid, newId, lock);
    case Crash(pid) => CrashKeepsTables(s, pid);
  }

  lemma CrashKeepsTables(s: State, pid: Pid)
    requires pid in s.procs
    ensures Crashed(s, pid).tables == s.tables
  {
  }

  lemma StepKeepsLock(s: State, pid: Pid, newId: nat, lock: LockId)
    requires Enabled(s, Step(pid, newId)) && lock in s.tables.locks
    ensures var after := Apply(s, Step(pid, newId)).tables.locks;
            lock in after && after[lock] == s.tables.locks[lock]
  {
    hide ActiveLock, KeyTaken, Blocked, StepAttempt, StepSubmitter;
    var p := s.procs[pid];
    match p
    case Attempt(_, _, _, _) => AttemptKeepsLocks(s, pid, p);
    case Submitter(_, _, _) => SubmitterKeepsLocks(s, pid, p, newId);
    case _ =>
  }

  lemma AttemptKeepsLocks(s: State, pid: Pid, p: Proc)
    requires p.Attempt?
    ensures StepAttempt(s, pid, p).tables.locks == s.tables.locks
  {
    hide ActiveLock;
  }

  lemma SubmitterKeepsLocks(s: State, pid: Pid, p: Proc, newId: nat)
    requires p.Submitter?
    ensures StepSubmitter(s, pid, p, newId).tables.locks == s.tables.locks
  {
    hide KeyTaken;
  }

  lemma {:induction false} HoldingSince(states: seq<State>, actions: seq<Action>, i: nat, j: nat, lock: LockId)
    requires IsRun(states, actions) && i <= j < |states|
    requires lock in states[i].tables.locks
    requires lock in states[j].tables.locks && !states[j].tables.locks[lock].released
    ensures Holding(states[i], lock, states[j].tables.locks[lock].account)
    decreases j - i
  {
    hide Apply, Enabled;
    if i < j {
      LockRowKept(states[i], actions[i], lock);
      HoldingSince(states, actions, i + 1, j, lock);
    }
  }

  /**
   From the state in which a lock on an account is committed to any later one in which it is not
   yet released, no transfer from or to that account commits as completed, in any interleaving.
   */
  lemma LockSafety(
    states: seq<State>, actions: seq<Action>, i: nat, j: nat, k: nat, lock: LockId, account: AccountId)
    requires IsRun(states, actions) && i <= k < j < |states|
    requires lock in states[i].tables.locks
    requires Holding(states[j], lock, account)
    ensures !Completes(states[k], actions[k], account)
  {
    hide Apply, Enabled, Safe, Ledger;
    LocksPersist(states, actions, i, k, lock);
    HoldingSince(states, actions, k, j, lock);
    RunSafe(states, actions, k);
    if Completes(states[k], actions[k], account) {
      CompletesUnlocked(states[k], actions[k], account);
    }
  }

  lemma {:induction false} LocksPersist(states: seq<State>, actions: seq<Action>, i: nat, k: nat, lock: LockId)
    requires IsRun(states, actions) && i <= k < |states|
    requires lock in states[i].tables.locks
    ensures lock in states[k].tables.locks
    decreases k - i
  {
    hide Apply, Enabled;
    if i < k {
      LocksPersist(states, actions, i, k - 1, lock);
      LockRowKept(states[k - 1], actions[k - 1], lock);
    }
  }

  // ---------- waiting ----------

  /** `p` needs the lock of `account`, which another process holds. */
  predicate WaitsAt(s: State, p: Pid, account: AccountId) {
    && p in s.procs
    && Awaits(s.procs[p]) == Some(account)
    && account in s.rowLocks && s.rowLocks[account] != p
  }

  ghost predicate WaitsFor(s: State, p: Pid, q: Pid) {
    exists account :: WaitsAt(s, p, account) && s.rowLocks[account] == q
  }

  /** A holder that waits itself waits for a later account. */
  lemma WaitsUpwards(s: State, p: Pid, account: AccountId, later: AccountId)
    requires Safe(s)
    requires WaitsAt(s, p, account) && WaitsAt(s, s.rowLocks[account], later)
    ensures account < later
  {
    var q := s.rowLocks[account];
    assert account in Held(s.procs[q]);
    assert ProcOk(s.tables, s.procs[q]);
    if s.procs[q].Attempt? {
      DistinctAccounts(s.tables, s.procs[q]);
    }
  }

  lemma OneAwaited(s: State, p: Pid, a: AccountId, b: AccountId)
    requires WaitsAt(s, p, a) && WaitsAt(s, p, b)
    ensures a == b
  {
  }

  /** Each process in the sequence waits for the next. */
  ghost predicate IsWaitChain(s: State, chain: seq<Pid>) {
    forall i :: 0 <= i < |chain| - 1 ==> WaitsFor(s, chain[i], chain[i + 1])
  }

  lemma {:induction false} ChainClimbs(s: State, chain: seq<Pid>, first: AccountId, last: AccountId)
    requires Safe(s) && |chain| >= 2 && IsWaitChain(s, chain)
    requires WaitsAt(s, chain[0], first) && WaitsAt(s, chain[|chain| - 1], last)
    ensures first < last
    decreases |chain|
  {
    hide Safe;
    assert WaitsFor(s, chain[0], chain[1]);
    var a :| WaitsAt(s, chain[0], a) && s.rowLocks[a] == chain[1];
    OneAwaited(s, chain[0], first, a);
    if |chain| == 2 {
      WaitsUpwards(s, chain[0], first, last);
    } else {
      assert WaitsFor(s, chain[1], chain[2]);
      var b :| WaitsAt(s, chain[1], b) && s.rowLocks[b] == chain[2];
      WaitsUpwards(s, chain[0], first, b);
      var rest := chain[1..];
      forall i | 0 <= i < |rest| - 1 ensures WaitsFor(s, rest[i], rest[i + 1]) {
        assert WaitsFor(s, chain[i + 1], chain[i + 1 + 1]);
      }
      ChainClimbs(s, rest, b, last);
    }
  }

  /** Deadlock freedom: no chain of waiting processes comes back to its start. */
  lemma NoWaitCycle(s: State, chain: seq<Pid>)
    requires Safe(s) && |chain| >= 2 && IsWaitChain(s, chain)
    ensures chain[0] != chain[|chain| - 1]
  {
    hide Safe;
    if chain[0] == chain[|chain| - 1] {
      assert WaitsFor(s, chain[0], chain[1]);
      var a :| WaitsAt(s, chain[0], a) && s.rowLocks[a] == chain[1];
      ChainClimbs(s, chain, a, a);
    }
  }

  ghost predicate CanStep(s: State, p: Pid) {
    p in s.procs && !Finished(s.procs[p]) && !Blocked(s, p)
  }

  /** Some process can step: the one at the end of the waiting that starts at `p`. */
  lemma {:induction false} SomeoneSteps(s: State, p: Pid) returns (q: Pid)
    requires Safe(s)
    requires p in s.procs && !Finished(s.procs[p])
    ensures CanStep(s, q)
    decreases AccountsAbove(s, p)
  {
    if !Blocked(s, p) {
      return p;
    }
    if Awaits(s.procs[p]).Some? && !Grantable(s, p, Awaits(s.procs[p]).value) {
      var account := Awaits(s.procs[p]).value;
      q := s.rowLocks[account];
      assert account in Held(s.procs[q]);
      if Blocked(s, q) {
        HolderAbove(s, p, account, q);
        q := SomeoneSteps(s, q);
      }
    } else {
      q :| q in s.procs && q != p && WritesRow(s.procs[q], s.procs[p].tid);
    }
  }

  /** The locked accounts after the one a process waits at. */
  ghost function AccountsAbove(s: State, p: Pid): set<AccountId>
    requires p in s.procs
  {
    set a | a in s.rowLocks && Awaits(s.procs[p]).Some? && a >= Awaits(s.procs[p]).value
  }

  lemma HolderAbove(s: State, p: Pid, account: AccountId, q: Pid)
    requires Safe(s) && WaitsAt(s, p, account) && q == s.rowLocks[account]
    requires q in s.procs
    ensures AccountsAbove(s, q) < AccountsAbove(s, p)
  {
    assert account in AccountsAbove(s, p);
    if Awaits(s.procs[q]).Some? {
      var later := Awaits(s.procs[q]).value;
      assert account in Held(s.procs[q]);
      if s.procs[q].Attempt? {
        assert ProcOk(s.tables, s.procs[q]);
        DistinctAccounts(s.tables, s.procs[q]);
      }
      assert account < later;
      assert account !in AccountsAbove(s, q);
    }
  }

  lemma {:induction false} UnusedId(ids: set<nat>) returns (id: nat)
    ensures forall i :: i in ids ==> i < id
    decreases ids
  {
    if ids == {} {
      id := 0;
    } else {
      var i :| i in ids;
      id := UnusedId(ids - {i});
      id := if id <= i then i + 1 else id;
      forall j | j in ids ensures j < id {
        assert j == i || j in ids - {i};
      }
    }
  }

  /**
   In every state of every run, if some process is unfinished then some unfinished process has an
   enabled step: the explicit locks alone never bring the bank to a halt.
   */
  lemma Progress(states: seq<State>, actions: seq<Action>, n: nat, p: Pid)
    requires IsRun(states, actions) && n < |states|
    requires p in states[n].procs && !Finished(states[n].procs[p])
    ensures exists q, newId :: q in states[n].procs && !Finished(states[n].procs[q])
                               && Enabled(states[n], Step(q, newId))
  {
    hide Safe, Ledger, Apply;
    RunSafe(states, actions, n);
    var s := states[n];
    var q := SomeoneSteps(s, p);
    var newId := UnusedId(s.tables.transfers.Keys + s.tables.locks.Keys);
    assert Enabled(s, Step(q, newId));
  }

  /** The same for waiting: in every state of every run there is no cycle. */
  lemma DeadlockFreedom(states: seq<State>, actions: seq<Action>, n: nat, chain: seq<Pid>)
    requires IsRun(states, actions) && n < |states|
    requires |chain| >= 2 && IsWaitChain(states[n], chain)
    ensures chain[0] != chain[|chain| - 1]
  {
    hide Safe, Ledger, Apply, Enabled;
    RunSafe(states, actions, n);
    NoWaitCycle(states[n], chain);
  }
}
