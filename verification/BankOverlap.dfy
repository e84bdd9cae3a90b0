/**
 Why attempts must not overlap. The processor checks that a transfer is pending
 before the executor's transaction begins, and the executor does not check
 again. With two attempts under way at once, a completed transfer is marked
 failed if the money left does not cover it a second time, and otherwise its
 money moves twice.
 */
module BankOverlap {
  import opened Wrappers
  import opened BankProtocol
  import opened BankSafety
  import opened BankLedger
  import opened BankRuns
  import opened BankExecutor

  // ---------- two attempts, one after the other ----------

  /** Two processes are about to begin an attempt on one transfer, whose accounts nobody holds. */
  predicate BothBegun(s: State, p: Pid, q: Pid) {
    && p != q && p in s.procs && q in s.procs
    && s.procs[p].Attempt? && s.procs[q] == s.procs[p] && s.procs[p].pc == Acquiring(0, map[])
    && s.procs[p].from !in s.rowLocks && s.procs[p].row.to !in s.rowLocks
  }

  /** Money moved once by the transfer. */
  function Moved(balances: map<AccountId, int>, row: TransferRow): map<AccountId, int>
    requires row.from.Some? && row.from.value in balances && row.to in balances
  {
    var debited := balances[row.from.value := balances[row.from.value] - row.amount];
    debited[row.to := debited[row.to] + row.amount]
  }

  /** The balance that decides what the second attempt does. */
  predicate CoversTwice(t: Tables, row: TransferRow)
    requires row.from.Some? && row.from.value in t.balances
  {
    t.balances[row.from.value] >= 2 * row.amount
  }

  /**
   From any such state in which the transfer would go through: when the first attempt and then the
   second run to their ends, either the money has moved twice, or it has moved once and the
   completed row says failed.
   */
  lemma TwoAttempts(s: State, p: Pid, q: Pid, newId: nat) returns (actions: seq<Action>, r: State)
    requires Safe(s) && BothBegun(s, p, q) && WillComplete(s.tables, s.procs[p])
    requires newId !in s.tables.transfers && newId !in s.tables.locks
    ensures Leads(s, actions, r)
    ensures var tid, row := s.procs[p].tid, s.procs[p].row;
            var once := Moved(s.tables.balances, row);
            && tid in r.tables.transfers
            && if CoversTwice(s.tables, row)
               then r.tables.transfers[tid].status == Completed && r.moved == s.moved + multiset{tid, tid}
                    && r.tables.balances == Moved(once, row)
               else r.tables.transfers[tid].status == Failed(InsufficientFunds) && r.moved == s.moved + multiset{tid}
                    && r.tables.balances == once
  {
    hide Safe, Leads, Executable, Rejection, WillComplete, Remaining, ReleaseAll;
    var n, m, k;
    DifferentAccounts(s, p);
    ExecutedTwice(s.tables, s.procs[p]);
    NoLocksReleased(s, p);
    n, m := SoloAttempt(s, p, newId);
    RunOnSafe(s, Steps(p, newId, n), m);
    k, r := SoloAttempt(m, q, newId);
    LeadsOn(s, Steps(p, newId, n), m, Steps(q, newId, k), r);
    actions := Steps(p, newId, n) + Steps(q, newId, k);
  }

  lemma NoLocksReleased(s: State, p: Pid)
    ensures forall a :: a !in s.rowLocks ==> a !in ReleaseAll(s.rowLocks, p)
  {
  }

  /** The tables after both: the second attempt knows nothing of the first but its balances. */
  lemma ExecutedTwice(t: Tables, p: Proc)
    requires p.Attempt? && p.pc == Acquiring(0, map[]) && WillComplete(t, p)
    ensures var once := Moved(t.balances, p.row);
            var u := Remaining(t, p);
            var v := Remaining(u, p);
            && u.balances == once && u.locks == t.locks && u.transfers.Keys == t.transfers.Keys
            && p.tid in v.transfers
            && WillComplete(u, p) == CoversTwice(t, p.row)
            && if CoversTwice(t, p.row)
               then v.transfers[p.tid].status == Completed && v.balances == Moved(once, p.row)
               else v.transfers[p.tid].status == Failed(InsufficientFunds) && v.balances == once
  {
    hide ActiveLock;
  }

  lemma DifferentAccounts(s: State, p: Pid)
    requires Safe(s) && p in s.procs && s.procs[p].Attempt?
    ensures s.procs[p].from != s.procs[p].row.to && s.procs[p].row.from == Some(s.procs[p].from)
  {
    assert ProcOk(s.tables, s.procs[p]);
    DistinctAccounts(s.tables, s.procs[p]);
  }

  lemma {:induction false} RunOnSafe(s: State, actions: seq<Action>, r: State)
    requires Safe(s) && Leads(s, actions, r)
    ensures Safe(r)
    decreases |actions|
  {
    hide Safe, Apply, Enabled;
    if actions != [] {
      ActionSafe(s, actions[0]);
      RunOnSafe(Apply(s, actions[0]), actions[1..], r);
    }
  }

  // ---------- such states are reached ----------

  /** Account 1 opens with the deposit, account 2 with nothing; transfer 20 of the amount is pending. */
  function Row(amount: int): TransferRow {
    TransferRow(Some(7), Some(Payload(1, 2, amount)), Some(1), 2, amount, Pending)
  }

  function DepositRow(deposit: nat): TransferRow {
    TransferRow(None, None, None, 1, deposit, Completed)
  }

  function Open(deposit: nat): Tables {
    Tables(map[1 := deposit, 2 := 0], map[10 := DepositRow(deposit)], map[])
  }

  function WaitingTables(deposit: nat, amount: int): Tables {
    Open(deposit).(transfers := map[10 := DepositRow(deposit), 20 := Row(amount)])
  }

  function Request(amount: int, stage: SubmitPc): Proc {
    Submitter(7, Payload(1, 2, amount), stage)
  }

  function At20(t: Tables, procs: map<Pid, Proc>, jobs: map<Key, TransferId>): State {
    State(t, map[], jobs, procs, multiset{10})
  }

  ghost predicate Acts(s: State, a: Action, r: State) {
    Enabled(s, a) && Apply(s, a) == r
  }

  function OneOpen(deposit: nat): State {
    State(Tables(map[1 := deposit], map[10 := DepositRow(deposit)], map[]), map[], map[], map[], multiset{10})
  }

  lemma Opening(deposit: nat)
    requires deposit > 0
    ensures Acts(INITIAL, OpenAccount(1, deposit, 10), OneOpen(deposit))
    ensures Acts(OneOpen(deposit), OpenAccount(2, 0, 11), At20(Open(deposit), map[], map[]))
  {
    assert Apply(INITIAL, OpenAccount(1, deposit, 10)) == OneOpen(deposit);
  }

  lemma Asking(deposit: nat, amount: int)
    ensures Acts(At20(Open(deposit), map[], map[]), Submit(0, 7, Payload(1, 2, amount)),
                 At20(Open(deposit), map[0 := Request(amount, CheckingAccounts)], map[]))
    ensures Acts(At20(Open(deposit), map[0 := Request(amount, CheckingAccounts)], map[]), Step(0, 20),
                 At20(Open(deposit), map[0 := Request(amount, InsertingRow)], map[]))
  {
  }

  lemma Inserts(deposit: nat, amount: int)
    requires amount > 0
    ensures Acts(At20(Open(deposit), map[0 := Request(amount, InsertingRow)], map[]), Step(0, 20),
                 At20(WaitingTables(deposit, amount), map[0 := Request(amount, Enqueueing(20, true))], map[]))
  {
    assert !KeyTaken(Open(deposit), 7);
  }

  lemma Enqueues(deposit: nat, amount: int)
    ensures Acts(At20(WaitingTables(deposit, amount), map[0 := Request(amount, Enqueueing(20, true))], map[]),
                 Step(0, 21),
                 At20(WaitingTables(deposit, amount), map[0 := Request(amount, Replied(20, true))], map[7 := 20]))
  {
  }

  function Picking(deposit: nat, amount: int, first: Proc, second: Proc): State {
    At20(WaitingTables(deposit, amount),
         map[0 := Request(amount, Replied(20, true)), 1 := first, 2 := second], map[7 := 20])
  }

  function Begun(amount: int): Proc {
    Attempt(20, Row(amount), 1, Acquiring(0, map[]))
  }

  lemma PicksUp(deposit: nat, amount: int)
    ensures var queued := At20(WaitingTables(deposit, amount),
                               map[0 := Request(amount, Replied(20, true))], map[7 := 20]);
            var one := queued.(procs := queued.procs[1 := Picked(20)]);
            && Acts(queued, Pick(1, 7), one)
            && Acts(one, Pick(2, 7), Picking(deposit, amount, Picked(20), Picked(20)))
  {
  }

  lemma ReadsRow(deposit: nat, amount: int)
    ensures Acts(Picking(deposit, amount, Picked(20), Picked(20)), Step(1, 21),
                 Picking(deposit, amount, Begun(amount), Picked(20)))
    ensures Acts(Picking(deposit, amount, Begun(amount), Picked(20)), Step(2, 21),
                 Picking(deposit, amount, Begun(amount), Begun(amount)))
  {
  }

  /** With any deposit and amount, two workers can pick the job up before either has begun. */
  lemma BothBegin(deposit: nat, amount: int) returns (actions: seq<Action>)
    requires deposit > 0 && amount > 0
    ensures Leads(INITIAL, actions, Picking(deposit, amount, Begun(amount), Begun(amount)))
  {
    hide Apply, Enabled, At20, Picking;
    Opening(deposit);
    Asking(deposit, amount);
    Inserts(deposit, amount);
    Enqueues(deposit, amount);
    PicksUp(deposit, amount);
    ReadsRow(deposit, amount);
    var open, waiting := Open(deposit), WaitingTables(deposit, amount);
    var queued := At20(waiting, map[0 := Request(amount, Replied(20, true))], map[7 := 20]);
    actions := ChainOf([
      INITIAL, OneOpen(deposit), At20(open, map[], map[]),
      At20(open, map[0 := Request(amount, CheckingAccounts)], map[]),
      At20(open, map[0 := Request(amount, InsertingRow)], map[]),
      At20(waiting, map[0 := Request(amount, Enqueueing(20, true))], map[]),
      queued, queued.(procs := queued.procs[1 := Picked(20)]),
      Picking(deposit, amount, Picked(20), Picked(20)),
      Picking(deposit, amount, Begun(amount), Picked(20)),
      Picking(deposit, amount, Begun(amount), Begun(amount))],
      [OpenAccount(1, deposit, 10), OpenAccount(2, 0, 11), Submit(0, 7, Payload(1, 2, amount)),
       Step(0, 20), Step(0, 20), Step(0, 21), Pick(1, 7), Pick(2, 7), Step(1, 21), Step(2, 21)]);
  }

  /** States that follow one another by these actions. */
  lemma {:induction false} ChainOf(states: seq<State>, actions: seq<Action>) returns (same: seq<Action>)
    requires |states| == |actions| + 1
    requires forall i :: 0 <= i < |actions| ==> Acts(states[i], actions[i], states[i + 1])
    ensures same == actions && Leads(states[0], actions, states[|actions|])
    decreases |actions|
  {
    hide Apply, Enabled;
    same := actions;
    if actions != [] {
      assert Acts(states[0], actions[0], states[1]);
      var rest := ChainOf(states[1..], actions[1..]);
    }
  }

  /**
   For every deposit and every amount that it covers there is a run with overlapping attempts that
   ends with the books wrong: the money moved twice if the deposit covers it, and otherwise moved
   once with the row marked failed.
   */
  lemma OverlapBreaksAgreement(deposit: nat, amount: int) returns (states: seq<State>, actions: seq<Action>)
    requires 0 < amount <= deposit
    ensures IsRun(states, actions)
    ensures var last := states[|actions|];
            && 20 in last.tables.transfers
            && (if deposit >= 2 * amount
                then last.moved[20] == 2 && last.tables.transfers[20].status == Completed
                     && last.tables.balances == map[1 := deposit - 2 * amount, 2 := 2 * amount]
                else last.moved[20] == 1 && last.tables.transfers[20].status == Failed(InsufficientFunds)
                     && last.tables.balances == map[1 := deposit - amount, 2 := amount])
            && !MovedIffCompleted(last)
  {
    hide Apply, Enabled, Leads, Safe, ActiveLock;
    var begin := BothBegin(deposit, amount);
    var s := Picking(deposit, amount, Begun(amount), Begun(amount));
    InitiallySafe();
    RunOnSafe(INITIAL, begin, s);
    NothingLocked();
    var more, r := TwoAttempts(s, 1, 2, 21);
    LeadsOn(INITIAL, begin, s, more, r);
    actions := begin + more;
    states := LeadsIsRun(INITIAL, actions, r);
  }

  lemma NothingLocked()
    ensures forall account :: !ActiveLock(map[], account)
  {
  }
}
