/**
 Idempotent submission: whatever requests are concurrent, repeated, crashed or
 replayed, one idempotency key names one transfer with one payload.
 */
module BankSubmission {
  import opened Wrappers
  import opened BankProtocol
  import opened BankSafety
  import opened BankLedger

  /** The unique index on the idempotency key. */
  ghost predicate KeysUnique(t: Tables) {
    forall i, j ::
      (i in t.transfers && j in t.transfers
       && t.transfers[i].key.Some? && t.transfers[i].key == t.transfers[j].key)
      ==> i == j
  }

  /** This request inserted the row, and says or will say so. */
  predicate Created(p: Proc, tid: TransferId) {
    && p.Submitter?
    && (p.stage == Enqueueing(tid, true) || p.stage == Replied(tid, true))
  }

  ghost predicate CreatorsUnique(procs: map<Pid, Proc>) {
    forall p, q, tid {:trigger Created(procs[p], tid), Created(procs[q], tid)} ::
      p in procs && q in procs && Created(procs[p], tid) && Created(procs[q], tid) ==> p == q
  }

  ghost predicate CreatedKnown(s: State) {
    forall p, tid {:trigger Created(s.procs[p], tid)} ::
      p in s.procs && Created(s.procs[p], tid) ==> tid in s.tables.transfers
  }

  ghost predicate Submissions(s: State) {
    KeysUnique(s.tables) && CreatorsUnique(s.procs) && CreatedKnown(s)
  }

  // ---------- every action keeps them ----------

  /** No row and no creator is added. */
  lemma NothingSubmitted(s: State, r: State, pid: Pid)
    requires Submissions(s)
    requires forall tid :: tid in s.tables.transfers <==> tid in r.tables.transfers
    requires forall tid :: tid in s.tables.transfers ==> r.tables.transfers[tid].key == s.tables.transfers[tid].key
    requires r.procs == s.procs || (pid in r.procs && r.procs == s.procs[pid := r.procs[pid]])
    requires pid in r.procs && r.procs != s.procs ==>
               forall tid :: Created(r.procs[pid], tid) ==> pid in s.procs && Created(s.procs[pid], tid)
    ensures Submissions(r)
  {
  }

  lemma RowSubmitted(s: State, pid: Pid, newId: nat)
    requires Enabled(s, Step(pid, newId))
    requires s.procs[pid].Submitter? && s.procs[pid].stage.InsertingRow?
    requires Submissions(s)
    ensures Submissions(Apply(s, Step(pid, newId)))
  {
    var p := s.procs[pid];
    var r := StepSubmitter(s, pid, p, newId);
    if r.tables == s.tables {
      NothingSubmitted(s, r, pid);
    } else {
      hide StepSubmitter;
      InsertedRow(s, pid, p, newId);
      forall i, j | i in r.tables.transfers && j in r.tables.transfers
                    && r.tables.transfers[i].key.Some? && r.tables.transfers[i].key == r.tables.transfers[j].key
        ensures i == j
      {
        assert i != newId ==> s.tables.transfers[i].key != Some(p.key);
        assert j != newId ==> s.tables.transfers[j].key != Some(p.key);
      }
      forall a, b, tid | a in r.procs && b in r.procs && Created(r.procs[a], tid) && Created(r.procs[b], tid)
        ensures a == b
      {
        assert a != pid ==> Created(s.procs[a], tid);
        assert b != pid ==> Created(s.procs[b], tid);
      }
    }
  }

  lemma InsertedRow(s: State, pid: Pid, p: Proc, newId: nat)
    requires p.Submitter? && p.stage.InsertingRow?
    requires StepSubmitter(s, pid, p, newId).tables != s.tables
    ensures !KeyTaken(s.tables, p.key)
    ensures var r := StepSubmitter(s, pid, p, newId);
            && newId in r.tables.transfers && r.tables.transfers[newId].key == Some(p.key)
            && r.tables.transfers == s.tables.transfers[newId := r.tables.transfers[newId]]
            && r.procs == s.procs[pid := p.(stage := Enqueueing(newId, true))]
  {
  }

  lemma StepSubmissions(s: State, pid: Pid, newId: nat)
    requires Safe(s) && Submissions(s) && Enabled(s, Step(pid, newId))
    ensures Submissions(Apply(s, Step(pid, newId)))
  {
    hide Safe, Submissions, ActiveLock, StepAttempt, Blocked, ReleaseAll, KeyTaken;
    var p := s.procs[pid];
    match p
    case Submitter(_, _, stage) =>
      if stage.InsertingRow? {
        RowSubmitted(s, pid, newId);
      } else {
        NothingSubmitted(s, Apply(s, Step(pid, newId)), pid);
      }
    case Attempt(_, _, _, pc) =>
      if pc.Committing? || pc.Rejected? {
        DecisionSubmitsNothing(s, pid, newId);
      } else {
        StatementOnly(s, pid, p);
        NothingSubmitted(s, Apply(s, Step(pid, newId)), pid);
      }
    case Picked(_) => NothingSubmitted(s, Apply(s, Step(pid, newId)), pid);
    case Locker(_, _) => NothingSubmitted(s, Apply(s, Step(pid, newId)), pid);
    case AttemptOver(_) =>
  }

  lemma DecisionSubmitsNothing(s: State, pid: Pid, newId: nat)
    requires Enabled(s, Step(pid, newId))
    requires s.procs[pid].Attempt? && (s.procs[pid].pc.Committing? || s.procs[pid].pc.Rejected?)
    requires Submissions(s)
    ensures Submissions(Apply(s, Step(pid, newId)))
  {
    hide Submissions;
    NothingSubmitted(s, Apply(s, Step(pid, newId)), pid);
  }

  lemma OpenSubmissions(s: State, account: AccountId, deposit: nat, tid: TransferId)
    requires Submissions(s) && Enabled(s, OpenAccount(account, deposit, tid))
    ensures Submissions(Opened(s, account, deposit, tid))
  {
  }

  lemma ActionSubmissions(s: State, a: Action)
    requires Safe(s) && Submissions(s) && Enabled(s, a)
    ensures Submissions(Apply(s, a))
  {
    hide Safe, Submissions, Opened, StepAttempt, StepSubmitter;
    match a
    case OpenAccount(account, deposit, tid) => OpenSubmissions(s, account, deposit, tid);
    case Step(pid, newId) => StepSubmissions(s, pid, newId);
    case Crash(pid) => CrashSubmissions(s, pid);
    case Submit(pid, _, _) => NothingSubmitted(s, Apply(s, a), pid);
    case Pick(pid, _) => NothingSubmitted(s, Apply(s, a), pid);
    case AskLock(pid, _) => NothingSubmitted(s, Apply(s, a), pid);
    case Release(_) => NothingSubmitted(s, Apply(s, a), 0);
    case Forget(_) => NothingSubmitted(s, Apply(s, a), 0);
  }

  lemma CrashSubmissions(s: State, pid: Pid)
    requires Submissions(s) && pid in s.procs
    ensures Submissions(Crashed(s, pid))
  {
    hide Submissions;
    NothingSubmitted(s, Crashed(s, pid), pid);
  }

  lemma {:induction false} RunSubmissions(states: seq<State>, actions: seq<Action>, n: nat)
    requires IsRun(states, actions) && n < |states|
    ensures Submissions(states[n])
  {
    hide Submissions, Safe, Ledger, Apply, Enabled;
    if n == 0 {
      NoSubmissions();
    } else {
      RunSubmissions(states, actions, n - 1);
      RunSafe(states, actions, n - 1);
      ActionSubmissions(states[n - 1], actions[n - 1]);
    }
  }

  lemma NoSubmissions()
    ensures Submissions(INITIAL)
  {
  }

  // ---------- the theorem ----------

  /** A request with this key that was answered successfully. */
  predicate Answered(p: Proc, key: Key) {
    p.Submitter? && p.key == key && p.stage.Replied?
  }

  /**
   For any concurrent or repeated requests with one key, in every state of every run: at most one
   row has the key, all successful replies name it and were for its payload, and at most one says
   that it created it. A request with another payload is therefore never answered successfully.
   */
  lemma IdempotentSubmission(states: seq<State>, actions: seq<Action>, n: nat, p: Pid, q: Pid, key: Key)
    requires IsRun(states, actions) && n < |states|
    requires p in states[n].procs && q in states[n].procs
    requires Answered(states[n].procs[p], key) && Answered(states[n].procs[q], key)
    ensures var s := states[n];
            var a, b := s.procs[p], s.procs[q];
            && a.stage.tid == b.stage.tid
            && a.stage.tid in s.tables.transfers
            && s.tables.transfers[a.stage.tid].key == Some(key)
            && (forall tid :: tid in s.tables.transfers && s.tables.transfers[tid].key == Some(key)
                  ==> tid == a.stage.tid)
            && s.tables.transfers[a.stage.tid].requestHash == Some(a.payload)
            && a.payload == b.payload
            && (a.stage.created && b.stage.created ==> p == q)
  {
    hide Ledger, Apply, Enabled, TablesOk, LocksOk, JobsOk;
    RunSafe(states, actions, n);
    RunSubmissions(states, actions, n);
    var s := states[n];
    assert ProcOk(s.tables, s.procs[p]) && ProcOk(s.tables, s.procs[q]);
    var tid := s.procs[p].stage.tid;
    if s.procs[p].stage.created && s.procs[q].stage.created {
      assert Created(s.procs[p], tid) && Created(s.procs[q], tid);
    }
  }

  /** No statement of a submission, whatever its payload, changes a row that exists. */
  lemma SubmissionChangesNoRow(s: State, pid: Pid, newId: nat, tid: TransferId)
    requires Enabled(s, Step(pid, newId)) && s.procs[pid].Submitter?
    requires tid in s.tables.transfers
    ensures var r := Apply(s, Step(pid, newId));
            && tid in r.tables.transfers && r.tables.transfers[tid] == s.tables.transfers[tid]
            && r.tables.balances == s.tables.balances && r.tables.locks == s.tables.locks
  {
    hide KeyTaken;
  }

  /** From the insert on, a row's key, payload and accounts stay what they were. */
  lemma {:induction false} RowIdentityForever(
    states: seq<State>, actions: seq<Action>, i: nat, j: nat, tid: TransferId)
    requires IsRun(states, actions) && i <= j < |states|
    requires tid in states[i].tables.transfers
    ensures tid in states[j].tables.transfers
    ensures SameTransfer(states[i].tables.transfers[tid], states[j].tables.transfers[tid])
    decreases j - i
  {
    hide Apply, Enabled;
    if i < j {
      RowIdentityForever(states, actions, i, j - 1, tid);
      RowIdentityKept(states[j - 1], actions[j - 1], tid);
    }
  }

  lemma RowIdentityKept(s: State, a: Action, tid: TransferId)
    requires Enabled(s, a) && tid in s.tables.transfers
    ensures tid in Apply(s, a).tables.transfers
    ensures SameTransfer(s.tables.transfers[tid], Apply(s, a).tables.transfers[tid])
  {
    hide ActiveLock, KeyTaken, StepAttempt;
    if a.Step? && s.procs[a.pid].Attempt? {
      var p := s.procs[a.pid];
      if p.tid != tid {
        DecidesOwnRowOnly(s, a.pid, p, tid);
      } else if !p.pc.Committing? && !p.pc.Rejected? {
        StatementOnly(s, a.pid, p);
      } else {
        DecisionKeepsIdentity(s, a.pid, p);
      }
    }
  }

  lemma DecisionKeepsIdentity(s: State, pid: Pid, p: Proc)
    requires p.Attempt? && (p.pc.Committing? || p.pc.Rejected?) && p.tid in s.tables.transfers
    ensures var r := StepAttempt(s, pid, p);
            p.tid in r.tables.transfers && SameTransfer(s.tables.transfers[p.tid], r.tables.transfers[p.tid])
  {
  }
}
