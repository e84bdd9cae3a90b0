/** Pieces of runs: where a sequence of actions leads. */
module BankRuns {
  import opened BankProtocol

  /** `actions` lead from `s` to `r`. */
  ghost predicate Leads(s: State, actions: seq<Action>, r: State)
    decreases |actions|
  {
    if actions == [] then r == s
    else Enabled(s, actions[0]) && Leads(Apply(s, actions[0]), actions[1..], r)
  }

  lemma {:induction false} LeadsOn(s: State, first: seq<Action>, m: State, second: seq<Action>, r: State)
    requires Leads(s, first, m) && Leads(m, second, r)
    ensures Leads(s, first + second, r)
    decreases |first|
  {
    hide Apply, Enabled;
    if first == [] {
      assert first + second == second;
    } else {
      assert (first + second)[1..] == first[1..] + second;
      LeadsOn(Apply(s, first[0]), first[1..], m, second, r);
    }
  }

  lemma Next(s: State, a: Action, m: State, rest: seq<Action>, r: State)
    requires Enabled(s, a) && m == Apply(s, a) && Leads(m, rest, r)
    ensures Leads(s, [a] + rest, r)
  {
    hide Apply, Enabled;
    assert ([a] + rest)[1..] == rest;
  }

  /** Where actions lead is a state of a run. */
  lemma {:induction false} LeadsIsRun(s: State, actions: seq<Action>, r: State) returns (states: seq<State>)
    requires Leads(s, actions, r)
    ensures |states| == |actions| + 1 && states[0] == s && states[|actions|] == r
    ensures forall i :: 0 <= i < |actions| ==>
              Enabled(states[i], actions[i]) && states[i + 1] == Apply(states[i], actions[i])
    decreases |actions|
  {
    hide Apply, Enabled;
    if actions == [] {
      states := [s];
    } else {
      var rest := LeadsIsRun(Apply(s, actions[0]), actions[1..], r);
      states := [s] + rest;
      forall i | 0 <= i < |actions|
        ensures Enabled(states[i], actions[i]) && states[i + 1] == Apply(states[i], actions[i])
      {
        if i > 0 {
          assert actions[i] == actions[1..][i - 1];
        }
      }
    }
  }

  /** The next `n` statements of one attempt. */
  function Steps(pid: Pid, newId: nat, n: nat): seq<Action>
    decreases n
  {
    if n == 0 then [] else [Step(pid, newId)] + Steps(pid, newId, n - 1)
  }
}
