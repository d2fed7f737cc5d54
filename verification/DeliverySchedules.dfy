/** Runs seen from one goroutine: its own steps with any steps of the others between them. */
module DeliverySchedules {
  import opened Prelude
  import opened Clients
  import opened Delivery

  /** A step that goroutine i does not make, short of the end of the process. */
  predicate OfOthers(i: nat, a: Action) { !a.Halt? && (a.Wait? || a.Actor() != i) }

  predicate AllOfOthers(i: nat, actions: seq<Action>) {
    forall k | 0 <= k < |actions| :: OfOthers(i, actions[k])
  }

  /** The steps of others leave goroutine i where it is. */
  lemma OthersLeave(c: Config, s: State, i: nat, a: Action)
    requires s.up && i < |s.jobs| && OfOthers(i, a)
    ensures var r := Next(c, s, a); r.up && |r.jobs| == |s.jobs| && r.jobs[i] == s.jobs[i]
  {
    StaysUp(c, s, a);
    if Enabled(c, s, a) && !a.Wait? {
      OneMoves(c, s, a);
      hide Apply;
    }
    hide Enabled;
  }

  lemma StaysUp(c: Config, s: State, a: Action)
    requires s.up && !a.Halt?
    ensures Next(c, s, a).up && (a.Boot? ==> Next(c, s, a) == s)
  {
    hide EntriesOf, InFlight, Parsed;
  }

  lemma {:induction false} RunStaysUp(c: Config, s: State, actions: seq<Action>)
    requires s.up && forall k | 0 <= k < |actions| :: !actions[k].Halt?
    ensures ExecFrom(c, s, actions).up
  {
    hide Next;
    if actions != [] {
      var n := |actions| - 1;
      assert forall k | 0 <= k < n :: actions[..n][k] == actions[k];
      RunStaysUp(c, s, actions[..n]);
      StaysUp(c, ExecFrom(c, s, actions[..n]), actions[n]);
    }
  }

  lemma {:induction false} RunOfOthersLeaves(c: Config, s: State, i: nat, actions: seq<Action>)
    requires s.up && i < |s.jobs| && AllOfOthers(i, actions)
    ensures var r := ExecFrom(c, s, actions); r.up && |r.jobs| == |s.jobs| && r.jobs[i] == s.jobs[i]
  {
    hide Next, OfOthers;
    if actions != [] {
      var n := |actions| - 1;
      assert forall k | 0 <= k < n :: actions[..n][k] == actions[k];
      RunOfOthersLeaves(c, s, i, actions[..n]);
      OthersLeave(c, ExecFrom(c, s, actions[..n]), i, actions[n]);
    }
  }
}
