/** Exactly which completed documents are sure to stay completed until they are deleted. */
module LifecycleCompleted {
  import opened Common
  import opened Lifecycle
  import opened LifecycleSafety

  /** Run `r` works on document `d`: its transactions find the rows, and it has claimed and not yet ended. */
  predicate WorkingOn(s: State, r: nat, d: nat) {
    r in s.runs && s.runs[r].doc == d && Found(s, s.runs[r]) && InFlight(s.runs[r].pc)
  }

  /** The upload of the document is over and no run works on it. */
  ghost predicate Settled(s: State, d: nat)
    requires d in s.slots
  {
    s.slots[d].phase != AwaitingEnqueue && forall r :: !WorkingOn(s, r, d)
  }

  predicate Keeps(steps: seq<Step>, d: nat) {
    forall i :: 0 <= i < |steps| ==> !(steps[i].Delete? && steps[i].doc == d)
  }

  /** Whatever happens apart from deleting it, the document is completed afterwards. */
  ghost predicate StaysCompleted(s: State, d: nat) {
    forall steps :: Schedule(s, steps) && Keeps(steps, d) ==> IsCompleted(Exec(s, steps), d)
  }

  /** On a settled document a claim only finds it completed, and nothing else gets to its rows. */
  lemma StepKeepsSlot(s: State, step: Step, d: nat)
    requires IsCompleted(s, d) && Settled(s, d) && Enabled(s, step) && Keeps([step], d)
    ensures d in Apply(s, step).slots && Apply(s, step).slots[d].row == s.slots[d].row
    ensures Apply(s, step).slots[d].phase == s.slots[d].phase && Apply(s, step).slots[d].taskId == s.slots[d].taskId
  {
    assert !([step][0].Delete? && [step][0].doc == d);
    if step.Persist? || step.Record? { assert !WorkingOn(s, step.run, d); }
  }

  lemma StepStartsNoWork(s: State, step: Step, d: nat, r: nat)
    requires IsCompleted(s, d) && Settled(s, d) && Enabled(s, step) && Keeps([step], d)
    requires d in Apply(s, step).slots && Apply(s, step).slots[d].taskId == s.slots[d].taskId
    ensures !WorkingOn(Apply(s, step), r, d)
  {
    assert !WorkingOn(s, r, d);
  }

  lemma {:induction false} SettledStays(s: State, steps: seq<Step>, d: nat)
    requires IsCompleted(s, d) && Settled(s, d) && Schedule(s, steps) && Keeps(steps, d)
    ensures IsCompleted(Exec(s, steps), d)
    decreases |steps|
  {
    if steps != [] {
      var s' := Apply(s, steps[0]);
      StepKeepsSlot(s, steps[0], d);
      forall r ensures !WorkingOn(s', r, d) { StepStartsNoWork(s, steps[0], d, r); }
      SettledStays(s', steps[1..], d);
    }
  }

  lemma OneStep(s: State, step: Step)
    requires Enabled(s, step)
    ensures Schedule(s, [step]) && Exec(s, [step]) == Apply(s, step)
  {
    assert [step][1..] == [];
  }

  lemma TwoSteps(s: State, a: Step, b: Step)
    requires Enabled(s, a) && Enabled(Apply(s, a), b)
    ensures Schedule(s, [a, b]) && Exec(s, [a, b]) == Apply(Apply(s, a), b)
  {
    OneStep(Apply(s, a), b);
    assert [a, b][1..] == [b];
  }

  /** Every other run in flight can fail at its present stage. */
  lemma FailsNext(s: State, r: nat, d: nat)
    requires IsCompleted(s, d) && WorkingOn(s, r, d) && RunOk(s, r) && !Failing(s.runs[r].pc)
    ensures Enabled(s, NextStep(r, s.runs[r].pc)) && !NextStep(r, s.runs[r].pc).Delete?
    ensures var s' := Apply(s, NextStep(r, s.runs[r].pc));
            IsCompleted(s', d) && WorkingOn(s', r, d) && Failing(s'.runs[r].pc)
  {
  }

  lemma WorkReverts(s: State, r: nat, d: nat)
    requires IsCompleted(s, d) && WorkingOn(s, r, d) && RunOk(s, r)
    ensures !StaysCompleted(s, d)
  {
    if Failing(s.runs[r].pc) {
      OneStep(s, Record(r));
      CompletedRevertsExactlyWhen(s, Record(r), d);
      assert Keeps([Record(r)], d);
    } else {
      var step := NextStep(r, s.runs[r].pc);
      FailsNext(s, r, d);
      TwoSteps(s, step, Record(r));
      CompletedRevertsExactlyWhen(Apply(s, step), Record(r), d);
      assert Keeps([step, Record(r)], d);
    }
  }

  lemma RefusalReverts(s: State, d: nat)
    requires IsCompleted(s, d) && s.slots[d].phase == AwaitingEnqueue
    ensures !StaysCompleted(s, d)
  {
    OneStep(s, EnqueueFails(d));
    CompletedRevertsExactlyWhen(s, EnqueueFails(d), d);
    assert Keeps([EnqueueFails(d)], d);
  }

  /**
    A completed document stays completed along every schedule that does not delete it exactly when its upload no
    longer waits for its enqueue and no run that finds it is in flight.
   */
  lemma CompletedStaysExactlyWhen(s: State, d: nat)
    requires Reachable(s) && IsCompleted(s, d)
    ensures StaysCompleted(s, d) <==> Settled(s, d)
  {
    if Settled(s, d) {
      forall steps | Schedule(s, steps) && Keeps(steps, d) ensures IsCompleted(Exec(s, steps), d) {
        SettledStays(s, steps, d);
      }
    } else if s.slots[d].phase == AwaitingEnqueue {
      RefusalReverts(s, d);
    } else {
      var r :| WorkingOn(s, r, d);
      ReachableKeepsInv(s);
      WorkReverts(s, r, d);
    }
  }
}
