/** The `Execute` loop, fuel-bounded: why it stops, and what more fuel changes. */
module LoopProperties {
  import opened Semantics

  /** The loop reports `CyclesSpent` exactly when it stops on a machine whose budget is
      zero (the test `cycles > 0` failed), and `FuelSpent` only with budget left. */
  lemma {:induction false} StopReason(step: Machine -> Result<Machine>, m: Machine, fuel: nat)
    ensures Loop(step, m, fuel).Stopped? ==>
              (Loop(step, m, fuel).why == CyclesSpent <==> Loop(step, m, fuel).final.cycles == 0)
    decreases fuel
  {
    if m.cycles != 0 && fuel != 0 && step(m).Ok? {
      StopReason(step, step(m).value, fuel - 1);
    }
  }

  /** A loop that ran out of cycles or aborted ends the same way with any more fuel: the
      fuel bound only cuts off runs that would have gone on. */
  lemma {:induction false} MoreFuel(step: Machine -> Result<Machine>, m: Machine, fuel: nat, more: nat)
    requires Loop(step, m, fuel).Aborted? || Loop(step, m, fuel).why == CyclesSpent
    ensures Loop(step, m, fuel + more) == Loop(step, m, fuel)
    decreases fuel
  {
    if m.cycles != 0 && fuel != 0 && step(m).Ok? {
      MoreFuel(step, step(m).value, fuel - 1, more);
    }
  }

  /** With no fuel left, or no cycles, the loop does not step at all. */
  lemma NoPass(step: Machine -> Result<Machine>, m: Machine, fuel: nat)
    requires m.cycles == 0 || fuel == 0
    ensures Loop(step, m, fuel) == Stopped(if m.cycles == 0 then CyclesSpent else FuelSpent, m)
  {
  }
}
