/** What both churn modes share: how much a percentage takes, and when the loop ends. */
module Churn {
  import opened Arithmetic

  /** int(math.Max(float64(percent * n / 100), 1)), with Go's division, which truncates
      toward zero. */
  function Share(percent: int, n: nat): int {
    Max(if percent >= 0 then percent * n / 100 else -(-percent * n / 100), 1)
  }

  /** It is the percentage rounded down, and at least one. */
  lemma ShareRoundsDown(percent: int, n: nat)
    ensures
      var share := Share(percent, n);
      && share >= 1 && percent * n < 100 * (share + 1)
      && (share == 1 || 100 * share <= percent * n)
  {
    if percent < 0 {
      MulMonotone(n, 0, -percent);
      Negate(n, percent);
      assert -percent * n == n * -percent && percent * n == n * percent;
    }
  }

  /** The two exits of the churn loop after `done` cycles, when the timer fires after
      `expiry` of them have begun. */
  predicate GoesOn(cycles: int, timed: bool, expiry: nat, done: nat) {
    !(timed && done >= expiry) && !(cycles > 0 && done >= cycles)
  }

  /** How many cycles that makes. */
  function CycleLimit(cycles: int, timed: bool, expiry: nat): nat
    requires timed || cycles > 0
  {
    if !timed then cycles else if cycles > 0 then Min(expiry, cycles) else expiry
  }

  lemma GoesOnUntil(cycles: int, timed: bool, expiry: nat, done: nat)
    requires timed || cycles > 0
    ensures GoesOn(cycles, timed, expiry, done) <==> done < CycleLimit(cycles, timed, expiry)
  {
  }
}
