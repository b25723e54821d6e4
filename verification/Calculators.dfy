/** The iteration calculators of incremental load: which cumulative totals a run
    steps through. */
module Calculators {
  import opened Arithmetic
  import opened Options

  /** The pattern configuration that is selected, with its fields. */
  datatype Pattern =
    | LinearPattern(stepSize: int, minSteps: int)
    | ExponentialPattern(configuredBase: real, cap: int, warmupSteps: int)

  datatype LoadConfig = LoadConfig(startIterations: int, totalIterations: int, pattern: Pattern)

  datatype Calculator =
    | Linear(start: int, total: int, step: int)
    | Exponential(start: int, total: int, base: real, maxIncrease: int, warmup: int, stepNo: int)

  function StartOf(cfg: LoadConfig, jobIterations: int): int {
    if cfg.startIterations <= 0 then jobIterations else cfg.startIterations
  }

  function TotalOf(cfg: LoadConfig, jobIterations: int): int {
    Max(cfg.totalIterations, StartOf(cfg, jobIterations))
  }

  /** The linear step after the MinSteps adjustment. */
  function LinearStep(stepSize: int, minSteps: int, start: int, total: int): int
    requires stepSize >= 1
  {
    var steps := CeilDiv(total - start, stepSize);
    var step :=
      if minSteps > 0 && steps < minSteps then
        if total - start <= 0 then total else CeilDiv(total - start, minSteps)
      else stepSize;
    if step <= 0 then 1 else step
  }

  /** NewIterationCalculator. */
  function NewCalculator(cfg: LoadConfig, jobIterations: int): Calculator
    requires cfg.pattern.LinearPattern? ==> cfg.pattern.stepSize >= 1
  {
    var start, total := StartOf(cfg, jobIterations), TotalOf(cfg, jobIterations);
    if total <= 0 then Linear(0, 0, 0)
    else match cfg.pattern
      case ExponentialPattern(b, cap, warmup) => Exponential(start, total, if b > 0.0 then b else 2.0, cap, warmup, 0)
      case LinearPattern(stepSize, minSteps) => Linear(start, total, LinearStep(stepSize, minSteps, start, total))
  }

  /** math.Pow for a whole exponent. */
  function Pow(b: real, n: nat): real { if n == 0 then 1.0 else b * Pow(b, n - 1) }

  /** The exponential increase of window number n, after warmup, floor and cap. */
  function Increase(c: Calculator, n: int): int
    requires c.Exponential?
  {
    var power := if c.warmup > 0 then n - c.warmup else n;
    var raw := (if power >= 0 then Pow(c.base, power).Floor else 0) * c.start;
    var atLeastOne := if raw <= 0 then 1 else raw;
    if c.maxIncrease > 0 && atLeastOne > c.maxIncrease then c.maxIncrease else atLeastOne
  }

  /** Next: the calculator afterwards, and the window unless the run is done. */
  function Next(c: Calculator, current: int): (Calculator, Option<(int, int)>) {
    if c.total <= 0 || current == c.total then (c, None)
    else match c
      case Linear(start, total, step) =>
        if current == 0 then (c, Some((0, Min(start, total))))
        else (c, Some((current, Min(current + step, total))))
      case Exponential(start, total, _, _, warmup, stepNo) =>
        if current == 0 then (c.(stepNo := 1), Some((0, Min(start, total))))
        else
          var n := stepNo + 1;
          var grown := if warmup > 0 && n <= warmup then start else Increase(c, n);
          (c.(stepNo := n), Some((current, Min(current + grown, total))))
  }

  /** The interface value the driver holds: the exponential calculator counts its
      windows in a field. */
  class IterationCalculator {
    var inner: Calculator

    constructor (cfg: LoadConfig, jobIterations: int)
      requires cfg.pattern.LinearPattern? ==> cfg.pattern.stepSize >= 1
      ensures inner == NewCalculator(cfg, jobIterations)
      ensures jobIterations >= 1 ==> Usable(inner)
    {
      inner := NewCalculator(cfg, jobIterations);
    }

    method NextWindow(current: int) returns (start: int, end: int, done: bool)
      modifies this
      ensures inner == Next(old(inner), current).0
      ensures done <==> Next(old(inner), current).1.None?
      ensures !done ==> Next(old(inner), current).1 == Some((start, end))
      ensures done ==> start == 0 && end == 0
    {
      if inner.total <= 0 || current == inner.total {
        return 0, 0, true;
      }
      if current == 0 {
        if inner.Exponential? {
          inner := inner.(stepNo := 1);
        }
        return 0, if inner.start > inner.total then inner.total else inner.start, false;
      }
      var grown;
      match inner {
        case Linear(_, _, step) => grown := step;
        case Exponential(_, _, _, _, _, _) =>
          inner := inner.(stepNo := inner.stepNo + 1);
          if inner.warmup > 0 && inner.stepNo <= inner.warmup {
            grown := inner.start;
          } else {
            grown := Increase(inner, inner.stepNo);
          }
      }
      var next := current + grown;
      if next > inner.total {
        next := inner.total;
      }
      return current, next, false;
    }
  }

  // ----- Termination and partition -----

  /** What NewIterationCalculator returns for a validated job. */
  ghost predicate Usable(c: Calculator) {
    1 <= c.start <= c.total && (c.Linear? ==> c.step >= 1)
  }

  /** The calculator of a validated job starts at startIterations, or at the job's own
      iterations without it, and ends at totalIterations, or at the start when that is
      not more. A linear one takes the configured steps unless they are too few. */
  lemma NewUsable(cfg: LoadConfig, jobIterations: int)
    requires jobIterations >= 1
    requires cfg.pattern.LinearPattern? ==> cfg.pattern.stepSize >= 1
    ensures
      var c := NewCalculator(cfg, jobIterations);
      && Usable(c) && (c.Linear? <==> cfg.pattern.LinearPattern?)
      && (cfg.startIterations > 0 ==> c.start == cfg.startIterations)
      && (cfg.startIterations <= 0 ==> c.start == jobIterations)
      && (cfg.totalIterations >= c.start ==> c.total == cfg.totalIterations)
      && (cfg.totalIterations < c.start ==> c.total == c.start)
      && (c.Linear? && CeilDiv(c.total - c.start, cfg.pattern.stepSize) >= cfg.pattern.minSteps ==>
            c.step == cfg.pattern.stepSize)
      && (c.Exponential? ==>
            && c.stepNo == 0 && c.maxIncrease == cfg.pattern.cap && c.warmup == cfg.pattern.warmupSteps
            && (cfg.pattern.configuredBase > 0.0 ==> c.base == cfg.pattern.configuredBase)
            && (cfg.pattern.configuredBase <= 0.0 ==> c.base == 2.0))
  {
  }

  /** Without a positive total there is no window at all. */
  lemma NothingToDo(cfg: LoadConfig, jobIterations: int, current: int)
    requires cfg.pattern.LinearPattern? ==> cfg.pattern.stepSize >= 1
    requires cfg.totalIterations <= 0 && cfg.startIterations <= 0 && jobIterations <= 0
    ensures Next(NewCalculator(cfg, jobIterations), current).1.None?
  {
  }

  lemma StepsForward(c: Calculator, current: int)
    requires Usable(c) && 0 <= current < c.total
    ensures var (c2, window) := Next(c, current);
            && window.Some? && window.value.0 == current < window.value.1 <= c.total
            && Usable(c2) && c2.total == c.total
  {
  }

  /** One window of a run: its bounds and the window number the calculator holds. */
  datatype Window = Window(start: int, end: int, number: int)

  /** Every window of a run from `current`, feeding each end back into Next. Dafny
      accepts the recursion because total - current strictly decreases. */
  function Run(c: Calculator, current: int, number: nat): (ws: seq<Window>)
    requires Usable(c) && 0 <= current <= c.total
    ensures forall k :: 0 <= k < |ws| ==> ws[k].end >= 0
    decreases c.total - current
  {
    if current == c.total then []
    else
      StepsForward(c, current);
      var (c2, window) := Next(c, current);
      [Window(window.value.0, window.value.1, if c2.Exponential? then c2.stepNo else number + 1)]
      + Run(c2, window.value.1, number + 1)
  }

  /** The windows of a whole run. */
  function Windows(c: Calculator): (ws: seq<Window>)
    requires Usable(c)
    ensures forall k :: 0 <= k < |ws| ==> ws[k].end >= 0
  {
    Run(c, 0, 0)
  }

  /** ws goes from a to b without gap or overlap, in windows that are not empty. */
  ghost predicate Tiles(ws: seq<Window>, a: int, b: int) {
    && (ws == [] ==> a == b)
    && (ws != [] ==> ws[0].start == a && ws[|ws| - 1].end == b)
    && (forall k :: 0 <= k < |ws| ==> ws[k].start < ws[k].end)
    && (forall k :: 0 < k < |ws| ==> ws[k - 1].end == ws[k].start)
  }

  lemma {:induction false} RunTiles(c: Calculator, current: int, number: nat)
    requires Usable(c) && 0 <= current <= c.total
    ensures Tiles(Run(c, current, number), current, c.total)
    decreases c.total - current
  {
    if current != c.total {
      StepsForward(c, current);
      var (c2, window) := Next(c, current);
      RunTiles(c2, window.value.1, number + 1);
    }
  }

  /** The counter of a fresh or running exponential calculator. */
  lemma {:induction false} RunNumbers(c: Calculator, current: int, number: nat)
    requires Usable(c) && 0 <= current <= c.total
    requires current == 0 ==> number == 0
    requires current > 0 && c.Exponential? ==> c.stepNo == number
    ensures forall k :: 0 <= k < |Run(c, current, number)| ==> Run(c, current, number)[k].number == number + k + 1
    decreases c.total - current
  {
    if current != c.total {
      StepsForward(c, current);
      var (c2, window) := Next(c, current);
      RunNumbers(c2, window.value.1, number + 1);
    }
  }

  /** Both calculators terminate and partition [0, total): the windows are
      contiguous, none is empty, and the k-th is numbered k. */
  lemma WindowsPartition(c: Calculator)
    requires Usable(c)
    ensures Tiles(Windows(c), 0, c.total) && Windows(c) != []
    ensures forall k :: 0 <= k < |Windows(c)| ==> Windows(c)[k].number == k + 1
  {
    RunTiles(c, 0, 0);
    RunNumbers(c, 0, 0);
  }

  lemma {:induction false} TilesAscend(ws: seq<Window>, a: int, b: int, j: nat, k: nat)
    requires Tiles(ws, a, b) && j < k < |ws|
    ensures ws[j].end < ws[k].end <= b && ws[j].end <= ws[k].start
    decreases k
  {
    if j < k - 1 {
      TilesAscend(ws, a, b, j, k - 1);
    }
    LastEnd(ws, a, b, k);
  }

  lemma {:induction false} LastEnd(ws: seq<Window>, a: int, b: int, k: nat)
    requires Tiles(ws, a, b) && k < |ws|
    ensures ws[k].end <= b && (k < |ws| - 1 ==> ws[k].end < b)
    decreases |ws| - k
  {
    if k < |ws| - 1 {
      LastEnd(ws, a, b, k + 1);
    }
  }

  // ----- Linear load -----

  lemma CeilLast(rest: int, step: int)
    requires 0 <= rest <= step && step >= 1
    ensures CeilDiv(rest, step) == if rest == 0 then 0 else 1
  {
    DivMod(rest + step - 1, step, if rest == 0 then 0 else 1, if rest == 0 then step - 1 else rest - 1);
  }

  lemma CeilMore(rest: int, step: int)
    requires step >= 1
    ensures CeilDiv(rest + step, step) == CeilDiv(rest, step) + 1
  {
    var q, m := (rest + step - 1) / step, (rest + step - 1) % step;
    Distribute(step, q, -1);
    DivMod(rest + step + step - 1, step, q + 1, m);
  }

  lemma {:induction false} LinearCount(c: Calculator, current: int, number: nat)
    requires Usable(c) && c.Linear? && 0 < current <= c.total
    ensures |Run(c, current, number)| == CeilDiv(c.total - current, c.step)
    decreases c.total - current
  {
    hide CeilDiv;
    var rest := c.total - current;
    if rest <= c.step {
      CeilLast(rest, c.step);
      assert Run(c, c.total, number + 1) == [];
    } else {
      CeilMore(rest - c.step, c.step);
      LinearCount(c, current + c.step, number + 1);
    }
  }

  /** A linear run has 1 + ceil((total - start) / step) windows. */
  lemma LinearWindows(c: Calculator)
    requires Usable(c) && c.Linear?
    ensures |Windows(c)| == 1 + CeilDiv(c.total - c.start, c.step)
  {
    LinearCount(c, c.start, 1);
  }

  /** When MinSteps asks for more windows than the configured step gives, the step
      becomes ceil((total - start) / MinSteps): never longer than the configured one,
      it gives at most MinSteps windows after the first, and every shorter step gives
      more than that. */
  lemma AdjustedStepOptimal(stepSize: int, minSteps: int, start: int, total: int, shorter: int)
    requires stepSize >= 1 && total > start
    requires minSteps > 0 && CeilDiv(total - start, stepSize) < minSteps
    ensures
      var rest, step := total - start, LinearStep(stepSize, minSteps, start, total);
      && 1 <= step <= stepSize && CeilDiv(rest, step) <= minSteps
      && (1 <= shorter < step ==> CeilDiv(rest, shorter) > minSteps)
  {
    var rest := total - start;
    var step := CeilDiv(rest, minSteps);
    BelowCeil(rest, minSteps, 0);
    BelowCeil(rest, stepSize, minSteps - 1);
    BelowCeil(rest, minSteps, stepSize);
    Distribute(stepSize, minSteps, 1);
    assert stepSize * (minSteps - 1) >= rest;
    assert minSteps * stepSize == stepSize * minSteps >= rest;
    BelowCeil(rest, minSteps, step);
    BelowCeil(rest, step, minSteps);
    assert step * minSteps == minSteps * step;
    if 1 <= shorter < step {
      BelowCeil(rest, minSteps, shorter);
      BelowCeil(rest, shorter, minSteps);
      assert shorter * minSteps == minSteps * shorter;
    }
  }

  lemma NothingToStep(step: int)
    requires step >= 1
    ensures CeilDiv(0, step) == 0
  {
    DivMod(step - 1, step, 0, step - 1);
  }

  /** MinSteps is documented as a minimum, and it is one exactly when MinSteps - 1
      adjusted steps leave something to do. */
  lemma MinStepsMetIff(stepSize: int, minSteps: int, start: int, total: int)
    requires stepSize >= 1 && total >= start >= 1 && minSteps > 0
    ensures
      var rest, step := total - start, LinearStep(stepSize, minSteps, start, total);
      step >= 1 && (CeilDiv(rest, step) >= minSteps
                    <==> CeilDiv(rest, stepSize) >= minSteps || CeilDiv(rest, minSteps) * (minSteps - 1) < rest)
  {
    if total == start {
      NothingToStep(stepSize);
      NothingToStep(minSteps);
      NothingToStep(LinearStep(stepSize, minSteps, start, total));
    } else if CeilDiv(total - start, stepSize) < minSteps {
      AdjustedStepOptimal(stepSize, minSteps, start, total, 0);
      BelowCeil(total - start, LinearStep(stepSize, minSteps, start, total), minSteps - 1);
    }
  }

  /** Ten more iterations, a configured step of 5 and minSteps 7: five windows after the
      first, six in all. */
  lemma MinStepsMissed()
    ensures
      var c := NewCalculator(LoadConfig(10, 20, LinearPattern(5, 7)), 1);
      Usable(c) && c.step == 2 && |Windows(c)| == 6
  {
    LinearWindows(NewCalculator(LoadConfig(10, 20, LinearPattern(5, 7)), 1));
  }

  // ----- Every window in closed form -----

  /** What window number n, counted from 1, adds before it is cut off at the total: the
      start first, then the step of linear load; of exponential load the start again while
      in warmup, and afterwards the start times the power of the base, rounded down, at
      least 1 and at most the cap. */
  function Added(c: Calculator, n: nat): int {
    match c
    case Linear(start, _, step) => if n <= 1 then start else step
    case Exponential(start, _, base, cap, warmup, _) =>
      if n <= 1 || n <= warmup then start
      else
        var grown := Max(1, start * Pow(base, n - Max(warmup, 0)).Floor);
        if cap > 0 then Min(cap, grown) else grown
  }

  lemma {:induction false} RunEnds(c: Calculator, current: int, number: nat, k: nat)
    requires Usable(c) && 0 <= current <= c.total && k < |Run(c, current, number)|
    requires current == 0 <==> number == 0
    requires current > 0 && c.Exponential? ==> c.stepNo == number
    ensures var w := Run(c, current, number)[k]; w.end == Min(w.start + Added(c, number + k + 1), c.total)
    decreases c.total - current
  {
    StepsForward(c, current);
    NextAdds(c, current, number);
    var (c2, window) := Next(c, current);
    hide Next, Added;
    if k > 0 {
      RunEnds(c2, window.value.1, number + 1, k - 1);
    }
  }

  lemma NextAdds(c: Calculator, current: int, number: nat)
    requires Usable(c) && 0 <= current < c.total && (current == 0 <==> number == 0)
    requires current > 0 && c.Exponential? ==> c.stepNo == number
    ensures
      var (c2, window) := Next(c, current);
      && window == Some((current, Min(current + Added(c, number + 1), c.total)))
      && (c2.Exponential? ==> c2.stepNo == number + 1)
      && forall n :: Added(c2, n) == Added(c, n)
  {
    hide Pow;
    if c.Exponential? && current > 0 && number + 1 > c.warmup {
      var raw := Pow(c.base, number + 1 - Max(c.warmup, 0)).Floor;
      assert raw * c.start == c.start * raw;
    }
  }

  /** Every window of either calculator: it starts where the one before ended and adds
      what its number says, cut off at the total. */
  lemma WindowEnds(c: Calculator, k: nat)
    requires Usable(c) && k < |Windows(c)|
    ensures
      var ws := Windows(c);
      && ws[k].start == (if k == 0 then 0 else ws[k - 1].end)
      && ws[k].end == Min(ws[k].start + Added(c, k + 1), c.total)
  {
    WindowsPartition(c);
    RunEnds(c, 0, 0, k);
  }

  // ----- Exponential load -----

  /** Window number n grows exponentially: it is neither the first nor in warmup. */
  predicate Grows(c: Calculator, n: int)
    requires c.Exponential?
  {
    n >= 2 && (c.warmup > 0 ==> n > c.warmup)
  }

  function Warmup(c: Calculator): nat
    requires c.Exponential?
  {
    if c.warmup > 0 then c.warmup else 0
  }

  lemma {:induction false} PowMonotone(b: real, m: nat, n: nat)
    requires b >= 1.0 && m <= n
    ensures 1.0 <= Pow(b, m) <= Pow(b, n)
    decreases n
  {
    if n == 0 {
    } else if m == n {
      PowMonotone(b, m - 1, n - 1);
    } else {
      PowMonotone(b, m, n - 1);
    }
  }

  /** The growth bound: with no cap, a run whose last window follows a growth window
      has taken fewer windows than the exponential of its length would need. */
  lemma GrowthBound(c: Calculator)
    requires Usable(c) && c.Exponential? && c.base > 0.0 && c.maxIncrease <= 0
    requires Grows(c, |Windows(c)| - 1)
    ensures c.start * Pow(c.base, |Windows(c)| - 1 - Warmup(c)).Floor < c.total
  {
    var ws := Windows(c);
    var n := |ws| - 1;
    WindowsPartition(c);
    LastEnd(ws, 0, c.total, n - 1);
    WindowEnds(c, n - 1);
    TilesAscend(ws, 0, c.total, 0, n - 1);
    hide Pow;
  }

  function IntPow(b: nat, n: nat): nat { if n == 0 then 1 else b * IntPow(b, n - 1) }

  lemma {:induction false} PowOfInt(b: nat, n: nat)
    ensures Pow(b as real, n) == IntPow(b, n) as real
  {
    if n > 0 {
      PowOfInt(b, n - 1);
    }
  }

  /** For a whole base b the bound is start * b^(N - 1 - warmup) < total. */
  lemma IntegerGrowthBound(c: Calculator, b: nat)
    requires Usable(c) && c.Exponential? && b >= 2 && c.base == b as real && c.maxIncrease <= 0
    requires Grows(c, |Windows(c)| - 1)
    ensures c.start * IntPow(b, |Windows(c)| - 1 - Warmup(c)) < c.total
  {
    GrowthBound(c);
    PowOfInt(b, |Windows(c)| - 1 - Warmup(c));
  }

  lemma AddedMonotone(c: Calculator, m: int, n: int)
    requires Usable(c) && c.Exponential? && c.base >= 1.0 && Grows(c, m) && m <= n
    ensures Added(c, m) <= Added(c, n)
    ensures c.maxIncrease > 0 ==> Added(c, n) <= c.maxIncrease
  {
    PowMonotone(c.base, m - Warmup(c), n - Warmup(c));
    hide Pow;
    MulMonotone(c.start, Pow(c.base, m - Warmup(c)).Floor, Pow(c.base, n - Warmup(c)).Floor);
  }

  /** For a base of at least 1 the unclipped growth increments of a run never
      decrease, and with a cap none exceeds it. */
  lemma IncrementsGrow(c: Calculator, j: nat, k: nat)
    requires Usable(c) && c.Exponential? && c.base >= 1.0
    requires j <= k < |Windows(c)| && Grows(c, j + 1)
    requires Windows(c)[k].end < c.total
    ensures var ws := Windows(c);
            && ws[j].end - ws[j].start <= ws[k].end - ws[k].start
            && (c.maxIncrease > 0 ==> ws[k].end - ws[k].start <= c.maxIncrease)
  {
    WindowsPartition(c);
    if j < k {
      TilesAscend(Windows(c), 0, c.total, j, k);
    }
    WindowEnds(c, j);
    WindowEnds(c, k);
    AddedMonotone(c, j + 1, k + 1);
    hide Added;
  }
}
