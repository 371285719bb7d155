/**
  The statistics reported for each schedule: how many tasks were dropped and executed,
  and the normalized cost, which divides the total cost of the schedule by the cost of
  dropping every original task.

  The cost of one task and the cost of dropping it are defined by the task type, which
  is not part of this model; they are parameters `cost` and `dropCost` here.
*/
module SummaryStats {
  import opened Tasks

  /** The designed number of tasks. */
  const N: nat := 10
  /** Load in percent of N. */
  const LoadingRate: nat := 200
  /** The number of generated tasks: the quotient LoadingRate * N / 100 truncated to an integer. */
  const NActual: nat := LoadingRate * N / 100

  // ---------------------------------------------------------------------------
  // Drop and execution counts

  /** The number of dropped tasks. */
  function DropCount(tasks: seq<Task>): (r: nat)
    ensures r <= |tasks|
  {
    if tasks == [] then 0
    else DropCount(tasks[..|tasks| - 1]) + (if tasks[|tasks| - 1].dropped then 1 else 0)
  }

  /** Dropped and kept tasks together are all the tasks. */
  lemma {:induction false} DroppedPlusExecuted(tasks: seq<Task>)
    ensures DropCount(tasks) + |NonDropped(tasks)| == |tasks|
  {
    if tasks != [] {
      DroppedPlusExecuted(tasks[..|tasks| - 1]);
    }
  }

  /** The positions of the dropped tasks. */
  function DroppedPositions(tasks: seq<Task>): set<int> {
    set i | 0 <= i < |tasks| && tasks[i].dropped
  }

  /** The drop count is the number of positions holding a dropped task. */
  lemma {:induction false} DropCountCountsDropped(tasks: seq<Task>)
    ensures DropCount(tasks) == |DroppedPositions(tasks)|
  {
    if tasks != [] {
      var n := |tasks|;
      var init := tasks[..n - 1];
      DropCountCountsDropped(init);
      var last: set<int> := if tasks[n - 1].dropped then {n - 1} else {};
      forall i | i in DroppedPositions(tasks) ensures i in DroppedPositions(init) + last {
        if i < n - 1 {
          assert init[i] == tasks[i];
        }
      }
      forall i | i in DroppedPositions(init) ensures i in DroppedPositions(tasks) {
        assert init[i] == tasks[i];
      }
      assert DroppedPositions(tasks) == DroppedPositions(init) + last;
      assert n - 1 !in DroppedPositions(init);
    }
  }

  /** The executed count as reported: NActual minus the dropped tasks. */
  function ExecutedCount(tasks: seq<Task>): (r: int)
    ensures |tasks| == NActual ==> r == |NonDropped(tasks)|
    ensures |tasks| == NActual ==> 0 <= r <= NActual
  {
    DroppedPlusExecuted(tasks);
    NActual - DropCount(tasks)
  }

  // ---------------------------------------------------------------------------
  // Normalized cost

  /** The sum of f over the tasks. */
  function Total(tasks: seq<Task>, f: Task -> real): real {
    if tasks == [] then 0.0 else Total(tasks[..|tasks| - 1], f) + f(tasks[|tasks| - 1])
  }

  /**
    The total cost of a schedule divided by the total drop cost of the original tasks;
    a zero divisor raises a division by zero.
  */
  function NormalizedCost(tasks: seq<Task>, original: seq<Task>, cost: Task -> real, dropCost: Task -> real)
    : (r: Result<real>)
    ensures Total(original, dropCost) == 0.0 <==> r == Failure(ZeroDivisionError)
    ensures r.Success? ==> r.value * Total(original, dropCost) == Total(tasks, cost)
  {
    var mostCost := Total(original, dropCost);
    if mostCost == 0.0 then Failure(ZeroDivisionError) else Success(Total(tasks, cost) / mostCost)
  }

  /** Pointwise smaller terms give a smaller sum. */
  lemma {:induction false} TotalMonotone(a: seq<Task>, b: seq<Task>, f: Task -> real, g: Task -> real)
    requires |a| == |b|
    requires forall i :: 0 <= i < |a| ==> f(a[i]) <= g(b[i])
    ensures Total(a, f) <= Total(b, g)
  {
    if a != [] {
      TotalMonotone(a[..|a| - 1], b[..|b| - 1], f, g);
    }
  }

  lemma {:induction false} TotalNonNegative(a: seq<Task>, f: Task -> real)
    requires forall i :: 0 <= i < |a| ==> 0.0 <= f(a[i])
    ensures 0.0 <= Total(a, f)
  {
    if a != [] {
      TotalNonNegative(a[..|a| - 1], f);
    }
  }

  /**
    When every task of the schedule costs no more than dropping the corresponding
    original task, and no cost is negative, the normalized cost lies between 0 and 1.
  */
  lemma NormalizedCostInUnitRange(tasks: seq<Task>, original: seq<Task>, cost: Task -> real, dropCost: Task -> real)
    requires |tasks| == |original|
    requires forall i :: 0 <= i < |tasks| ==> 0.0 <= cost(tasks[i]) <= dropCost(original[i])
    requires Total(original, dropCost) != 0.0
    ensures NormalizedCost(tasks, original, cost, dropCost).Success?
    ensures 0.0 <= NormalizedCost(tasks, original, cost, dropCost).value <= 1.0
  {
    TotalMonotone(tasks, original, cost, dropCost);
    TotalNonNegative(tasks, cost);
    var mostCost, spent := Total(original, dropCost), Total(tasks, cost);
    assert 0.0 <= spent <= mostCost && mostCost > 0.0;
    QuotientInUnitRange(spent, mostCost);
  }

  lemma QuotientInUnitRange(spent: real, mostCost: real)
    requires 0.0 <= spent <= mostCost && mostCost > 0.0
    ensures 0.0 <= spent / mostCost <= 1.0
  {
  }

  /** A schedule that drops every task, each at its drop cost, has normalized cost 1. */
  lemma DroppingAllCostsOne(tasks: seq<Task>, original: seq<Task>, cost: Task -> real, dropCost: Task -> real)
    requires |tasks| == |original|
    requires forall i :: 0 <= i < |tasks| ==> tasks[i].dropped && cost(tasks[i]) == dropCost(original[i])
    requires Total(original, dropCost) != 0.0
    ensures NormalizedCost(tasks, original, cost, dropCost) == Success(1.0)
  {
    TotalMonotone(tasks, original, cost, dropCost);
    TotalMonotone(original, tasks, dropCost, cost);
    var mostCost := Total(original, dropCost);
    assert Total(tasks, cost) == mostCost;
    assert mostCost / mostCost == 1.0;
  }
}
