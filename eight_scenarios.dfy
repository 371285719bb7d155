/**
  Classification of a randomly generated task list into one of eight scenario states,
  and the worklist loop that keeps one task list per state.

  A state combines three yes/no facts about the task list: whether the dwell times sum
  to less than the window length L, whether the mean desired start lies past 0.5, and
  whether more than ten pairs of tasks conflict. The state number is
  1 + 4*[sum of dwells < L] + 2*[mean start > 0.5] + [conflicts > 10].
*/
module EightScenarios {
  import opened Tasks

  /** Number of tasks in each generated list. */
  const NActual: nat := 10
  /** L, the length of the scheduling window. */
  const WindowLength: real := 1.0
  const MeanStartThreshold: real := 0.5
  const ConflictThreshold: nat := 10
  const AllStates: set<int> := {1, 2, 3, 4, 5, 6, 7, 8}

  // ---------------------------------------------------------------------------
  // The three measurements

  function SumDwell(tasks: seq<Task>): real {
    if tasks == [] then 0.0 else SumDwell(tasks[..|tasks| - 1]) + tasks[|tasks| - 1].tDwell
  }

  function SumStart(tasks: seq<Task>): real {
    if tasks == [] then 0.0 else SumStart(tasks[..|tasks| - 1]) + tasks[|tasks| - 1].tStart
  }

  /** The mean desired start; the caller handles the empty list, where Python divides by zero. */
  function MeanStart(tasks: seq<Task>): (mean: real)
    requires |tasks| > 0
    ensures mean * (|tasks| as real) == SumStart(tasks)
  {
    SumStart(tasks) / (|tasks| as real)
  }

  /**
    Two desired intervals [tStart, tStart + tDwell] conflict when they share a point;
    intervals that only touch at an end point count as a conflict.
  */
  predicate Conflicts(a: Task, b: Task) {
    a.tStart <= b.tStart + b.tDwell && a.tStart + a.tDwell >= b.tStart
  }

  lemma ConflictsSymmetric(a: Task, b: Task)
    ensures Conflicts(a, b) <==> Conflicts(b, a)
  {
  }

  /** Back-to-back tasks (one ends where the other starts) are in conflict. */
  lemma TouchingConflicts(a: Task, b: Task)
    requires a.tDwell >= 0.0 && b.tDwell >= 0.0
    requires a.tStart + a.tDwell == b.tStart
    ensures Conflicts(a, b) && Conflicts(b, a)
  {
  }

  /** The conflicting pairs of positions, each unordered pair once, never a task with itself. */
  function ConflictPairs(tasks: seq<Task>): set<(int, int)> {
    set i, j | 0 <= i < j < |tasks| && Conflicts(tasks[i], tasks[j]) :: (i, j)
  }

  function ConflictCount(tasks: seq<Task>): nat {
    |ConflictPairs(tasks)|
  }

  // ---------------------------------------------------------------------------
  // State numbers and the table of states

  /** The state number built from the three facts. */
  function StateNumber(short: bool, late: bool, crowded: bool): (n: int)
    ensures 1 <= n <= 8
  {
    1 + (if short then 4 else 0) + (if late then 2 else 0) + (if crowded then 1 else 0)
  }

  /** The three facts a state number stands for. */
  function StateFlags(n: int): (bool, bool, bool)
    requires 1 <= n <= 8
  {
    ((n - 1) / 4 == 1, (n - 1) / 2 % 2 == 1, (n - 1) % 2 == 1)
  }

  /** The eight combinations of facts and the eight state numbers are in one-to-one correspondence. */
  lemma StateNumberBijective(short: bool, late: bool, crowded: bool, n: int)
    ensures StateFlags(StateNumber(short, late, crowded)) == (short, late, crowded)
    ensures 1 <= n <= 8 ==> StateNumber(StateFlags(n).0, StateFlags(n).1, StateFlags(n).2) == n
  {
  }

  /** The table of states, row by row, in terms of the three measurements. */
  predicate TableRow(n: int, sumDwell: real, meanStart: real, conflicts: int) {
    match n
    case 1 => sumDwell >= WindowLength && meanStart <= MeanStartThreshold && conflicts <= 10
    case 2 => sumDwell >= WindowLength && meanStart <= MeanStartThreshold && conflicts > 10
    case 3 => sumDwell >= WindowLength && meanStart > MeanStartThreshold && conflicts <= 10
    case 4 => sumDwell >= WindowLength && meanStart > MeanStartThreshold && conflicts > 10
    case 5 => sumDwell < WindowLength && meanStart <= MeanStartThreshold && conflicts <= 10
    case 6 => sumDwell < WindowLength && meanStart <= MeanStartThreshold && conflicts > 10
    case 7 => sumDwell < WindowLength && meanStart > MeanStartThreshold && conflicts <= 10
    case 8 => sumDwell < WindowLength && meanStart > MeanStartThreshold && conflicts > 10
    case _ => false
  }

  /** A list is in state n exactly when its measurements satisfy row n of the table. */
  lemma StateNumberMatchesTable(sumDwell: real, meanStart: real, conflicts: int, n: int)
    ensures TableRow(n, sumDwell, meanStart, conflicts) <==>
            n == StateNumber(sumDwell < WindowLength, meanStart > MeanStartThreshold, conflicts > ConflictThreshold)
  {
  }

  /** The state of a non-empty task list. */
  function StateOf(tasks: seq<Task>): (n: int)
    requires |tasks| > 0
    ensures n in AllStates
  {
    StateNumber(SumDwell(tasks) < WindowLength, MeanStart(tasks) > MeanStartThreshold,
                ConflictCount(tasks) > ConflictThreshold)
  }

  // ---------------------------------------------------------------------------
  // Counting conflicts with the nested loop

  /**
    The conflicting pairs (r, k) the nested loop has compared when its outer index is i
    and its inner index is j: every row before i, and row i up to column j.
  */
  function Scanned(tasks: seq<Task>, i: int, j: int): set<(int, int)> {
    set r, k | 0 <= r < k < |tasks| && (r < i || (r == i && k < j)) && Conflicts(tasks[r], tasks[k]) :: (r, k)
  }

  lemma ScanColumn(tasks: seq<Task>, i: int, j: int)
    requires 0 <= i < j < |tasks|
    ensures |Scanned(tasks, i, j + 1)| == |Scanned(tasks, i, j)| + if Conflicts(tasks[i], tasks[j]) then 1 else 0
  {
    var extra := if Conflicts(tasks[i], tasks[j]) then {(i, j)} else {};
    forall p | p in Scanned(tasks, i, j + 1)
      ensures p in Scanned(tasks, i, j) + extra
    {
    }
    assert Scanned(tasks, i, j + 1) == Scanned(tasks, i, j) + extra;
    assert (i, j) !in Scanned(tasks, i, j);
  }

  lemma ScanRow(tasks: seq<Task>, i: int)
    requires 0 <= i < |tasks|
    ensures |Scanned(tasks, i, |tasks|)| == |Scanned(tasks, i + 1, i + 2)|
  {
    assert Scanned(tasks, i, |tasks|) == Scanned(tasks, i + 1, i + 2);
  }

  lemma ScanAll(tasks: seq<Task>)
    ensures |Scanned(tasks, 0, 1)| == 0
    ensures |Scanned(tasks, |tasks|, |tasks| + 1)| == |ConflictPairs(tasks)|
  {
    forall p | p in Scanned(tasks, 0, 1) ensures false {
    }
    assert Scanned(tasks, 0, 1) == {};
    assert Scanned(tasks, |tasks|, |tasks| + 1) == ConflictPairs(tasks);
  }

  /** The number of conflicting pairs, counted pair by pair as the nested loop does. */
  method CountConflicts(tasks: seq<Task>) returns (conflictCount: nat)
    ensures conflictCount == |ConflictPairs(tasks)|
  {
    ScanAll(tasks);
    conflictCount := 0;
    for i := 0 to |tasks|
      invariant conflictCount == |Scanned(tasks, i, i + 1)|
    {
      var iHead := tasks[i].tStart;
      var iTail := tasks[i].tStart + tasks[i].tDwell;
      for j := i + 1 to |tasks|
        invariant conflictCount == |Scanned(tasks, i, j)|
      {
        var jHead := tasks[j].tStart;
        var jTail := tasks[j].tStart + tasks[j].tDwell;
        ScanColumn(tasks, i, j);
        if iHead <= jTail && iTail >= jHead {
          conflictCount := conflictCount + 1;
        }
      }
      ScanRow(tasks, i);
    }
  }

  /** All pairs (i, j) with i < j < n. */
  function AllPairs(n: nat): set<(int, int)> {
    set i, j | 0 <= i < j < n :: (i, j)
  }

  function Column(m: nat, j: int): set<(int, int)> {
    set i | 0 <= i < m :: (i, j)
  }

  lemma {:induction false} ColumnSize(m: nat, j: int)
    ensures |Column(m, j)| == m
  {
    if m > 0 {
      ColumnSize(m - 1, j);
      assert Column(m, j) == Column(m - 1, j) + {(m - 1, j)};
    }
  }

  /** The pairs below n are those below n - 1 and a new column of n - 1 pairs. */
  lemma AllPairsSplit(n: nat)
    requires n > 0
    ensures |AllPairs(n)| == |AllPairs(n - 1)| + (n - 1)
  {
    var before, column := AllPairs(n - 1), Column(n - 1, n - 1);
    ColumnSize(n - 1, n - 1);
    assert AllPairs(n) == before + column;
    assert before * column == {};
  }

  lemma {:induction false} AllPairsSize(n: nat)
    ensures 2 * |AllPairs(n)| == n * (n - 1)
  {
    if n > 0 {
      AllPairsSize(n - 1);
      AllPairsSplit(n);
      assert (n - 1) * (n - 2) + 2 * (n - 1) == n * (n - 1);
    }
  }

  /** At most n(n-1)/2 conflicts among n tasks; none when there are fewer than two tasks. */
  lemma ConflictCountBound(tasks: seq<Task>)
    ensures ConflictCount(tasks) <= |tasks| * (|tasks| - 1) / 2
    ensures |tasks| <= 1 ==> ConflictCount(tasks) == 0
  {
    var pairs, all := ConflictPairs(tasks), AllPairs(|tasks|);
    assert all == pairs + (all - pairs);
    assert pairs * (all - pairs) == {};
    AllPairsSize(|tasks|);
  }

  // ---------------------------------------------------------------------------
  // One classification step

  /**
    The state number of a task list, built step by step. The mean start divides by the
    length of the list, so an empty list raises a division by zero.
  */
  method ClassifyState(tasks: seq<Task>) returns (r: Result<int>)
    ensures |tasks| == 0 ==> r == Failure(ZeroDivisionError)
    ensures |tasks| > 0 ==> r == Success(StateOf(tasks))
  {
    var stateNumber := 1;
    if SumDwell(tasks) < WindowLength {
      stateNumber := stateNumber + 4;
    }
    if |tasks| == 0 {
      return Failure(ZeroDivisionError);
    }
    if SumStart(tasks) / (|tasks| as real) > MeanStartThreshold {
      stateNumber := stateNumber + 2;
    }
    var conflictCount := CountConflicts(tasks);
    if conflictCount > ConflictThreshold {
      stateNumber := stateNumber + 1;
    }
    return Success(stateNumber);
  }

  // ---------------------------------------------------------------------------
  // The worklist of states still waiting for a scenario

  /** The position of the first occurrence of x in s. */
  function FirstIndex(s: seq<int>, x: int): (k: nat)
    requires x in s
    ensures k < |s| && s[k] == x && x !in s[..k]
  {
    if s[0] == x then 0 else 1 + FirstIndex(s[1..], x)
  }

  /** Removal of the first occurrence of x, as a list removal does it. */
  function RemoveFirst(s: seq<int>, x: int): (r: seq<int>)
    requires x in s
    ensures r == s[..FirstIndex(s, x)] + s[FirstIndex(s, x) + 1..]
  {
    if s[0] == x then s[1..]
    else
      var rest := RemoveFirst(s[1..], x);
      var k := FirstIndex(s[1..], x);
      assert s[1..][..k] + s[1..][k + 1..] == s[1..k + 1] + s[k + 2..];
      assert [s[0]] + s[1..k + 1] == s[..k + 1];
      [s[0]] + rest
  }

  predicate Distinct(s: seq<int>) {
    forall k, m :: 0 <= k < m < |s| ==> s[k] != s[m]
  }

  /** Where each remaining entry came from after the removal. */
  lemma RemoveFirstAt(s: seq<int>, x: int, a: int)
    requires x in s && 0 <= a < |s| - 1
    ensures |RemoveFirst(s, x)| == |s| - 1
    ensures RemoveFirst(s, x)[a] == s[if a < FirstIndex(s, x) then a else a + 1]
  {
    var k := FirstIndex(s, x);
    var front, back := s[..k], s[k + 1..];
    assert RemoveFirst(s, x) == front + back;
    if a < k {
      assert (front + back)[a] == front[a];
    } else {
      assert (front + back)[a] == back[a - k];
    }
  }

  /** Removing one entry of a list without repetitions removes exactly that state. */
  lemma RemoveFirstKeepsOthers(s: seq<int>, x: int)
    requires x in s && Distinct(s)
    ensures Distinct(RemoveFirst(s, x))
    ensures forall y :: y in RemoveFirst(s, x) <==> y in s && y != x
  {
    var k := FirstIndex(s, x);
    var r := RemoveFirst(s, x);
    forall a, b | 0 <= a < b < |r| ensures r[a] != r[b] {
      RemoveFirstAt(s, x, a);
      RemoveFirstAt(s, x, b);
    }
    forall y | y in r ensures y in s && y != x {
      var a :| 0 <= a < |r| && r[a] == y;
      RemoveFirstAt(s, x, a);
    }
    forall y | y in s && y != x ensures y in r {
      var a :| 0 <= a < |s| && s[a] == y;
      var a' := if a < k then a else a - 1;
      RemoveFirstAt(s, x, a');
    }
  }

  class StateWorklist {
    var statesRemaining: seq<int>

    /** Every remaining entry is a state number, and no state is listed twice. */
    ghost predicate Valid()
      reads this
    {
      (forall k :: 0 <= k < |statesRemaining| ==> statesRemaining[k] in AllStates) &&
      Distinct(statesRemaining)
    }

    /** The states that already have their scenario. */
    function Catalogued(): set<int>
      reads this
    {
      set s | s in AllStates && s !in statesRemaining
    }

    constructor ()
      ensures Valid()
      ensures statesRemaining == [1, 2, 3, 4, 5, 6, 7, 8]
      ensures Catalogued() == {}
    {
      statesRemaining := [1, 2, 3, 4, 5, 6, 7, 8];
    }

    /** The generation loop goes on while this is false. */
    predicate Exhausted(): (done: bool)
      reads this
      requires Valid()
      ensures done <==> Catalogued() == AllStates
    {
      if statesRemaining == [] then true
      else
        assert statesRemaining[0] !in Catalogued();
        false
    }

    /**
      Takes a freshly classified state off the worklist if it is still there. The
      result says whether the scenario is to be written, which happens at most once
      per state.
    */
    method Record(state: int) returns (removed: bool)
      requires Valid()
      modifies this
      ensures Valid()
      ensures removed == (state in old(statesRemaining))
      ensures removed ==> statesRemaining == RemoveFirst(old(statesRemaining), state)
      ensures !removed ==> statesRemaining == old(statesRemaining)
      ensures state in AllStates ==> (removed <==> state !in old(Catalogued()))
      ensures Catalogued() == if removed then old(Catalogued()) + {state} else old(Catalogued())
    {
      removed := state in statesRemaining;
      if removed {
        RemoveFirstKeepsOthers(statesRemaining, state);
        statesRemaining := RemoveFirst(statesRemaining, state);
      }
    }
  }

  // ---------------------------------------------------------------------------
  // The generation loop

  /** The state of every draw, in order. */
  function StatesOf(draws: seq<seq<Task>>): (r: seq<int>)
    requires forall k :: 0 <= k < |draws| ==> |draws[k]| > 0
    ensures |r| == |draws|
    ensures forall k :: 0 <= k < |draws| ==> r[k] == StateOf(draws[k])
  {
    if draws == [] then [] else StatesOf(draws[..|draws| - 1]) + [StateOf(draws[|draws| - 1])]
  }

  /** The states among the first `used` entries. */
  function Seen(states: seq<int>, used: nat): set<int>
    requires used <= |states|
  {
    set k | 0 <= k < used :: states[k]
  }

  /** Entry k is the first one with its state. */
  predicate FirstOf(states: seq<int>, k: nat)
    requires k < |states|
  {
    forall m :: 0 <= m < k ==> states[m] != states[k]
  }

  /** The states of the first `used` draws. */
  function StatesSeen(draws: seq<seq<Task>>, used: nat): set<int>
    requires used <= |draws|
    requires forall k :: 0 <= k < |draws| ==> |draws[k]| > 0
  {
    Seen(StatesOf(draws), used)
  }

  /** Draw k is the first one classified into its state. */
  predicate FirstOfItsState(draws: seq<seq<Task>>, k: nat)
    requires k < |draws|
    requires forall m :: 0 <= m < |draws| ==> |draws[m]| > 0
  {
    FirstOf(StatesOf(draws), k)
  }

  /**
    The files after `used` draws whose states are `states`: one file per state seen so
    far, holding the first draw with that state.
  */
  predicate HoldFirst(states: seq<int>, draws: seq<seq<Task>>, used: nat, files: map<int, seq<Task>>)
    requires used <= |states| == |draws|
  {
    && files.Keys == Seen(states, used)
    && (forall k :: 0 <= k < used && FirstOf(states, k) ==> states[k] in files && files[states[k]] == draws[k])
  }

  /** One more entry adds its own state to the states seen. */
  lemma SeenStep(states: seq<int>, used: nat)
    requires used < |states|
    ensures Seen(states, used + 1) == Seen(states, used) + {states[used]}
  {
  }

  /** A draw whose state is new is the first of its state and gets the file. */
  lemma HoldFirstNew(states: seq<int>, draws: seq<seq<Task>>, used: nat, files: map<int, seq<Task>>)
    requires used < |states| == |draws|
    requires HoldFirst(states, draws, used, files)
    requires states[used] !in files
    ensures HoldFirst(states, draws, used + 1, files[states[used] := draws[used]])
  {
    var files' := files[states[used] := draws[used]];
    SeenStep(states, used);
    forall k | 0 <= k < used + 1 && FirstOf(states, k)
      ensures states[k] in files' && files'[states[k]] == draws[k]
    {
      if k < used {
        assert states[k] in files;
      }
    }
  }

  /** A draw whose state already has a file is not the first of its state, and writes nothing. */
  lemma HoldFirstSeen(states: seq<int>, draws: seq<seq<Task>>, used: nat, files: map<int, seq<Task>>)
    requires used < |states| == |draws|
    requires HoldFirst(states, draws, used, files)
    requires states[used] in files
    ensures !FirstOf(states, used)
    ensures HoldFirst(states, draws, used + 1, files)
  {
    SeenStep(states, used);
    var m :| 0 <= m < used && states[m] == states[used];
    assert !FirstOf(states, used);
    forall k | 0 <= k < used + 1 && FirstOf(states, k)
      ensures states[k] in files && files[states[k]] == draws[k]
    {
    }
  }

  /** One more draw writes a file exactly when its state had none. */
  lemma HoldFirstStep(states: seq<int>, draws: seq<seq<Task>>, used: nat, files: map<int, seq<Task>>)
    requires used < |states| == |draws|
    requires HoldFirst(states, draws, used, files)
    ensures Seen(states, used + 1) == Seen(states, used) + {states[used]}
    ensures states[used] !in files ==> HoldFirst(states, draws, used + 1, files[states[used] := draws[used]])
    ensures states[used] in files ==> HoldFirst(states, draws, used + 1, files)
  {
    SeenStep(states, used);
    if states[used] in files {
      HoldFirstSeen(states, draws, used, files);
    } else {
      HoldFirstNew(states, draws, used, files);
    }
  }

  /** Every entry has an entry with the same state at or before it that is the first of that state. */
  lemma {:induction false} FirstOccurrence(states: seq<int>, k: nat)
    requires k < |states|
    ensures exists j :: 0 <= j <= k && states[j] == states[k] && FirstOf(states, j)
  {
    if !FirstOf(states, k) {
      var m :| 0 <= m < k && states[m] == states[k];
      FirstOccurrence(states, m);
    }
  }

  /** What `HoldFirst` says about the draws themselves. */
  lemma HoldFirstOfDraws(draws: seq<seq<Task>>, used: nat, files: map<int, seq<Task>>)
    requires used <= |draws|
    requires forall k :: 0 <= k < |draws| ==> |draws[k]| == NActual
    requires HoldFirst(StatesOf(draws), draws, used, files)
    ensures files.Keys == StatesSeen(draws, used)
    ensures forall s :: s in files ==> |files[s]| == NActual && StateOf(files[s]) == s
    ensures forall k :: 0 <= k < used && FirstOfItsState(draws, k) ==>
              StateOf(draws[k]) in files && files[StateOf(draws[k])] == draws[k]
  {
    var states := StatesOf(draws);
    forall s | s in files ensures |files[s]| == NActual && StateOf(files[s]) == s {
      var k :| 0 <= k < used && states[k] == s;
      FirstOccurrence(states, k);
      var j :| 0 <= j <= k && states[j] == s && FirstOf(states, j);
      assert files[s] == draws[j];
    }
  }

  /**
    The loop that draws task lists until every state has a scenario. The random task
    lists are given as `draws`, in the order the generator produces them, and the
    scenario files written are returned as a map from state number to task list.
    `used` is the number of draws the loop consumed.
  */
  method GenerateScenarios(draws: seq<seq<Task>>) returns (files: map<int, seq<Task>>, used: nat)
    requires forall k :: 0 <= k < |draws| ==> |draws[k]| == NActual
    ensures used <= |draws|
    ensures files.Keys == StatesSeen(draws, used)
    ensures files.Keys <= AllStates
    ensures forall s :: s in files ==> |files[s]| == NActual && StateOf(files[s]) == s
    ensures forall k :: 0 <= k < used && FirstOfItsState(draws, k) ==>
              StateOf(draws[k]) in files && files[StateOf(draws[k])] == draws[k]
    ensures used < |draws| ==> files.Keys == AllStates
    ensures used > 0 ==> StatesSeen(draws, used - 1) != AllStates
  {
    ghost var states := StatesOf(draws);
    var worklist := new StateWorklist();
    files := map[];
    used := 0;
    while !worklist.Exhausted() && used < |draws|
      invariant worklist.Valid()
      invariant used <= |draws|
      invariant worklist.Catalogued() == files.Keys
      invariant HoldFirst(states, draws, used, files)
      invariant used > 0 ==> Seen(states, used - 1) != AllStates
      decreases |draws| - used
    {
      var taskList := draws[used];
      var classified := ClassifyState(taskList);
      var stateNumber := classified.value;
      assert stateNumber == states[used];
      HoldFirstStep(states, draws, used, files);
      var removed := worklist.Record(stateNumber);
      if removed {
        files := files[stateNumber := taskList];
      }
      used := used + 1;
    }
    HoldFirstOfDraws(draws, used, files);
  }
}
