# Scenario classification, schedule lanes and summary statistics of the radar task-scheduling experiments

This project models, in Dafny, the self-contained logic of the experiment drivers of a
single-resource task-scheduling study. The schedulers themselves (earliest start time,
earliest deadline, random shifted start time, dual-side, front-line assembly) and the
`Task` and `Scenario` classes live in modules that are not part of this model. What is
modelled:

- **Scenario state classification** (`src/generate_eight_scenarios.py`). A randomly drawn
  list of tasks is classified into one of eight states from three facts: whether the
  dwell times sum to less than the window length L = 1, whether the mean desired start
  exceeds 0.5, and whether more than ten pairs of tasks conflict. Two tasks conflict
  when their desired intervals `[t_start, t_start + t_dwell]` share a point, end points
  included. The state number is `1 + 4*[sum dwell < L] + 2*[mean start > 0.5] +
  [conflicts > 10]`. A worklist of the eight states is kept, and the first task list
  found for each state is written as that state's scenario. The loop stops when every
  state has one.
- **Lanes of a schedule** (`pretty_plot` in `src/all_methods_one_time.py`). The tasks a
  scheduler did not drop are sorted by scheduled start. Each is then appended to the
  first lane whose last task ends at or before the task's start, or opens a new lane.
- **Summary statistics** (`summary_stats` and `most_cost` in
  `src/all_methods_one_time.py`). These are the drop count, the executed count, and the
  normalized cost: the total cost of a schedule divided by the total drop cost of the
  original tasks.

Files: `tasks.dfy` (module `Tasks`: the task record, the not-dropped filter, the division
error), `eight_scenarios.dfy` (module `EightScenarios`), `lanes.dfy` (module `Lanes`),
`summary_stats.dfy` (module `SummaryStats`).

Modelling choices:

- Times are exact reals.
- A division by zero, which Python raises as `ZeroDivisionError`, is the `Failure` case of
  a `Result`. It happens for the mean start of an empty list and for a zero total drop
  cost.
- `calculate_cost` and `drop_cost` are methods of the unseen `Task` class. They are
  function parameters `cost` and `dropCost`.
- The random task lists the generation loop draws are a parameter: a finite sequence of
  draws, in the order the generator would produce them. The scenario files written are
  modelled as a map from state number to task list.
- The conflict count is specified as the size of the set of conflicting position pairs
  `(i, j)` with `i < j`. The nested loop is proved to compute exactly that number.

The classification counts intervals that only touch as conflicting
(`i_head <= j_tail and i_tail >= j_head`, src/generate_eight_scenarios.py:75), while
`pretty_plot` compares with `>=` (src/all_methods_one_time.py:91) and puts touching tasks
in the same lane. The model follows the code in both places. The report labels the
normalized cost `(0~1)` (src/all_methods_one_time.py:119), but nothing in the code
enforces that range, so the model proves it only under the hypothesis that no task costs
less than 0 or more than dropping its original (`SummaryStats.NormalizedCostInUnitRange`).

## Model

| member | source | states |
|---|---|---|
| `Tasks.NonDropped` | src/all_methods_one_time.py:86 | keeps exactly the tasks that are not dropped: none of the result is dropped, and each kept task occurs as often as in the input |
| `Tasks.End` | src/all_methods_one_time.py:91 | defines the time a scheduled task releases the resource, `t_scheduled + t_dwell`, which the lane test compares against |
| `EightScenarios.SumDwell` | src/generate_eight_scenarios.py:62 | defines the sum of the dwell times of the task list, compared with the window length L |
| `EightScenarios.SumStart` | src/generate_eight_scenarios.py:65 | defines the sum of the desired start times of the task list |
| `EightScenarios.MeanStart` | src/generate_eight_scenarios.py:65 | for a non-empty list, the mean start times the number of tasks is the sum of the starts; the empty list, where the division fails, is handled by `ClassifyState` |
| `EightScenarios.Conflicts` | src/generate_eight_scenarios.py:70-75 | defines the conflict test: the closed desired intervals `[t_start, t_start + t_dwell]` of the two tasks share a point |
| `EightScenarios.ConflictsSymmetric` | src/generate_eight_scenarios.py:75 | the conflict test gives the same answer whichever task is taken first |
| `EightScenarios.TouchingConflicts` | src/generate_eight_scenarios.py:75 | two tasks of non-negative dwell where one ends exactly where the other starts are in conflict |
| `EightScenarios.CountConflicts` | src/generate_eight_scenarios.py:68-76 | the nested loop counts exactly the conflicting position pairs `(i, j)` with `i < j`, so each unordered pair is counted once and no task is compared with itself |
| `EightScenarios.ConflictCountBound` | src/generate_eight_scenarios.py:68-76 | there are at most n(n-1)/2 conflicts among n tasks, and none when n <= 1 |
| `EightScenarios.StateNumber` | src/generate_eight_scenarios.py:61-78 | the state number built from the three facts lies in 1..8 |
| `EightScenarios.StateNumberBijective` | src/generate_eight_scenarios.py:15-22 | the eight combinations of the three facts and the state numbers 1..8 correspond one to one, in both directions |
| `EightScenarios.StateNumberMatchesTable` | src/generate_eight_scenarios.py:15-22 | a task list satisfies row n of the table of states exactly when its state number is n |
| `EightScenarios.StateOf` | src/generate_eight_scenarios.py:61-78 | the state of a non-empty task list is one of the eight states |
| `EightScenarios.ClassifyState` | src/generate_eight_scenarios.py:61-78 | an empty list fails with a division by zero; otherwise the step-by-step state number is `1 + 4*[sum dwell < L] + 2*[mean start > 0.5] + [conflicts > 10]` |
| `EightScenarios.FirstIndex` | src/generate_eight_scenarios.py:81 | the position found is the first occurrence of the state |
| `EightScenarios.RemoveFirst` | src/generate_eight_scenarios.py:81 | list removal deletes the first occurrence and keeps the order of the rest |
| `EightScenarios.RemoveFirstKeepsOthers` | src/generate_eight_scenarios.py:80-81 | on a list without repetitions, removal takes out exactly the removed state and keeps the list free of repetitions |
| `EightScenarios.StateWorklist.constructor` | src/generate_eight_scenarios.py:37 | the worklist starts as the states 1..8 in order, with no state catalogued |
| `EightScenarios.StateWorklist.Exhausted` | src/generate_eight_scenarios.py:43 | the worklist is empty exactly when all eight states are catalogued, which is when the loop stops |
| `EightScenarios.StateWorklist.Record` | src/generate_eight_scenarios.py:80-81 | a state is removed exactly when it is still listed, which for a state number is exactly when it has no scenario yet; removal takes out its first occurrence and makes it catalogued; an unlisted state changes nothing |
| `EightScenarios.HoldFirstStep` | src/generate_eight_scenarios.py:80-88 | one more draw adds its state to the states seen, and writes a file exactly when its state has none yet, so each file keeps the first draw of its state |
| `EightScenarios.HoldFirstOfDraws` | src/generate_eight_scenarios.py:80-88 | when the files hold the first draw of each state seen, every file is a full task list classified into the state it is named after |
| `EightScenarios.GenerateScenarios` | src/generate_eight_scenarios.py:37-88 | files are written for exactly the states seen; each holds the first draw classified into that state and is of that state; the loop stops early only once all eight states have files, and never goes on after that |
| `Lanes.InsertBySchedule` | src/all_methods_one_time.py:88 | inserting into a list sorted by scheduled start keeps it sorted and adds exactly the task |
| `Lanes.SortBySchedule` | src/all_methods_one_time.py:88 | the result is sorted by scheduled start and is a permutation of the input |
| `Lanes.Fits` | src/all_methods_one_time.py:90-91 | defines when a task may join a lane: it starts at or after the end of the lane's last task |
| `Lanes.FirstFit` | src/all_methods_one_time.py:89-93 | the lane chosen is the first that accepts the task, and none is chosen when no lane accepts it |
| `Lanes.Place` | src/all_methods_one_time.py:89-95 | placing a task keeps every lane non-empty and adds at most one lane |
| `Lanes.Assemble` | src/all_methods_one_time.py:87-95 | no lane is empty and there are no more lanes than tasks |
| `Lanes.PlaceIntoFirstFitting` | src/all_methods_one_time.py:89-93 | a task joins the lowest-numbered lane that accepts it |
| `Lanes.PlaceOpensLane` | src/all_methods_one_time.py:94-95 | a new lane holding only the task is opened exactly when no existing lane accepts it |
| `Lanes.PlaceExtends` | src/all_methods_one_time.py:89-95 | a step only appends the task to one lane or opens a lane after the others, never reordering or removing lanes |
| `Lanes.AssembleExtends` | src/all_methods_one_time.py:87-95 | every lane built from a prefix of the order is a prefix of the same lane at the end |
| `Lanes.AssembleConserves` | src/all_methods_one_time.py:87-95 | every task of the order is in exactly one lane, and nothing else is in any lane |
| `Lanes.AssembleChained` | src/all_methods_one_time.py:91-92 | within a lane every task starts at or after the end of the one before it |
| `Lanes.AssembleSorted` | src/all_methods_one_time.py:88-95 | for a sorted order, each lane is in order of scheduled start, and the lanes are in order of their first start |
| `Lanes.AssembleLaneForced` | src/all_methods_one_time.py:88-95 | for a sorted order, the task that opened the last lane started while the last task of every earlier lane was still running, so no lane is opened needlessly |
| `Lanes.ScheduleLanes` | src/all_methods_one_time.py:86-95 | the lanes of a schedule hold each non-dropped task exactly once and no dropped task; no lane is empty and there are no more lanes than such tasks; lanes are overlap-free, sorted, and in order of first start |
| `Lanes.PartitionIntoLanes` | src/all_methods_one_time.py:87-95 | the nested loop with its `for ... else` builds exactly the first-fit lanes of the order |
| `Lanes.BuildLanes` | src/all_methods_one_time.py:85-95 | filtering, sorting and partitioning give the first-fit lanes, with all the properties of `ScheduleLanes` |
| `SummaryStats.DropCount` | src/all_methods_one_time.py:113 | the drop count lies between 0 and the number of tasks |
| `SummaryStats.DroppedPlusExecuted` | src/all_methods_one_time.py:113-115 | dropped plus not-dropped tasks equal all tasks |
| `SummaryStats.DropCountCountsDropped` | src/all_methods_one_time.py:113 | the drop count equals the number of positions holding a dropped task |
| `SummaryStats.ExecutedCount` | src/all_methods_one_time.py:115 | for a schedule of N_ACTUAL tasks, the reported executed count is the number of tasks not dropped, between 0 and N_ACTUAL |
| `SummaryStats.Total` | src/all_methods_one_time.py:117 | defines the sum of a per-task cost over a task list, as the `sum(...)` of the schedule's costs here and of the drop costs in `most_cost` at line 78 |
| `SummaryStats.TotalMonotone` | src/all_methods_one_time.py:117 | costs that are no larger task by task give a total that is no larger |
| `SummaryStats.TotalNonNegative` | src/all_methods_one_time.py:117 | non-negative costs give a non-negative total |
| `SummaryStats.NormalizedCost` | src/all_methods_one_time.py:117 | the normalized cost fails with a division by zero exactly when the total drop cost of the original tasks (`most_cost`) is 0; otherwise it times that total is the schedule's total cost |
| `SummaryStats.NormalizedCostInUnitRange` | src/all_methods_one_time.py:117-119 | when no task costs less than 0 or more than dropping its original, the normalized cost is between 0 and 1 |
| `SummaryStats.DroppingAllCostsOne` | src/all_methods_one_time.py:117 | a schedule that drops every task, each at its drop cost, has normalized cost exactly 1 |

## Left out

- The five schedulers and the `Task` and `Scenario` classes: they are imported from modules that are not part of this model.
- `Task.uniform_randomize` and every random draw: the generator is not part of this model and is nondeterministic. Its output is the `draws` parameter of `EightScenarios.GenerateScenarios`.
- `EightScenarios.GenerateScenarios`: runs over a finite sequence of draws. The Python loop draws until every state is found, and its termination depends on randomness. The model states what happens when the draws run out first.
- The JSON scenario files, directory creation and `time_ns` timing: I/O. The files written are modelled as a map from state to task list.
- Colour assignment with `distinctipy` and all `matplotlib` drawing: presentation through foreign libraries. Only the building of the lanes is modelled.
- Printing in `summary_stats`: console output. The counts and the normalized cost it prints are modelled.
- `calculate_cost` and `drop_cost`: defined in the unseen `Task` class. They are parameters, and properties that depend on them are stated under explicit hypotheses.
- `src/eight_scenarios.py` and `src/summary_stats.py`: a driver loop over named files that calls the schedulers, and a console report that repeats `summary_stats`.
- The unused reinforcement-learning and task-selection constants of `src/all_methods_one_time.py`.
- IEEE floating-point rounding of sums and means: the model uses exact reals.
- The `t_scheduled` of a dropped task: it is a real in the model and is never read for dropped tasks.
- `Lanes.SortBySchedule`: it is a stable sort like Python's `sorted`, but stability is not stated, only order and permutation.
- `Lanes.AssembleConserves`: tasks are compared by value, so "each task in exactly one lane" is stated as equality of multisets of tasks rather than object identity.
- `SummaryStats.DropCount`: its own contract only bounds the count. Its relation to the tasks is proved in `DroppedPlusExecuted` and `DropCountCountsDropped`.
