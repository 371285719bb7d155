/**
  The task record shared by the experiment drivers: the fields the drivers read from
  a `Task` object, with times as exact reals, together with the error the drivers can
  raise and the filter that keeps the tasks a scheduler admitted.
*/
module Tasks {

  /** One unit of work. `tScheduled` is only meaningful when `dropped` is false. */
  datatype Task = Task(
    tStart: real,      // desired start time
    tDwell: real,      // duration once scheduled
    tau: real,         // separation granularity used by the randomiser
    priority: int,     // 1..9, weight of the drop cost
    tScheduled: real,  // start time chosen by a scheduler
    dropped: bool      // true when the scheduler could not admit the task
  )

  /** The one exception the modelled code can raise: a division by zero. */
  datatype Error = ZeroDivisionError

  datatype Result<T> = Success(value: T) | Failure(error: Error)

  /** The time at which a scheduled task releases the resource. */
  function End(t: Task): real {
    t.tScheduled + t.tDwell
  }

  /** The tasks that were not dropped, in their original order. */
  function NonDropped(tasks: seq<Task>): (r: seq<Task>)
    ensures |r| <= |tasks|
    ensures forall t :: t in r ==> !t.dropped
    ensures forall t :: multiset(r)[t] == if t.dropped then 0 else multiset(tasks)[t]
  {
    if tasks == [] then []
    else
      var init, last := tasks[..|tasks| - 1], tasks[|tasks| - 1];
      assert tasks == init + [last];
      NonDropped(init) + (if last.dropped then [] else [last])
  }
}
