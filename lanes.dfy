/**
  The lanes in which a schedule is drawn: the admitted tasks, taken in order of their
  scheduled start, are placed first-fit into lanes so that no two tasks of one lane
  overlap. A task fits a lane when it starts at or after the end of the lane's last
  task, so tasks that only touch share a lane.
*/
module Lanes {
  import opened Tasks

  // ---------------------------------------------------------------------------
  // Ordering by scheduled start

  predicate SortedBySchedule(s: seq<Task>) {
    forall i, j :: 0 <= i < j < |s| ==> s[i].tScheduled <= s[j].tScheduled
  }

  /** Inserts t before the first element that starts no earlier than t. */
  function InsertBySchedule(t: Task, sorted: seq<Task>): (r: seq<Task>)
    requires SortedBySchedule(sorted)
    ensures SortedBySchedule(r)
    ensures multiset(r) == multiset(sorted) + multiset{t}
  {
    if sorted == [] || t.tScheduled <= sorted[0].tScheduled then
      [t] + sorted
    else
      var rest := InsertBySchedule(t, sorted[1..]);
      assert sorted == [sorted[0]] + sorted[1..];
      InsertedAfter(t, sorted, rest);
      [sorted[0]] + rest
  }

  /** Everything in the insertion into the tail starts no earlier than the head. */
  lemma InsertedAfter(t: Task, sorted: seq<Task>, rest: seq<Task>)
    requires SortedBySchedule(sorted) && |sorted| > 0
    requires sorted[0].tScheduled < t.tScheduled
    requires multiset(rest) == multiset(sorted[1..]) + multiset{t}
    ensures forall j :: 0 <= j < |rest| ==> sorted[0].tScheduled <= rest[j].tScheduled
  {
    forall j | 0 <= j < |rest| ensures sorted[0].tScheduled <= rest[j].tScheduled {
      assert rest[j] in multiset(rest);
      if rest[j] != t {
        assert rest[j] in multiset(sorted[1..]);
        var m :| 0 <= m < |sorted[1..]| && sorted[1..][m] == rest[j];
        assert sorted[m + 1] == rest[j];
      }
    }
  }

  /** A stable sort of the tasks by scheduled start (ties keep their order). */
  function SortBySchedule(s: seq<Task>): (r: seq<Task>)
    ensures SortedBySchedule(r)
    ensures multiset(r) == multiset(s)
  {
    if s == [] then []
    else
      assert s == [s[0]] + s[1..];
      InsertBySchedule(s[0], SortBySchedule(s[1..]))
  }

  // ---------------------------------------------------------------------------
  // Lanes and first-fit placement

  predicate NonEmptyLanes(lanes: seq<seq<Task>>) {
    forall i :: 0 <= i < |lanes| ==> |lanes[i]| > 0
  }

  /** A task fits a lane when it starts no earlier than the end of the lane's last task. */
  predicate Fits(lane: seq<Task>, t: Task)
    requires |lane| > 0
  {
    t.tScheduled >= End(lane[|lane| - 1])
  }

  /** The first lane at or after `from` that t fits, or |lanes| when there is none. */
  function FirstFit(lanes: seq<seq<Task>>, t: Task, from: nat): (k: nat)
    requires NonEmptyLanes(lanes) && from <= |lanes|
    ensures from <= k <= |lanes|
    ensures forall i :: from <= i < k ==> !Fits(lanes[i], t)
    ensures k < |lanes| ==> Fits(lanes[k], t)
    decreases |lanes| - from
  {
    if from == |lanes| then from
    else if Fits(lanes[from], t) then from
    else FirstFit(lanes, t, from + 1)
  }

  /** One step of the lane building: t joins the first lane it fits, or opens a new lane. */
  function Place(lanes: seq<seq<Task>>, t: Task): (r: seq<seq<Task>>)
    requires NonEmptyLanes(lanes)
    ensures NonEmptyLanes(r)
    ensures |r| == |lanes| || |r| == |lanes| + 1
  {
    var k := FirstFit(lanes, t, 0);
    if k < |lanes| then lanes[k := lanes[k] + [t]] else lanes + [[t]]
  }

  /** The lanes built from the tasks in `order`, placed one after the other. */
  function Assemble(order: seq<Task>): (lanes: seq<seq<Task>>)
    ensures NonEmptyLanes(lanes)
    ensures |lanes| <= |order|
  {
    if order == [] then [] else Place(Assemble(order[..|order| - 1]), order[|order| - 1])
  }

  /** All tasks of all lanes, lane after lane. */
  function Flatten(lanes: seq<seq<Task>>): seq<Task> {
    if lanes == [] then [] else Flatten(lanes[..|lanes| - 1]) + lanes[|lanes| - 1]
  }

  /** No two consecutive tasks of the lane overlap; touching is allowed. */
  predicate Chained(lane: seq<Task>) {
    forall i :: 0 < i < |lane| ==> End(lane[i - 1]) <= lane[i].tScheduled
  }

  // ---------------------------------------------------------------------------
  // Properties of one placement step

  /** A task joins the lowest-numbered lane that accepts it. */
  lemma PlaceIntoFirstFitting(lanes: seq<seq<Task>>, t: Task, k: nat)
    requires NonEmptyLanes(lanes)
    requires k < |lanes| && Fits(lanes[k], t)
    requires forall i :: 0 <= i < k ==> !Fits(lanes[i], t)
    ensures Place(lanes, t) == lanes[k := lanes[k] + [t]]
  {
  }

  /** A new lane is opened exactly when no existing lane accepts the task. */
  lemma PlaceOpensLane(lanes: seq<seq<Task>>, t: Task)
    requires NonEmptyLanes(lanes)
    ensures (forall i :: 0 <= i < |lanes| ==> !Fits(lanes[i], t)) <==> Place(lanes, t) == lanes + [[t]]
  {
    if Place(lanes, t) == lanes + [[t]] {
      assert |Place(lanes, t)| == |lanes| + 1;
    }
  }

  /** Lanes are only extended at the end, by the placed task, and never reordered or removed. */
  lemma PlaceExtends(lanes: seq<seq<Task>>, t: Task)
    requires NonEmptyLanes(lanes)
    ensures |Place(lanes, t)| >= |lanes|
    ensures forall i :: 0 <= i < |lanes| ==>
              Place(lanes, t)[i] == lanes[i] || Place(lanes, t)[i] == lanes[i] + [t]
    ensures |Place(lanes, t)| == |lanes| + 1 ==> Place(lanes, t)[|lanes|] == [t]
  {
  }

  // ---------------------------------------------------------------------------
  // Properties of the whole lane building

  /** Every lane built from a prefix of the order is a prefix of the corresponding final lane. */
  lemma {:induction false} AssembleExtends(order: seq<Task>, m: nat)
    requires m <= |order|
    ensures |Assemble(order[..m])| <= |Assemble(order)|
    ensures forall i :: 0 <= i < |Assemble(order[..m])| ==> Assemble(order[..m])[i] <= Assemble(order)[i]
  {
    if m < |order| {
      var init := order[..|order| - 1];
      assert init[..m] == order[..m];
      AssembleExtends(init, m);
      PlaceExtends(Assemble(init), order[|order| - 1]);
    } else {
      assert order[..m] == order;
    }
  }

  lemma {:induction false} FlattenAppendToLane(lanes: seq<seq<Task>>, k: nat, t: Task)
    requires k < |lanes|
    ensures multiset(Flatten(lanes[k := lanes[k] + [t]])) == multiset(Flatten(lanes)) + multiset{t}
    decreases |lanes|
  {
    var n := |lanes|;
    var updated := lanes[k := lanes[k] + [t]];
    if k == n - 1 {
      assert updated[..n - 1] == lanes[..n - 1];
    } else {
      assert updated[..n - 1] == lanes[..n - 1][k := lanes[k] + [t]];
      FlattenAppendToLane(lanes[..n - 1], k, t);
    }
  }

  lemma FlattenNewLane(lanes: seq<seq<Task>>, t: Task)
    ensures Flatten(lanes + [[t]]) == Flatten(lanes) + [t]
  {
    assert (lanes + [[t]])[..|lanes|] == lanes;
  }

  /** Every task of the order is placed in exactly one lane, and nothing else is. */
  lemma {:induction false} AssembleConserves(order: seq<Task>)
    ensures multiset(Flatten(Assemble(order))) == multiset(order)
  {
    if order != [] {
      var n := |order|;
      var lanes, t := Assemble(order[..n - 1]), order[n - 1];
      AssembleConserves(order[..n - 1]);
      assert order == order[..n - 1] + [t];
      var k := FirstFit(lanes, t, 0);
      if k < |lanes| {
        FlattenAppendToLane(lanes, k, t);
      } else {
        FlattenNewLane(lanes, t);
      }
    }
  }

  lemma {:induction false} InFlatten(lanes: seq<seq<Task>>, i: nat, x: Task)
    requires i < |lanes| && x in lanes[i]
    ensures x in multiset(Flatten(lanes))
    decreases |lanes|
  {
    var n := |lanes|;
    if i < n - 1 {
      assert lanes[..n - 1][i] == lanes[i];
      InFlatten(lanes[..n - 1], i, x);
    }
  }

  /** Within every lane each task starts at or after the end of the task before it. */
  lemma {:induction false} AssembleChained(order: seq<Task>)
    ensures forall i :: 0 <= i < |Assemble(order)| ==> Chained(Assemble(order)[i])
  {
    if order != [] {
      var n := |order|;
      var lanes, t := Assemble(order[..n - 1]), order[n - 1];
      AssembleChained(order[..n - 1]);
      var k := FirstFit(lanes, t, 0);
      if k < |lanes| {
        var lane := lanes[k] + [t];
        assert Fits(lanes[k], t);
        assert Chained(lane) by {
          forall j | 0 < j < |lane| ensures End(lane[j - 1]) <= lane[j].tScheduled {
            if j < |lane| - 1 {
              assert lane[j - 1] == lanes[k][j - 1] && lane[j] == lanes[k][j];
            }
          }
        }
      }
    }
  }

  /** With a sorted order, everything already placed starts no later than the next task. */
  lemma PlacedEarlier(order: seq<Task>, lanes: seq<seq<Task>>)
    requires SortedBySchedule(order) && |order| > 0
    requires lanes == Assemble(order[..|order| - 1])
    ensures forall i, x :: 0 <= i < |lanes| && x in lanes[i] ==> x.tScheduled <= order[|order| - 1].tScheduled
  {
    var n := |order|;
    AssembleConserves(order[..n - 1]);
    forall i, x: Task | 0 <= i < |lanes| && x in lanes[i] ensures x.tScheduled <= order[n - 1].tScheduled {
      InFlatten(lanes, i, x);
      assert x in multiset(order[..n - 1]);
      var m :| 0 <= m < n - 1 && order[..n - 1][m] == x;
      assert order[m] == x;
    }
  }

  lemma AppendSorted(lane: seq<Task>, t: Task)
    requires SortedBySchedule(lane)
    requires forall x :: x in lane ==> x.tScheduled <= t.tScheduled
    ensures SortedBySchedule(lane + [t])
  {
    var r := lane + [t];
    forall a, b | 0 <= a < b < |r| ensures r[a].tScheduled <= r[b].tScheduled {
      assert r[a] == lane[a];
      if b < |lane| {
        assert r[b] == lane[b];
      }
    }
  }

  /**
    When the order is sorted by scheduled start, every lane is sorted too, and the
    lanes are ordered by the start of their first task.
  */
  lemma {:induction false} AssembleSorted(order: seq<Task>)
    requires SortedBySchedule(order)
    ensures forall i :: 0 <= i < |Assemble(order)| ==> SortedBySchedule(Assemble(order)[i])
    ensures forall i, j :: 0 <= i < j < |Assemble(order)| ==>
              Assemble(order)[i][0].tScheduled <= Assemble(order)[j][0].tScheduled
  {
    if order != [] {
      var n := |order|;
      var lanes, t := Assemble(order[..n - 1]), order[n - 1];
      AssembleSorted(order[..n - 1]);
      PlacedEarlier(order, lanes);
      var k := FirstFit(lanes, t, 0);
      if k < |lanes| {
        AppendSorted(lanes[k], t);
      } else {
        forall i | 0 <= i < |lanes| ensures lanes[i][0].tScheduled <= t.tScheduled {
          assert lanes[i][0] in lanes[i];
        }
      }
    }
  }

  /** At time p the last task of every lane has started and not yet ended. */
  predicate AllBusyAt(lanes: seq<seq<Task>>, p: real)
    requires NonEmptyLanes(lanes)
  {
    forall i :: 0 <= i < |lanes| ==> lanes[i][|lanes[i]| - 1].tScheduled <= p < End(lanes[i][|lanes[i]| - 1])
  }

  /** A prefix of a sorted sequence is sorted. */
  lemma SortedPrefix(s: seq<Task>, m: nat)
    requires SortedBySchedule(s) && m <= |s|
    ensures SortedBySchedule(s[..m])
  {
    forall a, b | 0 <= a < b < m ensures s[..m][a].tScheduled <= s[..m][b].tScheduled {
      assert s[..m][a] == s[a] && s[..m][b] == s[b];
    }
  }

  /**
    When the next task of a sorted order opens a new lane, the last task of every
    existing lane has started and not yet ended at the moment the task starts.
  */
  lemma BusyWhenOpened(order: seq<Task>, lanes: seq<seq<Task>>)
    requires SortedBySchedule(order) && |order| > 0
    requires lanes == Assemble(order[..|order| - 1])
    requires |Place(lanes, order[|order| - 1])| == |lanes| + 1
    ensures AllBusyAt(lanes, order[|order| - 1].tScheduled)
  {
    var t := order[|order| - 1];
    PlacedEarlier(order, lanes);
    forall i | 0 <= i < |lanes|
      ensures lanes[i][|lanes[i]| - 1].tScheduled <= t.tScheduled < End(lanes[i][|lanes[i]| - 1])
    {
      assert lanes[i][|lanes[i]| - 1] in lanes[i];
      assert !Fits(lanes[i], t);
    }
  }

  /**
    No lane is opened needlessly: with a sorted order, the task m that opened the last
    lane started while the last task of every earlier lane was still running.
  */
  lemma {:induction false} AssembleLaneForced(order: seq<Task>)
    requires SortedBySchedule(order) && |Assemble(order)| > 0
    ensures exists m :: 0 <= m < |order| && |Assemble(order[..m])| + 1 == |Assemble(order)| &&
              AllBusyAt(Assemble(order[..m]), order[m].tScheduled)
  {
    var n := |order|;
    var init, t := order[..n - 1], order[n - 1];
    var lanes := Assemble(init);
    if |Place(lanes, t)| == |lanes| + 1 {
      BusyWhenOpened(order, lanes);
      assert AllBusyAt(Assemble(order[..n - 1]), order[n - 1].tScheduled);
    } else {
      SortedPrefix(order, n - 1);
      AssembleLaneForced(init);
      var m :| 0 <= m < |init| && |Assemble(init[..m])| + 1 == |lanes| &&
               AllBusyAt(Assemble(init[..m]), init[m].tScheduled);
      assert init[..m] == order[..m] && init[m] == order[m];
    }
  }

  /**
    The lanes drawn for a schedule: every task that was not dropped is in exactly one
    lane and no dropped task is in any, no lane is empty and there are no more lanes
    than admitted tasks, consecutive tasks of a lane do not overlap, each lane is in
    order of scheduled start, and lanes are in order of their first start.
  */
  lemma ScheduleLanes(tasks: seq<Task>)
    ensures var lanes := Assemble(SortBySchedule(NonDropped(tasks)));
      && NonEmptyLanes(lanes) && |lanes| <= |NonDropped(tasks)|
      && multiset(Flatten(lanes)) == multiset(NonDropped(tasks))
      && (forall i, x :: 0 <= i < |lanes| && x in lanes[i] ==> !x.dropped)
      && (forall i :: 0 <= i < |lanes| ==> Chained(lanes[i]) && SortedBySchedule(lanes[i]))
      && (forall i, j :: 0 <= i < j < |lanes| ==> lanes[i][0].tScheduled <= lanes[j][0].tScheduled)
  {
    var order := SortBySchedule(NonDropped(tasks));
    var lanes := Assemble(order);
    AssembleConserves(order);
    AssembleChained(order);
    AssembleSorted(order);
    forall i, x: Task | 0 <= i < |lanes| && x in lanes[i] ensures !x.dropped {
      InFlatten(lanes, i, x);
      assert x in multiset(NonDropped(tasks));
    }
  }

  // ---------------------------------------------------------------------------
  // The lane building loop

  /**
    The nested loop that builds the lanes: each task of `order`, in turn, is appended to
    the first lane whose last task ends no later than the task starts, or else starts a
    new lane.
  */
  method PartitionIntoLanes(order: seq<Task>) returns (lanes: seq<seq<Task>>)
    ensures lanes == Assemble(order)
  {
    lanes := [];
    for n := 0 to |order|
      invariant lanes == Assemble(order[..n])
    {
      var task := order[n];
      assert order[..n + 1][..n] == order[..n];
      ghost var before := lanes;
      var placed := false;
      var k := 0;
      while k < |lanes| && !placed
        invariant NonEmptyLanes(before)
        invariant k <= |lanes|
        invariant !placed ==> lanes == before && forall i :: 0 <= i < k ==> !Fits(lanes[i], task)
        invariant placed ==> lanes == Place(before, task)
        decreases if placed then 0 else |lanes| - k + 1
      {
        if Fits(lanes[k], task) {
          PlaceIntoFirstFitting(lanes, task, k);
          lanes := lanes[k := lanes[k] + [task]];
          placed := true;
        } else {
          k := k + 1;
        }
      }
      if !placed {
        PlaceOpensLane(lanes, task);
        lanes := lanes + [[task]];
      }
    }
    assert order[..|order|] == order;
  }

  /**
    The lanes in which a schedule is drawn: the tasks that were not dropped, sorted by
    scheduled start, partitioned first-fit.
  */
  method BuildLanes(tasks: seq<Task>) returns (lanes: seq<seq<Task>>)
    ensures lanes == Assemble(SortBySchedule(NonDropped(tasks)))
    ensures NonEmptyLanes(lanes) && |lanes| <= |NonDropped(tasks)|
    ensures multiset(Flatten(lanes)) == multiset(NonDropped(tasks))
    ensures forall i, x :: 0 <= i < |lanes| && x in lanes[i] ==> !x.dropped
    ensures forall i :: 0 <= i < |lanes| ==> Chained(lanes[i]) && SortedBySchedule(lanes[i])
    ensures forall i, j :: 0 <= i < j < |lanes| ==> lanes[i][0].tScheduled <= lanes[j][0].tScheduled
  {
    var order := SortBySchedule(NonDropped(tasks));
    lanes := PartitionIntoLanes(order);
    ScheduleLanes(tasks);
  }
}
