/** getTaskIndices: for each requested task, the rows of the event table
    that belong to it, carry both times and overlap the chart window. */
module TaskIndices {

  /** Row j is kept for `task`: exact label match, both time fields present,
      and the half-open overlap test against [startTime, endTime). */
  predicate Selected(task: string, eventTasks: seq<string>, starts: seq<string>, stops: seq<string>,
                     time: string -> int, startTime: int, endTime: int, j: nat)
    requires j < |eventTasks| == |starts| == |stops|
  {
    eventTasks[j] == task && starts[j] != "" && stops[j] != ""
    && time(starts[j]) < endTime && time(stops[j]) > startTime
  }

  /** The kept rows among the first m, in row order. */
  function IndicesUpTo(task: string, eventTasks: seq<string>, starts: seq<string>, stops: seq<string>,
                       time: string -> int, startTime: int, endTime: int, m: nat): (r: seq<nat>)
    requires m <= |eventTasks| == |starts| == |stops|
    ensures forall j: nat :: j in r <==> j < m && Selected(task, eventTasks, starts, stops, time, startTime, endTime, j)
    ensures forall k :: 0 <= k < |r| ==> r[k] < m
    ensures forall k, l :: 0 <= k < l < |r| ==> r[k] < r[l]
  {
    if m == 0 then []
    else
      var prev := IndicesUpTo(task, eventTasks, starts, stops, time, startTime, endTime, m - 1);
      if Selected(task, eventTasks, starts, stops, time, startTime, endTime, m - 1) then prev + [m - 1]
      else prev
  }

  /** The index list of one task over the whole table. */
  function IndicesFor(task: string, eventTasks: seq<string>, starts: seq<string>, stops: seq<string>,
                      time: string -> int, startTime: int, endTime: int): seq<nat>
    requires |eventTasks| == |starts| == |stops|
  {
    IndicesUpTo(task, eventTasks, starts, stops, time, startTime, endTime, |eventTasks|)
  }

  /** getTaskIndices: one list per task, in the order of `tasks`; list i holds
      exactly the kept rows for tasks[i], strictly increasing and in range. */
  method GetTaskIndices(tasks: seq<string>, eventTasks: seq<string>, starts: seq<string>, stops: seq<string>,
                        time: string -> int, startTime: int, endTime: int)
    returns (taskIndices: seq<seq<nat>>)
    requires |eventTasks| == |starts| == |stops|
    ensures |taskIndices| == |tasks|
    ensures forall i :: 0 <= i < |tasks| ==>
      taskIndices[i] == IndicesFor(tasks[i], eventTasks, starts, stops, time, startTime, endTime)
    ensures forall i, j: nat :: 0 <= i < |tasks| ==>
      (j in taskIndices[i] <==> j < |eventTasks| && Selected(tasks[i], eventTasks, starts, stops, time, startTime, endTime, j))
    ensures forall i, k, l :: 0 <= i < |tasks| && 0 <= k < l < |taskIndices[i]| ==> taskIndices[i][k] < taskIndices[i][l]
  {
    taskIndices := [];
    for i := 0 to |tasks|
      invariant |taskIndices| == i
      invariant forall k :: 0 <= k < i ==> taskIndices[k] == []
    {
      taskIndices := taskIndices + [[]];
    }

    for i := 0 to |tasks|
      invariant |taskIndices| == |tasks|
      invariant forall k :: 0 <= k < i ==>
        taskIndices[k] == IndicesFor(tasks[k], eventTasks, starts, stops, time, startTime, endTime)
      invariant forall k :: i <= k < |tasks| ==> taskIndices[k] == []
    {
      for j := 0 to |eventTasks|
        invariant |taskIndices| == |tasks|
        invariant taskIndices[i] == IndicesUpTo(tasks[i], eventTasks, starts, stops, time, startTime, endTime, j)
        invariant forall k :: 0 <= k < i ==>
          taskIndices[k] == IndicesFor(tasks[k], eventTasks, starts, stops, time, startTime, endTime)
        invariant forall k :: i < k < |tasks| ==> taskIndices[k] == []
      {
        if eventTasks[j] == tasks[i] && starts[j] != "" && stops[j] != "" {
          if time(starts[j]) < endTime && time(stops[j]) > startTime {
            taskIndices := taskIndices[i := taskIndices[i] + [j]];
          }
        }
      }
    }
  }
}
