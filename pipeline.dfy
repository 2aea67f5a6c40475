/** The two core stages run one after the other, as main does: the index
    lists of getTaskIndices feed getBarVals. */
module Pipeline {
  import opened Timeline
  import opened TaskIndices
  import opened BarVals
  import opened BarProperties

  /** Every event that reaches the segment builder passed the overlap test,
      so the window part of `WellFormed` always holds for its input. */
  lemma {:induction false} SelectedEventsInWindow(task: string, eventTasks: seq<string>, starts: seq<string>,
                                                  stops: seq<string>, time: string -> int,
                                                  startTime: int, endTime: int)
    requires |eventTasks| == |starts| == |stops|
    ensures var idx := IndicesFor(task, eventTasks, starts, stops, time, startTime, endTime);
      && (forall k :: 0 <= k < |idx| ==> idx[k] < |starts| && idx[k] < |stops|)
      && (forall k :: 0 <= k < |idx| ==> InWindow(EventsOf(idx, starts, stops, time)[k], startTime, endTime))
  {
    var idx := IndicesFor(task, eventTasks, starts, stops, time, startTime, endTime);
    forall k | 0 <= k < |idx|
      ensures idx[k] < |starts| && InWindow(EventsOf(idx, starts, stops, time)[k], startTime, endTime)
    {
      assert idx[k] in idx;
      assert Selected(task, eventTasks, starts, stops, time, startTime, endTime, idx[k]);
    }
  }

  /** getTaskIndices followed by getBarVals: one segment list per task, built
      from that task's selected rows in row order. A task's list is empty
      exactly when it has no selected row, or a single one that starts at
      the window start. */
  method BuildTimelines(tasks: seq<string>, eventTasks: seq<string>, starts: seq<string>, stops: seq<string>,
                        time: string -> int, startTime: int, endTime: int)
    returns (barVals: seq<seq<Segment>>)
    requires |eventTasks| == |starts| == |stops|
    ensures |barVals| == |tasks|
    ensures forall i :: 0 <= i < |tasks| ==>
      var idx := IndicesFor(tasks[i], eventTasks, starts, stops, time, startTime, endTime);
      barVals[i] == Bars(EventsOf(idx, starts, stops, time), startTime, endTime)
    ensures forall i :: 0 <= i < |tasks| ==>
      var idx := IndicesFor(tasks[i], eventTasks, starts, stops, time, startTime, endTime);
      (barVals[i] == [] <==> idx == [] || (|idx| == 1 && time(starts[idx[0]]) == startTime))
  {
    var taskIndices := GetTaskIndices(tasks, eventTasks, starts, stops, time, startTime, endTime);
    barVals := GetBarVals(taskIndices, starts, stops, time, startTime, endTime);
    forall i | 0 <= i < |tasks|
      ensures var idx := IndicesFor(tasks[i], eventTasks, starts, stops, time, startTime, endTime);
        (barVals[i] == [] <==> idx == [] || (|idx| == 1 && time(starts[idx[0]]) == startTime))
    {
      var ev := EventsOf(taskIndices[i], starts, stops, time);
      BarsLength(ev, startTime, endTime);
    }
  }
}
