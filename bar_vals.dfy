/** getBarVals: turns each task's index list into the flat list of
    `[length, kind]` segments that the stacked bar is drawn from.

    Events are taken in the order of their index list (row order, no
    sorting). The first event is clipped at both window ends, later events
    only at the window end and only when they are the last one; a first
    event that starts exactly at the window start emits nothing, and no
    idle segment is added after the last event. */
module BarVals {
  import opened Timeline

  /** The parsed intervals of the rows in `indices`. */
  function EventsOf(indices: seq<nat>, starts: seq<string>, stops: seq<string>, time: string -> int): (ev: seq<Interval>)
    requires forall k :: 0 <= k < |indices| ==> indices[k] < |starts| && indices[k] < |stops|
    ensures |ev| == |indices|
    ensures forall k :: 0 <= k < |indices| ==>
      ev[k] == Interval(time(starts[indices[k]]), time(stops[indices[k]]))
  {
    seq(|indices|, k requires 0 <= k < |indices| => Interval(time(starts[indices[k]]), time(stops[indices[k]])))
  }

  /** Where the active segment of event k ends: clipped to the window end for
      the first and for the last event, the raw stop for a middle one. */
  function ActiveEnd(ev: seq<Interval>, k: nat, endTime: int): int
    requires k < |ev|
  {
    if k == 0 || k == |ev| - 1 then ClipToEnd(ev[k].stop, endTime) else ev[k].stop
  }

  /** Segments contributed by the first event. */
  function FirstEventBars(ev: seq<Interval>, startTime: int, endTime: int): seq<Segment>
    requires |ev| > 0
  {
    if ev[0].start < startTime then
      [Segment(ActiveEnd(ev, 0, endTime) - startTime, Color)]
    else if ev[0].start > startTime then
      [Segment(ev[0].start - startTime, Clear), Segment(ActiveEnd(ev, 0, endTime) - ev[0].start, Color)]
    else
      []
  }

  /** Segments contributed by event k >= 1: the gap since the previous
      event's raw stop, then its active time. */
  function LaterEventBars(ev: seq<Interval>, k: nat, endTime: int): seq<Segment>
    requires 1 <= k < |ev|
  {
    [Segment(ev[k].start - ev[k - 1].stop, Clear), Segment(ActiveEnd(ev, k, endTime) - ev[k].start, Color)]
  }

  function EventBars(ev: seq<Interval>, k: nat, startTime: int, endTime: int): seq<Segment>
    requires k < |ev|
  {
    if k == 0 then FirstEventBars(ev, startTime, endTime) else LaterEventBars(ev, k, endTime)
  }

  /** Segments of the first m events. */
  function BarsUpTo(ev: seq<Interval>, m: nat, startTime: int, endTime: int): seq<Segment>
    requires m <= |ev|
  {
    if m == 0 then [] else BarsUpTo(ev, m - 1, startTime, endTime) + EventBars(ev, m - 1, startTime, endTime)
  }

  /** The segment list of one task whose events are `ev`, in this order. */
  function Bars(ev: seq<Interval>, startTime: int, endTime: int): seq<Segment>
  {
    BarsUpTo(ev, |ev|, startTime, endTime)
  }

  /** The inner loop of getBarVals for one task: parses the times of the
      task's rows into `taskStarts`/`taskStops` and appends the segments of
      each event to `bars`, branching on the event's position. */
  method TaskBarVals(indices: seq<nat>, starts: seq<string>, stops: seq<string>,
                     time: string -> int, startTime: int, endTime: int)
    returns (taskStarts: seq<int>, taskStops: seq<int>, bars: seq<Segment>)
    requires forall k :: 0 <= k < |indices| ==> indices[k] < |starts| && indices[k] < |stops|
    ensures |taskStarts| == |taskStops| == |indices|
    ensures forall k :: 0 <= k < |indices| ==>
      taskStarts[k] == time(starts[indices[k]]) && taskStops[k] == time(stops[indices[k]])
    ensures bars == Bars(EventsOf(indices, starts, stops, time), startTime, endTime)
  {
    ghost var ev := EventsOf(indices, starts, stops, time);
    taskStarts, taskStops, bars := [], [], [];
    for iteration := 0 to |indices|
      invariant |taskStarts| == |taskStops| == iteration
      invariant forall k :: 0 <= k < iteration ==> taskStarts[k] == ev[k].start && taskStops[k] == ev[k].stop
      invariant bars == BarsUpTo(ev, iteration, startTime, endTime)
    {
      var j := indices[iteration];
      taskStarts := taskStarts + [time(starts[j])];
      taskStops := taskStops + [time(stops[j])];
      var start, stop := taskStarts[iteration], taskStops[iteration];
      assert ev[iteration] == Interval(start, stop);
      ghost var before := bars;
      if iteration == 0 {
        if start < startTime {
          if stop > endTime {
            bars := bars + [Segment(endTime - startTime, Color)];
          } else {
            bars := bars + [Segment(stop - startTime, Color)];
          }
        } else if start > startTime {
          bars := bars + [Segment(start - startTime, Clear)];
          if stop > endTime {
            bars := bars + [Segment(endTime - start, Color)];
          } else {
            bars := bars + [Segment(stop - start, Color)];
          }
        }
      } else if iteration == |indices| - 1 {
        bars := bars + [Segment(start - taskStops[iteration - 1], Clear)];
        if stop > endTime {
          bars := bars + [Segment(endTime - start, Color)];
        } else {
          bars := bars + [Segment(stop - start, Color)];
        }
      } else {
        bars := bars + [Segment(start - taskStops[iteration - 1], Clear)];
        bars := bars + [Segment(stop - start, Color)];
      }
      assert bars == before + EventBars(ev, iteration, startTime, endTime);
    }
  }

  /** getBarVals: one segment list per index list, each the segments of that
      task's events taken in index-list order; an empty index list gives an
      empty segment list. */
  method GetBarVals(taskIndices: seq<seq<nat>>, starts: seq<string>, stops: seq<string>,
                    time: string -> int, startTime: int, endTime: int)
    returns (barVals: seq<seq<Segment>>)
    requires forall i, k :: 0 <= i < |taskIndices| && 0 <= k < |taskIndices[i]| ==>
      taskIndices[i][k] < |starts| && taskIndices[i][k] < |stops|
    ensures |barVals| == |taskIndices|
    ensures forall i :: 0 <= i < |taskIndices| ==>
      barVals[i] == Bars(EventsOf(taskIndices[i], starts, stops, time), startTime, endTime)
    ensures forall i :: 0 <= i < |taskIndices| && taskIndices[i] == [] ==> barVals[i] == []
  {
    var eventStarts: seq<seq<int>> := [];
    var eventStops: seq<seq<int>> := [];
    barVals := [];
    for i := 0 to |taskIndices|
      invariant |eventStarts| == |eventStops| == |barVals| == i
      invariant forall k :: 0 <= k < i ==> eventStarts[k] == [] && eventStops[k] == [] && barVals[k] == []
    {
      eventStarts := eventStarts + [[]];
      eventStops := eventStops + [[]];
      barVals := barVals + [[]];
    }

    for i := 0 to |taskIndices|
      invariant |eventStarts| == |eventStops| == |barVals| == |taskIndices|
      invariant forall k :: 0 <= k < i ==>
        barVals[k] == Bars(EventsOf(taskIndices[k], starts, stops, time), startTime, endTime)
    {
      var taskStarts, taskStops, bars := TaskBarVals(taskIndices[i], starts, stops, time, startTime, endTime);
      eventStarts, eventStops, barVals := eventStarts[i := taskStarts], eventStops[i := taskStops], barVals[i := bars];
    }
  }
}
