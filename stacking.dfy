/** How the per-task segment lists are stacked into bar traces: trace t
    holds segment t of every task, and a task whose list is shorter is padded
    with a zero-width, transparent segment. */
module Stacking {
  import opened Timeline

  const Transparent: string := "rgba(255, 255, 255, 0)"
  const Yellow: string := "rgba(255, 255, 0, 1)"
  const Red: string := "rgba(255, 0, 0, 1)"
  const Magenta: string := "rgba(255, 0, 255, 1)"
  const Blue: string := "rgba(0, 0, 255, 1)"
  const Cyan: string := "rgba(0, 255, 255, 1)"

  /** getBarSize: the width of segment `barValIndex`, or 0 past the end. */
  function BarSize(barVals: seq<Segment>, barValIndex: nat): int
  {
    if barValIndex > |barVals| - 1 then 0 else barVals[barValIndex].length
  }

  /** getColor: transparent for padding and for idle segments; otherwise the
      colour of the task's position, every position from 4 on sharing cyan. */
  function BarColor(taskNum: nat, barVals: seq<Segment>, barValIndex: nat): (r: string)
    ensures r == Transparent <==> barValIndex >= |barVals| || barVals[barValIndex].kind == Clear
    ensures r != Transparent ==> r in {Yellow, Red, Magenta, Blue, Cyan}
    ensures r != Transparent && taskNum >= 4 ==> r == Cyan
  {
    if barValIndex > |barVals| - 1 then Transparent
    else if barVals[barValIndex].kind == Clear then Transparent
    else if taskNum == 0 then Yellow
    else if taskNum == 1 then Red
    else if taskNum == 2 then Magenta
    else if taskNum == 3 then Blue
    else Cyan
  }

  /** The first five task positions get five different colours for their
      active segments. */
  lemma DistinctTaskColors(a: nat, b: nat, barsA: seq<Segment>, barsB: seq<Segment>, index: nat)
    requires a < b < 5
    requires index < |barsA| && barsA[index].kind == Color
    requires index < |barsB| && barsB[index].kind == Color
    ensures BarColor(a, barsA, index) != BarColor(b, barsB, index)
  {
  }

  /** Sum of the widths of the first m padded positions of one task. */
  function PaddedWidth(barVals: seq<Segment>, m: nat): int
  {
    if m == 0 then 0 else PaddedWidth(barVals, m - 1) + BarSize(barVals, m - 1)
  }

  /** Padding adds no width: over any number of positions reaching past the
      end of the list, the padded widths add up to the list's total length. */
  lemma {:induction false} PaddedWidthTotal(barVals: seq<Segment>, m: nat)
    requires |barVals| <= m
    ensures PaddedWidth(barVals, m) == TotalLength(barVals)
  {
    if m > |barVals| {
      PaddedWidthTotal(barVals, m - 1);
    } else {
      PaddedWidthPrefix(barVals, m);
      assert barVals[..m] == barVals;
    }
  }

  lemma {:induction false} PaddedWidthPrefix(barVals: seq<Segment>, m: nat)
    requires m <= |barVals|
    ensures PaddedWidth(barVals, m) == TotalLength(barVals[..m])
  {
    if m > 0 {
      PaddedWidthPrefix(barVals, m - 1);
      assert barVals[..m][..m - 1] == barVals[..m - 1];
    }
  }

  /** One stacked trace: the width and colour of its segment for every task. */
  datatype Trace = Trace(sizes: seq<int>, colors: seq<string>)

  /** Sum over the traces of the width they give task i. */
  function TraceWidth(data: seq<Trace>, i: nat): int
    requires forall t :: 0 <= t < |data| ==> i < |data[t].sizes|
  {
    if data == [] then 0 else TraceWidth(data[..|data| - 1], i) + data[|data| - 1].sizes[i]
  }

  lemma {:induction false} TraceWidthPadded(data: seq<Trace>, i: nat, barVals: seq<Segment>)
    requires forall t :: 0 <= t < |data| ==> i < |data[t].sizes| && data[t].sizes[i] == BarSize(barVals, t)
    ensures TraceWidth(data, i) == PaddedWidth(barVals, |data|)
  {
    if data != [] {
      TraceWidthPadded(data[..|data| - 1], i, barVals);
    }
  }

  /** One pass of dataBuilder's inner loop: the widths and colours of
      position `barValIndex` for every task, in task order. */
  method TraceAt(tasks: seq<string>, barVals: seq<seq<Segment>>, barValIndex: nat)
    returns (barSizes: seq<int>, colors: seq<string>)
    requires |tasks| <= |barVals|
    ensures |barSizes| == |colors| == |tasks|
    ensures forall i :: 0 <= i < |tasks| ==>
      barSizes[i] == BarSize(barVals[i], barValIndex) && colors[i] == BarColor(i, barVals[i], barValIndex)
  {
    barSizes, colors := [], [];
    for i := 0 to |tasks|
      invariant |barSizes| == |colors| == i
      invariant forall k :: 0 <= k < i ==>
        barSizes[k] == BarSize(barVals[k], barValIndex) && colors[k] == BarColor(k, barVals[k], barValIndex)
    {
      barSizes := barSizes + [BarSize(barVals[i], barValIndex)];
      colors := colors + [BarColor(i, barVals[i], barValIndex)];
    }
  }

  /** dataBuilder without the plotting call: as many traces as the longest
      segment list, trace t giving every task its padded width and colour at
      position t; each task's widths over all traces add up to the total
      length of its segments. */
  method BuildData(tasks: seq<string>, barVals: seq<seq<Segment>>) returns (data: seq<Trace>)
    requires |tasks| <= |barVals|
    ensures forall i :: 0 <= i < |tasks| ==> |barVals[i]| <= |data|
    ensures |data| > 0 ==> exists i :: 0 <= i < |tasks| && |barVals[i]| == |data|
    ensures forall t :: 0 <= t < |data| ==> |data[t].sizes| == |tasks| && |data[t].colors| == |tasks|
    ensures forall t, i :: 0 <= t < |data| && 0 <= i < |tasks| ==>
      data[t].sizes[i] == BarSize(barVals[i], t) && data[t].colors[i] == BarColor(i, barVals[i], t)
    ensures forall i :: 0 <= i < |tasks| ==> TraceWidth(data, i) == TotalLength(barVals[i])
  {
    data := [];
    var maxBars: nat := 0;
    for i := 0 to |tasks|
      invariant forall k :: 0 <= k < i ==> |barVals[k]| <= maxBars
      invariant maxBars > 0 ==> exists k :: 0 <= k < i && |barVals[k]| == maxBars
    {
      if |barVals[i]| > maxBars {
        maxBars := |barVals[i]|;
      }
    }

    for barValIndex := 0 to maxBars
      invariant |data| == barValIndex
      invariant forall t :: 0 <= t < |data| ==> |data[t].sizes| == |tasks| && |data[t].colors| == |tasks|
      invariant forall t, i :: 0 <= t < |data| && 0 <= i < |tasks| ==>
        data[t].sizes[i] == BarSize(barVals[i], t) && data[t].colors[i] == BarColor(i, barVals[i], t)
    {
      var barSizes, colors := TraceAt(tasks, barVals, barValIndex);
      data := data + [Trace(barSizes, colors)];
    }

    forall i | 0 <= i < |tasks|
      ensures TraceWidth(data, i) == TotalLength(barVals[i])
    {
      TraceWidthPadded(data, i, barVals[i]);
      PaddedWidthTotal(barVals[i], |data|);
    }
  }
}
