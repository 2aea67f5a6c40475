/** What the segment lists built by getBarVals look like: their layout,
    length, alternation of kinds, and what their lengths add up to. */
module BarProperties {
  import opened Timeline
  import opened BarVals

  /** The half-open overlap test of getTaskIndices. */
  predicate InWindow(e: Interval, startTime: int, endTime: int)
  {
    e.start < endTime && e.stop > startTime
  }

  /** Events in chronological order, pairwise non-overlapping, each with
      start < stop and each overlapping the window. */
  predicate WellFormed(ev: seq<Interval>, startTime: int, endTime: int)
  {
    && (forall k :: 0 <= k < |ev| ==> ev[k].start < ev[k].stop && InWindow(ev[k], startTime, endTime))
    && (forall k :: 0 < k < |ev| ==> ev[k - 1].stop <= ev[k].start)
  }

  /** Number of segments the first event contributes: 1 when it started
      before the window, 2 when it starts inside, 0 when exactly at its start. */
  function FirstCount(ev: seq<Interval>, startTime: int): nat
    requires |ev| > 0
  {
    if ev[0].start < startTime then 1 else if ev[0].start > startTime then 2 else 0
  }

  lemma {:induction false} BarsUpToLayout(ev: seq<Interval>, m: nat, startTime: int, endTime: int)
    requires 1 <= m <= |ev|
    ensures |FirstEventBars(ev, startTime, endTime)| == FirstCount(ev, startTime)
    ensures |BarsUpTo(ev, m, startTime, endTime)| == FirstCount(ev, startTime) + 2 * (m - 1)
    ensures BarsUpTo(ev, m, startTime, endTime)[..FirstCount(ev, startTime)] == FirstEventBars(ev, startTime, endTime)
    ensures forall k :: 1 <= k < m ==>
      && BarsUpTo(ev, m, startTime, endTime)[FirstCount(ev, startTime) + 2 * k - 2]
           == Segment(ev[k].start - ev[k - 1].stop, Clear)
      && BarsUpTo(ev, m, startTime, endTime)[FirstCount(ev, startTime) + 2 * k - 1]
           == Segment(ActiveEnd(ev, k, endTime) - ev[k].start, Color)
  {
    var f := FirstCount(ev, startTime);
    if m == 1 {
      assert BarsUpTo(ev, 1, startTime, endTime) == FirstEventBars(ev, startTime, endTime);
    } else {
      BarsUpToLayout(ev, m - 1, startTime, endTime);
      var prev := BarsUpTo(ev, m - 1, startTime, endTime);
      var b := BarsUpTo(ev, m, startTime, endTime);
      assert b == prev + LaterEventBars(ev, m - 1, endTime);
      assert b[..f] == prev[..f];
      forall k | 1 <= k < m
        ensures b[f + 2 * k - 2] == Segment(ev[k].start - ev[k - 1].stop, Clear)
        ensures b[f + 2 * k - 1] == Segment(ActiveEnd(ev, k, endTime) - ev[k].start, Color)
      {
        if k < m - 1 {
          assert b[f + 2 * k - 2] == prev[f + 2 * k - 2];
          assert b[f + 2 * k - 1] == prev[f + 2 * k - 1];
        }
      }
    }
  }

  /** Layout of a task's segment list. The first event gives one 'color'
      segment clipped at both window ends when it started before the window,
      a 'clear' lead-in and a 'color' segment clipped at the window end when it
      starts inside, and nothing when it starts exactly at the window start.
      Every later event k gives a 'clear' gap from event k-1's raw stop to its
      start and a 'color' segment to its stop, clipped only for the last one. */
  lemma BarsLayout(ev: seq<Interval>, startTime: int, endTime: int)
    requires |ev| > 0
    ensures |Bars(ev, startTime, endTime)| == FirstCount(ev, startTime) + 2 * (|ev| - 1)
    ensures ev[0].start < startTime ==>
      Bars(ev, startTime, endTime)[0] == Segment(ClipToEnd(ev[0].stop, endTime) - startTime, Color)
    ensures ev[0].start > startTime ==>
      && Bars(ev, startTime, endTime)[0] == Segment(ev[0].start - startTime, Clear)
      && Bars(ev, startTime, endTime)[1] == Segment(ClipToEnd(ev[0].stop, endTime) - ev[0].start, Color)
    ensures forall k :: 1 <= k < |ev| ==>
      && Bars(ev, startTime, endTime)[FirstCount(ev, startTime) + 2 * k - 2]
           == Segment(ev[k].start - ev[k - 1].stop, Clear)
      && Bars(ev, startTime, endTime)[FirstCount(ev, startTime) + 2 * k - 1]
           == Segment((if k == |ev| - 1 then ClipToEnd(ev[k].stop, endTime) else ev[k].stop) - ev[k].start, Color)
  {
    BarsUpToLayout(ev, |ev|, startTime, endTime);
    var b := Bars(ev, startTime, endTime);
    var first := FirstEventBars(ev, startTime, endTime);
    if ev[0].start != startTime {
      assert b[0] == b[..FirstCount(ev, startTime)][0] == first[0];
    }
    if ev[0].start > startTime {
      assert b[1] == b[..FirstCount(ev, startTime)][1] == first[1];
    }
  }

  /** The length of a segment list is 2n, 2n-1 or 2n-2 for n >= 1 events as
      the first start is after, before, or equal to the window start; no
      events give no segments. */
  lemma BarsLength(ev: seq<Interval>, startTime: int, endTime: int)
    ensures |ev| == 0 ==> Bars(ev, startTime, endTime) == []
    ensures |ev| > 0 && ev[0].start > startTime ==> |Bars(ev, startTime, endTime)| == 2 * |ev|
    ensures |ev| > 0 && ev[0].start < startTime ==> |Bars(ev, startTime, endTime)| == 2 * |ev| - 1
    ensures |ev| > 0 && ev[0].start == startTime ==> |Bars(ev, startTime, endTime)| == 2 * |ev| - 2
  {
    if |ev| > 0 {
      BarsLayout(ev, startTime, endTime);
    }
  }

  lemma {:induction false} BarsUpToAlternate(ev: seq<Interval>, m: nat, startTime: int, endTime: int)
    requires m <= |ev|
    ensures Alternates(BarsUpTo(ev, m, startTime, endTime))
    ensures BarsUpTo(ev, m, startTime, endTime) != [] ==>
      BarsUpTo(ev, m, startTime, endTime)[|BarsUpTo(ev, m, startTime, endTime)| - 1].kind == Color
  {
    if m > 0 {
      BarsUpToAlternate(ev, m - 1, startTime, endTime);
      var prev := BarsUpTo(ev, m - 1, startTime, endTime);
      var step := EventBars(ev, m - 1, startTime, endTime);
      assert step != [] ==> step[|step| - 1].kind == Color;
      assert prev != [] && step != [] ==> m > 1 && step[0].kind == Clear;
      AppendAlternates(prev, step);
    }
  }

  /** Kinds alternate, a non-empty list ends with 'color', and it starts with
      'color' exactly when the first event was already running at the window
      start. */
  lemma BarsAlternate(ev: seq<Interval>, startTime: int, endTime: int)
    ensures Alternates(Bars(ev, startTime, endTime))
    ensures Bars(ev, startTime, endTime) != [] ==>
      Bars(ev, startTime, endTime)[|Bars(ev, startTime, endTime)| - 1].kind == Color
    ensures Bars(ev, startTime, endTime) != [] ==>
      (Bars(ev, startTime, endTime)[0].kind == Color <==> ev[0].start < startTime)
  {
    BarsUpToAlternate(ev, |ev|, startTime, endTime);
    if Bars(ev, startTime, endTime) != [] {
      BarsLayout(ev, startTime, endTime);
      var b := Bars(ev, startTime, endTime);
      if FirstCount(ev, startTime) == 0 {
        assert b[0] == Segment(ev[1].start - ev[0].stop, Clear);
      }
    }
  }

  lemma FirstEventTotal(ev: seq<Interval>, startTime: int, endTime: int)
    requires |ev| > 0
    ensures TotalLength(FirstEventBars(ev, startTime, endTime))
      == ActiveEnd(ev, 0, endTime) - startTime
         - (if ev[0].start == startTime then ActiveEnd(ev, 0, endTime) - startTime else 0)
  {
    var first := FirstEventBars(ev, startTime, endTime);
    if |first| == 1 {
      TotalLengthPair(first[0], first[0]);
    } else if |first| == 2 {
      TotalLengthPair(first[0], first[1]);
      assert first == [first[0], first[1]];
    }
  }

  lemma LaterEventTotal(ev: seq<Interval>, k: nat, endTime: int)
    requires 1 <= k < |ev|
    ensures TotalLength(LaterEventBars(ev, k, endTime)) == ActiveEnd(ev, k, endTime) - ev[k - 1].stop
  {
    var step := LaterEventBars(ev, k, endTime);
    TotalLengthPair(step[0], step[1]);
    assert step == [step[0], step[1]];
  }

  lemma {:induction false} BarsUpToTotal(ev: seq<Interval>, m: nat, startTime: int, endTime: int)
    requires WellFormed(ev, startTime, endTime)
    requires 1 <= m <= |ev|
    ensures TotalLength(BarsUpTo(ev, m, startTime, endTime))
      == ActiveEnd(ev, m - 1, endTime) - startTime
         - (if ev[0].start == startTime then ActiveEnd(ev, 0, endTime) - startTime else 0)
  {
    if m == 1 {
      assert BarsUpTo(ev, 1, startTime, endTime) == [] + FirstEventBars(ev, startTime, endTime);
      TotalLengthAppend([], FirstEventBars(ev, startTime, endTime));
      FirstEventTotal(ev, startTime, endTime);
    } else {
      BarsUpToTotal(ev, m - 1, startTime, endTime);
      TotalLengthAppend(BarsUpTo(ev, m - 1, startTime, endTime), LaterEventBars(ev, m - 1, endTime));
      LaterEventTotal(ev, m - 1, endTime);
      // The previous event is not the last one, so its stop lies before the
      // next start and thus inside the window: clipping it changes nothing.
      assert ev[m - 2].stop <= ev[m - 1].start < endTime;
      assert ActiveEnd(ev, m - 2, endTime) == ev[m - 2].stop;
    }
  }

  /** For well-formed events the segment lengths telescope: they add up to
      the clipped stop of the last event minus the window start, less the
      active time of the first event when it starts exactly at the window
      start (those segments are never emitted). */
  lemma BarsTotal(ev: seq<Interval>, startTime: int, endTime: int)
    requires WellFormed(ev, startTime, endTime)
    requires |ev| > 0
    ensures TotalLength(Bars(ev, startTime, endTime))
      == ClipToEnd(ev[|ev| - 1].stop, endTime) - startTime
         - (if ev[0].start == startTime then ClipToEnd(ev[0].stop, endTime) - startTime else 0)
  {
    BarsUpToTotal(ev, |ev|, startTime, endTime);
  }

  /** With no trailing idle segment, the bar of a well-formed task reaches
      the window end exactly when its last event runs to (or past) it. */
  lemma BarsReachWindowEnd(ev: seq<Interval>, startTime: int, endTime: int)
    requires WellFormed(ev, startTime, endTime)
    requires |ev| > 0 && ev[0].start != startTime
    ensures TotalLength(Bars(ev, startTime, endTime)) <= endTime - startTime
    ensures TotalLength(Bars(ev, startTime, endTime)) == endTime - startTime <==> ev[|ev| - 1].stop >= endTime
  {
    BarsTotal(ev, startTime, endTime);
  }

  lemma {:induction false} BarsUpToNonNegative(ev: seq<Interval>, m: nat, startTime: int, endTime: int)
    requires WellFormed(ev, startTime, endTime) && startTime <= endTime
    requires m <= |ev|
    ensures forall k :: 0 <= k < |BarsUpTo(ev, m, startTime, endTime)| ==>
      BarsUpTo(ev, m, startTime, endTime)[k].length >= 0
  {
    if m > 0 {
      BarsUpToNonNegative(ev, m - 1, startTime, endTime);
      var prev := BarsUpTo(ev, m - 1, startTime, endTime);
      var step := EventBars(ev, m - 1, startTime, endTime);
      assert InWindow(ev[m - 1], startTime, endTime);
      assert forall k :: 0 <= k < |step| ==> step[k].length >= 0;
      assert BarsUpTo(ev, m, startTime, endTime) == prev + step;
    }
  }

  /** Well-formed events in a window that is not inverted give no negative
      segment length. */
  lemma BarsNonNegative(ev: seq<Interval>, startTime: int, endTime: int)
    requires WellFormed(ev, startTime, endTime) && startTime <= endTime
    ensures forall k :: 0 <= k < |Bars(ev, startTime, endTime)| ==> Bars(ev, startTime, endTime)[k].length >= 0
  {
    BarsUpToNonNegative(ev, |ev|, startTime, endTime);
  }

  /** Nothing rejects an inverted window: an event that passes the overlap
      test of [10, 5) yields a 'color' segment of length -5. */
  lemma InvertedWindowNegativeLength()
    ensures InWindow(Interval(0, 20), 10, 5)
    ensures Bars([Interval(0, 20)], 10, 5) == [Segment(-5, Color)]
  {
    assert BarsUpTo([Interval(0, 20)], 1, 10, 5) == [] + [Segment(-5, Color)];
  }

  /** Window [0, 100), events (10, 30) and (50, 70): the list stops after the
      second active segment; no idle segment covers (70, 100). */
  lemma TwoEventsNoTrailingIdle()
    ensures Bars([Interval(10, 30), Interval(50, 70)], 0, 100)
      == [Segment(10, Clear), Segment(20, Color), Segment(20, Clear), Segment(20, Color)]
  {
    var ev := [Interval(10, 30), Interval(50, 70)];
    assert BarsUpTo(ev, 1, 0, 100) == [Segment(10, Clear), Segment(20, Color)];
    assert BarsUpTo(ev, 2, 0, 100) == [Segment(10, Clear), Segment(20, Color)] + [Segment(20, Clear), Segment(20, Color)];
  }

  /** An event that coincides with the window emits nothing at all. */
  lemma EventEqualToWindowEmitsNothing()
    ensures Bars([Interval(0, 100)], 0, 100) == []
  {
    assert BarsUpTo([Interval(0, 100)], 1, 0, 100) == [] + [];
  }

  /** Rows out of time order, all passing the overlap test of [0, 100): the
      middle event is not clipped, so its segment is longer than the window,
      and the gap before the last event is negative. */
  lemma MiddleEventNotClipped()
    ensures Bars([Interval(10, 20), Interval(30, 150), Interval(40, 50)], 0, 100)
      == [Segment(10, Clear), Segment(10, Color), Segment(10, Clear), Segment(120, Color),
          Segment(-110, Clear), Segment(10, Color)]
  {
    var ev := [Interval(10, 20), Interval(30, 150), Interval(40, 50)];
    assert BarsUpTo(ev, 1, 0, 100) == [Segment(10, Clear), Segment(10, Color)];
    assert BarsUpTo(ev, 2, 0, 100)
      == [Segment(10, Clear), Segment(10, Color)] + [Segment(10, Clear), Segment(120, Color)];
    assert BarsUpTo(ev, 3, 0, 100)
      == [Segment(10, Clear), Segment(10, Color), Segment(10, Clear), Segment(120, Color)]
         + [Segment(-110, Clear), Segment(10, Color)];
  }
}
