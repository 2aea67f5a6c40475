/** Values shared by the stages of the Gantt chart builder: the bar segments a
    task's timeline is made of, the event intervals they are computed from,
    and the arithmetic on them. */
module Timeline {

  /** 'clear' segments are idle time (drawn transparent), 'color' segments
      are time the task was active. */
  datatype Kind = Clear | Color

  /** One `[length, kind]` pair of a task's bar list. */
  datatype Segment = Segment(length: int, kind: Kind)

  /** One event's parsed start and stop time, in whole seconds. */
  datatype Interval = Interval(start: int, stop: int)

  /** Sum of the lengths of a segment list: how far the stacked bar reaches. */
  function TotalLength(segs: seq<Segment>): int
  {
    if segs == [] then 0 else TotalLength(segs[..|segs| - 1]) + segs[|segs| - 1].length
  }

  lemma {:induction false} TotalLengthAppend(a: seq<Segment>, b: seq<Segment>)
    ensures TotalLength(a + b) == TotalLength(a) + TotalLength(b)
    decreases |b|
  {
    if b == [] {
      assert a + b == a;
    } else {
      assert (a + b)[..|a + b| - 1] == a + b[..|b| - 1];
      TotalLengthAppend(a, b[..|b| - 1]);
    }
  }

  lemma TotalLengthPair(a: Segment, b: Segment)
    ensures TotalLength([a]) == a.length
    ensures TotalLength([a, b]) == a.length + b.length
  {
  }

  /** Kinds never repeat between neighbours. */
  predicate Alternates(segs: seq<Segment>)
  {
    forall k :: 0 <= k < |segs| - 1 ==> segs[k].kind != segs[k + 1].kind
  }

  lemma AppendAlternates(a: seq<Segment>, b: seq<Segment>)
    requires Alternates(a) && Alternates(b)
    requires a != [] && b != [] ==> a[|a| - 1].kind != b[0].kind
    ensures Alternates(a + b)
  {
  }

  /** A stop time clipped to the end of the window. */
  function ClipToEnd(t: int, endTime: int): (r: int)
    ensures r <= endTime && r <= t
    ensures r == t || r == endTime
  {
    if t > endTime then endTime else t
  }
}
