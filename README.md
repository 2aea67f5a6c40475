# GanttMaker segmentation core in Dafny

GanttMaker draws a Gantt chart of repeated tasks from a CSV schedule: each
row is a task label, a start time and a stop time. This project models the
part of `GanttGrapher.py` that turns those rows into stacked bar segments:

- `getTaskIndices` (module `TaskIndices`): for each requested task, the row
  indices whose label matches, whose start and stop fields are non-empty and
  whose interval overlaps the window by `start < endTime and stop > startTime`.
  Rows are kept in row order.
- `getBarVals` (module `BarVals`): each task's index list becomes a flat list
  of `[length, kind]` segments, `Clear` (idle, drawn transparent) or `Color`
  (active). The first event is clipped at both window ends, a later event only
  at the window end and only when it is the last one. A first event that starts
  exactly at the window start emits nothing. No idle segment follows the last
  event, and nothing is sorted or rejected.
- `getBarSize`, `getColor` and the trace loop of `dataBuilder` (module
  `Stacking`): trace t holds segment t of every task. A shorter list is padded
  with width 0 and a transparent colour.
- The title string of `figureBuilder` (module `ChartTitle`).
- Module `BarProperties` proves what the segment lists look like: their exact
  layout, their length (2n, 2n-1 or 2n-2), the alternation of kinds, and
  non-negative lengths and telescoping sums for well-ordered input.
- Module `Pipeline` runs the two stages in a row, as `main` does.

Times are integer seconds. The parser `getTime` is a parameter
`time: string -> int` of every operation that reads a time field.

Where the design description of the system and the code disagree, the model
follows the code:
- The description asks for sorting by start time. The code does not sort.
- The description asks for a trailing idle segment, and for a single idle
  segment when a task has no events. The code emits neither.
- The description asks for `InvalidWindow` and `InvalidInterval` errors. The
  code raises neither.
- The description says an event equal to the window gives one full-length
  active segment. The code emits nothing for it (`EventEqualToWindowEmitsNothing`).

## Model

| member | source | states |
|---|---|---|
| `TaskIndices.IndicesUpTo` | GanttGrapher.py:66-70 | row j is in the list iff j is among the rows scanned, its label equals the task, both time fields are non-empty and its interval overlaps the window (half-open test); the list is strictly increasing and every index is in range |
| `TaskIndices.GetTaskIndices` | GanttGrapher.py:60-72 | one index list per task, in the order of `tasks`; list i holds exactly the rows selected for `tasks[i]`, in strictly increasing row order |
| `Timeline.ClipToEnd` | GanttGrapher.py:94-97 | the clipped stop is at most the window end and at most the stop, and equals one of them (the minimum) |
| `BarVals.TaskBarVals` | GanttGrapher.py:89-112 | for one task: the parsed start and stop of each indexed row, and segments equal to `Bars` of those events in index-list order |
| `BarVals.GetBarVals` | GanttGrapher.py:77-113 | one segment list per index list, each equal to `Bars` of that task's events; an empty index list gives an empty segment list |
| `BarProperties.BarsLayout` | GanttGrapher.py:92-112 | first event started before the window: one `Color` segment from the window start to its stop clipped at the window end; starts inside: `Clear` from the window start to its start, then `Color` to its clipped stop; starts exactly at the window start: nothing. Each later event k: a `Clear` gap from event k-1's raw stop to its start, then `Color` to its stop, clipped at the window end only for the last event; length FirstCount + 2(n-1) |
| `BarProperties.BarsLength` | GanttGrapher.py:92-112 | no events give no segments; n >= 1 events give 2n, 2n-1 or 2n-2 segments as the first start is after, before or equal to the window start |
| `BarProperties.BarsAlternate` | GanttGrapher.py:92-112 | kinds alternate, a non-empty list ends with `Color`, and it starts with `Color` iff the first event started before the window |
| `BarProperties.BarsTotal` | GanttGrapher.py:93-112 | for ordered, non-overlapping events with start < stop that overlap the window, the lengths add up to the last event's clipped stop minus the window start, less the first event's active time when it starts exactly at the window start |
| `BarProperties.BarsReachWindowEnd` | GanttGrapher.py:104-113 | for such events, when the first one does not start exactly at the window start, the lengths never exceed the window length, and they equal it iff the last event stops at or after the window end (no trailing idle) |
| `BarProperties.BarsNonNegative` | GanttGrapher.py:92-112 | for such events and a window whose start is not after its end, no segment length is negative |
| `BarProperties.InvertedWindowNegativeLength` | GanttGrapher.py:93-97 | an inverted window is not rejected: event (0, 20) passes the overlap test of window [10, 5) and yields a `Color` segment of length -5 |
| `BarProperties.TwoEventsNoTrailingIdle` | GanttGrapher.py:98-113 | window [0, 100) with events (10, 30), (50, 70) gives Clear 10, Color 20, Clear 20, Color 20 and nothing for (70, 100) |
| `BarProperties.EventEqualToWindowEmitsNothing` | GanttGrapher.py:92-103 | a single event equal to the window gives an empty list (strict `>` on the start) |
| `BarProperties.MiddleEventNotClipped` | GanttGrapher.py:110-112 | rows out of time order: a middle event running past the window end keeps its full length, and the next gap is negative |
| `Stacking.BarColor` | GanttGrapher.py:31-45 | transparent iff the position is past the list's end or holds a `Clear` segment; otherwise a palette colour, cyan for every task position from 4 on |
| `Stacking.DistinctTaskColors` | GanttGrapher.py:36-45 | active segments of the task positions 0 to 4 get five different colours |
| `Stacking.PaddedWidthTotal` | GanttGrapher.py:50-54 | padding with `getBarSize` adds no width: over any number of positions at least the list's length, the widths add up to the list's total length |
| `Stacking.TraceAt` | GanttGrapher.py:125-129 | one width and one colour per task, each `getBarSize` and `getColor` of that task's list at the given position |
| `Stacking.BuildData` | GanttGrapher.py:117-129 | as many traces as the longest segment list (at least every list's length, and equal to one of them); trace t holds each task's padded width and colour at t; each task's widths over all traces add up to the total length of its segments |
| `ChartTitle.BuildTitle` | GanttGrapher.py:145-155 | the title is "Plot of Task: A", "Plot of Tasks: A and B", or "Plot of Tasks: " followed by the comma list of all names but the last, "and " and the last name |
| `ChartTitle.TitleListsEveryTask` | GanttGrapher.py:150-155 | with three or more tasks, every task name appears in the title, in task order, at the offset given by the names before it |
| `Pipeline.SelectedEventsInWindow` | GanttGrapher.py:66-70 | every index selected for a task is in range and its event passes the overlap test, so the window part of the well-formedness hypothesis always holds for the segment builder's input |
| `Pipeline.BuildTimelines` | GanttGrapher.py:220-221 | one segment list per task, built from its selected rows in row order; a list is empty iff the task has no selected row, or a single one starting exactly at the window start |

## Left out

- `getColumn` (reading a CSV column) is file I/O. The three columns are
  sequence parameters, required to have equal length, since they are columns
  of one file.
- `getTime` is the parameter `time`. Date parsing, the float result of
  `total_seconds` and the `ValueError` it raises on an empty or malformed
  string are not modelled. The code does not catch that error.
- The `go.Bar`, `go.Layout` and `go.Figure` objects, the axis titles and
  `py.plot` are calls into the Plotly library and a network upload. A trace
  is modelled as its widths and colours only.
- `main`'s argument handling and messages are CLI plumbing. Its "1 to 5
  tasks" limit is not a precondition: the core functions accept any number.
- Python lists are appended to in place. The model builds each task's lists
  as sequence values and stores them back. The inner loops of `getBarVals`
  and `dataBuilder` are split out as `TaskBarVals` and `TraceAt`.
- An index out of range in `getBarVals` would raise `IndexError`. The model
  requires every index to be in range, which `getTaskIndices` guarantees.
