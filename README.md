# beready-yolo: queue tracker, occupancy window and menu parser in Dafny

This project models the sequential core of beready-yolo, a system that
estimates how long people wait in a cafeteria queue and serves that estimate.
Three pieces are modelled, and properties of each are proved.

- **Target tracker** (`tracker.dfy`, module `Tracker`). This is the body of the
  `while running` loop of `start_tracker` in yolo/beready_tracker.py. The
  detector's person boxes are filtered for the association. The association's
  targets become `tracks`, and the registry `meta` (id to first sighting,
  last frame seen, consecutive misses) is refreshed. Absent ids are aged. The
  head-of-queue target is completed when it has been missing for `max_missed`
  frames, giving `wait = dwell / current_people_count`. Stale records are swept,
  and a new target is selected as the leftmost track.
  - `NextState` is the reference definition of one frame, composed of the
    phases `Refresh`, `MarkAbsent`, `Complete`, `Sweep` and `Select`.
  - `QueueTracker` holds the loop's variables as fields. Its `Step` runs the
    source's loops over the tracks and over the registry, and is proved equal
    to `NextState`.
- **Occupancy window** (`occupancy.dfy`, module `Occupancy`). This covers
  main_yolo.py; detection.py holds the same logic.
  - A detector loop publishes `person_count`, the number of class-0 boxes in
    the latest frame.
  - A sampling loop appends that count to `average_counts` six times. It then
    publishes `wait_time = int(sum / len * 2)` and clears the list.
  - `get_count` reads both values.
  - The globals are the fields of `OccupancyMonitor`, and each method is one
    pass of a loop body.
  - `FlushValue` is the reference definition of the published value.
- **Menu table parser** (`crawler.dfy`, module `Crawler`). This covers
  `squash_slash`, `pick_5_header`, `pick_5_dates` and `parse_lunch_from_table`
  of crawler_radhaha/beready_crawler.py, over tables abstracted to rows of cell
  texts. `LunchRows` is the reference definition of the parser. The methods
  carry the source's loops and are proved equal to their functions.
- **Shared helpers** (`seqs.dfy`, `text.dfy`). These are the Python list and
  string operations the modules rely on: comprehension with `if`, slices,
  `in` on strings, `split`, `join`, `strip` and the f-string rendering of an
  int.

Points where the model makes a choice:
- **Tie-break in selection.** `min(tracks, key=...)` at
  yolo/beready_tracker.py:135 returns the first minimal track in list order;
  ties are not broken by id (`IsFirstLeftmost`, `TieBreakScenario`).
- **Box centres.** They are compared as `x1 + x2`, which orders tracks
  exactly as `(x1 + x2) / 2` does.
- **`max_missed`.** It is a parameter, required to be at least 1. The source's
  value is 150 (`DefaultMaxMissed`). With 0, the sweep deletes every
  record, including the one just refreshed for the track then selected, so
  the lookup at line 138 raises `KeyError`.
- **Time.** All `time.time()` calls of one frame read the same clock value
  `now`, which is a parameter.
- **Frames without detection.** They hand the frame body no targets
  (`Observed`, with `detect_interval = 1`).
- **Sampling.** `WaitTimeRound` interleaves the two threads one way: the k-th
  sample is preceded by the last frame the detector handled before it. Since
  each frame overwrites the count, this covers every interleaving that has at
  least one frame between samples.

## Model

| member | source | states |
|---|---|---|
| Tracker.Refresh | yolo/beready_tracker.py:99-112 | definition of phase 1: observed ids get `missed = 0` and this frame, new ones are registered with `first_seen = now`; its meaning is pinned by `ObservedIdRefreshed` and `RegistryKeys` |
| Tracker.MarkAbsent | yolo/beready_tracker.py:115-117 | definition of phase 2: registered ids not observed get one more miss; pinned by `AbsentIdAged` |
| Tracker.Complete | yolo/beready_tracker.py:120-126 | definition of phase 3: a registered target that has missed `max_missed` frames sets `wait`, loses its record and is released; pinned by `TargetCompletion` |
| Tracker.Sweep | yolo/beready_tracker.py:129-131 | definition of phase 4: keeps the records below the threshold; pinned by `NoStaleRecord` and `RegistryKeys` |
| Tracker.Select | yolo/beready_tracker.py:134-137 | definition of phase 5: with no target and some track, the first leftmost track is chosen and the number of tracks kept; pinned by `TargetSelection` |
| Tracker.NextState | yolo/beready_tracker.py:72-137 | definition of one frame: the counter advances, then the five phases in the source's order; `QueueTracker.Step` is proved equal to it |
| Tracker.Run | yolo/beready_tracker.py:66-140 | definition of a run of the loop: `NextState` applied frame after frame; used by `RunKeepsInv` and the two "seen every frame" lemmas |
| Tracker.Observed | yolo/beready_tracker.py:77-93 | definition of the detection gate: the association's output on frames that are multiples of the interval, no targets otherwise; used by `SkippedFrameAgesAll` and `EveryFrameDetected` |
| Occupancy.PersonCount | main_yolo.py:44-47 | definition of `person_count`: the number of class-0 entries; pinned by `PersonCountBounds` and `PersonCountAppend` |
| Occupancy.FlushValue | main_yolo.py:79-80 | definition of the published wait, `int(sum / len * 2)` on exact reals; pinned by `FlushValueIsIntegerDivision` and `FlushValueBounds` |
| Crawler.Squash | crawler_radhaha/beready_crawler.py:77-89 | definition of `squash_slash` as the loop's state after each step; `SquashSlash` is proved equal to it, and `SquashIdentity` and `SquashFlatten` state its meaning |
| Crawler.Label | crawler_radhaha/beready_crawler.py:121-130 | definition of label `i` by the four branches of the source; pinned by `LabelMeaning` |
| Crawler.Dishes | crawler_radhaha/beready_crawler.py:155-158 | definition of the dishes of a cell: split on newlines, stripped, blank and ban-word lines dropped, then squashed; pinned by `DishesAreDishes` |
| Crawler.Rows | crawler_radhaha/beready_crawler.py:153-160 | definition of `rows_out` after the emission loop: one `(day, dish)` per dish, cell after cell; `EmitRows` is proved equal to it and `RowFromCell` states its meaning |
| Crawler.LunchRows | crawler_radhaha/beready_crawler.py:107-162 | definition of `parse_lunch_from_table` on a table of cell texts; `ParseLunchFromTable` is proved equal to it, with `ShortTableEmpty` and `EmittedRowsWellFormed` about it |
| Text.Contains | crawler_radhaha/beready_crawler.py:95 | definition of `w in s` as "some suffix starts with `w`"; `ContainsIffOccurs` shows it is "occurs at some offset" |
| Text.Join | crawler_radhaha/beready_crawler.py:135 | definition of `sep.join(parts)`; `JoinSplit` shows it undoes `split` |
| Text.Strip | crawler_radhaha/beready_crawler.py:156 | definition of `strip()` over the `str.isspace` set; `StripIsTrimmedWindow` characterises its result |
| Tracker.CollectDetections | yolo/beready_tracker.py:78-85 | the detection loop returns exactly the filtered person rows `PersonDetections(boxes)` |
| Tracker.PersonDetectionsExact | yolo/beready_tracker.py:84-85 | every row handed to the association comes from a class-0 box with score at least 0.2, every such box is handed on, and there are no more rows than boxes |
| Tracker.Leftmost | yolo/beready_tracker.py:134-135 | the chosen position has the smallest `x1 + x2`, and no earlier track has that centre (first minimum in list order) |
| Tracker.FirstLeftmostUnique | yolo/beready_tracker.py:135 | the first leftmost position is unique, so the target is determined by the frame |
| Tracker.FrameCountAdvances | yolo/beready_tracker.py:72 | one frame raises `frame_count` by exactly 1 |
| Tracker.ObservedIdRefreshed | yolo/beready_tracker.py:105-112 | after a frame every observed id is registered with `missed = 0` and this frame as `last_seen_frame`; a new id has `first_seen = now`, a known one keeps its old `first_seen` |
| Tracker.AbsentIdAged | yolo/beready_tracker.py:115-117 | a registered id absent from the frame has `missed` raised by exactly 1 and nothing else changed; it stays registered if and only if the new count is below `max_missed` |
| Tracker.RegistryKeys | yolo/beready_tracker.py:108-131 | the registry after a frame holds exactly the observed ids and the absent ids still below the threshold |
| Tracker.NoStaleRecord | yolo/beready_tracker.py:129-131 | after every frame no record has `missed >= max_missed` |
| Tracker.TargetCompletion | yolo/beready_tracker.py:120-126 | when the target now reaches `max_missed`, `wait` becomes its dwell over `current_people_count` (the raw dwell when that is 0), its record is gone, and any new target is an observed id; otherwise `wait` is unchanged |
| Tracker.WaitEstimateMeaning | yolo/beready_tracker.py:123 | with a positive count, count times wait gives the dwell back; with a count of 0 the wait is the dwell |
| Tracker.TargetSelection | yolo/beready_tracker.py:134-137 | with no target after completion and a non-empty frame, the target becomes the first leftmost track and the count the number of tracks; otherwise neither the target nor the count changes; completion and selection can happen in the same frame |
| Tracker.StepPreservesInv | yolo/beready_tracker.py:120-137 | one frame keeps the invariant: the target is registered and no record is stale |
| Tracker.ObservedSurviveSweep | yolo/beready_tracker.py:137-138 | every track of the frame is still registered at selection, so the lookup of the new target's record cannot fail |
| Tracker.InitialInv | yolo/beready_tracker.py:61-63 | the starting state (no target, empty registry, wait 20.0 from the global at line 18) satisfies the invariant |
| Tracker.RunKeepsInv | yolo/beready_tracker.py:65-140 | the invariant holds after any run of frames |
| Tracker.IdSeenEveryFrameKept | yolo/beready_tracker.py:108-112 | an id observed in every frame of a run is never evicted: it ends with `missed = 0`, last seen in the final frame, and with its first sighting unchanged |
| Tracker.TargetSeenEveryFrameKept | yolo/beready_tracker.py:115-126 | a target observed in every frame never completes: target, people count and wait (20.0 until a first completion) stay as they are |
| Tracker.EveryFrameDetected | yolo/beready_tracker.py:11 | with `detect_interval = 1` every frame runs the detector and sees the association's output |
| Tracker.SkippedFrameAgesAll | yolo/beready_tracker.py:77-93 | on a frame without detection every record ages by one frame and survives exactly while it is below the threshold |
| Tracker.CompletionScenario | yolo/beready_tracker.py:120-124 | a target first seen at 0 s that completes at 35 s with 4 people counted gives a wait of 8.75 s |
| Tracker.TieBreakScenario | yolo/beready_tracker.py:135 | of two tracks with equal centres, the first in list order is selected even though the second has the lower id |
| Tracker.QueueTracker.constructor | yolo/beready_tracker.py:61-63 | the loop starts with an empty registry, no target, count 0, wait 20.0 (the global at line 18) and frame 0 |
| Tracker.QueueTracker.Step | yolo/beready_tracker.py:71-139 | one pass of the loop changes the variables exactly as `NextState` does and keeps the invariant |
| Tracker.QueueTracker.RefreshTracks | yolo/beready_tracker.py:96-112 | the loop over the targets builds `tracks` and `present_ids` and refreshes the registry as `Refresh` does |
| Tracker.QueueTracker.TouchRecord | yolo/beready_tracker.py:108-112 | a new id gets a fresh record seen now; a known one is moved to this frame with no miss |
| Tracker.QueueTracker.MarkAbsentIds | yolo/beready_tracker.py:115-117 | the loop over the registry adds a miss to every id not present, as `MarkAbsent` does |
| Tracker.QueueTracker.CompleteTarget | yolo/beready_tracker.py:120-126 | a gone target is completed as `Complete` does |
| Tracker.QueueTracker.SweepStale | yolo/beready_tracker.py:129-131 | the deletion loop leaves exactly the records below the threshold, as `Sweep` does |
| Tracker.QueueTracker.SelectTarget | yolo/beready_tracker.py:134-139 | with no target, the first leftmost track becomes the target with the count of tracks, as `Select` does |
| Occupancy.PersonCountBounds | main_yolo.py:44-47 | the person count is at most the number of boxes; it equals it if and only if every box is a person, and it is 0 if and only if none is |
| Occupancy.PersonCountAppend | detection.py:19-22 | each further box raises the count by one exactly when its class is `PERSON_CLASS_ID` |
| Occupancy.Trunc | detection.py:53 | `int()` on a float truncates toward zero: the result is within 1 of the value, on the side of 0 |
| Occupancy.FlushValueIsIntegerDivision | main_yolo.py:79-80 | for a non-empty window of non-negative counts, `int(sum / len * 2)` equals `(2 * sum) // len` |
| Occupancy.TruncOfScaledAverage | detection.py:52-53 | the same identity for any non-negative sum and positive length |
| Occupancy.FlushValueBounds | main_yolo.py:79-80 | the published wait is non-negative and at most twice the largest sample |
| Occupancy.SumAtMostLengthTimesMax | detection.py:52 | a window sums to at most its length times its largest sample |
| Occupancy.FlushScenario | main_yolo.py:79-80 | samples 2, 3, 4, 3, 2, 4 publish a wait of 6 |
| Occupancy.SteadyWindow | main_yolo.py:74-80 | six equal samples `c` publish `2 * c` |
| Occupancy.OccupancyMonitor.constructor | main_yolo.py:22-24 | the globals start at count 0, wait 0 and an empty window |
| Occupancy.OccupancyMonitor.DetectPeople | main_yolo.py:44-48 | a frame sets the count to the number of class-0 boxes and returns the current wait without changing it or the window |
| Occupancy.OccupancyMonitor.Tick | main_yolo.py:75-76 | a sample appends exactly the current count at the end of the window, which stays at most 6 long |
| Occupancy.OccupancyMonitor.Flush | main_yolo.py:79-82 | the flush publishes `FlushValue` of the window and empties it |
| Occupancy.OccupancyMonitor.WaitTimeRound | detection.py:46-54 | a round takes six samples (so the flush never divides by zero), publishes the flush of the six counts and ends with an empty window |
| Occupancy.OccupancyMonitor.GetCount | main_yolo.py:85-87 | returns exactly the current count and wait and changes nothing |
| Seqs.Filter | crawler_radhaha/beready_crawler.py:103 | every element of a comprehension with `if` comes from the input and passes, every passing element of the input is in it, and it is no longer than the input |
| Seqs.FilterIsSubsequence | crawler_radhaha/beready_crawler.py:103 | the comprehension reads the input at strictly increasing positions, and every position whose element passes is among them: it keeps all passing elements, each occurrence once, in their original order |
| Seqs.Take | crawler_radhaha/beready_crawler.py:104 | `xs[:n]` is the prefix of length `min(n, len(xs))` |
| Seqs.Drop | crawler_radhaha/beready_crawler.py:149 | `xs[n:]` is the rest after the first `n`, empty past the end |
| Seqs.TakeFilterInOrder | crawler_radhaha/beready_crawler.py:91-104 | `cleaned[:5]` holds the first five passing elements in their original order: their positions increase, no passing position before the last of them is skipped, and all passing elements are kept when fewer than five pass |
| Text.ContainsAcross | crawler_radhaha/beready_crawler.py:135-136 | a word without the joining character occurs in `a + c + b` if and only if it occurs in `a` or in `b` |
| Text.Split | crawler_radhaha/beready_crawler.py:156 | `split` always gives at least one piece and no piece contains the separator |
| Text.JoinSplit | crawler_radhaha/beready_crawler.py:156 | joining the pieces of a split with the separator gives back the text |
| Text.StripIsTrimmedWindow | crawler_radhaha/beready_crawler.py:156 | `strip()` cuts out a window whose removed ends are all white space and whose own ends are not |
| Text.Decimal | crawler_radhaha/beready_crawler.py:130 | an f-string renders an int as a non-empty string of decimal digits |
| Text.DecimalValue | crawler_radhaha/beready_crawler.py:130 | the rendering names the number: reading its digits back gives `n` |
| Crawler.SquashSlash | crawler_radhaha/beready_crawler.py:77-89 | the loop returns `Squash(lines)` |
| Crawler.SquashIdentity | crawler_radhaha/beready_crawler.py:81-88 | the output equals the input if and only if no "/" sits strictly inside the list, which is also exactly when the length is kept; in particular, when no "/" sits strictly inside, a leading or trailing "/" is kept; the length drops by an even number |
| Crawler.SquashFlatten | crawler_radhaha/beready_crawler.py:84 | merging only joins neighbours with "/": the characters of the output, in order, are those of the input |
| Crawler.SquashScenarios | crawler_radhaha/beready_crawler.py:83-88 | `a / b` becomes `a/b`, chains merge left to right, and a leading or trailing "/" stays |
| Crawler.JoinedDish | crawler_radhaha/beready_crawler.py:152-158 | two non-empty lines free of ban words joined by "/" are still free of ban words |
| Crawler.SquashDishes | crawler_radhaha/beready_crawler.py:157-158 | squashing non-empty lines free of ban words gives non-empty lines free of ban words |
| Crawler.HeaderCells | crawler_radhaha/beready_crawler.py:91-100 | at most 5 cells, each non-empty and containing neither "구분" nor "운영정보" |
| Crawler.PickHeader | crawler_radhaha/beready_crawler.py:91-100 | the loop with its early `break` returns the first five such cells of the row |
| Crawler.DateCells | crawler_radhaha/beready_crawler.py:102-104 | at most 5 cells, none containing "운영정보" |
| Crawler.Labels | crawler_radhaha/beready_crawler.py:119-130 | exactly five labels are built |
| Crawler.BuildLabels | crawler_radhaha/beready_crawler.py:119-130 | the loop builds exactly `Labels` |
| Crawler.LabelMeaning | crawler_radhaha/beready_crawler.py:123-130 | a label is never empty; it starts with the date when there is one, also mentions the day when both exist, is the day when there is no date, and is `Day` followed by digits that read back as `i + 1` when neither exists |
| Crawler.LunchRowCells | crawler_radhaha/beready_crawler.py:134-136 | the space-joined first two cells mention "중식" if and only if one of those two cells does |
| Crawler.FirstLunchFrom | crawler_radhaha/beready_crawler.py:133-138 | the search returns the first lunch row at or after its start, or the end of the table |
| Crawler.LunchIndex | crawler_radhaha/beready_crawler.py:132-140 | the lunch row is always a row from index 2 on |
| Crawler.LunchIndexFirst | crawler_radhaha/beready_crawler.py:133-140 | the lunch row is the first lunch row from index 2 on, or row 2 when there is none |
| Crawler.FindLunchRow | crawler_radhaha/beready_crawler.py:132-140 | the search loop with `break` and its fallback returns the row at `LunchIndex` |
| Crawler.Skip | crawler_radhaha/beready_crawler.py:143-148 | `skip` is 1 or 2, and 2 exactly when the second of the first two cells contains "구분" or "중식" |
| Crawler.SkipCount | crawler_radhaha/beready_crawler.py:143-148 | the enumerate loop and its fallback compute `Skip` |
| Crawler.MenuCells | crawler_radhaha/beready_crawler.py:149-150 | at most 5 menu cells, none containing "운영정보" |
| Crawler.StrippedLines | crawler_radhaha/beready_crawler.py:156 | every stripped line kept is non-empty |
| Crawler.DishesAreDishes | crawler_radhaha/beready_crawler.py:156-158 | every dish of a cell is non-empty and contains no ban word |
| Crawler.EmitDishes | crawler_radhaha/beready_crawler.py:159-160 | the inner loop appends one `(day, dish)` pair per dish, in order |
| Crawler.EmitRows | crawler_radhaha/beready_crawler.py:153-160 | the emission loop returns `Rows(labels, menu_cells)` |
| Crawler.RowFromCell | crawler_radhaha/beready_crawler.py:153-160 | each emitted pair carries the day of some menu cell and one of that cell's dishes |
| Crawler.ParseLunchFromTable | crawler_radhaha/beready_crawler.py:107-162 | the parser returns exactly `LunchRows(trs)` |
| Crawler.ShortTableEmpty | crawler_radhaha/beready_crawler.py:110-111 | a table of fewer than 3 rows gives no rows |
| Crawler.EmittedRowsWellFormed | crawler_radhaha/beready_crawler.py:152-160 | every emitted row is labelled with one of the five labels, so the `Day{i+1}` fallback at line 154 is never taken, and carries a non-empty dish free of ban words |

## Left out

- Video capture, YOLO inference and `BYTETracker.update` are foreign
  libraries. Their outputs are inputs here: boxes with integer corners, a
  score and a class, and targets with an id and an integer `tlwh` box. The
  float-to-int conversions of the corners are not modelled.
- The frame loop's termination on a failed read, the `running` flag and the
  thread start functions are left out. So are threads, locks, `time.sleep`
  and the daemon loops of main_yolo.py and detection.py. The model is
  sequential, and the lock gives no atomic snapshot to model: `wait_time` is
  written outside it.
- `time.time()` is the parameter `now`. One value serves all reads within a
  frame.
- Drawing, display, the `print` logging and the commented-out block after
  the selection have no effect on the modelled state.
- Line 138 of the tracker resets `first_seen` if it is `None`. That can never
  happen, because records are always created with a time. Only the safety of
  its lookup is modelled (`ObservedSurviveSweep`).
- Floating point is modelled with exact reals: `wait` in the tracker and the
  average in the flush. `FlushValueIsIntegerDivision` shows that, with exact
  reals, `int(sum / len * 2)` has no rounding error of its own. IEEE rounding
  of the float average is not modelled.
- `cell_text` is the identity on cell texts. The BeautifulSoup work it does
  (`get_text`, stripping, removing `\r`) is not modelled, and neither is
  `find_all`.
- `fetch_html`, `find_latest_view_url`, `find_lilac_table` and `crawl_once`
  are network or HTML-selector code and are not part of this model. Neither
  are crawler_radhaha/db.py, crawler_radhaha/beready_crawler_core.py (calendar
  arithmetic with `datetime.today()`), the scheduler, and the HTTP wiring of
  main.py, serve.py and routes.py.
- White space for `strip()` is Python's `str.isspace` set of code points.
  Unicode normalisation is not modelled.
