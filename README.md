# DroidGraph coverage engine and exploration policy, in Dafny

This project models the parts of the DroidGraph tool set that hold logic. They are:

- **Coverage engine (DroidCoverage).** Instrumentation log lines (`<METHOD>`, `<CONTROL>`,
  `<INTERACTION>`) are classified and parsed against a symbol table of the app's classes.
  The parsed lines visit, or add, vertices and edges of the interaction graph. For each
  test run the engine records a series of coverage snapshots: one at every interaction
  marker and one at the end. The Monkey recorder keeps only the final snapshot. Series
  from many runs are reduced, index by index, to averages, minimums and maximums.
  `createMonkeyLogs` rewrites raw Monkey output into marker lines with consecutive counts.
  `updateGraphWithLog` grows the graph from a traversal log.
- **Exploration policy (DroidDynaSearch).** For each activity, `Traversal` keeps a table
  from a control's centre to (clicks, leaf). A control never seen before is chosen first.
  Otherwise the choice is the control with the fewest clicks that is not a dead end.
  Clicks are booked in the table and in the `Tracker` counters, and the counters decide
  when the run stops. `AppiumManager` supplies the element descriptions, the activity
  name expansion, the fragment scan of `dumpsys` output and a lazily created driver.
- **Helpers.** `Pair` and `Tuple` (null checks, `equals`, `hashCode` with 32-bit
  wrap-around), the text `ProgressBar.printProgress` prints, the directory-name
  classifiers of `data_plot.py`, and the package filter and version choice of
  `app_selector.py`.

How the collaborators are modelled:

- **The graph.** `DroidGraph` is a class with method vertices, control vertices keyed by
  (owner class, id), edges and visited sets. Its coverage is the share of visited
  vertices, as a `real`.
- **Soot's `Scene`.** A map from class name to its optional outer class and its method
  names.
- **The device.** The current activity, package, element lists and shell output are
  plain input values.
- **Exceptions.** Exceptions the source throws become the `Err` case of a `Result`.
- **Java `int` arithmetic.** It is written out where it matters: the bounds of
  `parseInt` and the wrap-around of hash sums.

File by file (one module each):

- **Shared helpers:**
  - `wrappers.dfy`: `Option`, `Result` and the exceptions.
  - `jstrings.dfy`: Java/Python string predicates.
  - `java_int.dfy`: 32-bit range, wrap-around and truncating division.
- **Graph:** `droid_graph.dfy` holds the graph class and the coverage figures.
- **Log handling:** `log_handler.dfy` holds `regexLogMessage` and the three graph
  updates.
- **Coverage:**
  - `coverage.dfy`: the `Coverage` class, its read loop, statistics and row layout.
  - `coverage_stats.dfy`: the index-wise reductions and their properties.
  - `monkey_all_coverage.dfy`: the terminal-only recorder.
  - `coverage_main.dfy`: the Monkey log rewriter and `updateGraphWithLog`.
- **Exploration:**
  - `traversal.dfy`: choice, clicks, stop rule and tracker.
  - `appium_manager.dfy`: descriptions, activity names, fragment scan and lazy driver.
- **Utilities:** `pair.dfy`, `tuple.dfy` and `progress_bar.dfy`.
- **Python scripts:** `data_plot.dfy` and `app_selector.dfy`.

## Model

| member | source | states |
|---|---|---|
| Coverage.GetTestNumber | DroidCoverage/src/main/java/phd/research/coverage/Coverage.java:61-73 | -1 exactly when the name (before a final line terminator) does not end in a digit; otherwise the decimal value (`DigitsValue`) of the maximal trailing digit run when it is at most 2^31-1, and NumberFormat when it is larger |
| Coverage.LeadingZerosIgnored | DroidCoverage/src/main/java/phd/research/coverage/Coverage.java:61-73 | a zero put in front of the trailing digit run does not change the test number ("Test_007" is test 7) |
| Coverage.TestNumberRoundTrip | DroidCoverage/src/main/java/phd/research/coverage/Coverage.java:61-73 | a name ending in the decimal digits of n ≤ 2^31-1 (optionally followed by one line terminator) gives back n |
| Coverage.TestNumberOverflow | DroidCoverage/src/main/java/phd/research/coverage/Coverage.java:61-73 | a trailing digit run above 2^31-1 makes `parseInt` throw NumberFormat |
| Coverage.VerifyInteractionCount | DroidCoverage/src/main/java/phd/research/coverage/Coverage.java:36-59 | true iff some line contains "Events injected: 500" and some line contains "// Monkey finished" without the events text (the else-if) |
| Coverage.RecordedSeries | DroidCoverage/src/main/java/phd/research/coverage/Coverage.java:108-129 | a log read without exception gives a series whose keys are exactly 0..k for k marker lines; it fails iff applying a tagged line failed |
| Coverage.SeriesSize | DroidCoverage/src/main/java/phd/research/coverage/Coverage.java:112-127 | the series has exactly k+1 entries, all keys in 0..k |
| Coverage.ReplayCount | DroidCoverage/src/main/java/phd/research/coverage/Coverage.java:112-121 | without exception, the count after the loop equals the number of marker lines |
| Coverage.StepKeeps | DroidCoverage/src/main/java/phd/research/coverage/Coverage.java:116-124 | one line never lowers the count, never rewrites a stored snapshot, and changes nothing after an exception |
| Coverage.Persist | DroidCoverage/src/main/java/phd/research/coverage/Coverage.java:112-124 | later lines never rewrite a stored snapshot; after an exception nothing further changes |
| Coverage.SnapshotAtMarker | DroidCoverage/src/main/java/phd/research/coverage/Coverage.java:116-121 | the snapshot stored at the (i+1)-th marker is the coverage after exactly the lines before it; the marker line is not applied to the graph even when it carries a tag |
| Coverage.ReplayMonotone | DroidCoverage/src/main/java/phd/research/coverage/Coverage.java:112-127 | the read loop only adds visits, keeps the graph well formed, and no snapshot exceeds the current coverage |
| Coverage.SeriesMonotone | DroidCoverage/src/main/java/phd/research/coverage/Coverage.java:112-127 | snapshots of one run never decrease with the index and lie within 0..100 percent |
| Coverage.ApplyAllTracksReplay | DroidCoverage/src/main/java/phd/research/coverage/MonkeyAllCoverage.java:29-38 | when no line is both marker and tagged, the Monkey read loop and the base read loop build the same graph and meet the same exception |
| Coverage.TerminalMatchesFinal | DroidCoverage/src/main/java/phd/research/coverage/MonkeyAllCoverage.java:29-40 | under the same condition, the Monkey recorder's single snapshot equals the base recorder's final snapshot |
| Coverage.ReadCoverageSeries | DroidCoverage/src/main/java/phd/research/coverage/Coverage.java:108-127 | the read loop returns `RecordedSeries` of the log and leaves the graph in the replayed state |
| Coverage.Coverage.AddTestCoverage | DroidCoverage/src/main/java/phd/research/coverage/Coverage.java:108-129 | on success the series (base or Monkey recorder) is stored under the test number, replacing only that entry; on exception the table is unchanged |
| Coverage.Coverage.Accumulate | DroidCoverage/src/main/java/phd/research/coverage/Coverage.java:195-257 | the nested loops over runs and indices compute the index-wise reduction over all runs, in any map iteration order |
| Coverage.Coverage.CalculateAverageResults | DroidCoverage/src/main/java/phd/research/coverage/Coverage.java:195-219 | the averages: at every index any run reaches, the sum over the runs having it divided by the total number of runs |
| Coverage.Coverage.CalculateMinimumValues | DroidCoverage/src/main/java/phd/research/coverage/Coverage.java:221-238 | the componentwise minimum over the runs having each index |
| Coverage.Coverage.CalculateMaximumValues | DroidCoverage/src/main/java/phd/research/coverage/Coverage.java:240-257 | the componentwise maximum over the runs having each index |
| Coverage.Coverage.GetResultsOverview | DroidCoverage/src/main/java/phd/research/coverage/Coverage.java:259-266 | the average at the largest index; NoSuchElement iff no run has been added |
| Coverage.Coverage.GetTestResults | DroidCoverage/src/main/java/phd/research/coverage/Coverage.java:268-279 | -1, -2 and -3 select averages, maximums and minimums; any other number selects the stored series or null |
| Coverage.Coverage.ReadableRows | DroidCoverage/src/main/java/phd/research/coverage/Coverage.java:162-193 | -1, -2 and -3 (the average, maximum and minimum overload) place the rows of `Averages` and of the maximum and minimum `Aggregate`; a stored run's rows are placed as `PlacedRows` says; any other missing series is dereferenced (null pointer) |
| Coverage.PlaceRows | DroidCoverage/src/main/java/phd/research/coverage/Coverage.java:181-193 | the placement loop puts index k's row in slot k+1 of a table of size+1 slots and yields `PlacedRows` |
| Coverage.ContiguousRows | DroidCoverage/src/main/java/phd/research/coverage/Coverage.java:181-193 | for keys 0..n-1 the table is the header followed by the rows for 0..n-1 in order |
| Coverage.MergeSeries | DroidCoverage/src/main/java/phd/research/coverage/Coverage.java:199-212 | merging one run into the accumulator combines the entries index by index, and copies an index absent so far |
| Coverage.MaxKey | DroidCoverage/src/main/java/phd/research/coverage/Coverage.java:260-262 | `Collections.max` of a non-empty key set is its largest element |
| Coverage.ZeroReached | DroidCoverage/src/main/java/phd/research/coverage/Coverage.java:259-266 | since every stored series has index 0, the averages are empty exactly when no run was added |
| CoverageStatistics.ReduceRemove | DroidCoverage/src/main/java/phd/research/coverage/Coverage.java:195-257 | the reduction over a set of runs is the reduction over the others merged with any one run: the result does not depend on the iteration order |
| CoverageStatistics.ReduceDefined | DroidCoverage/src/main/java/phd/research/coverage/Coverage.java:195-257 | an index has a value iff some run reaches it |
| CoverageStatistics.InAllKeys | DroidCoverage/src/main/java/phd/research/coverage/Coverage.java:195-257 | the key set of every statistic is the union of all runs' key sets |
| CoverageStatistics.Aggregate | DroidCoverage/src/main/java/phd/research/coverage/Coverage.java:221-257 | its key set is the union of the runs' key sets |
| CoverageStatistics.Averages | DroidCoverage/src/main/java/phd/research/coverage/Coverage.java:195-219 | its key set is the union of the runs' key sets |
| CoverageStatistics.AverageAt | DroidCoverage/src/main/java/phd/research/coverage/Coverage.java:212-216 | the average at an index is the total there divided by the number of all runs |
| CoverageStatistics.ReduceBounds | DroidCoverage/src/main/java/phd/research/coverage/Coverage.java:221-257 | every run's value at an index lies between the minimum and the maximum there |
| CoverageStatistics.ReduceAttained | DroidCoverage/src/main/java/phd/research/coverage/Coverage.java:221-257 | each component of the minimum (maximum) is that component of some run at that index |
| CoverageStatistics.MinimumBelowMaximum | DroidCoverage/src/main/java/phd/research/coverage/Coverage.java:221-257 | minimum ≤ maximum at every index |
| CoverageStatistics.ReduceSingle | DroidCoverage/src/main/java/phd/research/coverage/Coverage.java:221-257 | an index reached by one run only takes that run's value |
| CoverageStatistics.TotalBetween | DroidCoverage/src/main/java/phd/research/coverage/Coverage.java:195-257 | when all n runs reach an index, n·min ≤ total ≤ n·max there |
| CoverageStatistics.AverageBetween | DroidCoverage/src/main/java/phd/research/coverage/Coverage.java:195-257 | when every run reaches an index, the average there lies between minimum and maximum |
| CoverageStatistics.SingleRunIndex | DroidCoverage/src/main/java/phd/research/coverage/Coverage.java:195-257 | at an index only one run reaches, min and max are that run's value and the average is it divided by the number of all runs |
| CoverageStatistics.AverageBelowMinimum | DroidCoverage/src/main/java/phd/research/coverage/Coverage.java:212-216 | dividing by all runs makes the average at an index reached by one of two or more runs fall below the minimum |
| CoverageStatistics.AddCommutes | DroidCoverage/src/main/java/phd/research/coverage/Coverage.java:199-250 | merging two runs into an accumulator gives the same result in either order |
| CoverageStatistics.Largest | DroidCoverage/src/main/java/phd/research/coverage/Coverage.java:260-262 | the largest element of a non-empty key set belongs to it and bounds every key |
| MonkeyAllCoverage.TerminalSeries | DroidCoverage/src/main/java/phd/research/coverage/MonkeyAllCoverage.java:25-41 | a stored Monkey series has exactly the key 0; it fails iff applying a line failed |
| MonkeyAllCoverage.ApplyAllVisitsOnly | DroidCoverage/src/main/java/phd/research/coverage/MonkeyAllCoverage.java:29-36 | the Monkey read loop only adds visits and keeps the graph well formed |
| MonkeyAllCoverage.TerminalBounds | DroidCoverage/src/main/java/phd/research/coverage/MonkeyAllCoverage.java:38-40 | the one snapshot lies within 0..100 percent and is never below the coverage the graph had before the log was read |
| MonkeyAllCoverage.MarkedTaggedLineApplied | DroidCoverage/src/main/java/phd/research/coverage/MonkeyAllCoverage.java:32-34 | a line carrying both a marker and a method/control tag is applied to the graph |
| MonkeyAllCoverage.TerminalAverageIsMean | DroidCoverage/src/main/java/phd/research/coverage/MonkeyAllCoverage.java:38-40 | when every series has only key 0, the inherited statistics have key set {0} and the average lies between minimum and maximum |
| MonkeyAllCoverage.FailureSticks | DroidCoverage/src/main/java/phd/research/coverage/MonkeyAllCoverage.java:29-36 | after an exception no later line changes the result |
| MonkeyAllCoverage.ReadTerminalCoverage | DroidCoverage/src/main/java/phd/research/coverage/MonkeyAllCoverage.java:25-41 | the read loop returns `TerminalSeries` of the log and leaves the graph in the applied state |
| Graph.CoverageOf | DroidCoverage/src/main/java/phd/research/coverage/Coverage.java:118-126 | both coverage figures are non-negative, and at most 100 when only graph vertices are visited |
| Graph.CoverageGrows | DroidCoverage/src/main/java/phd/research/coverage/Coverage.java:118-126 | visiting more vertices never lowers either coverage figure |
| LogHandler.RegexLogMessage | DroidCoverage/src/main/java/phd/research/utilities/LogHandler.java:32-84 | no tag gives null; a `<CONTROL>` line gives a parsed `int` id and never a missing group; a line without `<CONTROL>` after quote stripping gives id -1; a parsed line is `Matched`: the leftmost match's class is in the scene, the class reported is its outer class when it has one, the method has the matched sub-signature and is declared on the matched class or else on the outer class, and the id is group 3 parsed; a tagged line gives null exactly when there is no match, the class is unknown, `Resolve` finds no method, or quote stripping removed both tags; errors only from `parseInt` or a missing group |
| LogHandler.Resolve | DroidCoverage/src/main/java/phd/research/utilities/LogHandler.java:55-64 | the reported class is the outer class when there is one; the method is looked up on the outer class only when missing on the inner one |
| LogHandler.ControlLineRoundTrip | DroidCoverage/src/main/java/phd/research/utilities/LogHandler.java:32-84 | a rendered `<CONTROL>` line for a known class and method parses back to its id, reported class and method |
| LogHandler.MethodLineRoundTrip | DroidCoverage/src/main/java/phd/research/utilities/LogHandler.java:32-84 | a rendered `<METHOD>` line parses back to id -1, its reported class and method |
| LogHandler.ControlLineNeverMissesGroup | DroidCoverage/src/main/java/phd/research/utilities/LogHandler.java:36-43 | a `<CONTROL>` line is matched with the View-id pattern, so a missing group never arises for it |
| LogHandler.RemoveCharKeepsTag | DroidCoverage/src/main/java/phd/research/utilities/LogHandler.java:36-48 | quote stripping keeps a tag found on the original line |
| LogHandler.ParseInt | DroidCoverage/src/main/java/phd/research/utilities/LogHandler.java:66-72 | `Integer.parseInt`: decimal digits, optionally after '+' or '-', give their decimal value (`DigitsValue`, negated after '-') when it lies in the `int` range, and NumberFormat otherwise; every other text gives NumberFormat |
| LogHandler.ParseIntLeadingZero | DroidCoverage/src/main/java/phd/research/utilities/LogHandler.java:66-72 | a leading zero changes neither the value nor the error |
| LogHandler.ParseIntRoundTrip | DroidCoverage/src/main/java/phd/research/utilities/LogHandler.java:66-72 | every `int`, negative ones included, parses back from its decimal text |
| LogHandler.FindLeftmost | DroidCoverage/src/main/java/phd/research/utilities/LogHandler.java:48-54 | `find()` reports the leftmost position where the pattern matches |
| LogHandler.FindNoneIffNoMatch | DroidCoverage/src/main/java/phd/research/utilities/LogHandler.java:48-54 | `find()` fails iff the pattern matches nowhere |
| LogHandler.VisitData | DroidCoverage/src/main/java/phd/research/utilities/LogHandler.java:86-113 | only visits: the method vertex when present, the (class, id) control vertex only when id ≠ -1 and present; no vertex or edge added |
| LogHandler.AddDataVertices | DroidCoverage/src/main/java/phd/research/utilities/LogHandler.java:115-147 | afterwards a method vertex for the signature exists and, when id ≠ -1, a control vertex (id, "Unknown", -1, class); existing vertices untouched |
| LogHandler.EdgeFor | DroidCoverage/src/main/java/phd/research/utilities/LogHandler.java:149-182 | no edge when the method vertex is missing or id == -1; otherwise an edge to the method whose source is null exactly when the control vertex is missing |
| LogHandler.ApplyLine | DroidCoverage/src/main/java/phd/research/utilities/LogHandler.java:86-182 | a line fails iff parsing it fails; an untagged line changes nothing |
| LogHandler.VisitIdempotent | DroidCoverage/src/main/java/phd/research/utilities/LogHandler.java:86-113 | handling the same line twice equals handling it once |
| LogHandler.VisitCoverageMonotone | DroidCoverage/src/main/java/phd/research/utilities/LogHandler.java:86-113 | handling a line never lowers coverage |
| LogHandler.EdgeAfterVertices | DroidCoverage/src/main/java/phd/research/utilities/LogHandler.java:115-182 | after `updateGraph` on a control line, `updateGraphEdges` on it adds an edge with a non-null source |
| LogHandler.HandleInstrumentLog | DroidCoverage/src/main/java/phd/research/utilities/LogHandler.java:86-113 | the graph becomes `ApplyLine(Visit, …)`; on exception it is unchanged |
| LogHandler.UpdateGraph | DroidCoverage/src/main/java/phd/research/utilities/LogHandler.java:115-147 | the graph becomes `ApplyLine(AddVertices, …)`; on exception it is unchanged |
| LogHandler.UpdateGraphEdges | DroidCoverage/src/main/java/phd/research/utilities/LogHandler.java:149-182 | the graph becomes `ApplyLine(AddEdge, …)`; on exception it is unchanged |
| CoverageMain.Rewrite | DroidCoverage/src/main/java/phd/research/main/Main.java:320-330 | a Switch or Touch line becomes a marker with that info (Switch tested first) even when it carries a tag; another tagged line is copied verbatim; the rest is dropped |
| CoverageMain.CreateMonkeyLog | DroidCoverage/src/main/java/phd/research/main/Main.java:316-332 | the output is the rendered rewritten lines, each followed by "\n"; an empty log gives empty output |
| CoverageMain.MarkerCounts | DroidCoverage/src/main/java/phd/research/main/Main.java:316-327 | marker counts are 0, 1, 2, … in output order, as many as there are Switch/Touch lines |
| CoverageMain.MarkerLineShape | DroidCoverage/src/main/java/phd/research/main/Main.java:321-326 | a rendered marker carries `<INTERACTION>` and neither `<METHOD>` nor `<CONTROL>` |
| CoverageMain.RewrittenMarkers | DroidCoverage/src/main/java/phd/research/main/Main.java:316-332 | reading the rewritten log finds exactly one marker per Monkey event |
| CoverageMain.RewrittenSeriesSize | DroidCoverage/src/main/java/phd/research/main/Main.java:316-332 | the coverage series of a rewritten log has one entry per Monkey event plus one |
| CoverageMain.UpdateGraphWithLog | DroidCoverage/src/main/java/phd/research/main/Main.java:346-360 | the graph becomes `Augment` of the log: `updateGraph` on every tagged line, then `updateGraphEdges` on `<CONTROL>` lines |
| CoverageMain.AugmentEdges | DroidCoverage/src/main/java/phd/research/main/Main.java:349-355 | the graph only grows, and every edge it gains has a non-null source, since edges follow the vertices |
| CoverageMain.AugmentAddsVertices | DroidCoverage/src/main/java/phd/research/main/Main.java:349-355 | every parsed tagged line leaves its method vertex, and for an id its control vertex, in the graph |
| CoverageMain.AugmentFailureSticks | DroidCoverage/src/main/java/phd/research/main/Main.java:349-355 | after an exception no later line changes the graph |
| Traversal.Checked | DroidDynaSearch/src/main/java/phd/research/appium/Traversal.java:227-232 | an unchanged interaction count increments the stall counter; a changed one resets it and records the count |
| Traversal.StallStops | DroidDynaSearch/src/main/java/phd/research/appium/Traversal.java:224-247 | without interactions the run stops within maxNoInteractionCount + 1 checks, when the stall counter starts below its limit |
| Traversal.OvershootNeverStalls | DroidDynaSearch/src/main/java/phd/research/appium/Traversal.java:234-237 | the equality test never fires again once the stall counter has passed its limit |
| Traversal.Tracker.ContinueTraversal | DroidDynaSearch/src/main/java/phd/research/appium/Traversal.java:224-247 | the counters become `Checked`; the run continues iff the stall counter differs from its limit and the budget is not spent |
| Traversal.Tracker.Interact | DroidDynaSearch/src/main/java/phd/research/appium/Traversal.java:120-124 | one more interaction, whose marker carries the new count |
| Traversal.Tracker.Reset | DroidDynaSearch/src/main/java/phd/research/appium/Traversal.java:258-262 | all three counters are zero |
| Traversal.FirstUnseen | DroidDynaSearch/src/main/java/phd/research/appium/Traversal.java:134-157 | the leftmost element whose centre is not in the table, or none when all are |
| Traversal.Best | DroidDynaSearch/src/main/java/phd/research/appium/Traversal.java:134-162 | the fold from element 0 stays in range |
| Traversal.BestIsLeftmostMinimum | DroidDynaSearch/src/main/java/phd/research/appium/Traversal.java:143-162 | the choice has no more clicks than element 0 or any live element; it is element 0 (which wins ties even as a dead end) or the leftmost live element with strictly fewer clicks than all before it |
| Traversal.Recorded | DroidDynaSearch/src/main/java/phd/research/appium/Traversal.java:134-157 | a first-unseen element is recorded as (0, false); otherwise the table is unchanged |
| Traversal.ChoiceRecorded | DroidDynaSearch/src/main/java/phd/research/appium/Traversal.java:126-163 | the chosen control is in the table afterwards; a newly seen one has (0, false) and every element before it was seen |
| Traversal.ChosenThenClicked | DroidDynaSearch/src/main/java/phd/research/appium/Traversal.java:126-221 | a new control chosen and clicked has exactly one click and that click's leaf flag; a known one gains one click |
| Traversal.ControlId | DroidDynaSearch/src/main/java/phd/research/appium/Traversal.java:179-185 | the id is the second '/'-part of the resource id, or the centre's digits when there is none; IndexOutOfBounds only when the resource id has no second part |
| Traversal.ControlIdRoundTrip | DroidDynaSearch/src/main/java/phd/research/appium/Traversal.java:179-185 | a resource id "package:id/name" gives back the name |
| Traversal.ClickCost | DroidDynaSearch/src/main/java/phd/research/appium/Traversal.java:190-215 | a click counts 1 to 3 interactions: exactly 1 iff no EditText and still in the launch package |
| Traversal.Clicked | DroidDynaSearch/src/main/java/phd/research/appium/Traversal.java:206-221 | the (activity, centre) entry becomes (clicks+1, oldLeaf ∨ leaf), starting from (0, false); every other entry is unchanged |
| Traversal.DeadEndStays | DroidDynaSearch/src/main/java/phd/research/appium/Traversal.java:206-221 | booking a click never revives a dead end |
| Traversal.Traversal.ChooseNextControl | DroidDynaSearch/src/main/java/phd/research/appium/Traversal.java:126-163 | null for no controls; otherwise the element `ChoiceIndex` names, with the activity's table replaced by `Recorded` |
| Traversal.Traversal.ClickControl | DroidDynaSearch/src/main/java/phd/research/appium/Traversal.java:165-222 | a null control counts nothing on the launch activity and one back press elsewhere; a real click counts `ClickCost` interactions, sends the click marker with the id, and books `Clicked`; the exceptions of `split`, of a null class and of a null launch package |
| Traversal.Traversal.LaunchApp | DroidDynaSearch/src/main/java/phd/research/appium/Traversal.java:50-66 | one interaction; the first launch records the launch activity and package |
| AppiumManager.AppendDescription | DroidDynaSearch/src/main/java/phd/research/appium/AppiumManager.java:60-67 | the builder gains `Appended`: nothing for a null or empty value, otherwise "id: value" preceded by ", " unless the text ends in '[' |
| AppiumManager.GetElementDescription | DroidDynaSearch/src/main/java/phd/research/appium/AppiumManager.java:44-58 | the description built from "[" over the eight fields in their fixed order, then "]" |
| AppiumManager.Fields | DroidDynaSearch/src/main/java/phd/research/appium/AppiumManager.java:47-54 | eight fields; location and centre are always present |
| AppiumManager.DescriptionJoins | DroidDynaSearch/src/main/java/phd/research/appium/AppiumManager.java:44-67 | when no value ends in '[', the description is "[" + the present entries joined by ", " + "]" |
| AppiumManager.BuiltJoins | DroidDynaSearch/src/main/java/phd/research/appium/AppiumManager.java:44-67 | under the same condition the builder holds "[" + the entries joined by ", " |
| AppiumManager.ExpandActivity | DroidDynaSearch/src/main/java/phd/research/appium/AppiumManager.java:164-168 | a name starting with "." becomes exactly package + name; any other name is returned unchanged; an expanded name never starts with "." when the package does not |
| AppiumManager.ExpandIdempotent | DroidDynaSearch/src/main/java/phd/research/appium/AppiumManager.java:164-168 | expanding twice is expanding once |
| AppiumManager.Scan | DroidDynaSearch/src/main/java/phd/research/appium/AppiumManager.java:220-228 | fails with IndexOutOfBounds only when the last line holds "Added Fragments:" |
| AppiumManager.ScanCounts | DroidDynaSearch/src/main/java/phd/research/appium/AppiumManager.java:220-228 | fails iff the last line holds the header; otherwise one fragment per header whose next line starts with "#" |
| AppiumManager.FragmentNameRoundTrip | DroidDynaSearch/src/main/java/phd/research/appium/AppiumManager.java:224 | "#k: name{tail" gives back the name |
| AppiumManager.OutputLines | DroidDynaSearch/src/main/java/phd/research/appium/AppiumManager.java:220 | one trimmed line per piece of `split("\n")` |
| AppiumManager.Manager.FindFragmentsOnScreen | DroidDynaSearch/src/main/java/phd/research/appium/AppiumManager.java:209-232 | creates the driver if needed and returns the scan of the trimmed shell output |
| AppiumManager.Manager.GetDriver | DroidDynaSearch/src/main/java/phd/research/appium/AppiumManager.java:152-157 | the driver exists afterwards and is created only when it did not |
| AppiumManager.Manager.GetCurrentActivity | DroidDynaSearch/src/main/java/phd/research/appium/AppiumManager.java:159-169 | lazy creation, then the expanded activity name |
| AppiumManager.Manager.GetCurrentPackage | DroidDynaSearch/src/main/java/phd/research/appium/AppiumManager.java:171-177 | lazy creation, then the device's package |
| AppiumManager.Manager.EnsureDriver | DroidDynaSearch/src/main/java/phd/research/appium/AppiumManager.java:179-206 | the null check of `navigateBack`, `launchApp` and `hideKeyboard`: one creation at most |
| AppiumManager.Manager.GetClickElementsOnScreen | DroidDynaSearch/src/main/java/phd/research/appium/AppiumManager.java:240-244 | no null check: a null pointer iff no driver was created; otherwise the clickable elements |
| AppiumManager.Manager.GetElementsOnScreen | DroidDynaSearch/src/main/java/phd/research/appium/AppiumManager.java:235-238 | no null check: a null pointer iff no driver was created; otherwise all elements |
| AppiumManager.SeparatorSkipped | DroidDynaSearch/src/main/java/phd/research/appium/AppiumManager.java:60-67 | an element named "a[" gets a description that is not the ", "-joined entries |
| AppiumManager.BuiltFixedJoins | DroidDynaSearch/src/main/java/phd/research/appium/AppiumManager.java:60-67 | with the separator decided by position, the builder is "[" + the entries joined by ", " for every element |
| AppiumManager.FixedDescription | DroidDynaSearch/src/main/java/phd/research/appium/AppiumManager.java:44-58 | the corrected description is "[" + the ", "-joined entries + "]" |
| Pairs.NewPair | Utilities/src/main/java/phd/research/Pair.java:18-31 | NullPointer iff a component is null; the getters return the constructor arguments |
| Pairs.Pair.HashCode | Utilities/src/main/java/phd/research/Pair.java:53-55 | the sum of the component hashes, wrapped to 32 bits |
| Pairs.EqualsIsEquivalence | Utilities/src/main/java/phd/research/Pair.java:38-51 | `equals` is reflexive, symmetric and transitive, and false for null |
| Pairs.EqualPairsEqualHash | Utilities/src/main/java/phd/research/Pair.java:38-55 | equal pairs have equal hash codes |
| Pairs.SwappedPair | Utilities/src/main/java/phd/research/Pair.java:44-55 | (a, b) and (b, a) hash alike and are equal iff a equals b |
| Tuples.NewTuple | Utilities/src/main/java/phd/research/Tuple.java:20-39 | NullPointer iff a component is null; the getters return the constructor arguments |
| Tuples.Tuple.HashCode | Utilities/src/main/java/phd/research/Tuple.java:61-64 | the sum of the three component hashes, wrapped to 32 bits |
| Tuples.EqualsIsEquivalence | Utilities/src/main/java/phd/research/Tuple.java:46-59 | `equals` is reflexive, symmetric and transitive, and false for null |
| Tuples.EqualTuplesEqualHash | Utilities/src/main/java/phd/research/Tuple.java:46-64 | equal tuples have equal hash codes |
| Tuples.PermutedTuple | Utilities/src/main/java/phd/research/Tuple.java:52-64 | permuting the components keeps the hash; a rotation is equal iff all three components are equal |
| ProgressBars.PrintProgress | Utilities/src/main/java/phd/research/ProgressBar.java:15-33 | the printed text is `ProgressLine(current, total)`, or the exception of a negative `limit` |
| ProgressBars.AppendRepeated | Utilities/src/main/java/phd/research/ProgressBar.java:21-28 | `Stream.limit` with a negative size throws; otherwise n copies are appended |
| ProgressBars.CompletedBar | Utilities/src/main/java/phd/research/ProgressBar.java:18-23 | current == total (0/0 included) gives 22 '#', " DONE ", 22 '#' |
| ProgressBars.BarShape | Utilities/src/main/java/phd/research/ProgressBar.java:18-29 | every bar is 50 characters of '#', '-' and the DONE text |
| ProgressBars.BarIsFiftyWide | Utilities/src/main/java/phd/research/ProgressBar.java:16-31 | exactly the 50 bar characters stand between "Progress : [" and "]" |
| ProgressBars.InRangeAlwaysPrints | Utilities/src/main/java/phd/research/ProgressBar.java:24-28 | 0 ≤ current ≤ total with total > 0 never throws |
| ProgressBars.ProgressIsOneLine | Utilities/src/main/java/phd/research/ProgressBar.java:31-32 | the text ends in its only carriage return and has no line feed |
| ProgressBars.FiftyFourOfSixtyNine | Utilities/src/main/java/phd/research/ProgressBar.java:24-28 | 54 of 69 gives 39 '#' and 11 '-' |
| DataPlot.GetTestType | data_plot.py:22-28 | "All" iff "All" occurs; "Click" iff "Click" occurs and "All" does not; "" otherwise |
| DataPlot.GetTestNumber | data_plot.py:36-41 | a result is the run of one or two Unicode decimal digits (`\d` of a str pattern: any character of category Nd) after "Test_", with at most a trailing newline after it |
| DataPlot.NumberIffTestDirectory | data_plot.py:31-41 | a number is returned exactly when the name is a test directory |
| DataPlot.TestNumberRoundTrip | data_plot.py:31-41 | "Test_" + d (with or without a final newline) gives back d for one or two digits |
| DataPlot.ThreeDigitsRejected | data_plot.py:31-33 | "Test_100" is not a test directory |
| DataPlot.ArabicIndicDigitAccepted | data_plot.py:31-41 | a non-ASCII decimal digit counts: "Test_" + U+0663 is a test directory numbered U+0663 |
| DataPlot.LetterRejected | data_plot.py:31-41 | "Test_a" is not a test directory and has no number |
| AppSelector.GetLatestVersion | app_selector.py:65-74 | the first version added at the last update, else the first with the greatest "added", None iff there are no versions |
| AppSelector.FilterReason | app_selector.py:87-113 | a package is accepted iff it passes the manual list, category, age and SDK checks; the manual list is tested first |
| AppSelector.Filter.Filtered | app_selector.py:87-113 | rejected iff some check fails; only the first failing check's counter goes up |
| AppSelector.TooOldIffOverTenYears | app_selector.py:98-102 | `days / 365 > 10` holds iff more than 3650 days passed |
| AppSelector.GetPackageDictionary | app_selector.py:77-84 | a dictionary exists iff the English name and `usesSdk` are present; it carries the package and categories unchanged |
| AppSelector.AcceptedHasSdk | app_selector.py:87-113 | an accepted package always has `usesSdk`, so its dictionary fails only without an English name |
| AppSelector.FilterCategories | app_selector.py:58-59 | exactly the categories not in the excluded set remain |
| AppSelector.ListCategoryPackages | app_selector.py:139-146 | exactly the filtered packages listing the category, with their details unchanged |

## Left out

- LogHandler.RegexLogMessage: the matched text is taken from the stretch after "Method:\s<" up to the first line terminator (`.` of java.util.regex matches none of CR, LF, U+0085, U+2028, U+2029, and the model agrees). A match whose `\s` between the groups is itself a CR or LF, which java.util.regex can cross, is not found. Line readers split lines at CR and LF, so only a line that still holds one of those two would be read differently. U+0085, U+2028 and U+2029 are not `\s`, so they stop a match in both.
- File and report I/O is not modelled: reading logs and writing reports, `DecimalFormat` and `StringTable` rendering, `Writer.writeString`, and the `model_enhancement.txt` append. Logs are sequences of lines, and the readable output is its table of rows.
- `DroidGraph`, its vertex classes and `calculateCoverage` are not part of this model. The graph is a class with vertex sets, and coverage is the visited share of vertices as a `real` (the source uses `float`).
- Soot's `Scene` and `initializeSoot` are a map from class name to outer class and method names.
- `java.util.regex` in general is not modelled. The fixed patterns of `regexLogMessage`, `findFragmentsOnScreen` and `data_plot.py` are written out as string predicates.
- DataPlot.IsDecimal: the decimal digits are those of Unicode 15.0, the database of Python 3.12; another Python version's Unicode database may add digit runs that this table lacks.
- The `main` methods, settings, exit codes and `verifyTestsExist`'s directory listing are option plumbing and filesystem access, so they are left out.
- The loop of `traverseUi` is left out: its course is set by the device's answers, `waitForUi` sleeps, and `cleanup` only stops services. Its steps (`LaunchApp`, `ChooseNextControl`, `ClickControl`, `ContinueTraversal`) are modelled one by one, with the device's answers as parameters.
- The Appium service, driver capabilities, per-package launch scripts and the device effects of `navigateBack`, `hideKeyboard` and `launchApp` are left out. Only the lazy creation of the driver is kept.
- `LogHandler.handleMessage` of DroidDynaSearch and its `I_TAG` are not part of this model. The tracker records each message as a value (count, id, info) instead of a rendered string.
- Traversal.Traversal.LaunchApp: does not model the `switch` on a null launch package, which throws when the device reports no package at first launch.
- Traversal.Tracker.Reset: it also clears the recorded messages, so that message numbering restarts with the counters. In the source the messages have already been sent to the log.
- Traversal.Tracker.Interact: the counters are unbounded integers. Java `int` overflow of the interaction counters would need more than 2^31 interactions, and it is not modelled.
- Traversal.Traversal.ClickControl: the click marker uses `FixedDescription` (see Findings) instead of the as-written description. The exceptions come after the first marker is sent, and the contract does not state the counts on those paths beyond the first marker.
- AppiumManager.AppendDescription: requires a non-empty builder. The only caller starts it with "[", and `charAt(length() - 1)` would throw on an empty one.
- ProgressBars.PrintProgress: `doneLength` is `current * 50 / total` in exact integer arithmetic (truncated toward zero). The source's `float` computation can differ by one at boundaries.
- `get_random_app_per_category` is left out: it depends on Python's seeded random generator and on downloads. Its redraw loop reseeds with the same seed each time, so a collision never resolves.
- app_selector.py's module-level JSON loading and writing, `wget`, and `datetime.now()` are left out. The package's age in days is a parameter of `filtered`.
- The plotting code of `data_plot.py` and `bar_plot.py` (matplotlib, tikzplotlib, pandas) is left out.
- The logcat broadcast listener runs on another thread, and concurrency is not modelled.

## Findings

| source | as written | input that shows it | evidently intended | confidence | as-written member | corrected member |
|---|---|---|---|---|---|---|
| DroidDynaSearch/src/main/java/phd/research/appium/AppiumManager.java:60-67 | the ", " separator is skipped whenever the text built so far ends in '[', which also happens when the previous value ends in '[' | an element whose name is "a[" gives "[name: a[location: (0, 0), centre: (0, 0)]" | skip the separator only before the first entry, so entries are always joined by ", " | not executed; follows from the code | AppiumManager.SeparatorSkipped | AppiumManager.BuiltFixedJoins |
