/** The recorder of DroidCoverage/src/main/java/phd/research/coverage/MonkeyAllCoverage.java:
    every method or control line of the log is applied to the graph, interaction
    markers are ignored, and one snapshot, under key 0, is stored after the last line. */
module MonkeyAllCoverage {
  import opened Wrappers
  import opened JStrings
  import opened Graph
  import opened LogHandler
  import opened CoverageStatistics

  /** The state of the read loop: the graph so far and the exception that ended the loop, if any. */
  datatype Pass = Pass(graph: GraphState, failure: Option<Exception>)

  /** The read loop over `lines`: every tagged line is handed to `handleInstrumentLog`;
      after an exception nothing more happens. */
  function ApplyAll(start: GraphState, scene: Scene, lines: seq<string>): (p: Pass)
    decreases |lines|
  {
    if lines == [] then Pass(start, None)
    else
      var p := ApplyAll(start, scene, lines[..|lines| - 1]);
      var line := lines[|lines| - 1];
      if p.failure.Some? || !IsTagged(line) then p
      else
        match ApplyLine(Visit, p.graph, scene, line)
        case Err(e) => p.(failure := Some(e))
        case Ok(g) => p.(graph := g)
  }

  /** The series `addTestCoverage` stores, or the exception it throws. */
  function TerminalSeries(start: GraphState, scene: Scene, lines: seq<string>): (r: Result<Series>)
    ensures r.Ok? ==> r.value.Keys == {0}
    ensures r.Err? <==> ApplyAll(start, scene, lines).failure.Some?
  {
    var p := ApplyAll(start, scene, lines);
    if p.failure.Some? then Err(p.failure.value) else Ok(map[0 := CoverageOf(p.graph)])
  }

  /** Reading a log only visits vertices: it adds none and removes no visit. */
  lemma {:induction false} ApplyAllVisitsOnly(start: GraphState, scene: Scene, lines: seq<string>)
    ensures VisitedMore(start, ApplyAll(start, scene, lines).graph)
    ensures WellFormed(start) ==> WellFormed(ApplyAll(start, scene, lines).graph)
    decreases |lines|
  {
    if lines != [] {
      ApplyAllVisitsOnly(start, scene, lines[..|lines| - 1]);
    }
  }

  /** The one stored snapshot is a percentage pair and is never below the coverage
      the graph had before the log was read. */
  lemma {:induction false} TerminalBounds(start: GraphState, scene: Scene, lines: seq<string>)
    requires WellFormed(start) && TerminalSeries(start, scene, lines).Ok?
    ensures var c := TerminalSeries(start, scene, lines).value[0];
      AtMost(CoverageOf(start), c)
      && 0.0 <= c.interfaceCoverage <= 100.0 && 0.0 <= c.methodCoverage <= 100.0
  {
    ApplyAllVisitsOnly(start, scene, lines);
    CoverageGrows(start, ApplyAll(start, scene, lines).graph);
  }

  /** Unlike the base recorder, a line holding a marker AND a method or control tag is applied. */
  lemma {:induction false} MarkedTaggedLineApplied(start: GraphState, scene: Scene, line: string)
    requires IsMarker(line) && IsTagged(line) && ApplyLine(Visit, start, scene, line).Ok?
    ensures ApplyAll(start, scene, [line]).graph == ApplyLine(Visit, start, scene, line).value
  {
    assert [line][..0] == [];
  }

  /** When every run was recorded this way, every index but 0 is absent and the average
      at 0 lies between the minimum and the maximum, as a mean over all runs does. */
  lemma {:induction false} TerminalAverageIsMean(results: Results)
    requires |results| != 0
    requires forall t | t in results :: results[t].Keys == {0}
    ensures AllKeys(results) == {0}
    ensures 0 in Averages(results) && 0 in Aggregate(Minimum, results) && 0 in Aggregate(Maximum, results)
    ensures var a, lo, hi := Averages(results)[0], Aggregate(Minimum, results)[0], Aggregate(Maximum, results)[0];
      AtMost(lo, a) && AtMost(a, hi)
  {
    AverageBetween(results, 0);
    assert AllKeys(results) <= {0};
  }

  /** The read loop of the overriding `addTestCoverage(testNumber, log, droidGraph)`. */
  method ReadTerminalCoverage(log: seq<string>, scene: Scene, droidGraph: DroidGraph) returns (r: Result<Series>)
    modifies droidGraph
    ensures r == TerminalSeries(old(droidGraph.State()), scene, log)
    ensures droidGraph.State() == ApplyAll(old(droidGraph.State()), scene, log).graph
  {
    ghost var start := droidGraph.State();
    var i := 0;
    while i < |log|
      invariant 0 <= i <= |log|
      invariant ApplyAll(start, scene, log[..i]) == Pass(droidGraph.State(), None)
    {
      var line := log[i];
      assert log[..i + 1][..i] == log[..i];
      if Contains(line, M_TAG) || Contains(line, C_TAG) {
        var res := HandleInstrumentLog(line, scene, droidGraph);
        if res.Err? {
          FailureSticks(start, scene, log, i + 1);
          return Err(res.error);
        }
      }
      i := i + 1;
    }
    assert log[..i] == log;
    var finalCoverage := droidGraph.CalculateCoverage();
    return Ok(map[0 := finalCoverage]);
  }

  /** Once the loop has failed, the remaining lines change nothing. */
  lemma {:induction false} FailureSticks(start: GraphState, scene: Scene, lines: seq<string>, q: nat)
    requires q <= |lines| && ApplyAll(start, scene, lines[..q]).failure.Some?
    ensures ApplyAll(start, scene, lines) == ApplyAll(start, scene, lines[..q])
    decreases |lines| - q
  {
    if q < |lines| {
      var longer := lines[..q + 1];
      assert longer[..q] == lines[..q];
      FailureSticks(start, scene, lines, q + 1);
    } else {
      assert lines[..q] == lines;
    }
  }
}
